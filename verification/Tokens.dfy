/** `strtok` of lib/string.c with "/" as its only delimiter, the way every caller in the driver uses it. */
module Tokens {
  import opened Bytes
  import opened Slots

  const SLASH: uint8 := 0x2F

  /** The length of the first component of `s`: everything before the first slash. */
  function ComponentLength(s: seq<uint8>): (n: nat)
    ensures n <= |s|
    ensures SLASH !in s[..n]
    ensures n < |s| ==> s[n] == SLASH
  {
    if s == [] || s[0] == SLASH then 0 else 1 + ComponentLength(s[1..])
  }

  /** The nonempty components of a path. */
  function Components(s: seq<uint8>): (cs: seq<seq<uint8>>)
    ensures forall i | 0 <= i < |cs| :: cs[i] != [] && SLASH !in cs[i]
    decreases |s|
  {
    if s == [] then []
    else if s[0] == SLASH then Components(s[1..])
    else [s[..ComponentLength(s)]] + Components(s[ComponentLength(s)..])
  }

  /** The string that starts at index `i` of a buffer. */
  ghost function StringAt(b: seq<uint8>, i: nat): seq<uint8> {
    if i <= |b| then CString(b[i..]) else []
  }

  lemma StringAtStep(b: seq<uint8>, i: nat)
    requires i < |b|
    ensures StringAt(b, i) == if b[i] == 0 then [] else [b[i]] + StringAt(b, i + 1)
  {
    assert b[i..][0] == b[i] && b[i..][1..] == b[i + 1..];
  }

  /** Bytes before `i` do not matter. */
  lemma StringAtFrame(b: seq<uint8>, b': seq<uint8>, i: nat)
    requires |b| == |b'| && i <= |b| && b[i..] == b'[i..]
    ensures StringAt(b', i) == StringAt(b, i)
  {}

  lemma {:induction false} CStringPrefix(s: seq<uint8>, n: nat)
    requires n < |s| && 0 !in s[..n] && s[n] == 0
    ensures CString(s) == s[..n]
    decreases n
  {
    if n > 0 {
      assert s[0] == s[..n][0] && s[1..][..n - 1] == s[..n][1..];
      CStringPrefix(s[1..], n - 1);
    }
  }

  lemma {:induction false} SplitHere(s: seq<uint8>, n: nat)
    requires n <= |s| && SLASH !in s[..n] && (n < |s| ==> s[n] == SLASH)
    ensures ComponentLength(s) == n
    decreases n
  {
    if n > 0 {
      assert s[0] == s[..n][0] && s[1..][..n - 1] == s[..n][1..];
      SplitHere(s[1..], n - 1);
    }
  }

  /** What is left to tokenize: the string at the saved position, or nothing. */
  ghost function Rest(b: seq<uint8>, save: int): seq<uint8> {
    if save < 0 then [] else StringAt(b, save)
  }

  /** The scanner state of `strtok`: the caller's buffer and the saved position, -1 for NULL. */
  class Tokenizer {
    const buf: array<uint8>
    var save: int

    constructor (buf: array<uint8>)
      ensures this.buf == buf && save == -1
    {
      this.buf := buf;
      save := -1;
    }

    ghost predicate Valid()
      reads this, buf
    {
      -1 <= save < buf.Length && buf.Length > 0 && buf[buf.Length - 1] == 0
    }

    /** Where the next token starts, or the end of the string. */
    method SkipSlashes(from: nat) returns (p: nat)
      requires Valid() && from < buf.Length
      ensures from <= p < buf.Length && buf[p] != SLASH
      ensures Components(StringAt(buf[..], p)) == Components(StringAt(buf[..], from))
    {
      hide Components, CString, StringAt;
      ghost var b := buf[..];
      p := from;
      while buf[p] != 0 && buf[p] == SLASH
        invariant from <= p < buf.Length
        invariant Components(StringAt(b, p)) == Components(StringAt(b, from))
        decreases buf.Length - p
      {
        StringAtStep(b, p);
        SkipSlash(StringAt(b, p));
        p := p + 1;
      }
    }

    /** Where the token at `start` ends. */
    method TokenEnd(start: nat) returns (p: nat)
      requires Valid() && start < buf.Length && buf[start] != 0 && buf[start] != SLASH
      ensures start < p < buf.Length && (buf[p] == 0 || buf[p] == SLASH)
      ensures 0 !in buf[start..p]
      ensures Components(StringAt(buf[..], start)) == [buf[start..p]] + Components(StringAt(buf[..], p))
    {
      hide Components, CString, StringAt, Scanned;
      ghost var b := buf[..];
      p := start;
      ScanStart(b, start);
      while buf[p] != 0 && buf[p] != SLASH
        invariant start <= p < buf.Length && (p == start ==> buf[p] != 0 && buf[p] != SLASH)
        invariant Scanned(b, start, p)
        decreases buf.Length - p
      {
        ScanStep(b, start, p);
        p := p + 1;
      }
      assert b[start..p] == buf[start..p];
      ScanEnd(b, start, p);
    }

    /** The bytes from `start` up to `p` begin a token. */
    ghost predicate Scanned(b: seq<uint8>, start: nat, p: nat) {
      && start <= p <= |b|
      && StringAt(b, start) == b[start..p] + StringAt(b, p)
      && SLASH !in b[start..p] && 0 !in b[start..p]
    }

    lemma ScanStart(b: seq<uint8>, start: nat)
      requires start <= |b|
      ensures Scanned(b, start, start)
    {
      hide StringAt;
      assert [] + StringAt(b, start) == StringAt(b, start);
    }

    lemma ScanStep(b: seq<uint8>, start: nat, p: nat)
      requires Scanned(b, start, p) && p < |b| && b[p] != 0 && b[p] != SLASH
      ensures Scanned(b, start, p + 1)
    {
      hide StringAt;
      StringAtStep(b, p);
      assert b[start..p + 1] == b[start..p] + [b[p]];
      Associative(b[start..p], [b[p]], StringAt(b, p + 1));
    }

    lemma ScanEnd(b: seq<uint8>, start: nat, p: nat)
      requires Scanned(b, start, p) && start < p < |b| && (b[p] == 0 || b[p] == SLASH)
      ensures 0 !in b[start..p]
      ensures Components(StringAt(b, start)) == [b[start..p]] + Components(StringAt(b, p))
    {
      hide Components, StringAt;
      StringAtStep(b, p);
      TokenHead(b[start..p], StringAt(b, p));
    }

    /** `strtok(NULL, "/")`: the next component, ended in place, or -1. */
    method Next() returns (start: int)
      requires Valid()
      modifies this, buf
      ensures Valid()
      ensures start < 0 ==> Components(old(Rest(buf[..], save))) == [] && save < 0
      ensures start >= 0 ==>
                && start < buf.Length
                && Components(old(Rest(buf[..], save))) == [StringAt(buf[..], start)] + Components(Rest(buf[..], save))
    {
      hide Components, CString, StringAt;
      EmptyComponents();
      if save < 0 {
        return -1;
      }
      ghost var b := buf[..];
      start := SkipSlashes(save);
      StringAtStep(b, start);
      if buf[start] == 0 {
        save := -1;
        return -1;
      }
      var p := TokenEnd(start);
      StringAtStep(b, p);
      EndToken(b, start, p);
      assert b[start..p] == buf[start..p];
      if buf[p] != 0 {
        SkipSlash(StringAt(b, p));
        buf[p] := 0;
        assert buf[..] == b[p := 0];
        save := p + 1;
      } else {
        assert b == b[p := 0];
        save := -1;
      }
    }

    /** Ending a token in place makes it a string of its own and keeps what follows. */
    lemma EndToken(b: seq<uint8>, start: nat, p: nat)
      requires start <= p < |b| && 0 !in b[start..p]
      ensures StringAt(b[p := 0], start) == b[start..p]
      ensures StringAt(b[p := 0], p + 1) == StringAt(b, p + 1)
    {
      var b' := b[p := 0];
      assert b'[start..][..p - start] == b[start..p];
      CStringPrefix(b'[start..], p - start);
      StringAtFrame(b, b', p + 1);
    }

    lemma EmptyComponents()
      ensures Components([]) == []
    {}

    lemma SkipSlash(s: seq<uint8>)
      requires s != [] && s[0] == SLASH
      ensures Components(s) == Components(s[1..])
    {}

    lemma TokenHead(token: seq<uint8>, rest: seq<uint8>)
      requires token != [] && SLASH !in token && (rest != [] ==> rest[0] == SLASH)
      ensures Components(token + rest) == [token] + Components(rest)
    {
      assert (token + rest)[..|token|] == token && (token + rest)[|token|..] == rest;
      FirstComponent(token + rest, |token|);
    }

    lemma FirstComponent(s: seq<uint8>, n: nat)
      requires 0 < n <= |s| && SLASH !in s[..n] && (n < |s| ==> s[n] == SLASH)
      ensures Components(s) == [s[..n]] + Components(s[n..])
    {
      SplitHere(s, n);
      assert s[0] == s[..n][0];
    }
  }
}
