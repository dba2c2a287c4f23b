/** The 8.3 name codec of drivers/fat32/directory.c, on strings given without their terminating NUL. */
module ShortNames {
  import opened Bytes
  import opened Memory

  const SPACE: uint8 := 0x20
  const DOT: uint8 := 0x2E
  const NAME_LENGTH := 8
  const EXT_LENGTH := 3
  const SHORT_LENGTH := 11

  type ShortName = s: seq<uint8> | |s| == SHORT_LENGTH witness seq(SHORT_LENGTH, _ => 0)

  function Upper(c: uint8): uint8 {
    if 0x61 <= c <= 0x7A then c - 32 else c
  }

  function UpperAll(s: seq<uint8>): (r: seq<uint8>)
    ensures |r| == |s| && forall i | 0 <= i < |s| :: r[i] == Upper(s[i])
  {
    seq(|s|, i requires 0 <= i < |s| => Upper(s[i]))
  }

  /** The same character up to ASCII case: equal, or a letter and the capital 32 before it. */
  predicate SameLetter(a: uint8, b: uint8) {
    || a == b
    || ('A' as int <= a <= 'Z' as int && b == a + 32)
    || ('A' as int <= b <= 'Z' as int && a == b + 32)
  }

  predicate SameName(a: seq<uint8>, b: seq<uint8>) {
    |a| == |b| && forall i | 0 <= i < |a| :: SameLetter(a[i], b[i])
  }

  predicate IsSmall(c: uint8) { 'a' as int <= c <= 'z' as int }

  /** Upper-casing identifies exactly the names that agree up to case, and picks the one without small letters. */
  lemma UpperExact(a: seq<uint8>, b: seq<uint8>)
    ensures UpperAll(a) == UpperAll(b) <==> SameName(a, b)
    ensures b == UpperAll(a) <==> SameName(a, b) && forall i | 0 <= i < |b| :: !IsSmall(b[i])
  {
    if SameName(a, b) {
      forall i | 0 <= i < |a| ensures Upper(a[i]) == Upper(b[i]) {
        assert SameLetter(a[i], b[i]);
      }
    } else if |a| == |b| {
      var i :| 0 <= i < |a| && !SameLetter(a[i], b[i]);
      assert UpperAll(a)[i] == Upper(a[i]) && UpperAll(b)[i] == Upper(b[i]);
    }
  }

  function Take(s: seq<uint8>, n: nat): seq<uint8> {
    if |s| <= n then s else s[..n]
  }

  function Spaces(n: nat): seq<uint8> {
    Repeat(SPACE, n)
  }

  /** Upper-cased, cut to `n` bytes and filled up with spaces. */
  function Field(s: seq<uint8>, n: nat): (r: seq<uint8>)
    ensures |r| == n
    ensures forall i | 0 <= i < n :: r[i] == if i < |s| then Upper(s[i]) else SPACE
  {
    UpperAll(Take(s, n)) + Spaces(n - |Take(s, n)|)
  }

  function LastDot(s: seq<uint8>): (d: int)
    ensures -1 <= d < |s|
  {
    LastIndex(s, DOT)
  }

  /** What `string_to_short_name` stores. */
  function Encode(s: seq<uint8>): ShortName {
    var d := LastDot(s);
    if d >= 0 then Field(s[..d], NAME_LENGTH) + Field(s[d + 1..], EXT_LENGTH)
    else Field(s, NAME_LENGTH) + Spaces(EXT_LENGTH)
  }

  /** The bytes before the first space. */
  function Trim(s: seq<uint8>): (r: seq<uint8>)
    ensures r <= s && SPACE !in r
    ensures |r| < |s| ==> s[|r|] == SPACE
  {
    if s == [] || s[0] == SPACE then [] else [s[0]] + Trim(s[1..])
  }

  /** What `short_name_to_string` prints. */
  function Decode(n: ShortName): (s: seq<uint8>)
    ensures |s| <= 12
  {
    Trim(n[..NAME_LENGTH]) + if n[NAME_LENGTH] == SPACE then [] else [DOT] + Trim(n[NAME_LENGTH..])
  }

  /** `n` bytes that hold a part of a name, cut or filled up with blanks, in capitals. */
  ghost predicate Holds(field: seq<uint8>, n: nat, part: seq<uint8>) {
    && |field| == n
    && forall i | 0 <= i < n :: if i < |part| then SameLetter(field[i], part[i]) && !IsSmall(field[i])
                                else field[i] == ' ' as int
  }

  /** The eleven bytes stored for a name: what is before its last dot, then what is after it. */
  lemma EncodeBytes(base: seq<uint8>, ext: seq<uint8>)
    requires '.' as int !in ext
    ensures var e := Encode(base + ['.' as int] + ext); Holds(e[..8], 8, base) && Holds(e[8..], 3, ext)
    ensures '.' as int !in base ==> Holds(Encode(base)[..8], 8, base) && Holds(Encode(base)[8..], 3, [])
  {
    hide Encode, Field;
    var s := base + [DOT] + ext;
    LastDotIs(base, ext);
    EncodeParts(s);
    assert s[..|base|] == base && s[|base| + 1..] == ext;
    FieldHolds(base, NAME_LENGTH);
    FieldHolds(ext, EXT_LENGTH);
    if DOT !in base {
      assert LastDot(base) == -1;
      EncodeParts(base);
      FieldHolds([], EXT_LENGTH);
    }
  }

  lemma LastDotIs(base: seq<uint8>, ext: seq<uint8>)
    requires DOT !in ext
    ensures LastDot(base + [DOT] + ext) == |base|
  {
    var s := base + [DOT] + ext;
    forall i | |base| < i < |s| ensures s[i] != DOT {
      assert s[i] == ext[i - |base| - 1];
    }
    assert s[|base|] == DOT;
  }

  lemma FieldHolds(s: seq<uint8>, n: nat)
    ensures Holds(Field(s, n), n, s)
  {}

  /** Two parts filled up with blanks print as the name that joins them with a dot. */
  lemma DecodeBytes(n: ShortName, base: seq<uint8>, ext: seq<uint8>)
    requires |base| <= 8 && |ext| <= 3 && ' ' as int !in base && ' ' as int !in ext
    requires n[..|base|] == base && n[8..8 + |ext|] == ext
    requires forall i | |base| <= i < 8 :: n[i] == ' ' as int
    requires forall i | 8 + |ext| <= i < 11 :: n[i] == ' ' as int
    ensures Decode(n) == if ext == [] then base else base + ['.' as int] + ext
  {
    hide Trim;
    forall i | 0 <= i < |base| ensures n[i] != SPACE {
      assert n[i] == base[i] && base[i] in base;
    }
    forall i | 0 <= i < |ext| ensures n[NAME_LENGTH..][i] != SPACE {
      assert n[NAME_LENGTH..][i] == n[8..8 + |ext|][i] == ext[i] && ext[i] in ext;
    }
    TrimIs(n[..NAME_LENGTH], |base|);
    TrimIs(n[NAME_LENGTH..], |ext|);
    assert n[NAME_LENGTH..][..|ext|] == ext && n[..NAME_LENGTH][..|base|] == base;
  }

  /** A name that survives the trip through a directory slot. */
  ghost predicate Fits(s: seq<uint8>) {
    var d := LastDot(s);
    && SPACE !in s
    && if d < 0 then |s| <= NAME_LENGTH else d <= NAME_LENGTH && 1 <= |s| - d - 1 <= EXT_LENGTH
  }

  lemma {:induction false} TrimIs(s: seq<uint8>, k: nat)
    requires k <= |s| && (forall i | 0 <= i < k :: s[i] != SPACE) && (k < |s| ==> s[k] == SPACE)
    ensures Trim(s) == s[..k]
    decreases k
  {
    if k > 0 {
      TrimIs(s[1..], k - 1);
      assert s[..k] == [s[0]] + s[1..][..k - 1];
    }
  }

  lemma {:induction false} TrimStops(s: seq<uint8>, k: nat)
    requires k < |s| && s[k] == SPACE
    ensures |Trim(s)| <= k
    decreases k
  {
    if k > 0 {
      TrimStops(s[1..], k - 1);
    }
  }

  lemma TrimField(s: seq<uint8>, n: nat)
    requires SPACE !in s && |s| <= n
    ensures Trim(Field(s, n)) == UpperAll(s)
  {
    assert Field(s, n)[..|s|] == UpperAll(s);
    assert forall i | 0 <= i < |s| :: s[i] in s && UpperAll(s)[i] != SPACE;
    TrimIs(Field(s, n), |s|);
  }

  lemma TrimFieldLength(s: seq<uint8>, n: nat)
    ensures |Trim(Field(s, n))| <= |s|
  {
    if |s| < n {
      TrimStops(Field(s, n), |s|);
    }
  }

  lemma EncodeParts(s: seq<uint8>)
    ensures var d := LastDot(s);
      && Encode(s)[..NAME_LENGTH] == Field(if d >= 0 then s[..d] else s, NAME_LENGTH)
      && Encode(s)[NAME_LENGTH..] == Field(if d >= 0 then s[d + 1..] else [], EXT_LENGTH)
  {
    assert Field([], EXT_LENGTH) == Spaces(EXT_LENGTH);
  }

  lemma FitsDecodes(s: seq<uint8>)
    requires Fits(s)
    ensures Decode(Encode(s)) == UpperAll(s)
  {
    hide Trim, Encode, Field, UpperAll;
    var d := LastDot(s);
    EncodeParts(s);
    if d < 0 {
      TrimField(s, NAME_LENGTH);
      FirstOfFields(s);
    } else {
      var name, ext := s[..d], s[d + 1..];
      TrimField(name, NAME_LENGTH);
      TrimField(ext, EXT_LENGTH);
      UpperAround(s, d);
      FirstOfFields(s);
      assert ext[0] in s;
    }
  }

  /** The byte that tells whether there is an extension. */
  lemma FirstOfFields(s: seq<uint8>)
    ensures var d := LastDot(s);
      Encode(s)[NAME_LENGTH] == if 0 <= d < |s| - 1 then Upper(s[d + 1]) else SPACE
  {
    EncodeParts(s);
    assert Encode(s)[NAME_LENGTH] == Encode(s)[NAME_LENGTH..][0];
  }

  lemma UpperAround(s: seq<uint8>, d: nat)
    requires d < |s| && s[d] == DOT
    ensures UpperAll(s) == UpperAll(s[..d]) + ([DOT] + UpperAll(s[d + 1..]))
  {}

  /** A name too long for its fields, or ending in its dot, comes back shorter. */
  lemma LongDecodesShorter(s: seq<uint8>)
    requires var d := LastDot(s);
      if d < 0 then |s| > NAME_LENGTH else d > NAME_LENGTH || !(1 <= |s| - d - 1 <= EXT_LENGTH)
    ensures |Decode(Encode(s))| < |s|
  {
    hide Encode, Field;
    var d := LastDot(s);
    EncodeParts(s);
    TrimFieldLength(if d >= 0 then s[..d] else s, NAME_LENGTH);
    TrimFieldLength(if d >= 0 then s[d + 1..] else [], EXT_LENGTH);
    assert d < 0 || d == |s| - 1 ==> Encode(s)[NAME_LENGTH] == SPACE;
  }

  /** Decoding an encoded name gives it back in upper case exactly when it fits the 8.3 shape. */
  lemma CodecExact(s: seq<uint8>)
    ensures Decode(Encode(s)) == UpperAll(s) <==> Fits(s)
  {
    hide Encode, LastDot;
    if Fits(s) {
      FitsDecodes(s);
    } else if i :| 0 <= i < |s| && s[i] == SPACE {
      assert UpperAll(s)[i] == SPACE && SPACE !in Decode(Encode(s));
    } else {
      LongDecodesShorter(s);
    }
  }

  /** Fitting names with the same encoding differ at most in case. */
  lemma EncodeInjective(a: seq<uint8>, b: seq<uint8>)
    requires Fits(a) && Fits(b) && Encode(a) == Encode(b)
    ensures UpperAll(a) == UpperAll(b)
  {
    CodecExact(a);
    CodecExact(b);
  }

  // ----- The loops of the driver

  /** Copies a name field up to its first space. */
  method CopyField(field: seq<uint8>, output: array<uint8>, at: nat) returns (pos: nat)
    requires at + |field| <= output.Length
    modifies output
    ensures at <= pos <= at + |field|
    ensures output[..pos] == old(output[..at]) + Trim(field)
  {
    hide Trim;
    pos := at;
    var i := 0;
    while i < |field| && field[i] != SPACE
      invariant 0 <= i <= |field| && pos == at + i
      invariant output[..at] == old(output[..at]) && output[at..pos] == field[..i]
      invariant forall k | 0 <= k < i :: field[k] != SPACE
    {
      output[pos] := field[i];
      pos, i := pos + 1, i + 1;
    }
    TrimIs(field, i);
  }

  /** `short_name_to_string`: prints into `output`, which never needs more than 13 bytes. */
  method ShortNameToString(shortName: ShortName, output: array<uint8>) returns (pos: nat)
    requires output.Length >= 13
    modifies output
    ensures pos < 13 && output[..pos] == Decode(shortName) && output[pos] == 0
  {
    hide Trim;
    pos := CopyField(shortName[..NAME_LENGTH], output, 0);
    if shortName[NAME_LENGTH] != SPACE {
      ghost var name := output[..pos];
      output[pos] := DOT;
      assert output[..pos + 1] == name + [DOT];
      pos := CopyField(shortName[NAME_LENGTH..], output, pos + 1);
    }
    ghost var printed := output[..pos];
    output[pos] := 0;
    assert output[..pos] == printed;
  }

  /** Copies the first `n` bytes of `input` in upper case. */
  method CopyUpper(input: seq<uint8>, n: nat, dst: array<uint8>, off: nat)
    requires n <= |input| && off + n <= dst.Length
    modifies dst
    ensures dst[..] == Put(old(dst[..]), off, UpperAll(input[..n]))
  {
    var i := 0;
    while i < n
      invariant 0 <= i <= n
      invariant forall k | 0 <= k < dst.Length ::
                  dst[k] == if off <= k < off + i then Upper(input[k - off]) else old(dst[k])
    {
      dst[off + i] := Upper(input[i]);
      i := i + 1;
    }
  }

  lemma PutTwiceOver(b: seq<uint8>, off: nat, w: seq<uint8>, u: seq<uint8>, at: nat)
    requires off + |w| <= |b| && at + |u| <= |w|
    ensures Put(Put(b, off, w), off + at, u) == Put(b, off, Put(w, at, u))
  {}

  lemma EncodeAsPuts(s: seq<uint8>)
    ensures var d, blank := LastDot(s), Repeat(SPACE, SHORT_LENGTH);
      Encode(s) == if d < 0 then Put(blank, 0, UpperAll(Take(s, NAME_LENGTH)))
                   else Put(Put(blank, 0, UpperAll(Take(s[..d], NAME_LENGTH))), NAME_LENGTH,
                       UpperAll(Take(s[d + 1..], EXT_LENGTH)))
  {
    hide Field, UpperAll, Put;
    var d := LastDot(s);
    var name, ext := if d < 0 then s else s[..d], if d < 0 then [] else s[d + 1..];
    FieldAsPut(name, NAME_LENGTH);
    FieldAsPut(ext, EXT_LENGTH);
    FieldsAsPuts(UpperAll(Take(name, NAME_LENGTH)), UpperAll(Take(ext, EXT_LENGTH)));
  }

  lemma FieldAsPut(s: seq<uint8>, n: nat)
    ensures Field(s, n) == Put(Spaces(n), 0, UpperAll(Take(s, n)))
  {}

  /** Filling two blank fields side by side. */
  lemma FieldsAsPuts(a: seq<uint8>, b: seq<uint8>)
    requires |a| <= NAME_LENGTH && |b| <= EXT_LENGTH
    ensures Put(Repeat(SPACE, SHORT_LENGTH), 0, a) == Put(Spaces(NAME_LENGTH), 0, a) + Spaces(EXT_LENGTH)
    ensures Put(Put(Repeat(SPACE, SHORT_LENGTH), 0, a), NAME_LENGTH, b)
         == Put(Spaces(NAME_LENGTH), 0, a) + Put(Spaces(EXT_LENGTH), 0, b)
  {}

  /** The last dot, found by scanning forward. */
  method FindDot(input: seq<uint8>) returns (dot: int)
    ensures dot == LastDot(input)
  {
    dot := -1;
    var i := 0;
    while i < |input|
      invariant 0 <= i <= |input|
      invariant dot == LastDot(input[..i])
    {
      assert input[..i + 1][..i] == input[..i];
      if input[i] == DOT {
        dot := i;
      }
      i := i + 1;
    }
    assert input[..|input|] == input;
  }

  lemma CutPrefix(s: seq<uint8>, len: nat, n: nat)
    requires len <= |s|
    ensures Take(s[..len], n) == s[..if len > n then n else len]
  {}

  /** `string_to_short_name`: fills the 11 name bytes of the slot at `off`. */
  method StringToShortName(input: seq<uint8>, slot: array<uint8>, off: nat)
    requires off + SHORT_LENGTH <= slot.Length
    modifies slot
    ensures slot[..] == Put(old(slot[..]), off, Encode(input))
  {
    hide Put, Encode, UpperAll, Spaces, Repeat, LastDot, Take;
    ghost var was, blank := slot[..], Repeat(SPACE, SHORT_LENGTH);
    EncodeAsPuts(input);
    Memset(slot, off, SPACE, SHORT_LENGTH);
    var dot := FindDot(input);
    var nameLen := if dot >= 0 then dot else |input|;
    if nameLen > NAME_LENGTH {
      nameLen := NAME_LENGTH;
    }
    CopyUpper(input, nameLen, slot, off);
    CutPrefix(input, if dot >= 0 then dot else |input|, NAME_LENGTH);
    assert dot < 0 ==> input[..|input|] == input;
    PutTwiceOver(was, off, blank, UpperAll(input[..nameLen]), 0);
    if dot >= 0 {
      var ext := input[dot + 1..];
      var extLen := if |ext| > EXT_LENGTH then EXT_LENGTH else |ext|;
      CopyUpper(ext, extLen, slot, off + NAME_LENGTH);
      CutPrefix(ext, |ext|, EXT_LENGTH);
      assert ext[..|ext|] == ext;
      PutTwiceOver(was, off, Put(blank, 0, UpperAll(input[..nameLen])), UpperAll(ext[..extLen]), NAME_LENGTH);
    }
  }
}
