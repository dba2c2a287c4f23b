/** The byte string spelled by a cluster chain. */
module Contents {
  import opened Bytes
  import opened Chains

  type Data = seq<seq<uint8>>

  /** Every cluster of `ch` holds `b` bytes. */
  ghost predicate Blocks(data: Data, ch: Chain, b: nat) {
    forall i | 0 <= i < |ch| :: ch[i] < |data| && |data[ch[i]]| == b
  }

  ghost function Content(data: Data, ch: Chain): (s: seq<uint8>)
    decreases |ch|
  {
    if ch == [] then []
    else (if ch[0] < |data| then data[ch[0]] else []) + Content(data, ch[1..])
  }

  lemma {:induction false} ContentLength(data: Data, ch: Chain, b: nat)
    requires Blocks(data, ch, b)
    ensures |Content(data, ch)| == |ch| * b
    decreases |ch|
  {
    if ch != [] {
      ContentLength(data, ch[1..], b);
      assert |ch[1..]| * b + b == |ch| * b;
    }
  }

  lemma ContentOne(data: Data, c: uint32)
    requires c < |data|
    ensures Content(data, [c]) == data[c]
  {
    assert [c][1..] == [];
  }

  /** A chain's content around position `k`. */
  lemma ContentSplit(data: Data, ch: Chain, b: nat, k: nat)
    requires Blocks(data, ch, b) && k < |ch|
    ensures Content(data, ch) == Content(data, ch[..k]) + (data[ch[k]] + Content(data, ch[k + 1..]))
    ensures |Content(data, ch[..k])| == k * b
  {
    var l, m, r := ch[..k], [ch[k]], ch[k + 1..];
    assert ch == l + (m + r);
    ContentConcat(data, l, m + r);
    ContentConcat(data, m, r);
    ContentOne(data, ch[k]);
    ContentLength(data, l, b);
  }

  lemma {:induction false} ContentConcat(data: Data, a: Chain, c: Chain)
    ensures Content(data, a + c) == Content(data, a) + Content(data, c)
    decreases |a|
  {
    if a == [] {
      assert a + c == c;
    } else {
      ContentConcat(data, a[1..], c);
      var head := if a[0] < |data| then data[a[0]] else [];
      assert (a + c)[0] == a[0] && (a + c)[1..] == a[1..] + c;
      Associative(head, Content(data, a[1..]), Content(data, c));
    }
  }

  /** Clusters outside the chain do not matter. */
  lemma {:induction false} ContentFrame(data: Data, data': Data, ch: Chain)
    requires |data'| == |data| && forall c | c in ch && c < |data| :: data'[c] == data[c]
    ensures Content(data', ch) == Content(data, ch)
    decreases |ch|
  {
    if ch != [] {
      ContentFrame(data, data', ch[1..]);
    }
  }

  /** The block at position `k` sits at offset `k * b`. */
  lemma ContentAt(data: Data, ch: Chain, b: nat, k: nat)
    requires Blocks(data, ch, b) && k < |ch|
    ensures k * b + b <= |ch| * b == |Content(data, ch)|
    ensures Content(data, ch)[k * b..k * b + b] == data[ch[k]]
  {
    hide Content;
    ContentSplit(data, ch, b, k);
    ContentLength(data, ch, b);
  }

  lemma ContentPart(data: Data, ch: Chain, b: nat, k: nat, off: nat, count: nat)
    requires Blocks(data, ch, b) && k < |ch| && off + count <= b
    ensures k * b + off + count <= |Content(data, ch)|
    ensures off + count == b && k + 1 == |ch| ==> k * b + off + count == |Content(data, ch)|
    ensures data[ch[k]][off..off + count] == Content(data, ch)[k * b + off..k * b + off + count]
  {
    hide Content;
    ContentAt(data, ch, b, k);
    BlockEnds(b, k, |ch|);
    PartOfSlice(Content(data, ch), k * b, k * b + b, off, count);
  }

  lemma BlockEnds(b: nat, k: nat, n: nat)
    ensures k + 1 == n ==> n * b == k * b + b
  {
    assert (k + 1) * b == k * b + b;
  }

  lemma PartOfSlice(s: seq<uint8>, lo: int, hi: int, off: nat, count: nat)
    requires 0 <= lo && lo + off + count <= hi <= |s|
    ensures s[lo..hi][off..off + count] == s[lo + off..lo + off + count]
  {
    var a, b := s[lo..hi][off..off + count], s[lo + off..lo + off + count];
    forall i | 0 <= i < count ensures a[i] == b[i] {
      assert s[lo..hi][off + i] == s[lo + off + i];
    }
  }

  /** Replacing part of one block of an acyclic chain replaces just those bytes of its content. */
  lemma ContentPut(data: Data, ch: Chain, b: nat, k: nat, off: nat, w: seq<uint8>)
    requires Blocks(data, ch, b) && Distinct(ch) && k < |ch| && off + |w| <= b
    ensures k * b + off + |w| <= |Content(data, ch)|
    ensures Content(data[ch[k] := Put(data[ch[k]], off, w)], ch) == Put(Content(data, ch), k * b + off, w)
  {
    hide Content, Put;
    var data' := data[ch[k] := Put(data[ch[k]], off, w)];
    ContentSplit(data, ch, b, k);
    ContentSplit(data', ch, b, k);
    ContentFrame(data, data', ch[..k]);
    ContentFrame(data, data', ch[k + 1..]);
    PutMiddle(Content(data, ch[..k]), data[ch[k]], Content(data, ch[k + 1..]), off, w);
  }

  lemma PutMiddle(l: seq<uint8>, m: seq<uint8>, r: seq<uint8>, off: nat, w: seq<uint8>)
    requires off + |w| <= |m|
    ensures l + (Put(m, off, w) + r) == Put(l + (m + r), |l| + off, w)
  {}

  /** A larger overwrite made of two adjacent ones. */
  lemma PutAdjacent(s: seq<uint8>, q: nat, u: seq<uint8>, w: seq<uint8>)
    requires q + |u| + |w| <= |s|
    ensures Put(Put(s, q, u), q + |u|, w) == Put(s, q, u + w)
  {}

  /** Overwriting inside a prefix of a longer buffer. */
  lemma PutTake(s: seq<uint8>, n: nat, off: nat, w: seq<uint8>)
    requires off + |w| <= n <= |s|
    ensures Put(s, off, w)[..n] == Put(s[..n], off, w)
  {}

  lemma SliceOfTake(s: seq<uint8>, n: nat, off: nat, count: nat)
    requires off + count <= n <= |s|
    ensures s[..n][off..off + count] == s[off..off + count]
  {}

  /** Appending the next `m` bytes of a stream to a copy of its first `n`. */
  lemma PutStream(out: seq<uint8>, s: seq<uint8>, q: nat, n: nat, m: nat)
    requires q + n + m <= |s| && n + m <= |out|
    ensures Put(Put(out, 0, s[q..q + n]), n, s[q + n..q + n + m]) == Put(out, 0, s[q..q + n + m])
  {
    hide Put;
    PutAdjacent(out, 0, s[q..q + n], s[q + n..q + n + m]);
    SlicesMeet(s, q, q + n, q + n + m);
  }

  lemma SlicesMeet(s: seq<uint8>, lo: int, mid: int, hi: int)
    requires 0 <= lo <= mid <= hi <= |s|
    ensures s[lo..mid] + s[mid..hi] == s[lo..hi]
  {}

  /** Overwriting a prefix commutes with appending more bytes. */
  lemma PutPrefix(s: seq<uint8>, t: seq<uint8>, q: nat, w: seq<uint8>)
    requires q + |w| <= |s|
    ensures Put(s + t, q, w) == Put(s, q, w) + t
  {}

  // ----- Overwriting a chain that may grow

  /** `data` is `was` with `w` written at offset `q` of the chain's content, and nothing else changed. */
  ghost predicate Written(was: Data, data: Data, ch: Chain, q: nat, w: seq<uint8>) {
    && |data| == |was|
    && q + |w| <= |Content(was, ch)|
    && Content(data, ch) == Put(Content(was, ch), q, w)
    && forall c | 0 <= c < |data| && c !in ch :: data[c] == was[c]
  }

  lemma WrittenStart(data: Data, ch: Chain, q: nat)
    requires q <= |Content(data, ch)|
    ensures Written(data, data, ch, q, [])
  {}

  /** Writing the next part of block `k`. */
  lemma WrittenStep(was: Data, data: Data, ch: Chain, b: nat, k: nat, off: nat, q: nat, w: seq<uint8>, u: seq<uint8>)
    requires Blocks(data, ch, b) && Distinct(ch) && k < |ch| && off + |u| <= b
    requires Written(was, data, ch, q, w) && q + |w| == k * b + off
    ensures Written(was, data[ch[k] := Put(data[ch[k]], off, u)], ch, q, w + u)
  {
    hide Content, Put;
    ContentPut(data, ch, b, k, off, u);
    PutAdjacent(Content(was, ch), q, w, u);
    assert ch[k] in ch;
  }

  /** Appending a cluster that the writes have not touched. */
  lemma WrittenExtend(was: Data, data: Data, ch: Chain, c: uint32, q: nat, w: seq<uint8>)
    requires Written(was, data, ch, q, w) && c < |data| && c !in ch
    ensures Written(was, data, ch + [c], q, w)
  {
    hide Content, Put;
    ContentConcat(was, ch, [c]);
    ContentConcat(data, ch, [c]);
    ContentOne(was, c);
    ContentOne(data, c);
    PutPrefix(Content(was, ch), was[c], q, w);
    forall d | 0 <= d < |data| && d !in ch + [c] ensures data[d] == was[d] {
      assert d !in ch;
    }
  }
}
