/** The logical FAT as a table of 28-bit entries, and the cluster chains threaded through it. */
module Chains {
  import opened Bytes

  const FREE_CLUSTER: uint32 := 0
  const BAD_CLUSTER: uint32 := 0x0FFF_FFF7
  const EOC_MIN: uint32 := 0x0FFF_FFF8
  const EOC: uint32 := 0x0FFF_FFFF

  type Table = seq<uint32>
  type Chain = seq<uint32>

  predicate IsEoc(e: uint32) { e >= EOC_MIN }

  /** The guard of every chain walk in fat.c. */
  predicate IsLink(e: uint32) { 2 <= e < EOC_MIN }

  // ----- Well-formed chains

  ghost predicate IsChain(t: Table, ch: Chain) {
    && |t| <= BAD_CLUSTER
    && ch != []
    && (forall i | 0 <= i < |ch| :: 2 <= ch[i] < |t|)
    && (forall i | 0 <= i < |ch| - 1 :: t[ch[i]] == ch[i + 1])
    && IsEoc(t[ch[|ch| - 1]])
  }

  ghost predicate Disjoint(a: Chain, b: Chain) {
    forall c | c in a :: c !in b
  }

  ghost predicate Distinct(ch: Chain) {
    forall i, j | 0 <= i < j < |ch| :: ch[i] != ch[j]
  }

  lemma {:induction false} EqualTails(t: Table, ch: Chain, i: nat, j: nat, m: nat)
    requires IsChain(t, ch) && i < j && j + m < |ch| && ch[i] == ch[j]
    ensures ch[i + m] == ch[j + m]
  {
    if m > 0 {
      EqualTails(t, ch, i, j, m - 1);
      assert t[ch[i + m - 1]] == ch[i + m] && t[ch[j + m - 1]] == ch[j + m];
    }
  }

  /** A chain that reaches an end mark cannot revisit a cluster. */
  lemma ChainAcyclic(t: Table, ch: Chain)
    requires IsChain(t, ch)
    ensures Distinct(ch)
  {
    forall i, j | 0 <= i < j < |ch| ensures ch[i] != ch[j] {
      var m := |ch| - 1 - j;
      assert t[ch[i + m]] == ch[i + m + 1];
      if ch[i] == ch[j] {
        EqualTails(t, ch, i, j, m);
      }
    }
  }

  lemma ChainFacts(t: Table, ch: Chain)
    requires IsChain(t, ch)
    ensures |t| <= BAD_CLUSTER && ch != [] && ch[|ch| - 1] in ch
    ensures forall i | 0 <= i < |ch| :: 2 <= ch[i] < |t|
  {}

  /** What the walk at position `i` of a chain sees. */
  lemma ChainStep(t: Table, ch: Chain, i: nat)
    requires IsChain(t, ch) && i < |ch|
    ensures IsLink(ch[i]) && 2 <= ch[i] < |t|
    ensures i + 1 < |ch| ==> t[ch[i]] == ch[i + 1] && IsLink(t[ch[i]])
    ensures i + 1 == |ch| ==> IsEoc(t[ch[i]])
  {}

  lemma ChainTail(t: Table, ch: Chain)
    requires IsChain(t, ch) && |ch| > 1
    ensures IsChain(t, ch[1..]) && !IsEoc(t[ch[0]]) && t[ch[0]] == ch[1]
  {
    assert t[ch[0]] == ch[1];
    forall i | 0 <= i < |ch[1..]| - 1 ensures t[ch[1..][i]] == ch[1..][i + 1] {
      assert t[ch[i + 1]] == ch[i + 2];
    }
  }

  /** The first cluster determines the chain. */
  lemma {:induction false} ChainUnique(t: Table, a: Chain, b: Chain)
    requires IsChain(t, a) && IsChain(t, b) && a[0] == b[0]
    ensures a == b
    decreases |a|
  {
    if |a| > 1 {
      ChainTail(t, a);
    }
    if |b| > 1 {
      ChainTail(t, b);
    }
    if |a| > 1 && |b| > 1 {
      ChainUnique(t, a[1..], b[1..]);
      assert a == [a[0]] + a[1..] && b == [b[0]] + b[1..];
    }
  }

  /** A chain may end in any mark from 0x0FFFFFF8 on and in no other entry. */
  lemma AnyEndMark(t: Table, ch: Chain, e: uint32)
    requires IsChain(t, ch)
    ensures IsChain(t[ch[|ch| - 1] := e], ch) <==> 0x0FFF_FFF8 <= e
  {
    ChainAcyclic(t, ch);
    var t' := t[ch[|ch| - 1] := e];
    forall i | 0 <= i < |ch| - 1 ensures t'[ch[i]] == ch[i + 1] {
      assert ch[i] != ch[|ch| - 1];
    }
  }

  /** The chain headed by `c`, or the empty sequence if there is none. */
  ghost function ChainOf(t: Table, c: uint32): (ch: Chain)
    ensures ch != [] ==> IsChain(t, ch) && ch[0] == c
  {
    if exists ch :: IsChain(t, ch) && ch[0] == c then
      var ch :| IsChain(t, ch) && ch[0] == c;
      ch
    else
      []
  }

  lemma ChainOfIs(t: Table, ch: Chain)
    requires IsChain(t, ch)
    ensures ChainOf(t, ch[0]) == ch
  {
    ChainUnique(t, ChainOf(t, ch[0]), ch);
  }

  /** A chain survives any change to entries outside it. */
  lemma ChainFrame(t: Table, t': Table, ch: Chain)
    requires IsChain(t, ch) && |t'| == |t|
    requires forall c | c in ch :: t'[c] == t[c]
    ensures IsChain(t', ch)
  {
    forall i | 0 <= i < |ch| - 1 ensures t'[ch[i]] == ch[i + 1] {
      assert ch[i] in ch;
    }
  }

  lemma {:induction false} DistinctShort(ch: Chain, n: nat)
    requires Distinct(ch) && forall i | 0 <= i < |ch| :: ch[i] < n
    ensures |ch| <= n
    decreases n
  {
    assert ch != [] ==> ch[0] < n;
    if n > 0 {
      if i :| 0 <= i < |ch| && ch[i] == n - 1 {
        DistinctShort(ch[..i] + ch[i + 1..], n - 1);
      } else {
        DistinctShort(ch, n - 1);
      }
    }
  }

  // ----- Allocation

  /** The least free cluster from `k` on, or 0. */
  function FreeFrom(t: Table, k: nat): (c: uint32)
    requires |t| <= BAD_CLUSTER
    ensures c != 0 ==> k <= c < |t| && t[c] == FREE_CLUSTER
    ensures c != 0 ==> forall d | k <= d < c :: t[d] != FREE_CLUSTER
    ensures c == 0 ==> k == 0 || forall d | k <= d < |t| :: t[d] != FREE_CLUSTER
    decreases |t| - k
  {
    if k >= |t| then 0
    else if t[k] == FREE_CLUSTER then k
    else FreeFrom(t, k + 1)
  }

  function LeastFree(t: Table): (c: uint32)
    requires |t| <= BAD_CLUSTER
  {
    FreeFrom(t, 2)
  }

  /** The number of free clusters from `k` on. */
  function FreeCount(t: Table, k: nat): (n: nat)
    ensures n <= if k <= |t| then |t| - k else 0
    decreases |t| - k
  {
    if k >= |t| then 0
    else FreeCount(t, k + 1) + if t[k] == FREE_CLUSTER then 1 else 0
  }

  function Free(t: Table): nat { FreeCount(t, 2) }

  lemma {:induction false} FreeCountUpdate(t: Table, k: nat, c: nat, v: uint32)
    requires c < |t|
    ensures FreeCount(t[c := v], k) + (if k <= c && t[c] == FREE_CLUSTER then 1 else 0)
         == FreeCount(t, k) + (if k <= c && v == FREE_CLUSTER then 1 else 0)
    decreases |t| - k
  {
    if k < |t| {
      FreeCountUpdate(t, k + 1, c, v);
    }
  }

  /** No cluster is free exactly when the search for one fails. */
  lemma {:induction false} NoneFree(t: Table, k: nat)
    requires |t| <= BAD_CLUSTER && k > 0
    ensures FreeFrom(t, k) == 0 <==> FreeCount(t, k) == 0
    decreases |t| - k
  {
    if k < |t| {
      NoneFree(t, k + 1);
    }
  }

  // ----- Freeing

  function Used(t: Table): (n: nat) { UsedFrom(t, 0) }

  function UsedFrom(t: Table, k: nat): (n: nat)
    decreases |t| - k
  {
    if k >= |t| then 0
    else UsedFrom(t, k + 1) + if t[k] != FREE_CLUSTER then 1 else 0
  }

  lemma {:induction false} UsedUpdate(t: Table, k: nat, c: nat)
    requires c < |t| && t[c] != FREE_CLUSTER
    ensures UsedFrom(t[c := 0], k) == UsedFrom(t, k) - (if k <= c then 1 else 0)
    decreases |t| - k
  {
    if k < |t| {
      UsedUpdate(t, k + 1, c);
    }
  }

  /** The table after freeing from `c`: stop at anything that is not a used cluster of the table. */
  ghost function Freed(t: Table, c: uint32): (t': Table)
    ensures |t'| == |t|
    decreases Used(t)
  {
    if !(2 <= c < |t|) || t[c] == FREE_CLUSTER then t
    else
      UsedUpdate(t, 0, c);
      Freed(t[c := FREE_CLUSTER], t[c])
  }

  /** Freeing from `c` never leaves the table. */
  ghost predicate WalkInRange(t: Table, c: uint32)
    decreases Used(t)
  {
    if !IsLink(c) then true
    else if c >= |t| then false
    else if t[c] == FREE_CLUSTER then true
    else
      UsedUpdate(t, 0, c);
      WalkInRange(t[c := FREE_CLUSTER], t[c])
  }

  ghost predicate LinksInRange(t: Table) {
    && |t| <= BAD_CLUSTER
    && forall c | 2 <= c < |t| :: t[c] < |t| || IsEoc(t[c])
  }

  /** Links inside the table are enough for `fat32_free_chain`, cyclic or cross-linked as they may be. */
  lemma {:induction false} LinksInRangeWalk(t: Table, c: uint32)
    requires LinksInRange(t) && (c < |t| || IsEoc(c))
    ensures WalkInRange(t, c)
    decreases Used(t)
  {
    if IsLink(c) && t[c] != FREE_CLUSTER {
      UsedUpdate(t, 0, c);
      LinksInRangeWalk(t[c := FREE_CLUSTER], t[c]);
    }
  }

  ghost predicate IsPath(t: Table, p: Chain, c: uint32, k: uint32) {
    && p != [] && p[0] == c && p[|p| - 1] == k
    && (forall i | 0 <= i < |p| :: 2 <= p[i] < |t|)
    && (forall i | 0 <= i < |p| - 1 :: t[p[i]] == p[i + 1])
  }

  /** `k` is `c` itself or reached from it by following links. */
  ghost predicate Reaches(t: Table, c: uint32, k: uint32) {
    exists p :: IsPath(t, p, c, k)
  }

  lemma {:induction false} FreedOnlyReachable(t: Table, c: uint32, k: uint32) returns (p: Chain)
    requires k < |t| && Freed(t, c)[k] != t[k]
    ensures IsPath(t, p, c, k)
    decreases Used(t)
  {
    UsedUpdate(t, 0, c);
    var t' := t[c := FREE_CLUSTER];
    if k == c {
      p := [c];
    } else {
      var rest := FreedOnlyReachable(t', t[c], k);
      forall i | 0 <= i < |rest| - 1 ensures t[rest[i]] == rest[i + 1] {
        assert t'[rest[i]] == rest[i + 1];
      }
      p := [c] + rest;
    }
  }

  /** A path to another cluster can leave `c` for good. */
  lemma {:induction false} PathAvoiding(t: Table, p: Chain, c: uint32, k: uint32) returns (q: Chain)
    requires IsPath(t, p, c, k) && k != c
    ensures IsPath(t, q, t[c], k) && c !in q && |q| < |p|
    decreases |p|
  {
    if c in p[1..] {
      var i :| 1 <= i < |p| && p[i] == c;
      forall n | 0 <= n < |p[i..]| - 1 ensures t[p[i..][n]] == p[i..][n + 1] {
        assert t[p[i + n]] == p[i + n + 1];
      }
      q := PathAvoiding(t, p[i..], c, k);
    } else {
      q := p[1..];
      assert t[p[0]] == p[1];
      forall n | 0 <= n < |q| - 1 ensures t[q[n]] == q[n + 1] {
        assert t[p[n + 1]] == p[n + 2];
      }
    }
  }

  lemma {:induction false} FreedAllReachable(t: Table, p: Chain, c: uint32, k: uint32)
    requires k < |t| && IsPath(t, p, c, k)
    ensures Freed(t, c)[k] == FREE_CLUSTER
    decreases Used(t)
  {
    assert |p| > 1 ==> t[p[0]] == p[1];
    if t[c] != FREE_CLUSTER {
      UsedUpdate(t, 0, c);
      var t' := t[c := FREE_CLUSTER];
      if k == c {
        if Freed(t', t[c])[k] != t'[k] {
          var _ := FreedOnlyReachable(t', t[c], k);
          FreedStaysFree(t', t[c], k);
        }
      } else {
        var q := PathAvoiding(t, p, c, k);
        forall i | 0 <= i < |q| - 1 ensures t'[q[i]] == q[i + 1] {
          assert q[i] in q;
        }
        FreedAllReachable(t', q, t[c], k);
      }
    }
  }

  lemma {:induction false} FreedStaysFree(t: Table, c: uint32, k: uint32)
    requires k < |t| && t[k] == FREE_CLUSTER
    ensures Freed(t, c)[k] == FREE_CLUSTER
    decreases Used(t)
  {
    if 2 <= c < |t| && t[c] != FREE_CLUSTER {
      UsedUpdate(t, 0, c);
      FreedStaysFree(t[c := FREE_CLUSTER], t[c], k);
    }
  }

  /** On any table, freeing from `c` zeroes exactly the clusters reachable from `c`. */
  lemma FreedExact(t: Table, c: uint32, k: uint32)
    requires k < |t|
    ensures Freed(t, c)[k] == if Reaches(t, c, k) then FREE_CLUSTER else t[k]
  {
    if Reaches(t, c, k) {
      var p :| IsPath(t, p, c, k);
      FreedAllReachable(t, p, c, k);
    } else if Freed(t, c)[k] != t[k] {
      var p := FreedOnlyReachable(t, c, k);
    }
  }

  lemma FreedStep(t: Table, c: uint32)
    requires IsLink(c) && c < |t| && t[c] != FREE_CLUSTER
    ensures Freed(t, c) == Freed(t[c := FREE_CLUSTER], t[c])
    ensures WalkInRange(t, c) == WalkInRange(t[c := FREE_CLUSTER], t[c])
  {
    UsedUpdate(t, 0, c);
  }

  /** On a well-formed chain, freeing zeroes precisely that chain. */
  lemma {:induction false} FreedChain(t: Table, ch: Chain)
    requires IsChain(t, ch)
    ensures WalkInRange(t, ch[0])
    ensures forall k | 0 <= k < |t| :: Freed(t, ch[0])[k] == if k in ch then FREE_CLUSTER else t[k]
    ensures Free(Freed(t, ch[0])) == Free(t) + |ch|
    decreases |ch|
  {
    hide FreeCount;
    var c := ch[0];
    var t' := t[c := FREE_CLUSTER];
    ChainStep(t, ch, 0);
    FreedStep(t, c);
    FreeCountUpdate(t, 2, c, FREE_CLUSTER);
    if |ch| == 1 {
      FreedEnd(t', t[c]);
    } else {
      FreedTail(t, ch);
      FreedChain(t', ch[1..]);
      assert ch == [c] + ch[1..];
    }
  }

  lemma FreedEnd(t: Table, e: uint32)
    requires |t| <= BAD_CLUSTER && IsEoc(e)
    ensures Freed(t, e) == t && WalkInRange(t, e)
  {}

  lemma FreedTail(t: Table, ch: Chain)
    requires IsChain(t, ch) && |ch| > 1
    ensures IsChain(t[ch[0] := FREE_CLUSTER], ch[1..]) && t[ch[0]] == ch[1] && ch[0] !in ch[1..]
  {
    ChainTail(t, ch);
    ChainAcyclic(t, ch);
    ChainFrame(t, t[ch[0] := FREE_CLUSTER], ch[1..]);
  }
}
