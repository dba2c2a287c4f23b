/** Runs of allocation, extension and freeing over a table together with the chains its users hold. */
module Ledger {
  import opened Bytes
  import opened Chains

  /** A table and the chains in use on it. */
  datatype Ledger = Ledger(table: Table, chains: seq<Chain>) {
    ghost predicate Valid() {
      && |table| <= BAD_CLUSTER
      && (forall i | 0 <= i < |chains| :: IsChain(table, chains[i]))
      && (forall i, j | 0 <= i < |chains| && 0 <= j < |chains| && i != j :: Disjoint(chains[i], chains[j]))
    }
  }

  /** The three ways the driver changes the table: a new chain, one more cluster at a tail, a chain given back. */
  datatype Op = Allocate | Extend(chain: nat) | FreeAll(chain: nat)

  /** The table after `fat32_allocate_cluster`. */
  function Allocated(t: Table): (t': Table)
    requires |t| <= BAD_CLUSTER
    ensures |t'| == |t|
  {
    var c := LeastFree(t);
    if c == 0 then t else t[c := EOC]
  }

  ghost function Step(s: Ledger, op: Op): (s': Ledger)
    requires s.Valid()
  {
    var c := LeastFree(s.table);
    match op
    case Allocate =>
      if c == 0 then s else Ledger(Allocated(s.table), s.chains + [[c]])
    case Extend(i) =>
      if c == 0 || i >= |s.chains| then s else
      var ch := s.chains[i];
      Ledger(Allocated(s.table)[ch[|ch| - 1] := c], s.chains[i := ch + [c]])
    case FreeAll(i) =>
      if i >= |s.chains| then s else
      Ledger(Freed(s.table, s.chains[i][0]), s.chains[..i] + s.chains[i + 1..])
  }

  function TotalLength(chains: seq<Chain>): nat {
    if chains == [] then 0 else |chains[0]| + TotalLength(chains[1..])
  }

  /** The clusters that are free or held. */
  function Clusters(s: Ledger): nat {
    Free(s.table) + TotalLength(s.chains)
  }

  lemma {:induction false} TotalLengthConcat(a: seq<Chain>, b: seq<Chain>)
    ensures TotalLength(a + b) == TotalLength(a) + TotalLength(b)
    decreases |a|
  {
    if a == [] {
      assert a + b == b;
    } else {
      TotalLengthConcat(a[1..], b);
      assert (a + b)[1..] == a[1..] + b;
    }
  }

  /** The total around position `i`. */
  lemma TotalLengthSplit(chains: seq<Chain>, i: nat, ch: Chain)
    requires i < |chains|
    ensures TotalLength(chains) == TotalLength(chains[..i]) + |chains[i]| + TotalLength(chains[i + 1..])
    ensures TotalLength(chains[i := ch]) == TotalLength(chains[..i]) + |ch| + TotalLength(chains[i + 1..])
  {
    var l, r := chains[..i], chains[i + 1..];
    assert chains == l + ([chains[i]] + r);
    TotalLengthConcat(l, [chains[i]] + r);
    assert chains[i := ch] == l + ([ch] + r);
    TotalLengthConcat(l, [ch] + r);
  }

  /** Clusters on a chain are never free. */
  lemma ChainUsed(t: Table, ch: Chain, c: uint32)
    requires IsChain(t, ch) && c in ch
    ensures t[c] != FREE_CLUSTER
  {
    var i :| 0 <= i < |ch| && ch[i] == c;
    if i < |ch| - 1 {
      assert t[ch[i]] == ch[i + 1];
    }
  }

  /** Linking a formerly free cluster behind the tail gives the longer chain. */
  lemma ChainExtend(t: Table, ch: Chain, c: uint32)
    requires IsChain(t, ch) && 2 <= c < |t| && t[c] == FREE_CLUSTER
    ensures IsChain(t[c := EOC][ch[|ch| - 1] := c], ch + [c])
    ensures c !in ch
  {
    if c in ch {
      ChainUsed(t, ch, c);
    }
    ChainAcyclic(t, ch);
    var t' := t[c := EOC][ch[|ch| - 1] := c];
    var ch' := ch + [c];
    forall i | 0 <= i < |ch'| - 1 ensures t'[ch'[i]] == ch'[i + 1] {
      if i < |ch| - 1 {
        assert t[ch[i]] == ch[i + 1];
        assert ch[i] != ch[|ch| - 1];
      }
    }
  }

  /** Extending one chain leaves every chain disjoint from it as it was. */
  lemma ExtendFramesChain(t: Table, ch: Chain, c: uint32, other: Chain)
    requires IsChain(t, ch) && IsChain(t, other) && Disjoint(other, ch)
    requires 2 <= c < |t| && t[c] == FREE_CLUSTER
    ensures IsChain(t[c := EOC][ch[|ch| - 1] := c], other)
    ensures Disjoint(other, ch + [c]) && Disjoint(ch + [c], other)
  {
    if c in other {
      ChainUsed(t, other, c);
    }
    assert ch[|ch| - 1] in ch;
    ChainFrame(t, t[c := EOC][ch[|ch| - 1] := c], other);
  }

  lemma StepAllocate(s: Ledger)
    requires s.Valid() && LeastFree(s.table) != 0
    ensures Step(s, Allocate).Valid()
    ensures Clusters(Step(s, Allocate)) == Clusters(s)
  {
    hide FreeFrom, FreeCount;
    var c := LeastFree(s.table);
    forall i | 0 <= i < |s.chains|
      ensures IsChain(s.table[c := EOC], s.chains[i]) && Disjoint(s.chains[i], [c])
    {
      if c in s.chains[i] {
        ChainUsed(s.table, s.chains[i], c);
      }
      ChainFrame(s.table, s.table[c := EOC], s.chains[i]);
    }
    assert IsChain(s.table[c := EOC], [c]);
    FreeCountUpdate(s.table, 2, c, EOC);
    TotalLengthConcat(s.chains, [[c]]);
  }

  lemma StepExtend(s: Ledger, i: nat)
    requires s.Valid() && LeastFree(s.table) != 0 && i < |s.chains|
    ensures Step(s, Extend(i)).Valid()
    ensures Clusters(Step(s, Extend(i))) == Clusters(s)
  {
    hide FreeFrom, FreeCount, TotalLength, IsChain;
    var c, ch := LeastFree(s.table), s.chains[i];
    ChainFacts(s.table, ch);
    var last := ch[|ch| - 1];
    var t' := s.table[c := EOC][last := c];
    ChainExtend(s.table, ch, c);
    forall j | 0 <= j < |s.chains| && j != i
      ensures IsChain(t', s.chains[j]) && Disjoint(s.chains[j], ch + [c]) && Disjoint(ch + [c], s.chains[j])
    {
      ExtendFramesChain(s.table, ch, c, s.chains[j]);
    }
    CountExtend(s.table, ch, c);
    TotalLengthSplit(s.chains, i, ch + [c]);
  }

  lemma CountExtend(t: Table, ch: Chain, c: uint32)
    requires IsChain(t, ch) && 2 <= c < |t| && t[c] == FREE_CLUSTER
    ensures Free(t[c := EOC][ch[|ch| - 1] := c]) == Free(t) - 1
  {
    var last := ch[|ch| - 1];
    ChainUsed(t, ch, last);
    FreeCountUpdate(t, 2, c, EOC);
    FreeCountUpdate(t[c := EOC], 2, last, c);
  }

  lemma StepFreeAll(s: Ledger, i: nat)
    requires s.Valid() && i < |s.chains|
    ensures Step(s, FreeAll(i)).Valid()
    ensures Clusters(Step(s, FreeAll(i))) == Clusters(s)
  {
    hide Freed, FreeCount, TotalLength;
    var ch := s.chains[i];
    FreedChain(s.table, ch);
    forall j | 0 <= j < |s.chains| && j != i
      ensures IsChain(Freed(s.table, ch[0]), s.chains[j])
    {
      assert Disjoint(s.chains[j], ch);
      ChainFrame(s.table, Freed(s.table, ch[0]), s.chains[j]);
    }
    TotalLengthSplit(s.chains, i, []);
    TotalLengthConcat(s.chains[..i], s.chains[i + 1..]);
  }

  /** Every step keeps the chains well formed and disjoint, and moves clusters only between free space and chains. */
  lemma StepKeeps(s: Ledger, op: Op)
    requires s.Valid()
    ensures Step(s, op).Valid()
    ensures Clusters(Step(s, op)) == Clusters(s)
  {
    if LeastFree(s.table) != 0 && op.Allocate? {
      StepAllocate(s);
    } else if LeastFree(s.table) != 0 && op.Extend? && op.chain < |s.chains| {
      StepExtend(s, op.chain);
    } else if op.FreeAll? && op.chain < |s.chains| {
      StepFreeAll(s, op.chain);
    }
  }

  ghost predicate IsRun(states: seq<Ledger>, ops: seq<Op>) {
    && |states| == |ops| + 1
    && states[0].Valid()
    && forall i | 0 <= i < |ops| :: states[i].Valid() ==> states[i + 1] == Step(states[i], ops[i])
  }

  /** Chain shape and space conservation in every state of every run. */
  lemma {:induction false} RunKeeps(states: seq<Ledger>, ops: seq<Op>, n: nat)
    requires IsRun(states, ops) && n <= |ops|
    ensures states[n].Valid()
    ensures forall i | 0 <= i < |states[n].chains| :: Distinct(states[n].chains[i])
    ensures Clusters(states[n]) == Clusters(states[0])
  {
    if n > 0 {
      RunKeeps(states, ops, n - 1);
      StepKeeps(states[n - 1], ops[n - 1]);
    }
    forall i | 0 <= i < |states[n].chains| ensures Distinct(states[n].chains[i]) {
      ChainAcyclic(states[n].table, states[n].chains[i]);
    }
  }

  // ----- Growing one chain

  /** The table and chain after one more extension by the least free cluster, if there is one. */
  ghost function Extended(t: Table, ch: Chain): (r: (Table, Chain)) {
    if |t| > BAD_CLUSTER || LeastFree(t) == 0 || ch == [] || ch[|ch| - 1] >= |t| then (t, ch)
    else (t[LeastFree(t) := EOC][ch[|ch| - 1] := LeastFree(t)], ch + [LeastFree(t)])
  }

  /** The table and chain after `m` extensions. */
  ghost function Grown(t: Table, ch: Chain, m: nat): (r: (Table, Chain)) {
    if m == 0 then (t, ch) else Extended(Grown(t, ch, m - 1).0, Grown(t, ch, m - 1).1)
  }

  /**
   * A chain grew: the old chain is a prefix, the new clusters were free, every entry except
   * the old tail and the new clusters is as it was, and no other cluster was taken.
   */
  ghost predicate Grows(t: Table, ch: Chain, t': Table, ch': Chain) {
    && IsChain(t', ch') && |t'| == |t| && ch != [] && ch <= ch'
    && (forall i | |ch| <= i < |ch'| :: ch'[i] < |t| && t[ch'[i]] == FREE_CLUSTER)
    && (forall c | 0 <= c < |t| && c !in ch'[|ch| - 1..] :: t'[c] == t[c])
    && Free(t') + |ch'| == Free(t) + |ch|
  }

  lemma GrowsStep(t: Table, ch: Chain, t': Table, ch': Chain)
    requires Grows(t, ch, t', ch')
    ensures Grows(t, ch, Extended(t', ch').0, Extended(t', ch').1)
  {
    hide FreeCount, IsChain;
    ChainFacts(t', ch');
    var c := LeastFree(t');
    if c != 0 {
      var last, n := ch'[|ch'| - 1], |ch|;
      ChainExtend(t', ch', c);
      CountExtend(t', ch', c);
      assert last == ch'[n - 1..][|ch'| - n];
      assert (ch' + [c])[n - 1..] == ch'[n - 1..] + [c];
      assert c !in ch'[n - 1..];
    }
  }

  /** Every growth by least free clusters is one. */
  lemma {:induction false} GrownChain(t: Table, ch: Chain, m: nat)
    requires IsChain(t, ch)
    ensures Grows(t, ch, Grown(t, ch, m).0, Grown(t, ch, m).1)
  {
    if m > 0 {
      GrownChain(t, ch, m - 1);
      GrowsStep(t, ch, Grown(t, ch, m - 1).0, Grown(t, ch, m - 1).1);
    }
  }

  /** One extension: the same chain on a full table, one more cluster otherwise. */
  lemma ExtendedChain(t: Table, ch: Chain)
    requires IsChain(t, ch)
    ensures IsChain(Extended(t, ch).0, Extended(t, ch).1)
    ensures LeastFree(t) == 0 ==> Extended(t, ch) == (t, ch)
    ensures LeastFree(t) != 0 ==> 2 <= LeastFree(t) < |t| && LeastFree(t) !in ch
    ensures LeastFree(t) != 0 ==>
              Extended(t, ch) == (t[LeastFree(t) := EOC][ch[|ch| - 1] := LeastFree(t)], ch + [LeastFree(t)])
  {
    if LeastFree(t) != 0 {
      ChainExtend(t, ch, LeastFree(t));
    }
  }
}
