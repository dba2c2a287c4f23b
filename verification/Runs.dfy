/** The driver's allocation functions follow the ledger through any run, and free space is accounted for. */
module Runs {
  import opened Bytes
  import opened Chains
  import opened Fat
  import opened Geometry
  import opened Image
  import opened Ledger

  /** Allocating a cluster and linking it behind the tail of a chain. */
  method GrowChain(vol: Volume, ch: Chain) returns (ch': Chain)
    requires vol.Valid() && vol.dev.reliable && IsChain(vol.table, ch)
    modifies vol.Footprint()
    ensures vol.Valid() && vol.data == old(vol.data)
    ensures (vol.table, ch') == Extended(old(vol.table), ch)
  {
    hide Consistent, IsTableOf, Geometry.WellFormed, IsChain, FreeFrom, Extended;
    vol.Facts();
    ghost var t := vol.table;
    ExtendedChain(t, ch);
    ChainFacts(t, ch);
    ch' := ch;
    var c := vol.AllocateCluster();
    if c != 0 {
      SmallEntry(c);
      var _ := vol.ExtendChain(ch[|ch| - 1], c);
      ch' := ch + [c];
    }
  }

  /** One step of a run: `fat32_allocate_cluster`, that and `fat32_extend_chain`, or `fat32_free_chain`. */
  method Perform(vol: Volume, chains: seq<Chain>, op: Op) returns (chains': seq<Chain>)
    requires vol.Valid() && vol.dev.reliable && Ledger(vol.table, chains).Valid()
    modifies vol.Footprint()
    ensures vol.Valid() && vol.data == old(vol.data)
    ensures Ledger(vol.table, chains') == Step(Ledger(old(vol.table), chains), op)
  {
    hide Consistent, IsTableOf, Geometry.WellFormed, IsChain, FreeFrom, Freed, WalkInRange;
    vol.Facts();
    chains' := chains;
    match op {
      case Allocate =>
        var c := vol.AllocateCluster();
        if c != 0 {
          chains' := chains + [[c]];
        }
      case Extend(i) =>
        if i < |chains| {
          ChainFacts(vol.table, chains[i]);
          var ch := GrowChain(vol, chains[i]);
          if ch != chains[i] {
            chains' := chains[i := ch];
          }
        }
      case FreeAll(i) =>
        if i < |chains| {
          ChainFacts(vol.table, chains[i]);
          FreedChain(vol.table, chains[i]);
          var _ := vol.FreeChain(chains[i][0]);
          chains' := chains[..i] + chains[i + 1..];
        }
    }
  }

  /**
   * Any run of the driver's allocation functions: at every point the chains in use are acyclic,
   * end-marked, in range and pairwise disjoint, and the free clusters together with theirs are
   * as many as at the start.
   */
  method Replay(vol: Volume, chains: seq<Chain>, ops: seq<Op>) returns (chains': seq<Chain>, ghost states: seq<Ledger>)
    requires vol.Valid() && vol.dev.reliable && Ledger(vol.table, chains).Valid()
    modifies vol.Footprint()
    ensures vol.Valid() && vol.data == old(vol.data)
    ensures IsRun(states, ops) && states[0] == Ledger(old(vol.table), chains)
        && states[|ops|] == Ledger(vol.table, chains')
    ensures forall n | 0 <= n <= |ops| :: states[n].Valid() && Clusters(states[n]) == Clusters(states[0])
  {
    hide Consistent, IsTableOf, Geometry.WellFormed, IsChain, Step;
    chains' := chains;
    states := [Ledger(vol.table, chains)];
    var i := 0;
    while i < |ops|
      invariant 0 <= i <= |ops| && vol.Valid() && vol.data == old(vol.data)
      invariant |states| == i + 1 && states[0] == Ledger(old(vol.table), chains)
          && states[i] == Ledger(vol.table, chains')
      invariant states[i].Valid()
      invariant forall n | 0 <= n < i :: states[n].Valid() && states[n + 1] == Step(states[n], ops[n])
    {
      StepKeeps(states[i], ops[i]);
      chains' := Perform(vol, chains', ops[i]);
      states := states + [Ledger(vol.table, chains')];
      i := i + 1;
    }
    forall n | 0 <= n <= |ops| ensures states[n].Valid() && Clusters(states[n]) == Clusters(states[0]) {
      RunKeeps(states, ops, n);
    }
  }

  /** Freeing a chain raises the free count by the length measured before. */
  method FreeAndCount(vol: Volume, start: uint32) returns (before: uint32, length: uint32, after: uint32)
    requires vol.Valid() && vol.dev.reliable && ChainOf(vol.table, start) != []
    modifies vol.Footprint()
    ensures vol.Valid() && vol.table == Freed(old(vol.table), start)
    ensures after == before + length && length == |ChainOf(old(vol.table), start)|
  {
    hide Consistent, IsTableOf, Geometry.WellFormed, IsChain, FreeFrom, Freed, WalkInRange, FreeCount;
    vol.Facts();
    ChainFacts(vol.table, ChainOf(vol.table, start));
    FreedChain(vol.table, ChainOf(vol.table, start));
    before := vol.CountFreeClusters();
    length := vol.GetChainLength(start);
    var _ := vol.FreeChain(start);
    after := vol.CountFreeClusters();
  }

  /** Allocating takes the least free cluster and lowers the free count by one, or finds none free. */
  method AllocateAndCount(vol: Volume) returns (before: uint32, c: uint32, after: uint32)
    requires vol.Valid() && vol.dev.reliable
    modifies vol.Footprint()
    ensures vol.Valid()
    ensures |old(vol.table)| <= BAD_CLUSTER && c == LeastFree(old(vol.table))
    ensures after == before - (if c == 0 then 0 else 1) && (c == 0 ==> before == 0)
  {
    hide Consistent, IsTableOf, Geometry.WellFormed, FreeCount;
    vol.Facts();
    ghost var t := vol.table;
    before := vol.CountFreeClusters();
    NoneFree(t, 2);
    c := vol.AllocateCluster();
    if c != 0 {
      FreeCountUpdate(t, 2, c, EOC);
    }
    after := vol.CountFreeClusters();
  }
}
