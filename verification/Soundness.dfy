/** When a whole volume is in order, and what changes keep it so. */
module Soundness {
  import opened Bytes
  import opened Chains
  import opened Contents
  import opened DirMaps
  import opened Directories
  import opened Files
  import opened Ledger
  import opened Slots

  /** A live slot of a regular file that has clusters. */
  predicate HasFile(s: Slot) {
    Live(s) && !IsDirectory(InfoOf(s)) && FirstCluster(s) != 0
  }

  predicate HasDir(s: Slot) {
    Live(s) && IsDirectory(InfoOf(s))
  }

  /** Slot `i` of the directory at `d` belongs to a file with clusters. */
  ghost predicate FileAt(t: Table, data: Data, d: uint32, i: nat) {
    i < |SlotsAt(t, data, d)| && HasFile(SlotsAt(t, data, d)[i])
  }

  ghost function FileHead(t: Table, data: Data, d: uint32, i: nat): uint32 {
    if i < |SlotsAt(t, data, d)| then FirstCluster(SlotsAt(t, data, d)[i]) else 0
  }

  /** Every directory is a chain of its own whose slots form a map, and leads only to other directories of the set. */
  ghost predicate SoundDirs(t: Table, data: Data, dirs: set<uint32>) {
    && (forall d | d in dirs :: 2 <= d && ChainOf(t, d) != [] && WellFormed(SlotsAt(t, data, d)))
    && (forall d, e | d in dirs && e in dirs && d != e :: Disjoint(ChainOf(t, d), ChainOf(t, e)))
    && (forall d, i | d in dirs && 0 <= i < |SlotsAt(t, data, d)| && HasDir(SlotsAt(t, data, d)[i]) ::
          FirstCluster(SlotsAt(t, data, d)[i]) in dirs || FirstCluster(SlotsAt(t, data, d)[i]) == 0)
  }

  /** Every file is a chain of its own, apart from all directories and all other files. */
  ghost predicate SoundFiles(t: Table, data: Data, dirs: set<uint32>) {
    && (forall d, i: nat | d in dirs && FileAt(t, data, d, i) ::
          ChainOf(t, FileHead(t, data, d, i)) != [] && ApartFromDirs(t, dirs, FileHead(t, data, d, i)))
    && (forall d, i: nat, e, j: nat | d in dirs && FileAt(t, data, d, i) && e in dirs && FileAt(t, data, e, j)
        && (d, i) != (e, j) ::
          Disjoint(ChainOf(t, FileHead(t, data, d, i)), ChainOf(t, FileHead(t, data, e, j))))
  }

  ghost predicate ApartFromDirs(t: Table, dirs: set<uint32>, c: uint32) {
    forall d | d in dirs :: Disjoint(ChainOf(t, c), ChainOf(t, d)) && Disjoint(ChainOf(t, d), ChainOf(t, c))
  }

  /** The chain of an open file is apart from all directories and from every file but its own. */
  ghost predicate Held(t: Table, data: Data, dirs: set<uint32>, h: uint32) {
    && ChainOf(t, h) != []
    && ApartFromDirs(t, dirs, h)
    && forall d, i: nat | d in dirs && FileAt(t, data, d, i) && FileHead(t, data, d, i) != h ::
         Disjoint(ChainOf(t, h), ChainOf(t, FileHead(t, data, d, i)))
  }

  ghost predicate Sound(t: Table, data: Data, dirs: set<uint32>, heads: set<uint32>) {
    && |t| == |data| <= BAD_CLUSTER
    && SoundDirs(t, data, dirs)
    && SoundFiles(t, data, dirs)
    && (forall h | h in heads :: Held(t, data, dirs, h))
    && (forall g, h | g in heads && h in heads && g != h :: Disjoint(ChainOf(t, g), ChainOf(t, h)))
  }

  lemma DisjointSym(a: Chain, b: Chain)
    requires Disjoint(a, b)
    ensures Disjoint(b, a)
  {}

  // ----- Growing, starting or freeing one chain

  /**
   * The chain `ch` became `ch'`, taking only clusters that were free; nothing else changed.
   * An empty `ch` is a chain just started, an empty `ch'` one given back.
   */
  ghost predicate Regrown(t: Table, data: Data, t': Table, data': Data, ch: Chain, ch': Chain) {
    && |t'| == |t| == |data| == |data'|
    && (forall c | c in ch' :: c in ch || (c < |t| && t[c] == FREE_CLUSTER))
    && (forall c: uint32 | c < |t| && c !in ch && c !in ch' :: t'[c] == t[c] && data'[c] == data[c])
  }

  /** A chain disjoint from the one that changed is as it was, bytes included. */
  lemma OtherKept(t: Table, data: Data, t': Table, data': Data, ch: Chain, ch': Chain, c: uint32)
    requires Regrown(t, data, t', data', ch, ch') && ChainOf(t, c) != [] && Disjoint(ChainOf(t, c), ch)
    ensures ChainOf(t', c) == ChainOf(t, c)
    ensures Disjoint(ChainOf(t, c), ch') && Disjoint(ch', ChainOf(t, c))
    ensures DirSlots(data', ChainOf(t, c)) == DirSlots(data, ChainOf(t, c))
    ensures Content(data', ChainOf(t, c)) == Content(data, ChainOf(t, c))
  {
    var o := ChainOf(t, c);
    forall x | x in o ensures x < |t| && x !in ch' && t'[x] == t[x] && data'[x] == data[x] {
      ChainUsed(t, o, x);
    }
    ChainFrame(t, t', o);
    ChainOfIs(t', o);
    DirSlotsFrame(data, data', o);
    ContentFrame(data, data', o);
  }

  lemma DirsKept(t: Table, data: Data, t': Table, data': Data, ch: Chain, ch': Chain, dirs: set<uint32>)
    requires Regrown(t, data, t', data', ch, ch') && SoundDirs(t, data, dirs)
    requires forall d | d in dirs :: Disjoint(ChainOf(t, d), ch)
    ensures forall d | d in dirs :: ChainOf(t', d) == ChainOf(t, d) && SlotsAt(t', data', d) == SlotsAt(t, data, d)
    ensures forall d | d in dirs :: Disjoint(ChainOf(t, d), ch') && Disjoint(ch', ChainOf(t, d))
    ensures SoundDirs(t', data', dirs)
  {
    hide WellFormed, DirSlots;
    forall d | d in dirs
      ensures ChainOf(t', d) == ChainOf(t, d) && SlotsAt(t', data', d) == SlotsAt(t, data, d)
      ensures Disjoint(ChainOf(t, d), ch') && Disjoint(ch', ChainOf(t, d))
    {
      OtherKept(t, data, t', data', ch, ch', d);
    }
  }

  /** The situation of `RegrowKeeps`: only the handle at `h` and the slot of its file know the chain `ch`. */
  ghost predicate Regrowing(t: Table, data: Data, t': Table, data': Data, dirs: set<uint32>, heads: set<uint32>,
                            h: uint32, ch: Chain, ch': Chain)
  {
    && Sound(t, data, dirs, heads) && Regrown(t, data, t', data', ch, ch')
    && (if h in heads then ch == ChainOf(t, h) else ch == [])
    && (if ch' == [] then forall d, i: nat | d in dirs && FileAt(t, data, d, i) :: FileHead(t, data, d, i) != h
        else IsChain(t', ch') && ch'[0] == h && (ch == [] ==> h < |t| && t[h] == FREE_CLUSTER))
  }

  lemma RegrowDirs(t: Table, data: Data, t': Table, data': Data, dirs: set<uint32>, heads: set<uint32>,
                   h: uint32, ch: Chain, ch': Chain)
    requires Regrowing(t, data, t', data', dirs, heads, h, ch, ch')
    ensures SoundDirs(t', data', dirs)
    ensures ch' != [] ==> ChainOf(t', h) == ch' && ApartFromDirs(t', dirs, h)
    ensures forall d | d in dirs :: ChainOf(t', d) == ChainOf(t, d) && SlotsAt(t', data', d) == SlotsAt(t, data, d)
  {
    hide WellFormed, DirSlots, IsChain, SoundDirs, SoundFiles;
    DirsKept(t, data, t', data', ch, ch', dirs);
    if ch' != [] {
      ChainOfIs(t', ch');
    }
  }

  /** A file other than the one at `h` keeps its chain, apart from the new one. */
  lemma RegrowFile(t: Table, data: Data, t': Table, data': Data, dirs: set<uint32>, heads: set<uint32>,
                   h: uint32, ch: Chain, ch': Chain, d: uint32, i: nat)
    requires Regrowing(t, data, t', data', dirs, heads, h, ch, ch')
    requires d in dirs && FileAt(t', data', d, i)
    ensures FileAt(t, data, d, i) && FileHead(t', data', d, i) == FileHead(t, data, d, i)
    ensures var c := FileHead(t', data', d, i);
      if c == h then ch' != [] && ch != []
      else
        && ChainOf(t', c) == ChainOf(t, c) != []
        && Disjoint(ChainOf(t', c), ch') && Disjoint(ch', ChainOf(t', c))
        && ApartFromDirs(t', dirs, c)
  {
    hide WellFormed, DirSlots, IsChain, SoundDirs;
    RegrowDirs(t, data, t', data', dirs, heads, h, ch, ch');
    var c := FileHead(t, data, d, i);
    if c != h {
      OtherKept(t, data, t', data', ch, ch', c);
    } else {
      HeadUsed(t, h);
    }
  }

  lemma HeadUsed(t: Table, c: uint32)
    requires ChainOf(t, c) != []
    ensures c in ChainOf(t, c) && c < |t| && t[c] != FREE_CLUSTER
  {
    ChainUsed(t, ChainOf(t, c), c);
  }

  lemma RegrowFiles(t: Table, data: Data, t': Table, data': Data, dirs: set<uint32>, heads: set<uint32>,
                    h: uint32, ch: Chain, ch': Chain)
    requires Regrowing(t, data, t', data', dirs, heads, h, ch, ch')
    ensures SoundFiles(t', data', dirs)
  {
    hide WellFormed, DirSlots, IsChain, SoundDirs, Regrowing, FileAt, FileHead, ApartFromDirs;
    RegrowDirs(t, data, t', data', dirs, heads, h, ch, ch');
    forall d, i: nat | d in dirs && FileAt(t', data', d, i)
      ensures ChainOf(t', FileHead(t', data', d, i)) != [] && ApartFromDirs(t', dirs, FileHead(t', data', d, i))
    {
      RegrowFile(t, data, t', data', dirs, heads, h, ch, ch', d, i);
    }
    forall d, i: nat, e, j: nat | d in dirs && FileAt(t', data', d, i) && e in dirs && FileAt(t', data', e, j)
        && (d, i) != (e, j)
      ensures Disjoint(ChainOf(t', FileHead(t', data', d, i)), ChainOf(t', FileHead(t', data', e, j)))
    {
      RegrowFile(t, data, t', data', dirs, heads, h, ch, ch', d, i);
      RegrowFile(t, data, t', data', dirs, heads, h, ch, ch', e, j);
      FilesDiffer(t, data, t', data', dirs, heads, h, ch, ch', d, i, e, j);
    }
  }

  /** Two slots of the old volume never share a head. */
  lemma FilesDiffer(t: Table, data: Data, t': Table, data': Data, dirs: set<uint32>, heads: set<uint32>,
                    h: uint32, ch: Chain, ch': Chain, d: uint32, i: nat, e: uint32, j: nat)
    requires Regrowing(t, data, t', data', dirs, heads, h, ch, ch')
    requires d in dirs && FileAt(t, data, d, i) && e in dirs && FileAt(t, data, e, j) && (d, i) != (e, j)
    ensures FileHead(t, data, d, i) != FileHead(t, data, e, j)
    ensures Disjoint(ChainOf(t, FileHead(t, data, d, i)), ChainOf(t, FileHead(t, data, e, j)))
  {
    HeadUsed(t, FileHead(t, data, d, i));
  }

  lemma RegrowHeld(t: Table, data: Data, t': Table, data': Data, dirs: set<uint32>, heads: set<uint32>,
                   h: uint32, ch: Chain, ch': Chain, g: uint32)
    requires Regrowing(t, data, t', data', dirs, heads, h, ch, ch')
    requires if g == h then ch' != [] else g in heads
    ensures Held(t', data', dirs, g)
    ensures g != h ==> ChainOf(t', g) == ChainOf(t, g) && Disjoint(ChainOf(t', g), ch') && Disjoint(ch', ChainOf(t', g))
  {
    hide WellFormed, DirSlots, IsChain, SoundDirs, FileAt, FileHead;
    RegrowDirs(t, data, t', data', dirs, heads, h, ch, ch');
    if g != h {
      OtherKept(t, data, t', data', ch, ch', g);
    }
    forall d, i: nat | d in dirs && FileAt(t', data', d, i) && FileHead(t', data', d, i) != g
      ensures Disjoint(ChainOf(t', g), ChainOf(t', FileHead(t', data', d, i)))
    {
      RegrowFile(t, data, t', data', dirs, heads, h, ch, ch', d, i);
    }
  }

  /** Regrowing one chain keeps the volume in order. */
  lemma RegrowKeeps(t: Table, data: Data, t': Table, data': Data, dirs: set<uint32>, heads: set<uint32>,
                    h: uint32, ch: Chain, ch': Chain)
    requires Regrowing(t, data, t', data', dirs, heads, h, ch, ch')
    ensures Sound(t', data', dirs, if ch' == [] then heads - {h} else heads + {h})
  {
    hide WellFormed, DirSlots, IsChain, SoundDirs, SoundFiles, Held, Regrowing;
    RegrowDirs(t, data, t', data', dirs, heads, h, ch, ch');
    RegrowFiles(t, data, t', data', dirs, heads, h, ch, ch');
    var heads' := if ch' == [] then heads - {h} else heads + {h};
    forall g | g in heads'
      ensures Held(t', data', dirs, g)
      ensures g != h ==>
                ChainOf(t', g) == ChainOf(t, g) && Disjoint(ChainOf(t', g), ch') && Disjoint(ch', ChainOf(t', g))
    {
      RegrowHeld(t, data, t', data', dirs, heads, h, ch, ch', g);
    }
    RegrowingFacts(t, data, t', data', dirs, heads, h, ch, ch');
  }

  lemma RegrowingFacts(t: Table, data: Data, t': Table, data': Data, dirs: set<uint32>, heads: set<uint32>,
                       h: uint32, ch: Chain, ch': Chain)
    requires Regrowing(t, data, t', data', dirs, heads, h, ch, ch')
    ensures |t'| == |data'| <= BAD_CLUSTER
    ensures forall f, g | f in heads && g in heads && f != g :: Disjoint(ChainOf(t, f), ChainOf(t, g))
  {}

  // ----- Handles

  /** A file of the volume may be opened, and one that no slot knows any more may be given back. */
  lemma AdoptHead(t: Table, data: Data, dirs: set<uint32>, heads: set<uint32>, h: uint32)
    requires Sound(t, data, dirs, heads) && Held(t, data, dirs, h)
    requires forall g | g in heads && g != h :: Disjoint(ChainOf(t, g), ChainOf(t, h))
    ensures Sound(t, data, dirs, heads + {h})
  {
    hide SoundDirs, SoundFiles, Held;
  }

  /** The chain of any file is held apart, also from the chains of all other open files. */
  lemma FileIsHeld(t: Table, data: Data, dirs: set<uint32>, heads: set<uint32>, d: uint32, i: nat)
    requires Sound(t, data, dirs, heads) && d in dirs && FileAt(t, data, d, i)
    ensures Held(t, data, dirs, FileHead(t, data, d, i))
    ensures forall g | g in heads
        && g != FileHead(t, data, d, i) :: Disjoint(ChainOf(t, g), ChainOf(t, FileHead(t, data, d, i)))
  {
    var h := FileHead(t, data, d, i);
    forall e, j: nat | e in dirs && FileAt(t, data, e, j) && FileHead(t, data, e, j) != h
      ensures Disjoint(ChainOf(t, h), ChainOf(t, FileHead(t, data, e, j)))
    {
      assert (d, i) != (e, j);
    }
  }

  // ----- Changes of single slots

  /** A new slot that leads, if to a directory at all, to one of the set keeps the directories in order. */
  lemma SlotDirs(t: Table, data: Data, data': Data, dirs: set<uint32>, d: uint32, i: nat, s: Slot)
    requires |t| == |data| && SoundDirs(t, data, dirs) && d in dirs && OneSlotChanged(t, data, data', d, i, s)
    requires WellFormed(SlotsAt(t, data, d)[i := s])
    requires HasDir(s) ==> FirstCluster(s) in dirs || FirstCluster(s) == 0
    ensures SoundDirs(t, data', dirs)
    ensures forall e | e in dirs && e != d :: SlotsAt(t, data', e) == SlotsAt(t, data, e)
  {
    hide WellFormed, DirSlots, HasDir, FirstCluster;
    forall e | e in dirs && e != d ensures SlotsAt(t, data', e) == SlotsAt(t, data, e) {
      OtherDirKept(t, data, data, data', dirs, d, i, s, e);
    }
    SlotsAfterChange(t, data, data', d, i, s);
  }

  /** Another directory keeps its slots, whatever state `base` shows the directories to be chains of their own. */
  lemma OtherDirKept(t: Table, base: Data, data: Data, data': Data, dirs: set<uint32>, d: uint32, i: nat, s: Slot,
      e: uint32)
    requires |t| == |data| && SoundDirs(t, base, dirs) && OneSlotChanged(t, data, data', d, i, s)
    requires d in dirs && e in dirs && e != d
    ensures SlotsAt(t, data', e) == SlotsAt(t, data, e)
  {
    hide WellFormed, DirSlots, HasDir, FirstCluster;
    assert Disjoint(ChainOf(t, e), ChainOf(t, d));
    DirSlotsFrame(data, data', ChainOf(t, e));
  }

  lemma SlotsAfterChange(t: Table, data: Data, data': Data, d: uint32, i: nat, s: Slot)
    requires OneSlotChanged(t, data, data', d, i, s)
    ensures |data'| == |data| && i < |SlotsAt(t, data, d)|
    ensures SlotsAt(t, data', d) == SlotsAt(t, data, d)[i := s]
  {}

  /** Which files there are after a slot changed. */
  lemma FileAfterChange(t: Table, data: Data, data': Data, dirs: set<uint32>, d: uint32, i: nat, s: Slot, e: uint32,
      j: nat)
    requires |t| == |data| && SoundDirs(t, data, dirs) && d in dirs && e in dirs
        && OneSlotChanged(t, data, data', d, i, s)
    requires WellFormed(SlotsAt(t, data, d)[i := s])
    requires HasDir(s) ==> FirstCluster(s) in dirs || FirstCluster(s) == 0
    ensures (e, j) == (d, i) ==> FileAt(t, data', e, j) == HasFile(s) && FileHead(t, data', e, j) == FirstCluster(s)
    ensures (e, j) != (d, i) ==>
              FileAt(t, data', e, j) == FileAt(t, data, e, j) && FileHead(t, data', e, j) == FileHead(t, data, e, j)
  {
    hide WellFormed, DirSlots, HasFile, HasDir, FirstCluster, SoundDirs;
    SlotDirs(t, data, data', dirs, d, i, s);
  }

  /**
   * When every file slot of the changed directories comes from a file slot of its own with the
   * same chain, the volume stays in order.
   */
  lemma OriginKeeps(t: Table, data: Data, data': Data, dirs: set<uint32>, heads: set<uint32>,
      origin: (uint32, nat) -> (uint32, nat))
    requires Sound(t, data, dirs, heads) && |data'| == |data| && SoundDirs(t, data', dirs)
    requires forall d, i: nat | d in dirs && FileAt(t, data', d, i) ::
               var o := origin(d, i);
               o.0 in dirs && FileAt(t, data, o.0, o.1) && FileHead(t, data, o.0, o.1) == FileHead(t, data', d, i)
    requires forall d, i: nat, e, j: nat | d in dirs && FileAt(t, data', d, i) && e in dirs && FileAt(t, data', e, j)
        && (d, i) != (e, j) ::
               origin(d, i) != origin(e, j)
    ensures Sound(t, data', dirs, heads)
  {
    hide SoundDirs, FileAt, FileHead, Disjoint, ApartFromDirs;
    forall d, i: nat | d in dirs && FileAt(t, data', d, i)
      ensures ChainOf(t, FileHead(t, data', d, i)) != [] && ApartFromDirs(t, dirs, FileHead(t, data', d, i))
    {
      var o := origin(d, i);
    }
    forall d, i: nat, e, j: nat | d in dirs && FileAt(t, data', d, i) && e in dirs && FileAt(t, data', e, j)
        && (d, i) != (e, j)
      ensures Disjoint(ChainOf(t, FileHead(t, data', d, i)), ChainOf(t, FileHead(t, data', e, j)))
    {
      var o, p := origin(d, i), origin(e, j);
      assert o != p;
    }
    forall h | h in heads ensures Held(t, data', dirs, h) {
      forall d, i: nat | d in dirs && FileAt(t, data', d, i) && FileHead(t, data', d, i) != h
        ensures Disjoint(ChainOf(t, h), ChainOf(t, FileHead(t, data', d, i)))
      {
        var o := origin(d, i);
      }
    }
  }

  /** Deleting a slot, or storing one without clusters, keeps the volume in order. */
  lemma PlainSlotKeeps(t: Table, data: Data, data': Data, dirs: set<uint32>, heads: set<uint32>, d: uint32, i: nat,
      s: Slot)
    requires Sound(t, data, dirs, heads) && d in dirs && OneSlotChanged(t, data, data', d, i, s)
    requires WellFormed(SlotsAt(t, data, d)[i := s]) && !HasFile(s)
    requires HasDir(s) ==> FirstCluster(s) in dirs || FirstCluster(s) == 0
    ensures Sound(t, data', dirs, heads)
  {
    hide WellFormed, DirSlots, HasDir, HasFile, FirstCluster, SoundDirs, SoundFiles, Held, OneSlotChanged, FileAt,
         FileHead;
    SlotDirs(t, data, data', dirs, d, i, s);
    forall e, j: nat | e in dirs && FileAt(t, data', e, j)
      ensures FileAt(t, data, e, j) && FileHead(t, data, e, j) == FileHead(t, data', e, j)
    {
      FileAfterChange(t, data, data', dirs, d, i, s, e, j);
    }
    OneSlotSize(t, data, data', d, i, s);
    OriginKeeps(t, data, data', dirs, heads, (e, j) => (e, j));
  }

  lemma OneSlotSize(t: Table, data: Data, data': Data, d: uint32, i: nat, s: Slot)
    requires OneSlotChanged(t, data, data', d, i, s)
    ensures |data'| == |data|
  {}

  // ----- Moving a slot

  /** Every slot of the directories is as it was, or no longer live, or the copy `s` at `(e, j)`. */
  ghost predicate CopiedTo(t: Table, data: Data, data': Data, dirs: set<uint32>, e: uint32, j: nat, s: Slot) {
    forall f, n: nat | f in dirs && n < |SlotsAt(t, data', f)| :: SlotKept(t, data, data', f, n) || (
      f == e && n == j && SlotsAt(t, data', f)[n] == s)
  }

  ghost predicate SlotKept(t: Table, data: Data, data': Data, f: uint32, n: nat) {
    n < |SlotsAt(t, data', f)| ==>
      || !Live(SlotsAt(t, data', f)[n])
      || (n < |SlotsAt(t, data, f)| && SlotsAt(t, data', f)[n] == SlotsAt(t, data, f)[n])
  }

  /** The slot `s` was copied from `(d, i)` to the unused slot `(e, j)`, with the same chain behind it. */
  ghost predicate Moved(t: Table, data: Data, data': Data, dirs: set<uint32>, heads: set<uint32>,
                        d: uint32, i: nat, e: uint32, j: nat, s: Slot)
  {
    && Sound(t, data, dirs, heads) && |data'| == |data| && d in dirs && e in dirs && (d, i) != (e, j)
    && i < |SlotsAt(t, data, d)| && j < |SlotsAt(t, data, e)| && !Live(SlotsAt(t, data, e)[j])
    && CopiedTo(t, data, data', dirs, e, j, s)
    && FirstCluster(s) == FirstCluster(SlotsAt(t, data, d)[i])
    && (HasFile(s) ==> HasFile(SlotsAt(t, data, d)[i])) && (HasDir(s) ==> HasDir(SlotsAt(t, data, d)[i]))
  }

  /** Where a file slot of the final state comes from. */
  lemma MoveOrigin(t: Table, data: Data, data': Data, dirs: set<uint32>, heads: set<uint32>,
                   d: uint32, i: nat, e: uint32, j: nat, s: Slot, f: uint32, n: nat)
    requires Moved(t, data, data', dirs, heads, d, i, e, j, s) && f in dirs && FileAt(t, data', f, n)
    ensures var (o, m) := if (f, n) == (e, j) then (d, i) else (f, n);
      FileAt(t, data, o, m) && FileHead(t, data, o, m) == FileHead(t, data', f, n)
  {
    hide DirSlots, Sound, HasDir, FirstCluster;
    assert SlotKept(t, data, data', f, n) || (f == e && n == j && SlotsAt(t, data', f)[n] == s);
  }

  lemma MovedDirs(t: Table, data: Data, data': Data, dirs: set<uint32>, heads: set<uint32>,
                  d: uint32, i: nat, e: uint32, j: nat, s: Slot)
    requires Moved(t, data, data', dirs, heads, d, i, e, j, s)
    requires forall f | f in dirs :: WellFormed(SlotsAt(t, data', f))
    ensures SoundDirs(t, data', dirs)
  {
    hide DirSlots, WellFormed, SoundFiles, Held, FirstCluster, HasFile;
    forall f, n | f in dirs && 0 <= n < |SlotsAt(t, data', f)| && HasDir(SlotsAt(t, data', f)[n])
      ensures FirstCluster(SlotsAt(t, data', f)[n]) in dirs || FirstCluster(SlotsAt(t, data', f)[n]) == 0
    {
      assert SlotKept(t, data, data', f, n) || (f == e && n == j && SlotsAt(t, data', f)[n] == s);
    }
  }

  /** A chain that two file slots know breaks the order of the volume. */
  lemma TwiceKnown(t: Table, data: Data, dirs: set<uint32>, heads: set<uint32>, d: uint32, i: nat, e: uint32, j: nat)
    requires Sound(t, data, dirs, heads) && d in dirs && e in dirs && (d, i) != (e, j)
    requires FileAt(t, data, d, i) && FileAt(t, data, e, j)
    ensures FileHead(t, data, d, i) != FileHead(t, data, e, j)
  {
    hide SoundDirs, FileAt, FileHead;
    HeadUsed(t, FileHead(t, data, d, i));
  }

  /**
   * Copying a slot and freeing others: the volume stays in order exactly when names stay unique and
   * not both the slot and its copy are left with the file's chain.
   */
  lemma MoveExact(t: Table, data: Data, data': Data, dirs: set<uint32>, heads: set<uint32>,
                  d: uint32, i: nat, e: uint32, j: nat, s: Slot)
    requires Moved(t, data, data', dirs, heads, d, i, e, j, s)
    ensures Sound(t, data', dirs, heads) <==>
            && (forall f | f in dirs :: WellFormed(SlotsAt(t, data', f)))
            && !(FileAt(t, data', d, i) && FileAt(t, data', e, j))
  {
    hide WellFormed, DirSlots, SoundDirs, SoundFiles, Held, FileAt, FileHead, HasFile, HasDir, FirstCluster, CopiedTo;
    if Sound(t, data', dirs, heads) {
      forall f | f in dirs ensures WellFormed(SlotsAt(t, data', f)) {
        WellFormedAt(t, data', dirs, f);
      }
    }
    if FileAt(t, data', d, i) && FileAt(t, data', e, j) {
      MoveOrigin(t, data, data', dirs, heads, d, i, e, j, s, d, i);
      MoveOrigin(t, data, data', dirs, heads, d, i, e, j, s, e, j);
      if Sound(t, data', dirs, heads) {
        TwiceKnown(t, data', dirs, heads, d, i, e, j);
      }
    } else if forall f | f in dirs :: WellFormed(SlotsAt(t, data', f)) {
      MovedDirs(t, data, data', dirs, heads, d, i, e, j, s);
      var origin := (f: uint32, n: nat) => if (f, n) == (e, j) then (d, i) else (f, n);
      forall f, n: nat | f in dirs && FileAt(t, data', f, n)
        ensures var o := origin(f, n);
          o.0 in dirs && FileAt(t, data, o.0, o.1) && FileHead(t, data, o.0, o.1) == FileHead(t, data', f, n)
      {
        MoveOrigin(t, data, data', dirs, heads, d, i, e, j, s, f, n);
      }
      OriginKeeps(t, data, data', dirs, heads, origin);
    }
  }

  lemma WellFormedAt(t: Table, data: Data, dirs: set<uint32>, d: uint32)
    requires SoundDirs(t, data, dirs) && d in dirs
    ensures WellFormed(SlotsAt(t, data, d))
  {}

  /** Storing an open file's chain in its slot keeps the volume in order, when no other slot knows the chain. */
  lemma BindKeeps(t: Table, data: Data, data': Data, dirs: set<uint32>, heads: set<uint32>, d: uint32, i: nat, s: Slot)
    requires Sound(t, data, dirs, heads) && d in dirs && OneSlotChanged(t, data, data', d, i, s)
    requires WellFormed(SlotsAt(t, data, d)[i := s]) && HasFile(s) && FirstCluster(s) in heads
    requires forall e, j: nat | e in dirs && FileAt(t, data, e, j)
        && (e, j) != (d, i) :: FileHead(t, data, e, j) != FirstCluster(s)
    ensures Sound(t, data', dirs, heads)
  {
    hide WellFormed, DirSlots;
    SlotDirs(t, data, data', dirs, d, i, s);
    var h := FirstCluster(s);
    forall e, j: nat | e in dirs && FileAt(t, data', e, j)
      ensures if (e, j) == (d, i) then FileHead(t, data', e, j) == h
              else FileAt(t, data, e, j) && FileHead(t, data', e, j) == FileHead(t, data, e, j) != h
    {
      FileAfterChange(t, data, data', dirs, d, i, s, e, j);
    }
    BindFiles(t, data, data', dirs, heads, d, i, h);
  }

  lemma BindFiles(t: Table, data: Data, data': Data, dirs: set<uint32>, heads: set<uint32>, d: uint32, i: nat,
      h: uint32)
    requires Sound(t, data, dirs, heads) && |data'| == |data| && SoundDirs(t, data', dirs) && d in dirs && h in heads
    requires forall e, j: nat | e in dirs && FileAt(t, data', e, j) ::
               if (e, j) == (d, i) then FileHead(t, data', e, j) == h
               else FileAt(t, data, e, j) && FileHead(t, data', e, j) == FileHead(t, data, e, j) != h
    ensures Sound(t, data', dirs, heads)
  {
    hide SoundDirs, FileAt, FileHead, Disjoint, ApartFromDirs;
    forall e, j: nat, f, k: nat | e in dirs && FileAt(t, data', e, j) && f in dirs && FileAt(t, data', f, k)
        && (e, j) != (f, k)
      ensures Disjoint(ChainOf(t, FileHead(t, data', e, j)), ChainOf(t, FileHead(t, data', f, k)))
    {
      if (f, k) == (d, i) {
        DisjointSym(ChainOf(t, h), ChainOf(t, FileHead(t, data', e, j)));
      }
    }
    forall g | g in heads ensures Held(t, data', dirs, g) {
      BindHeld(t, data, data', dirs, heads, d, i, h, g);
    }
  }

  lemma BindHeld(t: Table, data: Data, data': Data, dirs: set<uint32>, heads: set<uint32>, d: uint32, i: nat,
      h: uint32, g: uint32)
    requires Sound(t, data, dirs, heads) && d in dirs && h in heads && g in heads
    requires forall e, j: nat | e in dirs && FileAt(t, data', e, j) ::
               if (e, j) == (d, i) then FileHead(t, data', e, j) == h
               else FileAt(t, data, e, j) && FileHead(t, data', e, j) == FileHead(t, data, e, j) != h
    ensures Held(t, data', dirs, g)
  {
    hide SoundDirs, SoundFiles, FileAt, FileHead, Disjoint, ApartFromDirs;
  }

  // ----- Deleting a file

  /** The table after giving back the file whose first cluster is `c`, if it has any. */
  ghost function Released(t: Table, c: uint32): Table {
    if c >= 2 then Freed(t, c) else t
  }

  /** A regular file at slot `i` of `d` that no handle holds. */
  ghost predicate Removable(t: Table, data: Data, dirs: set<uint32>, heads: set<uint32>, d: uint32, i: nat) {
    && Sound(t, data, dirs, heads) && d in dirs && i < |SlotsAt(t, data, d)|
    && Live(SlotsAt(t, data, d)[i]) && !HasDir(SlotsAt(t, data, d)[i])
    && FirstCluster(SlotsAt(t, data, d)[i]) !in heads
  }

  lemma RemovableChain(t: Table, data: Data, dirs: set<uint32>, heads: set<uint32>, d: uint32, i: nat)
    requires Removable(t, data, dirs, heads, d, i)
    ensures var c := FirstCluster(SlotsAt(t, data, d)[i]);
      if c == 0 then Released(t, c) == t && !FileAt(t, data, d, i)
      else
        && 2 <= c && FileAt(t, data, d, i) && c == FileHead(t, data, d, i)
        && ChainOf(t, c) != [] && WalkInRange(t, c)
        && Regrown(t, data, Released(t, c), data, ChainOf(t, c), [])
        && Free(Released(t, c)) == Free(t) + |ChainOf(t, c)|
  {
    var c := FirstCluster(SlotsAt(t, data, d)[i]);
    if c != 0 {
      assert FileAt(t, data, d, i);
      FreedChain(t, ChainOf(t, c));
      ChainFacts(t, ChainOf(t, c));
    }
  }

  /** Giving back a file leaves every directory as it was. */
  lemma ReleaseKeepsDirs(t: Table, data: Data, dirs: set<uint32>, heads: set<uint32>, d: uint32, i: nat)
    requires Removable(t, data, dirs, heads, d, i)
    ensures var t' := Released(t, FirstCluster(SlotsAt(t, data, d)[i]));
      && |t'| == |t|
      && forall e | e in dirs :: ChainOf(t', e) == ChainOf(t, e) && SlotsAt(t', data, e) == SlotsAt(t, data, e)
  {
    hide WellFormed, DirSlots, SoundDirs, Freed;
    RemovableChain(t, data, dirs, heads, d, i);
    var c := FirstCluster(SlotsAt(t, data, d)[i]);
    if c != 0 {
      DirsKept(t, data, Released(t, c), data, ChainOf(t, c), [], dirs);
    }
  }

  /** Releasing a file's chain and deleting its slot keeps the volume in order. */
  lemma RemoveKeeps(t: Table, data: Data, data': Data, dirs: set<uint32>, heads: set<uint32>, d: uint32, i: nat)
    requires Removable(t, data, dirs, heads, d, i)
    requires OneSlotChanged(t, data, data', d, i, DeleteSlot(SlotsAt(t, data, d)[i]))
    requires WellFormed(SlotsAt(t, data, d)[i := DeleteSlot(SlotsAt(t, data, d)[i])])
    ensures Sound(Released(t, FirstCluster(SlotsAt(t, data, d)[i])), data', dirs, heads)
  {
    hide WellFormed, DirSlots, SoundDirs, Freed, IsChain, WalkInRange, FreeCount;
    var s := DeleteSlot(SlotsAt(t, data, d)[i]);
    var c := FirstCluster(SlotsAt(t, data, d)[i]);
    assert !Live(s);
    PlainSlotKeeps(t, data, data', dirs, heads, d, i, s);
    RemovableChain(t, data, dirs, heads, d, i);
    if c != 0 {
      FileIsHeld(t, data, dirs, heads, d, i);
      forall e, j: nat | e in dirs && FileAt(t, data', e, j)
        ensures FileAt(t, data, e, j) && FileHead(t, data', e, j) == FileHead(t, data, e, j) != c
      {
        FileAfterChange(t, data, data', dirs, d, i, s, e, j);
        FilesApart(t, data, dirs, heads, d, i, e, j);
      }
      assert Held(t, data', dirs, c);
      AdoptHead(t, data', dirs, heads, c);
      var t' := Released(t, c);
      assert Regrown(t, data', t', data', ChainOf(t, c), []);
      RegrowKeeps(t, data', t', data', dirs, heads + {c}, c, ChainOf(t, c), []);
      assert heads + {c} - {c} == heads;
    }
  }

  /** Different files have different first clusters and disjoint chains. */
  lemma FilesApart(t: Table, data: Data, dirs: set<uint32>, heads: set<uint32>, d: uint32, i: nat, e: uint32, j: nat)
    requires Sound(t, data, dirs, heads)
    requires d in dirs && FileAt(t, data, d, i) && e in dirs && FileAt(t, data, e, j) && (d, i) != (e, j)
    ensures FileHead(t, data, d, i) != FileHead(t, data, e, j)
    ensures Disjoint(ChainOf(t, FileHead(t, data, d, i)), ChainOf(t, FileHead(t, data, e, j)))
  {
    HeadUsed(t, FileHead(t, data, d, i));
  }

  /** Every other file keeps its chain and its bytes through a deletion. */
  lemma RemoveFrames(t: Table, data: Data, data': Data, dirs: set<uint32>, heads: set<uint32>, d: uint32, i: nat,
      e: uint32, j: nat)
    requires Removable(t, data, dirs, heads, d, i)
    requires OneSlotChanged(t, data, data', d, i, DeleteSlot(SlotsAt(t, data, d)[i]))
    requires e in dirs && FileAt(t, data, e, j) && (e, j) != (d, i)
    ensures var c, t' := FileHead(t, data, e, j), Released(t, FirstCluster(SlotsAt(t, data, d)[i]));
      ChainOf(t', c) == ChainOf(t, c) && Content(data', ChainOf(t, c)) == Content(data, ChainOf(t, c))
  {
    hide WellFormed, DirSlots, SoundDirs, Freed, IsChain, WalkInRange, FreeCount;
    var c, mine := FileHead(t, data, e, j), FirstCluster(SlotsAt(t, data, d)[i]);
    RemovableChain(t, data, dirs, heads, d, i);
    if mine != 0 {
      FilesApart(t, data, dirs, heads, e, j, d, i);
      OtherKept(t, data, Released(t, mine), data, ChainOf(t, mine), [], c);
    }
    ContentFrame(data, data', ChainOf(t, c));
  }

  // ----- Writing to an open file

  /** What a write did to the table and the clusters is a regrowth of the file's chain. */
  lemma WriteRegrows(t: Table, data: Data, t': Table, data': Data, first: uint32, ch: Chain, m: nat, q: nat,
      w: seq<uint8>)
    requires |t| == |data| <= BAD_CLUSTER
    requires if first == 0 then LeastFree(t) != 0 else IsChain(t, ch) && ch[0] == first
    requires t' == FinalTable(t, first, ch, m)
    requires Written(data, data', FinalChain(t, first, ch, m), q, w)
    ensures var ch' := FinalChain(t, first, ch, m);
      && IsChain(t', ch') && ch'[0] == (if first == 0 then LeastFree(t) else first)
      && (first != 0 ==> ch <= ch')
      && Regrown(t, data, t', data', if first == 0 then [] else ch, ch')
      && Free(t') + |ch'| == Free(t) + (if first == 0 then 0 else |ch|)
  {
    hide Content, IsChain, FreeFrom, FreeCount, Grown;
    var t0, ch0 := StartTable(t, first), StartChain(t, first, ch);
    if first == 0 {
      StartsChain(t);
      FreeCountUpdate(t, 2, LeastFree(t), EOC);
    }
    GrownChain(t0, ch0, m);
    var ch' := FinalChain(t, first, ch, m);
    assert ch0 <= ch';
    forall c | c in ch' ensures (first != 0 && c in ch) || (c < |t| && t[c] == FREE_CLUSTER) {
      var i :| 0 <= i < |ch'| && ch'[i] == c;
      if i < |ch0| {
        assert ch'[i] == ch0[i];
      }
    }
    forall c: uint32 | c < |t| && c !in ch' ensures t'[c] == t[c] && data'[c] == data[c] {
      assert c !in ch'[|ch0| - 1..];
      assert first == 0 ==> ch'[0] == LeastFree(t);
    }
  }

  lemma StartsChain(t: Table)
    requires |t| <= BAD_CLUSTER && LeastFree(t) != 0
    ensures IsChain(Allocated(t), [LeastFree(t)]) && 2 <= LeastFree(t) < |t| && t[LeastFree(t)] == FREE_CLUSTER
  {}

  /** Writing through a handle keeps the volume in order; an empty file's first cluster joins the held chains. */
  lemma WriteKeeps(t: Table, data: Data, t': Table, data': Data, dirs: set<uint32>, heads: set<uint32>,
                   first: uint32, ch: Chain, m: nat, q: nat, w: seq<uint8>)
    requires Sound(t, data, dirs, heads)
    requires if first == 0 then LeastFree(t) != 0 else first in heads && IsChain(t, ch) && ch[0] == first
    requires t' == FinalTable(t, first, ch, m)
    requires Written(data, data', FinalChain(t, first, ch, m), q, w)
    ensures var h := if first == 0 then LeastFree(t) else first;
      Sound(t', data', dirs, heads + {h}) && ChainOf(t', h) == FinalChain(t, first, ch, m)
  {
    hide IsChain, SoundDirs, SoundFiles, FinalTable, FinalChain, Written, FreeFrom, FreeCount, Held;
    var h := if first == 0 then LeastFree(t) else first;
    var ch' := FinalChain(t, first, ch, m);
    WriteRegrows(t, data, t', data', first, ch, m, q, w);
    ChainOfIs(t', ch');
    if first == 0 {
      StartsChain(t);
      FreshHead(t, data, dirs, heads, h);
    } else {
      ChainOfIs(t, ch);
    }
    ChainFacts(t', ch');
    RegrowKeeps(t, data, t', data', dirs, heads, h, if first == 0 then [] else ch, ch');
  }

  /** A free cluster heads no held chain. */
  lemma FreshHead(t: Table, data: Data, dirs: set<uint32>, heads: set<uint32>, h: uint32)
    requires Sound(t, data, dirs, heads) && h < |t| && t[h] == FREE_CLUSTER
    ensures h !in heads
  {
    if h in heads {
      HeadUsed(t, h);
    }
  }
}
