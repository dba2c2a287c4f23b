/** What paths lead to after files were created, written or closed. */
module Lookups {
  import opened Bytes
  import opened Chains
  import opened Contents
  import opened DirMaps
  import opened Directories
  import opened Handles
  import opened Paths
  import opened ShortNames
  import opened Slots
  import opened Soundness
  import opened Tokens

  lemma SoundIsClosed(t: Table, data: Data, dirs: set<uint32>)
    requires SoundDirs(t, data, dirs)
    ensures Closed(t, data, dirs)
  {}

  /** Every lookup step that led to a directory still leads to the same one. */
  ghost predicate KeepsPaths(t: Table, data: Data, t': Table, data': Data, dirs: set<uint32>) {
    forall c: uint32, name: seq<uint8> | InTree(dirs, c) && Enter(t, data, c, name) >= 0 ::
      Enter(t', data', c, name) == Enter(t, data, c, name)
  }

  lemma {:induction false} ResolveKept(t: Table, data: Data, t': Table, data': Data, dirs: set<uint32>,
                                       c: uint32, names: seq<seq<uint8>>)
    requires Closed(t, data, dirs) && KeepsPaths(t, data, t', data', dirs) && InTree(dirs, c)
    requires Resolve(t, data, c, names) >= 0
    ensures Resolve(t', data', c, names) == Resolve(t, data, c, names)
    decreases |names|
  {
    hide Closed, Enter;
    if names != [] {
      EnterClosed(t, data, dirs, c, names[0]);
      ResolveKept(t, data, t', data', dirs, Enter(t, data, c, names[0]), names[1..]);
    }
  }

  /** Path resolution is stable under changes that keep every step. */
  lemma PathKept(t: Table, data: Data, t': Table, data': Data, dirs: set<uint32>, root: uint32, current: uint32,
      path: seq<uint8>)
    requires Closed(t, data, dirs) && KeepsPaths(t, data, t', data', dirs)
    requires InTree(dirs, root) && InTree(dirs, current)
    requires PathDir(t, data, root, current, path) >= 0
    ensures PathDir(t', data', root, current, path) == PathDir(t, data, root, current, path)
  {
    hide Closed, Enter, Resolve, KeepsPaths, Components, DirPart;
    ResolveKept(t, data, t', data', dirs, if path != []
        && path[0] == SLASH then root else current, Components(DirPart(path)));
  }

  /** Steps depend on the slots of the directories only. */
  lemma SameSlotsPaths(t: Table, data: Data, t': Table, data': Data, dirs: set<uint32>)
    requires forall d | d in dirs :: SlotsAt(t', data', d) == SlotsAt(t, data, d)
    ensures KeepsPaths(t, data, t', data', dirs)
  {
    hide DirSlots, Find;
    EmptyDirectory(t, data);
    EmptyDirectory(t', data');
  }

  lemma EmptyDirectory(t: Table, data: Data)
    ensures SlotsAt(t, data, 0) == []
  {}

  /** A change of one slot leaves all other directories alone. */
  lemma OtherDirectory(t: Table, data: Data, data': Data, dirs: set<uint32>, d: uint32, i: nat, s: Slot, e: uint32)
    requires SoundDirs(t, data, dirs) && d in dirs && e in dirs && e != d && OneSlotChanged(t, data, data', d, i, s)
    ensures SlotsAt(t, data', e) == SlotsAt(t, data, e)
  {
    hide WellFormed, DirSlots;
    assert Disjoint(ChainOf(t, e), ChainOf(t, d));
    DirSlotsFrame(data, data', ChainOf(t, e));
  }

  // ----- A new entry

  /** A lookup finds a new entry where it was stored, when it found nothing of that name before. */
  lemma {:induction false} FindInserted(slots: seq<Slot>, s: Slot, key: seq<uint8>, skipVolumes: bool)
    requires FindFree(slots) >= 0 && Find(slots, key, skipVolumes) < 0 && Hits(s, key, skipVolumes) && !IsEnd(s)
    ensures Find(slots[FindFree(slots) := s], key, skipVolumes) == FindFree(slots)
    decreases |slots|
  {
    hide Key, Hits;
    var j := FindFree(slots);
    if j > 0 {
      assert slots[j := s][1..] == slots[1..][j - 1 := s];
      FindInserted(slots[1..], s, key, skipVolumes);
    }
  }

  /** A step by the name of a file that was not there before leads nowhere, so a new entry disturbs no other step. */
  lemma InsertKeepsPaths(t: Table, data: Data, data': Data, dirs: set<uint32>, d: uint32, s: Slot)
    requires SoundDirs(t, data, dirs) && d in dirs && FindFree(SlotsAt(t, data, d)) >= 0
    requires OneSlotChanged(t, data, data', d, FindFree(SlotsAt(t, data, d)), s)
    requires !IsEnd(s) && Find(SlotsAt(t, data, d), Key(s), true) < 0
    ensures KeepsPaths(t, data, t, data', dirs)
  {
    hide DirSlots, Find, FindFree, SoundDirs, Key, IsDirectory;
    var slots := SlotsAt(t, data, d);
    forall c: uint32, name: seq<uint8> | InTree(dirs, c) && Enter(t, data, c, name) >= 0
      ensures Enter(t, data', c, name) == Enter(t, data, c, name)
    {
      EmptyEnter(t, data, name);
      if c != d {
        OtherDirectory(t, data, data', dirs, d, FindFree(slots), s, c);
      } else {
        FindAfterInsert(slots, FindFree(slots), s, UpperAll(name), true);
      }
    }
  }

  lemma EmptyEnter(t: Table, data: Data, name: seq<uint8>)
    ensures Enter(t, data, 0, name) == -1
  {}

  // ----- An entry with new fields

  /** Lookups depend on the names and kinds of the slots only. */
  lemma {:induction false} FindReplaced(slots: seq<Slot>, i: nat, s: Slot, key: seq<uint8>, skipVolumes: bool)
    requires i < |slots| && IsEnd(s) == IsEnd(slots[i]) && Key(s) == Key(slots[i])
    requires Compared(s, skipVolumes) == Compared(slots[i], skipVolumes)
    ensures Find(slots[i := s], key, skipVolumes) == Find(slots, key, skipVolumes)
    decreases |slots|
  {
    hide Key;
    if i > 0 {
      assert slots[i := s][1..] == slots[1..][i - 1 := s];
      FindReplaced(slots[1..], i - 1, s, key, skipVolumes);
    }
  }

  /** A new size or first cluster of a file disturbs no step. */
  lemma UpdateKeepsPaths(t: Table, data: Data, data': Data, dirs: set<uint32>, d: uint32, i: nat, size: uint32,
      first: uint32)
    requires SoundDirs(t, data, dirs) && d in dirs && i < |SlotsAt(t, data, d)|
    requires Live(SlotsAt(t, data, d)[i]) && !HasDir(SlotsAt(t, data, d)[i])
    requires OneSlotChanged(t, data, data', d, i, UpdateSlot(SlotsAt(t, data, d)[i], size, first))
    ensures KeepsPaths(t, data, t, data', dirs)
  {
    hide DirSlots, Find, SoundDirs, Key, UpdateSlot, Slots.FirstCluster;
    var slots := SlotsAt(t, data, d);
    var s := UpdateSlot(slots[i], size, first);
    UpdatedSlot(slots[i], size, first);
    forall c: uint32, name: seq<uint8> | InTree(dirs, c) && Enter(t, data, c, name) >= 0
      ensures Enter(t, data', c, name) == Enter(t, data, c, name)
    {
      EmptyEnter(t, data, name);
      if c != d {
        OtherDirectory(t, data, data', dirs, d, i, s, c);
      } else {
        FindReplaced(slots, i, s, UpperAll(name), true);
      }
    }
  }
}
