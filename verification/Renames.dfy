/** Moving a directory entry to a new name. */
module Renames {
  import opened Bytes
  import opened Chains
  import opened Contents
  import opened DirMaps
  import opened Directories
  import opened ShortNames
  import opened Slots
  import opened Soundness

  /** The slot a rename stores: the old entry under the new name. */
  function Renamed(s: Slot, name: seq<uint8>): Slot {
    MakeSlot(name, Attributes(s), FirstCluster(s), Size(s))
  }

  lemma RenamedIs(s: Slot, name: seq<uint8>)
    ensures var i := InfoOf(s); Renamed(s, name) == MakeSlot(name, i.attributes, i.firstCluster, i.size)
  {}

  /** The new slot is live under the new name and stands for the same file or directory. */
  lemma RenamedSlot(s: Slot, name: seq<uint8>)
    requires Live(s) && Storable(name)
    ensures var r := Renamed(s, name);
      && Live(r) && Key(r) == UpperAll(name) && InfoOf(r) == InfoOf(s).(name := UpperAll(name))
      && HasFile(r) == HasFile(s) && HasDir(r) == HasDir(s) && FirstCluster(r) == FirstCluster(s)
  {
    hide MakeSlot;
    MadeSlotLive(name, Attributes(s), FirstCluster(s), Size(s));
  }

  /** Slot `i` answers to `oldName`, volume labels included in the scan or not. */
  ghost predicate Answers(slots: seq<Slot>, oldName: seq<uint8>, i: int) {
    0 <= i < |slots| && i == Find(slots, UpperAll(oldName), true) == Find(slots, UpperAll(oldName), false)
  }

  lemma AnswersDelete(slots: seq<Slot>, name: seq<uint8>, i: int)
    requires WellFormed(slots) && Answers(slots, name, i)
    ensures Live(slots[i]) && Key(slots[i]) == UpperAll(name)
    ensures WellFormed(slots[i := DeleteSlot(slots[i])])
    ensures DirMap(slots[i := DeleteSlot(slots[i])]) == DirMap(slots) - {UpperAll(name)}
  {
    hide WellFormed;
    DeleteIsRemove(slots, UpperAll(name));
  }

  /** Storing the new slot in a directory that lacks the new name. */
  lemma InsertRenamed(to: seq<Slot>, s: Slot, name: seq<uint8>)
    requires WellFormed(to) && Live(s) && Storable(name) && Find(to, UpperAll(name), true) < 0 && FindFree(to) >= 0
    ensures var r := Renamed(s, name);
      && WellFormed(to[FindFree(to) := r])
      && DirMap(to[FindFree(to) := r]) == DirMap(to)[UpperAll(name) := InfoOf(s).(name := UpperAll(name))]
  {
    hide WellFormed, Find, FindFree, MakeSlot, DirMap;
    RenamedSlot(s, name);
    LookupIsMap(to, UpperAll(name));
    InsertIsUpdate(to, Renamed(s, name));
  }

  /** Within one directory the old slot still answers after the new one was stored. */
  lemma StillAnswers(slots: seq<Slot>, i: int, oldName: seq<uint8>, newName: seq<uint8>)
    requires WellFormed(slots) && Answers(slots, oldName, i) && Storable(newName)
    requires Find(slots, UpperAll(newName), true) < 0 && FindFree(slots) >= 0
    ensures var slots1 := slots[FindFree(slots) := Renamed(slots[i], newName)];
      FindFree(slots) != i && Answers(slots1, oldName, i) && slots1[i] == slots[i]
  {
    hide WellFormed, FindFree, MakeSlot, Key;
    RenamedSlot(slots[i], newName);
    var s := Renamed(slots[i], newName);
    FindAfterInsert(slots, FindFree(slots), s, UpperAll(oldName), false);
    FindAfterInsert(slots, FindFree(slots), s, UpperAll(oldName), true);
  }

  /** Renaming within one directory moves the entry from the old key to the new one. */
  lemma RenameMap(slots: seq<Slot>, i: int, oldName: seq<uint8>, newName: seq<uint8>)
    requires WellFormed(slots) && Answers(slots, oldName, i) && Storable(newName)
    requires Find(slots, UpperAll(newName), true) < 0 && FindFree(slots) >= 0
    ensures var slots2 := slots[FindFree(slots) := Renamed(slots[i], newName)][i := DeleteSlot(slots[i])];
      && WellFormed(slots2)
      && DirMap(slots2)
         == DirMap(slots)[UpperAll(newName) := InfoOf(slots[i]).(name := UpperAll(newName))] - {UpperAll(oldName)}
  {
    hide WellFormed, Find, FindFree, MakeSlot, DirMap, Key;
    AnswersDelete(slots, oldName, i);
    InsertRenamed(slots, slots[i], newName);
    StillAnswers(slots, i, oldName, newName);
    AnswersDelete(slots[FindFree(slots) := Renamed(slots[i], newName)], oldName, i);
  }

  // ----- Renaming to any name

  /** The slots after the first one of a name, volume labels included, is marked as free. */
  ghost function AfterDelete(slots: seq<Slot>, name: seq<uint8>): seq<Slot> {
    var k := Find(slots, UpperAll(name), false);
    if k >= 0 then slots[k := DeleteSlot(slots[k])] else slots
  }

  /** The slots after `fat32_rename` within one directory: the copy is stored, the first slot of the old name goes. */
  ghost function AfterRename(slots: seq<Slot>, i: int, oldName: seq<uint8>, newName: seq<uint8>): seq<Slot> {
    if 0 <= i < |slots| && FindFree(slots) >= 0 then
      AfterDelete(slots[FindFree(slots) := Renamed(slots[i], newName)], oldName)
    else slots
  }

  /** The copy is live unless the new name makes it read as free, and no end mark. */
  lemma RenamedKind(s: Slot, name: seq<uint8>)
    requires Live(s) && 0 !in name
    ensures var r := Renamed(s, name);
      !IsEnd(r) && (Live(r) <==> Compared(r, false)) && (Live(r) <==> (name != [] ==> name[0] != ENTRY_FREE))
      && Key(r) == Decode(Encode(name))
  {
    hide MakeSlot, Encode, Decode, Key;
    MadeLive(name, Attributes(s), FirstCluster(s), Size(s));
    MadeKey(name, Attributes(s), FirstCluster(s), Size(s));
    MakeSlotFields(name, Attributes(s), FirstCluster(s), Size(s));
  }

  lemma DeletedKind(s: Slot)
    ensures !Live(DeleteSlot(s)) && !IsEnd(DeleteSlot(s))
  {}

  lemma FreePlace(slots: seq<Slot>)
    requires FindFree(slots) >= 0
    ensures var j := FindFree(slots);
      && (IsEnd(slots[j]) || IsFree(slots[j])) && !Live(slots[j]) && forall k | 0 <= k < j :: !IsEnd(slots[k])
  {}

  lemma AfterRenameIs(slots: seq<Slot>, i: int, oldName: seq<uint8>, newName: seq<uint8>, k: int)
    requires 0 <= i < |slots| && FindFree(slots) >= 0
    requires 0 <= k == Find(slots[FindFree(slots) := Renamed(slots[i], newName)], UpperAll(oldName), false)
    ensures var slots1 := slots[FindFree(slots) := Renamed(slots[i], newName)];
      k < |slots1| && AfterRename(slots, i, oldName, newName) == slots1[k := DeleteSlot(slots1[k])]
  {
    hide Renamed, DeleteSlot, UpperAll;
  }

  /** Deleting keeps names unique. */
  lemma DeleteKeeps(slots: seq<Slot>, name: seq<uint8>)
    requires WellFormed(slots)
    ensures WellFormed(AfterDelete(slots, name))
  {
    hide WellFormed, Live, IsEnd, UpperAll, DeleteSlot;
    var k := Find(slots, UpperAll(name), false);
    if k >= 0 {
      DeletedKind(slots[k]);
      SetSlot(slots, k, DeleteSlot(slots[k]));
    }
  }

  /** A lookup's slot is live, and a scan with volume labels reaches it or one before it. */
  lemma LookupBehind(slots: seq<Slot>, name: seq<uint8>, i: int)
    requires 0 <= i == Find(slots, UpperAll(name), true)
    ensures i < |slots| && Live(slots[i]) && Key(slots[i]) == UpperAll(name)
    ensures var f := Find(slots, UpperAll(name), false);
      0 <= f <= i && Key(slots[f]) == UpperAll(name) && !IsEnd(slots[f]) && !IsFree(slots[f])
  {
    hide UpperAll, Key;
    FindBoth(slots, UpperAll(name));
  }

  lemma {:induction false} FindBoth(slots: seq<Slot>, key: seq<uint8>)
    ensures Find(slots, key, true) >= 0 ==> 0 <= Find(slots, key, false) <= Find(slots, key, true)
    decreases |slots|
  {
    hide Key;
    if slots != [] {
      FindBoth(slots[1..], key);
    }
  }

  /** A copy that does not answer to the old name: names stay unique exactly when it shadows none. */
  lemma RenameAway(slots: seq<Slot>, i: int, oldName: seq<uint8>, newName: seq<uint8>)
    requires WellFormed(slots) && 0 <= i == Find(slots, UpperAll(oldName), true)
    requires 0 !in newName && FindFree(slots) >= 0
    requires !Hits(Renamed(slots[i], newName), UpperAll(oldName), false)
    ensures WellFormed(AfterRename(slots, i, oldName, newName)) <==> !Shadowed(slots, newName)
  {
    hide MakeSlot, Encode, Decode, Key, DirMap, WellFormed, Live, IsEnd, IsFree, UpperAll, DeleteSlot, Find,
         FindFree, AfterRename, Renamed;
    var s, j, f := Renamed(slots[i], newName), FindFree(slots), Find(slots, UpperAll(oldName), false);
    var slots1 := slots[j := s];
    LookupBehind(slots, oldName, i);
    RenamedKind(slots[i], newName);
    FreePlace(slots);
    FindAfterInsert(slots, j, s, UpperAll(oldName), false);
    AfterRenameIs(slots, i, oldName, newName, f);
    RenamedExact(slots, i, newName);
    if Shadowed(slots, newName) {
      var h := KeyHasSlot(slots, Key(s));
      TwoOfOneKey(slots1[f := DeleteSlot(slots1[f])], h, j);
    } else {
      DeleteKeeps(slots1, oldName);
    }
  }

  lemma RenamedExact(slots: seq<Slot>, i: nat, newName: seq<uint8>)
    requires WellFormed(slots) && i < |slots| && Live(slots[i]) && 0 !in newName && FindFree(slots) >= 0
    ensures WellFormed(slots[FindFree(slots) := Renamed(slots[i], newName)]) <==> !Shadowed(slots, newName)
  {
    hide MakeSlot, WellFormed, FindFree, Shadowed;
    CreatedExact(slots, newName, Attributes(slots[i]), FirstCluster(slots[i]), Size(slots[i]));
  }

  lemma TwoOfOneKey(slots: seq<Slot>, i: nat, j: nat)
    requires i < |slots| && j < |slots| && i != j && Live(slots[i]) && Live(slots[j]) && Key(slots[i]) == Key(slots[j])
    ensures !WellFormed(slots)
  {
    hide Live, Key, EndClosed;
  }

  /** A copy under the old name itself: names stay unique exactly when the slot that goes is one of the two. */
  lemma RenameOnto(slots: seq<Slot>, i: int, oldName: seq<uint8>, newName: seq<uint8>)
    requires WellFormed(slots) && 0 <= i == Find(slots, UpperAll(oldName), true)
    requires 0 !in newName && FindFree(slots) >= 0
    requires Hits(Renamed(slots[i], newName), UpperAll(oldName), false)
    ensures var f := Find(slots, UpperAll(oldName), false);
      WellFormed(AfterRename(slots, i, oldName, newName)) <==> FindFree(slots) < f || f == i
  {
    hide MakeSlot, Encode, Decode, Key, DirMap, WellFormed, Live, IsEnd, IsFree, UpperAll, DeleteSlot, Find,
         FindFree, AfterRename, Renamed;
    var s, j, f := Renamed(slots[i], newName), FindFree(slots), Find(slots, UpperAll(oldName), false);
    LookupBehind(slots, oldName, i);
    RenamedKind(slots[i], newName);
    FreePlace(slots);
    NotEndAndUsed(slots, f, j);
    FindFirstOfTwo(slots, f, j, s, UpperAll(oldName));
    AfterRenameIs(slots, i, oldName, newName, if j < f then j else f);
    if j < f {
      DeletedKind(s);
      assert slots[j := s][j := DeleteSlot(s)] == slots[j := DeleteSlot(s)];
      SetSlot(slots, j, DeleteSlot(s));
    } else if f == i {
      DeletedKind(slots[i]);
      SecondStays(slots, i, j, s, oldName);
    } else {
      TwoOfOneKey(slots[j := s][f := DeleteSlot(slots[f])], i, j);
    }
  }

  lemma NotEndAndUsed(slots: seq<Slot>, f: nat, j: nat)
    requires f < |slots| && !IsEnd(slots[f]) && !IsFree(slots[f])
    requires j < |slots| && (IsEnd(slots[j]) || IsFree(slots[j]))
    ensures f != j
  {}

  lemma SecondStays(slots: seq<Slot>, i: nat, j: nat, s: Slot, oldName: seq<uint8>)
    requires WellFormed(slots) && Answers(slots, oldName, i) && i < j < |slots| && !Live(slots[j])
    requires forall k | 0 <= k < j :: !IsEnd(slots[k])
    requires !IsEnd(s) && Key(s) == UpperAll(oldName) && !IsEnd(DeleteSlot(slots[i])) && !Live(DeleteSlot(slots[i]))
    ensures WellFormed(slots[j := s][i := DeleteSlot(slots[i])])
  {
    hide Key, DirMap, WellFormed, Live, IsEnd, UpperAll, DeleteSlot, Find;
    var slots2 := slots[i := DeleteSlot(slots[i])];
    AnswersDelete(slots, oldName, i);
    assert slots[j := s][i := DeleteSlot(slots[i])] == slots2[j := s];
    forall k | 0 <= k < |slots2| && k != j && Live(slots2[k]) ensures Key(slots2[k]) != Key(s) {
      FindLive(slots2, k);
    }
    SetSlot(slots2, j, s);
  }

  /** Of two slots of one name a scan reaches the first. */
  lemma {:induction false} FindFirstOfTwo(slots: seq<Slot>, i: nat, j: nat, s: Slot, key: seq<uint8>)
    requires i < |slots| && j < |slots| && i != j && Find(slots, key, false) == i
    requires !IsEnd(s) && Hits(s, key, false)
    requires forall k | 0 <= k < j :: !IsEnd(slots[k])
    ensures Find(slots[j := s], key, false) == if j < i then j else i
    decreases |slots|
  {
    hide IsEnd, Hits;
    var slots1 := slots[j := s];
    if i > 0 && j > 0 {
      assert slots1[1..] == slots[1..][j - 1 := s];
      FindFirstOfTwo(slots[1..], i - 1, j - 1, s, key);
    }
  }

  /**
   * Renaming within a directory, to any name: names stay unique exactly when the copy shadows no entry,
   * or is stored under the old name again and no volume label is deleted in place of one of the two.
   */
  lemma RenameExact(slots: seq<Slot>, i: int, oldName: seq<uint8>, newName: seq<uint8>)
    requires WellFormed(slots) && 0 <= i == Find(slots, UpperAll(oldName), true)
    requires 0 !in newName && FindFree(slots) >= 0
    ensures var f := Find(slots, UpperAll(oldName), false);
      WellFormed(AfterRename(slots, i, oldName, newName)) <==>
      || !Shadowed(slots, newName)
      || (Decode(Encode(newName)) == UpperAll(oldName) && (FindFree(slots) < f || f == i))
  {
    hide Encode, Decode, Key, WellFormed, UpperAll, AfterRename, Renamed, IsEnd, DeleteSlot, Find, FindFree, InfoOf;
    LookupBehind(slots, oldName, i);
    RenamedKind(slots[i], newName);
    if Hits(Renamed(slots[i], newName), UpperAll(oldName), false) {
      RenameOnto(slots, i, oldName, newName);
      assert Key(slots[i]) in Keys(slots);
    } else {
      RenameAway(slots, i, oldName, newName);
    }
  }

  /** The copy stands for the same file or directory, when it is live. */
  lemma RenamedSame(s: Slot, name: seq<uint8>)
    ensures var r := Renamed(s, name);
      && FirstCluster(r) == FirstCluster(s)
      && (Live(s) ==> (HasFile(r) <==> Live(r) && HasFile(s)) && (HasDir(r) <==> Live(r) && HasDir(s)))
  {
    hide MakeSlot, Encode, Key;
    MakeSlotFields(name, Attributes(s), FirstCluster(s), Size(s));
  }

  /**
   * When a rename from one directory to another keeps order: the copy shadows no entry, and no volume
   * label is deleted in place of the old slot while the copy knows its chain.
   */
  ghost predicate KeepsAcross(from: seq<Slot>, to: seq<Slot>, i: int, oldName: seq<uint8>, newName: seq<uint8>) {
    && 0 <= i < |from| && !Shadowed(to, newName)
    && (Find(from, UpperAll(oldName), false) == i || !HasFile(Renamed(from[i], newName)))
  }

  /** The same within a directory, where the copy may also shadow the old slot, if one of the two goes. */
  ghost predicate KeepsWithin(slots: seq<Slot>, i: int, oldName: seq<uint8>, newName: seq<uint8>) {
    var f := Find(slots, UpperAll(oldName), false);
    && 0 <= i < |slots|
    && if Shadowed(slots, newName) then
         Decode(Encode(newName)) == UpperAll(oldName) && (FindFree(slots) < f || f == i)
       else f == i || !HasFile(Renamed(slots[i], newName))
  }

  lemma AcrossExact(from: seq<Slot>, to: seq<Slot>, i: int, oldName: seq<uint8>, newName: seq<uint8>)
    requires WellFormed(from) && WellFormed(to) && 0 <= i == Find(from, UpperAll(oldName), true)
    requires 0 !in newName && FindFree(to) >= 0
    ensures var j, from' := FindFree(to), AfterDelete(from, oldName);
      var to' := to[j := Renamed(from[i], newName)];
      && |from'| == |from| && WellFormed(from')
      && (WellFormed(to') && !(HasFile(from'[i]) && HasFile(to'[j])) <==> KeepsAcross(from, to, i, oldName, newName))
  {
    hide Encode, Decode, Key, DirMap, WellFormed, UpperAll, Renamed, IsEnd, DeleteSlot, Find, FindFree, Live, HasFile,
         MakeSlot;
    var f := Find(from, UpperAll(oldName), false);
    LookupBehind(from, oldName, i);
    DeleteKeeps(from, oldName);
    GoneSlot(from[f]);
    RenamedSame(from[i], newName);
    RenamedInto(to, from[i], newName);
  }

  lemma RenamedInto(to: seq<Slot>, s: Slot, newName: seq<uint8>)
    requires WellFormed(to) && Live(s) && 0 !in newName && FindFree(to) >= 0
    ensures WellFormed(to[FindFree(to) := Renamed(s, newName)]) <==> !Shadowed(to, newName)
  {
    hide MakeSlot, WellFormed, FindFree, Shadowed;
    CreatedExact(to, newName, Attributes(s), FirstCluster(s), Size(s));
  }

  /** Where the copy and the old slot are after a rename within a directory. */
  lemma WithinSlots(slots: seq<Slot>, i: int, oldName: seq<uint8>, newName: seq<uint8>)
    requires WellFormed(slots) && 0 <= i == Find(slots, UpperAll(oldName), true)
    requires 0 !in newName && FindFree(slots) >= 0
    ensures var j, s, slots' := FindFree(slots), Renamed(slots[i], newName), AfterRename(slots, i, oldName, newName);
      var f, hits := Find(slots, UpperAll(oldName), false), Hits(s, UpperAll(oldName), false);
      && |slots'| == |slots| && i != j && f != j && 0 <= f <= i < |slots|
      && slots' == slots[j := s][if hits && j < f then j else f := DeleteSlot(if hits && j < f then s else slots[f])]
  {
    hide MakeSlot, Encode, Decode, Key, DirMap, WellFormed, Live, IsEnd, IsFree, UpperAll, DeleteSlot, Find,
         FindFree, AfterRename, Renamed, Hits;
    var s, j, f := Renamed(slots[i], newName), FindFree(slots), Find(slots, UpperAll(oldName), false);
    LookupBehind(slots, oldName, i);
    RenamedKind(slots[i], newName);
    FreePlace(slots);
    NotEndAndUsed(slots, f, j);
    if Hits(s, UpperAll(oldName), false) {
      FindFirstOfTwo(slots, f, j, s, UpperAll(oldName));
      AfterRenameIs(slots, i, oldName, newName, if j < f then j else f);
    } else {
      FindAfterInsert(slots, j, s, UpperAll(oldName), false);
      AfterRenameIs(slots, i, oldName, newName, f);
    }
  }

  lemma WithinExact(slots: seq<Slot>, i: int, oldName: seq<uint8>, newName: seq<uint8>)
    requires WellFormed(slots) && 0 <= i == Find(slots, UpperAll(oldName), true)
    requires 0 !in newName && FindFree(slots) >= 0
    ensures var j, slots' := FindFree(slots), AfterRename(slots, i, oldName, newName);
      && |slots'| == |slots|
      && (WellFormed(slots') && !(HasFile(slots'[i]) && HasFile(slots'[j]))
          <==> KeepsWithin(slots, i, oldName, newName))
  {
    hide Encode, Decode, Key, DirMap, WellFormed, UpperAll, Renamed, IsEnd, IsFree, DeleteSlot, Find, FindFree, Live,
         HasFile, MakeSlot, AfterRename, Compared;
    var s, j, f := Renamed(slots[i], newName), FindFree(slots), Find(slots, UpperAll(oldName), false);
    LookupBehind(slots, oldName, i);
    RenamedKind(slots[i], newName);
    RenamedSame(slots[i], newName);
    WithinSlots(slots, i, oldName, newName);
    GoneSlot(s);
    GoneSlot(slots[f]);
    RenameExact(slots, i, oldName, newName);
    var slots' := AfterRename(slots, i, oldName, newName);
    if HasFile(slots'[i]) && HasFile(slots'[j]) && WellFormed(slots') && Key(s) == UpperAll(oldName) {
      FileLive(slots'[i]);
      FileLive(slots'[j]);
      TwoOfOneKey(slots', i, j);
    }
    KeyTaken(slots, i);
  }

  lemma FileLive(s: Slot)
    ensures HasFile(s) ==> Live(s)
  {}

  lemma KeyTaken(slots: seq<Slot>, i: nat)
    requires WellFormed(slots) && i < |slots| && Live(slots[i])
    ensures Key(slots[i]) in DirMap(slots)
  {
    FindLive(slots, i);
  }

  // ----- On a volume

  /** A rename of slot `i` of `d` that finds a slot for its copy in `e`. */
  ghost predicate RenameStarts(t: Table, data: Data, dirs: set<uint32>, heads: set<uint32>,
                               d: uint32, i: int, oldName: seq<uint8>, e: uint32, newName: seq<uint8>)
  {
    && Sound(t, data, dirs, heads) && d in dirs && e in dirs && 0 !in newName
    && 0 <= i == Find(SlotsAt(t, data, d), UpperAll(oldName), true) && FindFree(SlotsAt(t, data, e)) >= 0
  }

  /** What a rename leaves: the copy is stored, the first slot of the old name is freed, nothing else changes. */
  ghost predicate RenameLeaves(t: Table, data: Data, data': Data, dirs: set<uint32>, d: uint32, i: int,
                               oldName: seq<uint8>, e: uint32, newName: seq<uint8>)
  {
    var from, to := SlotsAt(t, data, d), SlotsAt(t, data, e);
    && 0 <= i < |from| && FindFree(to) >= 0 && |data'| == |data|
    && (d == e ==> SlotsAt(t, data', d) == AfterRename(from, i, oldName, newName))
    && (d != e ==> SlotsAt(t, data', d) == AfterDelete(from, oldName))
    && (d != e ==> SlotsAt(t, data', e) == to[FindFree(to) := Renamed(from[i], newName)])
    && (forall f | f in dirs && f != d && f != e :: SlotsAt(t, data', f) == SlotsAt(t, data, f))
    && forall c | 0 <= c < |data| && c !in DirChain(t, d) && c !in DirChain(t, e) :: data'[c] == data[c]
  }

  /** When a rename keeps the volume in order, see the two conditions. */
  ghost predicate RenameKeeps(t: Table, data: Data, d: uint32, i: int, oldName: seq<uint8>, e: uint32,
      newName: seq<uint8>)
  {
    if d == e then KeepsWithin(SlotsAt(t, data, d), i, oldName, newName)
    else KeepsAcross(SlotsAt(t, data, d), SlotsAt(t, data, e), i, oldName, newName)
  }

  /** After the copy is stored, a scan for the old name still finds something. */
  lemma StillFound(t: Table, data: Data, data1: Data, dirs: set<uint32>, heads: set<uint32>,
                   d: uint32, i: int, oldName: seq<uint8>, e: uint32, newName: seq<uint8>)
    requires RenameStarts(t, data, dirs, heads, d, i, oldName, e, newName) && i < |SlotsAt(t, data, d)|
    requires OneSlotChanged(t, data, data1, e, FindFree(SlotsAt(t, data, e)), Renamed(SlotsAt(t, data, d)[i], newName))
    ensures Find(SlotsAt(t, data1, d), UpperAll(oldName), false) >= 0
  {
    hide Find, FindFree, DirSlots, Renamed, DeleteSlot, UpperAll, WellFormed, HasDir, HasFile, Live, IsEnd, IsFree,
         Hits, Key, Encode, Decode, Sound, SoundDirs;
    var from, to := SlotsAt(t, data, d), SlotsAt(t, data, e);
    var j, s, f := FindFree(to), Renamed(from[i], newName), Find(from, UpperAll(oldName), false);
    SoundSize(t, data, dirs, heads);
    LookupBehind(from, oldName, i);
    if d != e {
      OtherDirKept(t, data, data, data1, dirs, e, j, s, d);
    } else {
      RenamedKind(from[i], newName);
      FreePlace(from);
      NotEndAndUsed(from, f, j);
      if Hits(s, UpperAll(oldName), false) {
        FindFirstOfTwo(from, f, j, s, UpperAll(oldName));
      } else {
        FindAfterInsert(from, j, s, UpperAll(oldName), false);
      }
      SlotsAfterChange(t, data, data1, d, j, s);
    }
  }

  /** The two steps on the slots of every directory. */
  lemma RenameSlots(t: Table, data: Data, data1: Data, data2: Data, dirs: set<uint32>, heads: set<uint32>,
                    d: uint32, i: int, oldName: seq<uint8>, e: uint32, newName: seq<uint8>)
    requires RenameStarts(t, data, dirs, heads, d, i, oldName, e, newName) && i < |SlotsAt(t, data, d)|
    requires OneSlotChanged(t, data, data1, e, FindFree(SlotsAt(t, data, e)), Renamed(SlotsAt(t, data, d)[i], newName))
    requires var slots1 := SlotsAt(t, data1, d); var k := Find(slots1, UpperAll(oldName), false);
      k >= 0 && OneSlotChanged(t, data1, data2, d, k, DeleteSlot(slots1[k]))
    ensures RenameLeaves(t, data, data2, dirs, d, i, oldName, e, newName)
  {
    hide Find, FindFree, DirSlots, MakeSlot, Renamed, DeleteSlot, UpperAll, WellFormed, HasDir, HasFile, SoundFiles,
         Held;
    var j, s := FindFree(SlotsAt(t, data, e)), Renamed(SlotsAt(t, data, d)[i], newName);
    var slots1 := SlotsAt(t, data1, d);
    var k := Find(slots1, UpperAll(oldName), false);
    SoundSize(t, data, dirs, heads);
    hide Sound, SoundDirs;
    forall f | f in dirs && f != e ensures SlotsAt(t, data1, f) == SlotsAt(t, data, f) {
      OtherDirKept(t, data, data, data1, dirs, e, j, s, f);
    }
    forall f | f in dirs && f != d ensures SlotsAt(t, data2, f) == SlotsAt(t, data1, f) {
      OtherDirKept(t, data, data1, data2, dirs, d, k, DeleteSlot(slots1[k]), f);
    }
  }

  /** The final slots are the old ones, the copy and freed ones. */
  lemma LeavesCopied(t: Table, data: Data, data': Data, dirs: set<uint32>, heads: set<uint32>,
                     d: uint32, i: int, oldName: seq<uint8>, e: uint32, newName: seq<uint8>)
    requires RenameStarts(t, data, dirs, heads, d, i, oldName, e, newName)
    requires RenameLeaves(t, data, data', dirs, d, i, oldName, e, newName)
    ensures var j, s := FindFree(SlotsAt(t, data, e)), Renamed(SlotsAt(t, data, d)[i], newName);
      Moved(t, data, data', dirs, heads, d, i, e, j, s)
  {
    hide Find, FindFree, DirSlots, Renamed, DeleteSlot, UpperAll, WellFormed, Live, HasDir, HasFile, Sound,
         FirstCluster, Encode, Decode, Key, AfterDelete, AfterRename, IsEnd, IsFree;
    var from, to := SlotsAt(t, data, d), SlotsAt(t, data, e);
    var j, s := FindFree(to), Renamed(from[i], newName);
    SoundSize(t, data, dirs, heads);
    WellFormedAt(t, data, dirs, d);
    LookupBehind(from, oldName, i);
    RenamedSame(from[i], newName);
    FreePlace(to);
    if d == e {
      WithinSlots(from, i, oldName, newName);
    }
    forall f, n: nat | f in dirs && n < |SlotsAt(t, data', f)|
      ensures SlotKept(t, data, data', f, n) || (f == e && n == j && SlotsAt(t, data', f)[n] == s)
    {
      LeavesCopiedAt(t, data, data', dirs, d, i, oldName, e, newName, f, n);
    }
  }

  lemma LeavesCopiedAt(t: Table, data: Data, data': Data, dirs: set<uint32>, d: uint32, i: int, oldName: seq<uint8>,
                       e: uint32, newName: seq<uint8>, f: uint32, n: nat)
    requires RenameLeaves(t, data, data', dirs, d, i, oldName, e, newName) && f in dirs
    requires WellFormed(SlotsAt(t, data, d)) && i == Find(SlotsAt(t, data, d), UpperAll(oldName), true) && 0 !in newName
    requires n < |SlotsAt(t, data', f)|
    ensures var j, s := FindFree(SlotsAt(t, data, e)), Renamed(SlotsAt(t, data, d)[i], newName);
      SlotKept(t, data, data', f, n) || (f == e && n == j && SlotsAt(t, data', f)[n] == s)
  {
    hide Find, FindFree, DirSlots, Renamed, DeleteSlot, UpperAll, WellFormed, Live, AfterDelete, AfterRename, SlotsAt,
         Encode, Decode, Key, Hits;
    var from := SlotsAt(t, data, d);
    LookupBehind(from, oldName, i);
    GoneSlot(from[Find(from, UpperAll(oldName), false)]);
    if f == d == e {
      WithinSlots(from, i, oldName, newName);
      GoneSlot(Renamed(from[i], newName));
    } else if f == d {
      DeletedOne(from, oldName);
    }
  }

  lemma DeletedOne(slots: seq<Slot>, name: seq<uint8>)
    requires Find(slots, UpperAll(name), false) >= 0
    ensures var k := Find(slots, UpperAll(name), false);
      k < |slots| && AfterDelete(slots, name) == slots[k := DeleteSlot(slots[k])]
  {}

  /** A rename keeps the volume in order exactly under its condition. */
  lemma RenameVolume(t: Table, data: Data, data': Data, dirs: set<uint32>, heads: set<uint32>,
                     d: uint32, i: int, oldName: seq<uint8>, e: uint32, newName: seq<uint8>)
    requires RenameStarts(t, data, dirs, heads, d, i, oldName, e, newName)
    requires RenameLeaves(t, data, data', dirs, d, i, oldName, e, newName)
    ensures Sound(t, data', dirs, heads) <==> RenameKeeps(t, data, d, i, oldName, e, newName)
  {
    hide Find, FindFree, DirSlots, Renamed, DeleteSlot, UpperAll, WellFormed, Live, HasDir, HasFile, Sound,
         FirstCluster, Encode, Decode, Key, AfterDelete, AfterRename, IsEnd, IsFree, SoundDirs,
         KeepsAcross, KeepsWithin, Moved;
    var from, to := SlotsAt(t, data, d), SlotsAt(t, data, e);
    SoundSize(t, data, dirs, heads);
    forall f | f in dirs ensures WellFormed(SlotsAt(t, data, f)) {
      WellFormedAt(t, data, dirs, f);
    }
    LeavesCopied(t, data, data', dirs, heads, d, i, oldName, e, newName);
    MoveExact(t, data, data', dirs, heads, d, i, e, FindFree(to), Renamed(from[i], newName));
    if d == e {
      WithinExact(from, i, oldName, newName);
    } else {
      AcrossExact(from, to, i, oldName, newName);
    }
  }

  /** What a move needs: the old entry, an absent storable name and a slot for it. */
  ghost predicate Startable(t: Table, data: Data, dirs: set<uint32>, heads: set<uint32>,
                            d: uint32, i: int, oldName: seq<uint8>, e: uint32, newName: seq<uint8>)
  {
    && Sound(t, data, dirs, heads) && d in dirs && e in dirs && Storable(newName)
    && Answers(SlotsAt(t, data, d), oldName, i)
    && Find(SlotsAt(t, data, e), UpperAll(newName), true) < 0 && FindFree(SlotsAt(t, data, e)) >= 0
  }

  /**
   * Slot `i` of `d` moved to the first reusable slot of `e` under a new name: nothing else in
   * either directory changed, and no other cluster did.
   */
  ghost predicate MovedSlot(t: Table, data: Data, data': Data, d: uint32, i: int, e: uint32, name: seq<uint8>) {
    var from, to := SlotsAt(t, data, d), SlotsAt(t, data, e);
    var j := FindFree(to);
    && 0 <= i < |from| && 0 <= j && (d, i) != (e, j) && |data'| == |data|
    && (d == e ==> SlotsAt(t, data', d) == from[j := Renamed(from[i], name)][i := DeleteSlot(from[i])])
    && (d != e ==> SlotsAt(t, data', d) == from[i := DeleteSlot(from[i])])
    && (d != e ==> SlotsAt(t, data', e) == to[j := Renamed(from[i], name)])
    && forall c | 0 <= c < |data| && c !in DirChain(t, d) && c !in DirChain(t, e) :: data'[c] == data[c]
  }

  lemma StartableFacts(t: Table, data: Data, dirs: set<uint32>, heads: set<uint32>,
                       d: uint32, i: nat, oldName: seq<uint8>, e: uint32, newName: seq<uint8>)
    requires Startable(t, data, dirs, heads, d, i, oldName, e, newName)
    ensures IsDir(t, d) && IsDir(t, e) && i < |SlotsAt(t, data, d)|
    ensures WellFormed(SlotsAt(t, data, d)) && WellFormed(SlotsAt(t, data, e)) && SoundDirs(t, data, dirs)
    ensures HasDir(SlotsAt(t, data, d)[i]) ==>
              FirstCluster(SlotsAt(t, data, d)[i]) in dirs || FirstCluster(SlotsAt(t, data, d)[i]) == 0
  {}

  /** To a storable, absent name, with no volume label in the way, a rename moves the slot and keeps the order. */
  lemma StartableMoves(t: Table, data: Data, data': Data, dirs: set<uint32>, heads: set<uint32>,
                       d: uint32, i: nat, oldName: seq<uint8>, e: uint32, newName: seq<uint8>)
    requires Startable(t, data, dirs, heads, d, i, oldName, e, newName)
    requires RenameLeaves(t, data, data', dirs, d, i, oldName, e, newName)
    ensures MovedSlot(t, data, data', d, i, e, newName) && RenameKeeps(t, data, d, i, oldName, e, newName)
  {
    hide Find, FindFree, DirSlots, Renamed, DeleteSlot, UpperAll, WellFormed, Live, HasDir, HasFile, Sound,
         FirstCluster, Encode, Decode, Key, AfterRename, IsEnd, IsFree, SoundDirs, Shadowed, Storable;
    var from, to := SlotsAt(t, data, d), SlotsAt(t, data, e);
    StartableFacts(t, data, dirs, heads, d, i, oldName, e, newName);
    StorableUnshadowed(to, newName);
    AnswersDelete(from, oldName, i);
    if d == e {
      StillAnswers(from, i, oldName, newName);
      AfterRenameIs(from, i, oldName, newName, i);
    } else {
      DeletedOne(from, oldName);
    }
  }

  lemma SoundSize(t: Table, data: Data, dirs: set<uint32>, heads: set<uint32>)
    requires Sound(t, data, dirs, heads)
    ensures |t| == |data| <= BAD_CLUSTER && SoundDirs(t, data, dirs)
  {}

  lemma GoneSlot(s: Slot)
    ensures !Live(DeleteSlot(s)) && !HasDir(DeleteSlot(s)) && !HasFile(DeleteSlot(s))
  {}

  /**
   * What a move does to the maps the directories stand for: the entry leaves the old name and
   * appears, with the same attributes, first cluster and size, under the new one.
   */
  lemma MovedMaps(t: Table, data: Data, data': Data, dirs: set<uint32>, heads: set<uint32>,
                  d: uint32, i: nat, oldName: seq<uint8>, e: uint32, newName: seq<uint8>)
    requires Startable(t, data, dirs, heads, d, i, oldName, e, newName)
    requires i < |SlotsAt(t, data, d)| && MovedSlot(t, data, data', d, i, e, newName)
    ensures var m, entry := DirMap(SlotsAt(t, data, e)), InfoOf(SlotsAt(t, data, d)[i]).(name := UpperAll(newName));
      if d == e then
        DirMap(SlotsAt(t, data', d)) == m[UpperAll(newName) := entry] - {UpperAll(oldName)}
      else
        && DirMap(SlotsAt(t, data', d)) == DirMap(SlotsAt(t, data, d)) - {UpperAll(oldName)}
        && DirMap(SlotsAt(t, data', e)) == m[UpperAll(newName) := entry]
  {
    hide Find, FindFree, DirSlots, MakeSlot, WellFormed, Key, Sound, SoundDirs, HasDir, HasFile, DirMap, InfoOf,
         Renamed;
    var from, to := SlotsAt(t, data, d), SlotsAt(t, data, e);
    StartableFacts(t, data, dirs, heads, d, i, oldName, e, newName);
    AnswersDelete(from, oldName, i);
    InsertRenamed(to, from[i], newName);
    if d == e {
      RenameMap(from, i, oldName, newName);
    }
  }
}
