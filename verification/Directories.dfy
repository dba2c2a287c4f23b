/** drivers/fat32/directory.c: looking up, creating, deleting and updating entries over a cluster chain. */
module Directories {
  import opened Bytes
  import opened Chains
  import opened Contents
  import opened Fat
  import opened Geometry
  import opened Image
  import opened Memory
  import opened ShortNames
  import opened Slots

  /** The chain of the directory at `c`; clusters 0 and 1 stand for an empty directory. */
  ghost function DirChain(t: Table, c: uint32): Chain {
    if c < 2 then [] else ChainOf(t, c)
  }

  ghost predicate IsDir(t: Table, c: uint32) {
    c >= 2 ==> ChainOf(t, c) != []
  }

  /** The slots of the directory at `c`. */
  ghost function SlotsAt(t: Table, data: Data, c: uint32): seq<Slot> {
    DirSlots(data, DirChain(t, c))
  }

  /** One slot of the directory at `c` changed from what it was to `s`, and nothing outside the directory. */
  ghost predicate OneSlotChanged(t: Table, data: Data, data': Data, c: uint32, i: nat, s: Slot) {
    && |data'| == |data|
    && i < |SlotsAt(t, data, c)|
    && SlotsAt(t, data', c) == SlotsAt(t, data, c)[i := s]
    && forall d | 0 <= d < |data| && d !in DirChain(t, c) :: data'[d] == data[d]
  }

  class Directory {
    const vol: Volume
    const buffer: array<uint8>

    ghost predicate Valid()
      reads vol, vol.fatBuffer, vol.dev
    {
      && vol.Valid()
      && buffer.Length == BUFFER_SIZE
      && buffer != vol.fatBuffer
    }

    constructor (vol: Volume)
      requires vol.Valid()
      ensures Valid() && this.vol == vol && fresh(buffer)
    {
      this.vol := vol;
      buffer := new uint8[BUFFER_SIZE](_ => 0);
    }

    /** The upper-case printed name of a slot. */
    method PrintedKey(slot: Slot) returns (key: seq<uint8>)
      ensures key == Key(slot)
    {
      var printed := new uint8[13];
      var pos := ShortNameToString(slot[..SHORT_LENGTH], printed);
      key := UpperAll(CString(printed[..pos]));
    }

    /** Slot `i` of the loaded cluster. */
    function Loaded(i: nat): Slot
      requires (i + 1) * SLOT_SIZE <= buffer.Length
      reads buffer
    {
      buffer[i * SLOT_SIZE..i * SLOT_SIZE + SLOT_SIZE]
    }

    lemma LoadedAt(i: nat)
      requires Valid() && i < |ClusterSlots(buffer[..vol.geo.bytesPerCluster])|
      ensures (i + 1) * SLOT_SIZE <= buffer.Length && Loaded(i) == ClusterSlots(buffer[..vol.geo.bytesPerCluster])[i]
    {
      hide Consistent, IsTableOf, Geometry.WellFormed;
      vol.Facts();
      SliceOfTake(buffer[..], vol.geo.bytesPerCluster, i * SLOT_SIZE, SLOT_SIZE);
      assert buffer[..][..vol.geo.bytesPerCluster] == buffer[..vol.geo.bytesPerCluster];
    }

    lemma SlotsLoaded()
      requires Valid()
      ensures |ClusterSlots(buffer[..vol.geo.bytesPerCluster])| == vol.geo.bytesPerCluster / SLOT_SIZE
      ensures ClusterSlots(buffer[..vol.geo.bytesPerCluster])[0..] == ClusterSlots(buffer[..vol.geo.bytesPerCluster])
    {
      hide Consistent, IsTableOf, Geometry.WellFormed;
      vol.Facts();
    }

    /** The loop over the slots of the loaded cluster that compares names. */
    method ScanBuffer(key: seq<uint8>, skipVolumes: bool) returns (o: Outcome)
      requires Valid()
      ensures o == Scan(ClusterSlots(buffer[..vol.geo.bytesPerCluster]), key, skipVolumes)
    {
      hide Consistent, IsTableOf, Geometry.WellFormed, Key, ClusterSlots, Scan, IsEnd, Compared;
      vol.Facts();
      SlotsLoaded();
      ghost var slots := ClusterSlots(buffer[..vol.geo.bytesPerCluster]);
      var entriesPerCluster := vol.geo.bytesPerCluster / SLOT_SIZE;
      var i := 0;
      while i < entriesPerCluster
        invariant 0 <= i <= entriesPerCluster == |slots|
        invariant Scan(slots, key, skipVolumes) == Scan(slots[i..], key, skipVolumes).Shift(i)
      {
        LoadedAt(i);
        var slot := Loaded(i);
        ScanFrom(slots, i, key, skipVolumes);
        if IsEnd(slot) {
          return Stop;
        }
        if Compared(slot, skipVolumes) {
          var printed := PrintedKey(slot);
          if printed == key {
            return Hit(i);
          }
        }
        i := i + 1;
      }
      ScanNothing(slots[i..], key, skipVolumes);
      return Continue;
    }

    lemma ScanNothing(slots: seq<Slot>, key: seq<uint8>, skipVolumes: bool)
      ensures slots == [] ==> Scan(slots, key, skipVolumes) == Continue
    {}

    /** Scanning from slot `i` on looks at it and goes on. */
    lemma ScanFrom(slots: seq<Slot>, i: nat, key: seq<uint8>, skipVolumes: bool)
      requires i < |slots|
      ensures var rest := slots[i..];
        Scan(rest, key, skipVolumes)
        == if IsEnd(slots[i]) then Stop
           else if Hits(slots[i], key, skipVolumes) then Hit(0)
           else Scan(slots[i + 1..], key, skipVolumes).Shift(1)
    {
      hide IsEnd, Hits;
      assert slots[i..][0] == slots[i] && slots[i..][1..] == slots[i + 1..];
    }

    /** The loop that looks for a slot to reuse. */
    method ScanBufferFree() returns (o: Outcome)
      requires Valid()
      ensures o == ScanFree(ClusterSlots(buffer[..vol.geo.bytesPerCluster]))
    {
      hide Consistent, IsTableOf, Geometry.WellFormed, ClusterSlots;
      vol.Facts();
      SlotsLoaded();
      ghost var slots := ClusterSlots(buffer[..vol.geo.bytesPerCluster]);
      var entriesPerCluster := vol.geo.bytesPerCluster / SLOT_SIZE;
      var i := 0;
      while i < entriesPerCluster
        invariant 0 <= i <= entriesPerCluster == |slots|
        invariant ScanFree(slots) == ScanFree(slots[i..]).Shift(i)
      {
        LoadedAt(i);
        var slot := Loaded(i);
        assert slots[i..][0] == slots[i] && slots[i..][1..] == slots[i + 1..];
        if IsEnd(slot) || IsFree(slot) {
          return Hit(i);
        }
        i := i + 1;
      }
      return Continue;
    }

    /**
     * The walk along the directory's clusters shared by lookup, deletion and update: on a hit
     * the cluster is loaded and slot `i` of it is the hit.
     */
    method Locate(dirCluster: uint32, key: seq<uint8>, skipVolumes: bool)
      returns (found: bool, cluster: uint32, i: nat, ghost k: nat)
      requires Valid() && vol.dev.reliable && IsDir(vol.table, dirCluster)
      modifies vol.Footprint(), buffer
      ensures Valid() && vol.table == old(vol.table) && vol.data == old(vol.data)
      ensures found == (Find(SlotsAt(vol.table, vol.data, dirCluster), key, skipVolumes) >= 0)
      ensures found ==> IsAt(dirCluster, cluster, i, k,
          Find(SlotsAt(vol.table, vol.data, dirCluster), key, skipVolumes))
    {
      hide Consistent, IsTableOf, Geometry.WellFormed, IsChain, Scan, Find, DirSlots, ClusterSlots, Reached, Key;
      vol.Facts();
      ghost var ch := DirChain(vol.table, dirCluster);
      k, i := 0, 0;
      cluster := dirCluster;
      if ch != [] {
        ReachedStart(vol.data, ch, key, skipVolumes);
      } else {
        DirSlotsNone(vol.data, key, skipVolumes);
      }
      while cluster >= 2
        invariant Valid() && vol.table == old(vol.table) && vol.data == old(vol.data)
        invariant cluster >= 2 ==> Reached(vol.data, ch, k, key, skipVolumes) && k < |ch| && cluster == ch[k]
        invariant cluster < 2 ==> Find(DirSlots(vol.data, ch), key, skipVolumes) == -1
        decreases |ch| - k
      {
        ChainStep(vol.table, ch, k);
        ReachedStep(vol.data, ch, k, key, skipVolumes);
        var ok := vol.ReadCluster(cluster, buffer);
        if !ok {
          return false, cluster, i, k;
        }
        var o := ScanBuffer(key, skipVolumes);
        match o {
          case Hit(j) =>
            LoadedIsSlot(cluster, j);
            return true, cluster, j, k;
          case Stop =>
            return false, cluster, i, k;
          case Continue =>
        }
        var next := vol.GetEntry(cluster);
        if IsEoc(next) {
          return false, cluster, i, k;
        }
        cluster := next;
        k := k + 1;
      }
      return false, cluster, i, k;
    }

    /** The loaded cluster is position `k` of the directory's chain, and its slot `i` is slot `r` of the directory. */
    ghost predicate IsAt(dirCluster: uint32, cluster: uint32, i: nat, k: nat, r: int)
      requires Valid()
      reads this, vol, vol.fatBuffer, vol.dev, buffer
    {
      var ch := DirChain(vol.table, dirCluster);
      && k < |ch| && cluster == ch[k] && vol.geo.IsCluster(cluster) && cluster < |vol.data|
      && vol.geo.bytesPerCluster <= BUFFER_SIZE && buffer[..vol.geo.bytesPerCluster] == vol.data[cluster]
      && (i + 1) * SLOT_SIZE <= vol.geo.bytesPerCluster
      && r == |DirSlots(vol.data, ch[..k])| + i && r < |DirSlots(vol.data, ch)|
      && Loaded(i) == DirSlots(vol.data, ch)[r]
    }

    lemma LoadedIsSlot(c: uint32, i: nat)
      requires Valid() && c < |vol.data|
      requires vol.geo.bytesPerCluster <= BUFFER_SIZE && buffer[..vol.geo.bytesPerCluster] == vol.data[c]
      requires i < |ClusterSlots(vol.data[c])|
      ensures (i + 1) * SLOT_SIZE <= |vol.data[c]| && Loaded(i) == ClusterSlots(vol.data[c])[i]
    {
      hide Consistent, IsTableOf;
    }

    /** `fat32_find_entry`: the first live slot of that name, in upper case and cut to 63 bytes. */
    method FindEntry(dirCluster: uint32, name: seq<uint8>) returns (found: bool, info: Info)
      requires Valid() && vol.dev.reliable && IsDir(vol.table, dirCluster)
      modifies vol.Footprint(), buffer
      ensures Valid() && vol.table == old(vol.table) && vol.data == old(vol.data)
      ensures var slots := SlotsAt(vol.table, vol.data, dirCluster);
        var i := Find(slots, UpperAll(name), true);
        found == (i >= 0) && (found ==> info == InfoOf(slots[i]))
      ensures Reports(SlotsAt(vol.table, vol.data, dirCluster), name, found, info)
    {
      hide Consistent, IsTableOf, Geometry.WellFormed, Find, DirSlots, InfoOf, Named;
      ghost var r := Find(SlotsAt(vol.table, vol.data, dirCluster), UpperAll(name), true);
      FoundIsNamed(SlotsAt(vol.table, vol.data, dirCluster), name, true, if r < 0 then 0 else r);
      FindTake(SlotsAt(vol.table, vol.data, dirCluster), name, true);
      info := Info([], 0, 0, 0);
      var cluster, i;
      ghost var k;
      found, cluster, i, k := Locate(dirCluster, UpperAll(Take(name, 63)), true);
      if found {
        info := InfoOf(Loaded(i));
      }
    }

    /** `fat32_find_free_entry`: the first slot that is free or an end mark. */
    method FindFreeEntry(dirCluster: uint32) returns (found: bool, cluster: uint32, i: nat, ghost k: nat)
      requires Valid() && vol.dev.reliable && IsDir(vol.table, dirCluster)
      modifies vol.Footprint(), buffer
      ensures Valid() && vol.table == old(vol.table) && vol.data == old(vol.data)
      ensures found == (FindFree(SlotsAt(vol.table, vol.data, dirCluster)) >= 0)
      ensures found ==> IsAt(dirCluster, cluster, i, k, FindFree(SlotsAt(vol.table, vol.data, dirCluster)))
    {
      hide Consistent, IsTableOf, Geometry.WellFormed, IsChain, ScanFree, FindFree, DirSlots, ClusterSlots, FreeReached;
      vol.Facts();
      ghost var ch := DirChain(vol.table, dirCluster);
      k, i := 0, 0;
      cluster := dirCluster;
      if ch != [] {
        FreeReachedStart(vol.data, ch);
      } else {
        DirSlotsNone(vol.data, [], false);
      }
      while cluster >= 2
        invariant Valid() && vol.table == old(vol.table) && vol.data == old(vol.data)
        invariant cluster >= 2 ==> FreeReached(vol.data, ch, k) && k < |ch| && cluster == ch[k]
        invariant cluster < 2 ==> FindFree(DirSlots(vol.data, ch)) == -1
        decreases |ch| - k
      {
        ChainStep(vol.table, ch, k);
        FreeReachedStep(vol.data, ch, k);
        var ok := vol.ReadCluster(cluster, buffer);
        if !ok {
          return false, cluster, i, k;
        }
        var o := ScanBufferFree();
        if o.Hit? {
          LoadedIsSlot(cluster, o.index);
          return true, cluster, o.index, k;
        }
        var next := vol.GetEntry(cluster);
        if IsEoc(next) {
          return false, cluster, i, k;
        }
        cluster := next;
        k := k + 1;
      }
      return false, cluster, i, k;
    }

    /** Stores `w` at offset `at` of the slot at `base`. */
    method StoreField(base: nat, at: nat, w: seq<uint8>, ghost slot: Slot, ghost was: seq<uint8>)
      requires base + SLOT_SIZE <= buffer.Length == |was| && at + |w| <= SLOT_SIZE
      requires buffer[..] == Put(was, base, slot)
      modifies buffer
      ensures buffer[..] == Put(was, base, Put(slot, at, w))
    {
      hide Put;
      PutTwiceOver(was, base, slot, w, at);
      Store(buffer, base + at, w);
    }

    /** The field assignments of `fat32_create_entry`. */
    method FillSlot(base: nat, name: seq<uint8>, attributes: uint8, firstCluster: uint32, size: uint32)
      requires base + SLOT_SIZE <= buffer.Length
      modifies buffer
      ensures buffer[..] == Put(old(buffer[..]), base, MakeSlot(name, attributes, firstCluster, size))
    {
      hide Put, Encode, MakeSlot;
      ghost var was := buffer[..];
      Memset(buffer, base, 0, SLOT_SIZE);
      StringToShortName(name, buffer, base);
      PutTwiceOver(was, base, Repeat(0, SLOT_SIZE), Encode(name), 0);
      ghost var s0 := Put(Repeat(0, SLOT_SIZE), 0, Encode(name));
      StoreField(base, 11, [attributes], s0, was);
      ghost var s1 := Put(s0, 11, [attributes]);
      var high, low := firstCluster / 0x1_0000, firstCluster % 0x1_0000;
      StoreField(base, 20, HalfBytes(high), s1, was);
      StoreField(base, 26, HalfBytes(low), Put(s1, 20, HalfBytes(high)), was);
      ghost var s2 := Put(Put(s1, 20, HalfBytes(high)), 26, HalfBytes(low));
      StoreField(base, 28, WordBytes(size), s2, was);
      ghost var s3 := Put(s2, 28, WordBytes(size));
      StoreField(base, 16, HalfBytes(0x4E21), s3, was);
      ghost var s4 := Put(s3, 16, HalfBytes(0x4E21));
      StoreField(base, 24, HalfBytes(0x4E21), s4, was);
      StoreField(base, 18, HalfBytes(0x4E21), Put(s4, 24, HalfBytes(0x4E21)), was);
      MakeSlotAsPuts(name, attributes, firstCluster, size);
    }

    /** Writes back the loaded cluster after slot `i` of it was replaced by `s`. */
    method StoreSlot(ghost dirCluster: uint32, cluster: uint32, ghost i: nat, ghost k: nat, ghost r: nat, ghost s: Slot)
      returns (ok: bool)
      requires Valid() && vol.dev.reliable && IsDir(vol.table, dirCluster)
      requires var ch := DirChain(vol.table, dirCluster);
        && k < |ch| && cluster == ch[k] && vol.geo.IsCluster(cluster) && cluster < |vol.data|
        && (i + 1) * SLOT_SIZE <= vol.geo.bytesPerCluster <= BUFFER_SIZE
            && |vol.data[cluster]| == vol.geo.bytesPerCluster
        && r == |DirSlots(vol.data, ch[..k])| + i
        && buffer[..vol.geo.bytesPerCluster] == Put(vol.data[cluster], i * SLOT_SIZE, s)
      modifies vol, vol.dev
      ensures Valid() && vol.table == old(vol.table) && ok
      ensures OneSlotChanged(vol.table, old(vol.data), vol.data, dirCluster, r, s)
    {
      hide Consistent, IsTableOf, Geometry.WellFormed, IsChain, DirSlots, ClusterSlots, Put;
      vol.Facts();
      ghost var ch, b := DirChain(vol.table, dirCluster), buffer[..vol.geo.bytesPerCluster];
      ChainAcyclic(vol.table, ch);
      ClusterSlotsPut(vol.data[cluster], i, 0, s);
      PutWhole(ClusterSlots(vol.data[cluster])[i], s);
      DirSlotsUpdate(vol.data, ch, k, b, i, s);
      ghost var written;
      ok, written := vol.WriteCluster(cluster, buffer[..vol.geo.bytesPerCluster]);
      assert cluster in ch;
    }

    lemma PutWhole(a: Slot, s: Slot)
      ensures Put(a, 0, s) == s
    {}

    /** `fat32_create_entry`: fills the first reusable slot, if the directory has one. */
    method CreateEntry(dirCluster: uint32, name: seq<uint8>, attributes: uint8, firstCluster: uint32,
        size: uint32) returns (ok: bool)
      requires Valid() && vol.dev.reliable && IsDir(vol.table, dirCluster)
      modifies vol.Footprint(), buffer
      ensures Valid() && vol.table == old(vol.table)
      ensures var r := FindFree(SlotsAt(old(vol.table), old(vol.data), dirCluster));
        && ok == (r >= 0)
        && (!ok ==> vol.data == old(vol.data))
        && (ok ==> OneSlotChanged(vol.table, old(vol.data), vol.data, dirCluster, r,
            MakeSlot(name, attributes, firstCluster, size)))
    {
      hide Consistent, IsTableOf, Geometry.WellFormed, IsChain, FindFree, DirSlots, ClusterSlots, Put, MakeSlot,
           OneSlotChanged;
      var cluster, i;
      ghost var k;
      ok, cluster, i, k := FindFreeEntry(dirCluster);
      if !ok {
        return false;
      }
      vol.Facts();
      ok := vol.ReadCluster(cluster, buffer);
      if !ok {
        return false;
      }
      ghost var was, s := buffer[..], MakeSlot(name, attributes, firstCluster, size);
      FillSlot(i * SLOT_SIZE, name, attributes, firstCluster, size);
      PutTake(was, vol.geo.bytesPerCluster, i * SLOT_SIZE, s);
      assert was[..vol.geo.bytesPerCluster] == vol.data[cluster];
      assert buffer[..][..vol.geo.bytesPerCluster] == buffer[..vol.geo.bytesPerCluster];
      ok := StoreSlot(dirCluster, cluster, i, k, FindFree(SlotsAt(vol.table, vol.data, dirCluster)), s);
    }

    /** `fat32_delete_entry`: marks the first slot of that name, volume labels included, as free. */
    method DeleteEntry(dirCluster: uint32, name: seq<uint8>) returns (ok: bool)
      requires Valid() && vol.dev.reliable && IsDir(vol.table, dirCluster) && |name| < MAX_PATH
      modifies vol.Footprint(), buffer
      ensures Valid() && vol.table == old(vol.table)
      ensures var slots := SlotsAt(old(vol.table), old(vol.data), dirCluster);
        var r := Find(slots, UpperAll(name), false);
        && ok == (r >= 0)
        && (!ok ==> vol.data == old(vol.data))
        && (ok ==> OneSlotChanged(vol.table, old(vol.data), vol.data, dirCluster, r, DeleteSlot(slots[r])))
    {
      hide Consistent, IsTableOf, Geometry.WellFormed, IsChain, Find, DirSlots, ClusterSlots, Put, OneSlotChanged;
      var cluster, i;
      ghost var k;
      ok, cluster, i, k := Locate(dirCluster, UpperAll(name), false);
      if !ok {
        return false;
      }
      vol.Facts();
      ghost var slots := SlotsAt(vol.table, vol.data, dirCluster);
      ghost var r := Find(slots, UpperAll(name), false);
      ghost var was := buffer[..vol.geo.bytesPerCluster];
      buffer[i * SLOT_SIZE] := ENTRY_FREE;
      DeleteAsPut(was, i, slots[r]);
      assert buffer[..vol.geo.bytesPerCluster] == was[i * SLOT_SIZE := ENTRY_FREE];
      ok := StoreSlot(dirCluster, cluster, i, k, r, DeleteSlot(slots[r]));
    }

    /** `fat32_update_entry`: new size and first cluster for the first slot of that name, volume labels included. */
    method UpdateEntry(dirCluster: uint32, name: seq<uint8>, size: uint32, firstCluster: uint32) returns (ok: bool)
      requires Valid() && vol.dev.reliable && IsDir(vol.table, dirCluster) && |name| < MAX_PATH
      modifies vol.Footprint(), buffer
      ensures Valid() && vol.table == old(vol.table)
      ensures var slots := SlotsAt(old(vol.table), old(vol.data), dirCluster);
        var r := Find(slots, UpperAll(name), false);
        && ok == (r >= 0)
        && (!ok ==> vol.data == old(vol.data))
        && (ok ==> OneSlotChanged(vol.table, old(vol.data), vol.data, dirCluster, r,
            UpdateSlot(slots[r], size, firstCluster)))
    {
      hide Consistent, IsTableOf, Geometry.WellFormed, IsChain, Find, DirSlots, ClusterSlots, Put, OneSlotChanged,
           UpperAll, WordBytes, HalfBytes;
      var cluster, i;
      ghost var k;
      ok, cluster, i, k := Locate(dirCluster, UpperAll(name), false);
      if !ok {
        return false;
      }
      vol.Facts();
      ghost var slots := SlotsAt(vol.table, vol.data, dirCluster);
      ghost var r := Find(slots, UpperAll(name), false);
      ghost var was, s := buffer[..], slots[r];
      StoreUpdate(i * SLOT_SIZE, s, size, firstCluster);
      PutTake(was, vol.geo.bytesPerCluster, i * SLOT_SIZE, UpdateSlot(s, size, firstCluster));
      assert was[..vol.geo.bytesPerCluster] == vol.data[cluster];
      assert buffer[..][..vol.geo.bytesPerCluster] == buffer[..vol.geo.bytesPerCluster];
      ok := StoreSlot(dirCluster, cluster, i, k, r, UpdateSlot(s, size, firstCluster));
    }

    lemma DeleteAsPut(b: seq<uint8>, i: nat, s: Slot)
      requires (i + 1) * SLOT_SIZE <= |b| && b[i * SLOT_SIZE..i * SLOT_SIZE + SLOT_SIZE] == s
      ensures b[i * SLOT_SIZE := ENTRY_FREE] == Put(b, i * SLOT_SIZE, DeleteSlot(s))
    {}

    /** The three assignments of an update to the slot at `base`. */
    method StoreUpdate(base: nat, ghost s: Slot, size: uint32, firstCluster: uint32)
      requires base + SLOT_SIZE <= buffer.Length && buffer[..][base..base + SLOT_SIZE] == s
      modifies buffer
      ensures buffer[..] == Put(old(buffer[..]), base, UpdateSlot(s, size, firstCluster))
    {
      hide Put, WordBytes, HalfBytes;
      ghost var was := buffer[..];
      PutSelf(was, base, s);
      StoreField(base, 28, WordBytes(size), s, was);
      ghost var s1 := Put(s, 28, WordBytes(size));
      StoreField(base, 20, HalfBytes(firstCluster / 0x1_0000), s1, was);
      StoreField(base, 26, HalfBytes(firstCluster % 0x1_0000), Put(s1, 20, HalfBytes(firstCluster / 0x1_0000)), was);
    }

    lemma PutSelf(b: seq<uint8>, at: nat, s: Slot)
      requires at + SLOT_SIZE <= |b| && b[at..at + SLOT_SIZE] == s
      ensures Put(b, at, s) == b
    {}
  }
}
