/** drivers/fat32/fat.c and the cluster transfers of drivers/fat32/bpb.c: the mounted volume. */
module Fat {
  import opened Bytes
  import opened Chains
  import opened Device
  import opened Geometry
  import opened Image

  /** The low 28 bits of each FAT word. */
  ghost predicate IsTableOf(t: Table, raw: seq<uint32>) {
    && |t| == |raw|
    && forall k | 0 <= k < |t| :: t[k] == raw[k] % TWO_TO_THE_28
  }

  lemma LowBits(t: Table, raw: seq<uint32>, c: nat)
    requires IsTableOf(t, raw) && c < |raw|
    ensures t[c] == raw[c] % TWO_TO_THE_28
  {}

  lemma LowBitsUpdate(t: Table, raw: seq<uint32>, c: nat, word: uint32)
    requires IsTableOf(t, raw) && c < |raw|
    ensures IsTableOf(t[c := word % TWO_TO_THE_28], raw[c := word])
  {}

  class Volume {
    const dev: BlockDevice
    const geo: Geometry
    const fatBuffer: array<uint8>
    var cachedSector: uint32
    var dirty: bool

    /** The logical FAT words, their low 28 bits, and the bytes of every cluster. */
    ghost var raw: seq<uint32>
    ghost var table: Table
    ghost var data: seq<seq<uint8>>

    ghost predicate Valid()
      reads this, fatBuffer, dev
    {
      && fatBuffer.Length == SECTOR_SIZE
      && Consistent(dev.sectors, geo, Cache(cachedSector, dirty, fatBuffer[..]), raw, data)
      && IsTableOf(table, raw)
    }

    ghost function Footprint(): set<object> {
      {this, fatBuffer, dev}
    }

    lemma Facts()
      requires Valid()
      ensures geo.WellFormed() && geo.bytesPerSector == SECTOR_SIZE
      ensures 1 <= geo.sectorsPerCluster <= 64 && geo.bytesPerCluster == geo.sectorsPerCluster * SECTOR_SIZE
      ensures SECTOR_SIZE <= geo.bytesPerCluster <= 64 * SECTOR_SIZE
      ensures |raw| == |table| == |data| == geo.Clusters() <= BAD_CLUSTER
      ensures forall c | geo.IsCluster(c) :: |data[c]| == geo.bytesPerCluster
      ensures cachedSector == NONE || cachedSector < geo.sectorsPerFat
      ensures dirty ==> cachedSector != NONE
    {
      ConsistentFacts(dev.sectors, geo, Cache(cachedSector, dirty, fatBuffer[..]), raw, data);
    }

    /** The driver's static state before its first FAT access on a volume whose copies agree. */
    constructor (dev: BlockDevice, geo: Geometry)
      requires geo.WellFormed() && geo.totalSectors <= |dev.sectors|
      requires Mirrored(dev.sectors, geo, Cache(NONE, false, seq(SECTOR_SIZE, _ => 0)))
      ensures Valid() && this.dev == dev && this.geo == geo
      ensures fresh(fatBuffer) && cachedSector == NONE && !dirty
    {
      this.dev := dev;
      this.geo := geo;
      var buf := new uint8[SECTOR_SIZE](_ => 0);
      fatBuffer := buf;
      cachedSector, dirty := NONE, false;
      var cache := Cache(NONE, false, buf[..]);
      var disk := dev.sectors;
      var words := seq(geo.Clusters(), k requires 0 <= k => RawEntry(disk, geo, cache, k));
      raw := words;
      table := seq(geo.Clusters(), k requires 0 <= k < |words| => words[k] % TWO_TO_THE_28);
      data := seq(geo.Clusters(), c requires 0 <= c => ClusterBytes(disk, geo, c));
    }

    /** Writes the dirty sector to every FAT copy. A failure may leave some copies behind, never the logical FAT. */
    method FlushCache() returns (ok: bool)
      requires Valid()
      modifies Footprint()
      ensures Valid() && raw == old(raw) && table == old(table) && data == old(data)
      ensures cachedSector == old(cachedSector) && fatBuffer[..] == old(fatBuffer[..])
      ensures dirty == (old(dirty) && !ok)
      ensures dev.reliable ==> ok
    {
      hide Consistent, IsTableOf, Geometry.WellFormed;
      Facts();
      if dirty && cachedSector != NONE {
        ghost var cache := Cache(cachedSector, dirty, fatBuffer[..]);
        var i: uint32 := 0;
        while i < geo.numFats
          invariant 0 <= i <= geo.numFats
          invariant Consistent(dev.sectors, geo, cache, raw, data)
          invariant FlushedTo(dev.sectors, geo, cache, i)
          invariant fatBuffer[..] == cache.bytes
          modifies dev
        {
          ghost var disk := dev.sectors;
          FlushWrite(disk, geo, cache, raw, data, i);
          FlushedOneMore(disk, geo, cache, raw, data, i);
          var fatOffset := i * geo.sectorsPerFat;
          var lba := geo.firstFatSector + fatOffset + cachedSector;
          ok := dev.Write(lba, fatBuffer[..]);
          if !ok {
            return false;
          }
          assert dev.sectors == disk[geo.FatLba(i, cachedSector) := cache.bytes];
          i := i + 1;
        }
        FlushDone(dev.sectors, geo, cache, raw, data);
        dirty := false;
      }
      return true;
    }

    /** Makes `s` the cached sector, flushing what was there. A failure changes no entry. */
    method LoadSector(s: uint32) returns (ok: bool)
      requires Valid() && s < geo.sectorsPerFat
      modifies Footprint()
      ensures Valid() && raw == old(raw) && table == old(table) && data == old(data)
      ensures ok ==> cachedSector == s
      ensures dev.reliable ==> ok
    {
      hide Consistent, IsTableOf, Geometry.WellFormed, Geometry.FatLba, At;
      Facts();
      if cachedSector == s {
        return true;
      }
      ok := FlushCache();
      if !ok {
        return false;
      }
      ghost var before := Cache(cachedSector, dirty, fatBuffer[..]);
      LoadOther(dev.sectors, geo, before, raw, data, s);
      var lba: uint32 := geo.firstFatSector + s;
      ok := dev.Read(lba, fatBuffer, 0);
      if !ok {
        assert fatBuffer[..] == before.bytes;
        return false;
      }
      assert fatBuffer[..] == dev.sectors[lba];
      cachedSector := s;
    }

    /** The logical 28-bit entry, or the bad-cluster mark when the device fails. */
    method GetEntry(cluster: uint32) returns (entry: uint32)
      requires Valid() && cluster < geo.Clusters()
      modifies Footprint()
      ensures Valid() && raw == old(raw) && table == old(table) && data == old(data)
      ensures entry == table[cluster] || (!dev.reliable && entry == BAD_CLUSTER)
    {
      hide Consistent, IsTableOf, Geometry.WellFormed, Geometry.FatSectorOf, Geometry.FatOffsetOf;
      Facts();
      EntryPlace(geo, cluster);
      var fatSector, entryOffset := geo.FatSectorOf(cluster), geo.FatOffsetOf(cluster);
      var ok := LoadSector(fatSector);
      if !ok {
        return BAD_CLUSTER;
      }
      CachedEntry(dev.sectors, geo, Cache(cachedSector, dirty, fatBuffer[..]), raw, data, cluster);
      LowBits(table, raw, cluster);
      entry := Word(fatBuffer[..], entryOffset) % TWO_TO_THE_28;
    }

    method StoreWord(off: nat, word: uint32)
      requires off + 4 <= fatBuffer.Length
      modifies fatBuffer
      ensures fatBuffer[..] == Put(old(fatBuffer[..]), off, WordBytes(word))
    {
      var bytes := WordBytes(word);
      fatBuffer[off], fatBuffer[off + 1] := bytes[0], bytes[1];
      fatBuffer[off + 2], fatBuffer[off + 3] := bytes[2], bytes[3];
    }

    /** Replaces the low 28 bits of one entry, keeping its top four and every other word. */
    method SetEntry(cluster: uint32, value: uint32) returns (ok: bool)
      requires Valid() && cluster < geo.Clusters()
      modifies Footprint()
      ensures Valid() && data == old(data)
      ensures !ok ==> raw == old(raw) && table == old(table)
      ensures ok ==> table == old(table)[cluster := value % TWO_TO_THE_28]
      ensures ok ==> raw == old(raw)[cluster := Merge(old(raw)[cluster], value)]
      ensures dev.reliable ==> ok
    {
      hide Consistent, IsTableOf, Geometry.WellFormed, Geometry.FatSectorOf, Geometry.FatOffsetOf;
      Facts();
      EntryPlace(geo, cluster);
      var fatSector, entryOffset := geo.FatSectorOf(cluster), geo.FatOffsetOf(cluster);
      ok := LoadSector(fatSector);
      if !ok {
        return false;
      }
      ghost var before := Cache(cachedSector, dirty, fatBuffer[..]);
      CachedEntry(dev.sectors, geo, before, raw, data, cluster);
      var entry := Merge(Word(fatBuffer[..], entryOffset), value);
      StoreWord(entryOffset, entry);
      StoreEntry(dev.sectors, geo, before, raw, data, cluster, entry);
      LowBitsUpdate(table, raw, cluster, entry);
      raw := raw[cluster := entry];
      table := table[cluster := value % TWO_TO_THE_28];
      dirty := true;
    }

    /** A free cluster, the least one when the device does not fail; 0 if none was found. */
    method FindFreeCluster() returns (c: uint32)
      requires Valid()
      modifies Footprint()
      ensures Valid() && raw == old(raw) && table == old(table) && data == old(data)
      ensures c != 0 ==> geo.IsCluster(c) && table[c] == FREE_CLUSTER
      ensures dev.reliable ==> c == LeastFree(table)
    {
      hide Consistent, IsTableOf, Geometry.WellFormed;
      Facts();
      var cluster: uint32 := 2;
      while cluster < geo.totalClusters + 2
        invariant 2 <= cluster <= geo.Clusters()
        invariant Valid() && raw == old(raw) && table == old(table) && data == old(data)
        invariant dev.reliable ==> LeastFree(table) == FreeFrom(table, cluster)
      {
        var entry := GetEntry(cluster);
        if entry == FREE_CLUSTER {
          return cluster;
        }
        cluster := cluster + 1;
      }
      return 0;
    }

    /** Marks a free cluster as a chain of its own. */
    method AllocateCluster() returns (c: uint32)
      requires Valid()
      modifies Footprint()
      ensures Valid() && data == old(data)
      ensures c == 0 ==> table == old(table)
      ensures c != 0 ==> geo.IsCluster(c) && old(table)[c] == FREE_CLUSTER && table == old(table)[c := EOC]
      ensures dev.reliable ==> c == LeastFree(old(table))
    {
      hide Consistent, IsTableOf, Geometry.WellFormed;
      Facts();
      c := FindFreeCluster();
      if c == 0 {
        return 0;
      }
      var ok := SetEntry(c, EOC);
      if !ok {
        return 0;
      }
    }

    method ExtendChain(last: uint32, next: uint32) returns (ok: bool)
      requires Valid() && last < geo.Clusters()
      modifies Footprint()
      ensures Valid() && data == old(data)
      ensures table == if ok then old(table)[last := next % TWO_TO_THE_28] else old(table)
      ensures dev.reliable ==> ok
    {
      hide Consistent, IsTableOf, Geometry.WellFormed;
      Facts();
      ok := SetEntry(last, next);
    }

    /** Gives back everything reachable from `start`; terminates on cyclic and cross-linked tables too. */
    method FreeChain(start: uint32) returns (ok: bool)
      requires Valid() && dev.reliable && WalkInRange(table, start)
      modifies Footprint()
      ensures Valid() && data == old(data)
      ensures ok && !dirty
      ensures table == Freed(old(table), start)
    {
      hide Consistent, IsTableOf, Geometry.WellFormed;
      Facts();
      var cluster: uint32 := start;
      while 2 <= cluster < EOC_MIN
        invariant Valid() && data == old(data)
        invariant WalkInRange(table, cluster)
        invariant Freed(table, cluster) == Freed(old(table), start)
        decreases Used(table), if IsLink(cluster) then 1 else 0
      {
        ghost var t := table;
        var next := GetEntry(cluster);
        ok := SetEntry(cluster, FREE_CLUSTER);
        if !ok {
          return false;
        }
        if t[cluster] == FREE_CLUSTER {
          assert table == t;
        } else {
          UsedUpdate(t, 0, cluster);
        }
        cluster := next;
      }
      ok := FlushCache();
    }

    method CountFreeClusters() returns (count: uint32)
      requires Valid()
      modifies Footprint()
      ensures Valid() && raw == old(raw) && table == old(table) && data == old(data)
      ensures count <= Free(table)
      ensures dev.reliable ==> count == Free(table)
    {
      hide Consistent, IsTableOf, Geometry.WellFormed;
      Facts();
      count := 0;
      var cluster: uint32 := 2;
      while cluster < geo.totalClusters + 2
        invariant 2 <= cluster <= geo.Clusters()
        invariant Valid() && raw == old(raw) && table == old(table) && data == old(data)
        invariant count + FreeCount(table, cluster) <= Free(table)
        invariant dev.reliable ==> count + FreeCount(table, cluster) == Free(table)
      {
        var entry := GetEntry(cluster);
        if entry == FREE_CLUSTER {
          count := count + 1;
        }
        cluster := cluster + 1;
      }
    }

    /** The length of the chain at `start`, 0 when `start` is not a link. */
    method GetChainLength(start: uint32) returns (count: uint32)
      requires Valid() && dev.reliable
      requires IsLink(start) ==> ChainOf(table, start) != []
      modifies Footprint()
      ensures Valid() && raw == old(raw) && table == old(table) && data == old(data)
      ensures count == if IsLink(start) then |ChainOf(table, start)| else 0
    {
      hide Consistent, IsTableOf, Geometry.WellFormed;
      Facts();
      count := 0;
      var cluster: uint32 := start;
      ghost var ch := if IsLink(start) then ChainOf(table, start) else [];
      if ch != [] {
        ChainAcyclic(table, ch);
        DistinctShort(ch, |table|);
      }
      while 2 <= cluster < EOC_MIN
        invariant Valid() && raw == old(raw) && table == old(table) && data == old(data)
        invariant 0 <= count <= |ch|
        invariant IsLink(cluster) <==> count < |ch|
        invariant count < |ch| ==> cluster == ch[count]
        decreases |ch| - count
      {
        ChainStep(table, ch, count);
        count := count + 1;
        cluster := GetEntry(cluster);
      }
    }

    method SyncFat() returns (ok: bool)
      requires Valid()
      modifies Footprint()
      ensures Valid() && raw == old(raw) && table == old(table) && data == old(data)
      ensures ok ==> !dirty
      ensures dev.reliable ==> ok
    {
      hide Consistent, IsTableOf, Geometry.WellFormed;
      Facts();
      ok := FlushCache();
    }

    /**
     * `fat32_invalidate_fat_cache` drops the cache even when its flush failed. Then, and only
     * then, entries of the dropped sector may be lost: the FAT is what copy 0 on disk says.
     */
    method InvalidateCache() returns (ghost flushed: bool)
      requires Valid()
      modifies Footprint()
      ensures cachedSector == NONE && raw == old(raw) && table == old(table) && data == old(data)
      ensures flushed ==> Valid() && !dirty
      ensures dev.reliable || !old(dirty) ==> flushed
      ensures !flushed ==>
                forall k | 0 <= k < |raw| ::
                  RawEntry(dev.sectors, geo, Cache(NONE, false, fatBuffer[..]), k)
                  == if k / ENTRIES == old(cachedSector)
                      then Word(At(dev.sectors, geo.FatLba(0, k / ENTRIES)), k % ENTRIES * 4) else raw[k]
    {
      hide Consistent, IsTableOf, Geometry.WellFormed, RawEntry;
      Facts();
      flushed := !dirty;
      var ok := FlushCache();
      flushed := flushed || ok;
      Dropped(dev.sectors, geo, Cache(cachedSector, dirty, fatBuffer[..]), raw, data);
      cachedSector := NONE;
    }

    /** Fills `buffer` with the bytes of cluster `c`. */
    method ReadCluster(c: uint32, buffer: array<uint8>) returns (ok: bool)
      requires Valid() && geo.IsCluster(c)
      requires buffer != fatBuffer && geo.bytesPerCluster <= buffer.Length
      modifies buffer
      ensures Valid()
      ensures ok ==> buffer[..geo.bytesPerCluster] == data[c]
      ensures buffer[geo.bytesPerCluster..] == old(buffer[geo.bytesPerCluster..])
      ensures dev.reliable ==> ok
    {
      hide Consistent, IsTableOf, Geometry.WellFormed, Geometry.ClusterToLba, ClusterBytes;
      Facts();
      ghost var disk, rest := dev.sectors, buffer[geo.bytesPerCluster..];
      ghost var cache := Cache(cachedSector, dirty, fatBuffer[..]);
      var lba := geo.ClusterToLba(c);
      var i: uint32 := 0;
      while i < geo.sectorsPerCluster
        invariant 0 <= i <= geo.sectorsPerCluster
        invariant buffer[..i * SECTOR_SIZE] == data[c][..i * SECTOR_SIZE]
        invariant buffer[geo.bytesPerCluster..] == rest
      {
        ClusterSectorLba(geo, c, i, disk, cache, raw, data);
        ClusterSector(disk, geo, cache, raw, data, c, i);
        ok := dev.Read(lba + i, buffer, i * geo.bytesPerSector);
        if !ok {
          return false;
        }
        i := i + 1;
      }
      return true;
    }

    /** Stores `bytes` as cluster `c`. A failure leaves a prefix of the sectors written. */
    method WriteCluster(c: uint32, bytes: seq<uint8>) returns (ok: bool, ghost written: nat)
      requires Valid() && geo.IsCluster(c) && |bytes| == geo.bytesPerCluster
      modifies this, dev
      ensures Valid() && raw == old(raw) && table == old(table)
      ensures cachedSector == old(cachedSector) && dirty == old(dirty)
      ensures written <= geo.sectorsPerCluster && ok == (written == geo.sectorsPerCluster)
      ensures data == old(data)[c := Partly(old(data)[c], bytes, written)]
      ensures ok ==> data == old(data)[c := bytes]
      ensures dev.reliable ==> ok
    {
      hide Consistent, IsTableOf, Geometry.WellFormed, Geometry.ClusterToLba, Partly, SectorOf;
      Facts();
      ghost var cache := Cache(cachedSector, dirty, fatBuffer[..]);
      ghost var was := data[c];
      PartlyEnds(geo, was, bytes);
      assert data == data[c := Partly(was, bytes, 0)];
      var lba := geo.ClusterToLba(c);
      var i: uint32 := 0;
      ok := true;
      while i < geo.sectorsPerCluster
        invariant 0 <= i <= geo.sectorsPerCluster && ok
        invariant Consistent(dev.sectors, geo, cache, raw, data[c := Partly(was, bytes, i)])
        modifies dev
      {
        WriteSectorStep(dev.sectors, geo, cache, raw, data, was, bytes, c, i);
        ok := dev.Write(lba + i, SectorOf(bytes, i));
        if !ok {
          break;
        }
        i := i + 1;
      }
      data, written := data[c := Partly(was, bytes, i)], i;
    }
  }
}
