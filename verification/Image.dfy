/** What a disk image and the one-sector FAT cache mean together. */
module Image {
  import opened Bytes
  import opened Chains
  import opened Geometry

  /** The value of `cached_fat_sector` while nothing is cached. */
  const NONE: uint32 := 0xFFFF_FFFF

  /** FAT entries per sector. */
  const ENTRIES := 128

  type Disk = seq<Sector>

  /** The cached FAT sector, whether it has unwritten changes, and its bytes. */
  datatype Cache = Cache(sector: uint32, dirty: bool, bytes: Sector)

  ghost function At(disk: Disk, lba: int): Sector {
    if 0 <= lba < |disk| then disk[lba] else seq(SECTOR_SIZE, _ => 0)
  }

  /** Sector `s` of the FAT as the driver sees it: the cached bytes over copy 0 on disk. */
  ghost function FatSector(disk: Disk, g: Geometry, cache: Cache, s: nat): Sector {
    if s == cache.sector then cache.bytes else At(disk, g.FatLba(0, s))
  }

  /** The 32-bit word of cluster `k`. */
  ghost function RawEntry(disk: Disk, g: Geometry, cache: Cache, k: nat): uint32 {
    Word(FatSector(disk, g, cache, k / ENTRIES), k % ENTRIES * 4)
  }

  /** The bytes of cluster `c`. */
  ghost function ClusterBytes(disk: Disk, g: Geometry, c: nat): (b: seq<uint8>)
    ensures |b| == g.sectorsPerCluster * SECTOR_SIZE
  {
    seq(g.sectorsPerCluster * SECTOR_SIZE,
      i requires 0 <= i => At(disk, g.DataLba(c, i / SECTOR_SIZE))[i % SECTOR_SIZE])
  }

  /** Only the cached sector may differ between FAT copies, and only while it is dirty. */
  ghost predicate Mirrored(disk: Disk, g: Geometry, cache: Cache) {
    forall copy: nat, s: nat | copy < g.numFats && s < g.sectorsPerFat && !(cache.dirty && s == cache.sector) ::
      At(disk, g.FatLba(copy, s)) == At(disk, g.FatLba(0, s))
  }

  /** The invariant that ties the disk and the cache to the logical FAT words and the cluster contents. */
  ghost predicate Consistent(disk: Disk, g: Geometry, cache: Cache, raw: seq<uint32>, data: seq<seq<uint8>>) {
    && g.WellFormed()
    && g.totalSectors <= |disk|
    && (cache.sector == NONE || cache.sector < g.sectorsPerFat)
    && (cache.dirty ==> cache.sector != NONE)
    && (cache.sector != NONE && !cache.dirty ==> cache.bytes == At(disk, g.FatLba(0, cache.sector)))
    && |raw| == |data| == g.Clusters()
    && (forall k | 0 <= k < |raw| :: raw[k] == RawEntry(disk, g, cache, k))
    && (forall c | g.IsCluster(c) :: data[c] == ClusterBytes(disk, g, c))
    && Mirrored(disk, g, cache)
  }

  lemma ConsistentFacts(disk: Disk, g: Geometry, cache: Cache, raw: seq<uint32>, data: seq<seq<uint8>>)
    requires Consistent(disk, g, cache, raw, data)
    ensures cache.sector == NONE || cache.sector < g.sectorsPerFat
    ensures cache.dirty ==> cache.sector != NONE
    ensures g.WellFormed() && |raw| == |data| == g.Clusters() <= BAD_CLUSTER
    ensures forall c | g.IsCluster(c) :: |data[c]| == g.bytesPerCluster
  {}

  // ----- Effects of single sector writes

  /** A write inside the FAT area leaves every cluster alone. */
  lemma FatWriteFramesClusters(disk: Disk, g: Geometry, copy: nat, s: nat, bytes: Sector, c: nat)
    requires g.WellFormed() && g.totalSectors <= |disk| && g.IsCluster(c)
    requires copy < g.numFats && s < g.sectorsPerFat
    ensures g.FatLba(copy, s) < |disk|
    ensures ClusterBytes(disk[g.FatLba(copy, s) := bytes], g, c) == ClusterBytes(disk, g, c)
  {
    FatLbaBounds(g, copy, s);
    var disk' := disk[g.FatLba(copy, s) := bytes];
    forall i | 0 <= i < g.sectorsPerCluster * SECTOR_SIZE
      ensures At(disk', g.DataLba(c, i / SECTOR_SIZE)) == At(disk, g.DataLba(c, i / SECTOR_SIZE))
    {
      DataLbaBounds(g, c, i / SECTOR_SIZE);
    }
  }

  /** Writing the dirty cached sector to any copy keeps the invariant. */
  lemma FlushWrite(disk: Disk, g: Geometry, cache: Cache, raw: seq<uint32>, data: seq<seq<uint8>>, copy: nat)
    requires Consistent(disk, g, cache, raw, data) && cache.dirty && copy < g.numFats
    ensures g.FatLba(copy, cache.sector) < |disk|
    ensures Consistent(disk[g.FatLba(copy, cache.sector) := cache.bytes], g, cache, raw, data)
  {
    FatLbaBounds(g, copy, cache.sector);
    var lba := g.FatLba(copy, cache.sector);
    var disk' := disk[lba := cache.bytes];
    forall c' : nat, s: nat | s < g.sectorsPerFat && s != cache.sector
      ensures At(disk', g.FatLba(c', s)) == At(disk, g.FatLba(c', s))
    {
      if g.FatLba(c', s) == lba {
        FatLbaInjective(g, copy, cache.sector, c', s);
      }
    }
    forall k | 0 <= k < |raw| ensures raw[k] == RawEntry(disk', g, cache, k) {
      assert raw[k] == RawEntry(disk, g, cache, k);
    }
    forall c | g.IsCluster(c) ensures data[c] == ClusterBytes(disk', g, c) {
      FatWriteFramesClusters(disk, g, copy, cache.sector, cache.bytes, c);
    }
  }

  /** The first `n` copies hold the cached bytes. */
  ghost predicate FlushedTo(disk: Disk, g: Geometry, cache: Cache, n: nat) {
    forall copy: nat | copy < n :: At(disk, g.FatLba(copy, cache.sector)) == cache.bytes
  }

  lemma FlushedOneMore(disk: Disk, g: Geometry, cache: Cache, raw: seq<uint32>, data: seq<seq<uint8>>, n: nat)
    requires Consistent(disk, g, cache, raw, data) && cache.sector != NONE && n < g.numFats
    requires FlushedTo(disk, g, cache, n)
    ensures g.FatLba(n, cache.sector) < |disk| && g.FatLba(n, cache.sector) < TWO_TO_THE_32
    ensures 0 <= n * g.sectorsPerFat < TWO_TO_THE_32
    ensures FlushedTo(disk[g.FatLba(n, cache.sector) := cache.bytes], g, cache, n + 1)
  {
    FatLbaBounds(g, n, cache.sector);
    var disk' := disk[g.FatLba(n, cache.sector) := cache.bytes];
    forall copy: nat | copy < n + 1 ensures At(disk', g.FatLba(copy, cache.sector)) == cache.bytes {
      if copy < n && g.FatLba(copy, cache.sector) == g.FatLba(n, cache.sector) {
        FatLbaInjective(g, copy, cache.sector, n, cache.sector);
      }
    }
  }

  /** Once every copy holds the cached bytes the sector is clean. */
  lemma FlushDone(disk: Disk, g: Geometry, cache: Cache, raw: seq<uint32>, data: seq<seq<uint8>>)
    requires Consistent(disk, g, cache, raw, data) && cache.sector != NONE
    requires FlushedTo(disk, g, cache, g.numFats)
    ensures Consistent(disk, g, cache.(dirty := false), raw, data)
  {
    var clean := cache.(dirty := false);
    forall k | 0 <= k < |raw| ensures raw[k] == RawEntry(disk, g, clean, k) {
      assert raw[k] == RawEntry(disk, g, cache, k);
    }
    assert At(disk, g.FatLba(0, cache.sector)) == cache.bytes;
  }

  /** Loading another sector over a clean cache changes no entry. */
  lemma LoadOther(disk: Disk, g: Geometry, cache: Cache, raw: seq<uint32>, data: seq<seq<uint8>>, s: uint32)
    requires Consistent(disk, g, cache, raw, data) && !cache.dirty && s < g.sectorsPerFat
    ensures g.firstFatSector + s == g.FatLba(0, s) < |disk| && g.FatLba(0, s) < TWO_TO_THE_32
    ensures Consistent(disk, g, Cache(s, false, disk[g.firstFatSector + s]), raw, data)
  {
    FatLbaBounds(g, 0, s);
    var other := Cache(s, false, At(disk, g.FatLba(0, s)));
    forall k | 0 <= k < |raw| ensures raw[k] == RawEntry(disk, g, other, k) {
      assert raw[k] == RawEntry(disk, g, cache, k);
      assert FatSector(disk, g, other, k / ENTRIES) == FatSector(disk, g, cache, k / ENTRIES);
    }
  }

  lemma EntryAfterStore(disk: Disk, g: Geometry, cache: Cache, c: nat, v: uint32, k: nat)
    requires cache.sector == c / ENTRIES
    ensures RawEntry(disk, g, Cache(cache.sector, true, Put(cache.bytes, c % ENTRIES * 4, WordBytes(v))), k)
         == if k == c then v else RawEntry(disk, g, cache, k)
  {
    if k == c {
      WordOfPut(cache.bytes, c % ENTRIES * 4, v);
    } else if k / ENTRIES == cache.sector {
      assert k % ENTRIES != c % ENTRIES;
    }
  }

  /** Storing a word in the cached sector changes that entry and no other. */
  lemma StoreEntry(disk: Disk, g: Geometry, cache: Cache, raw: seq<uint32>, data: seq<seq<uint8>>, c: nat, v: uint32)
    requires Consistent(disk, g, cache, raw, data) && c < g.Clusters() && cache.sector == c / ENTRIES
    ensures Consistent(disk, g, Cache(cache.sector, true, Put(cache.bytes, c % ENTRIES * 4, WordBytes(v))), raw[c := v],
        data)
  {
    var cache' := Cache(cache.sector, true, Put(cache.bytes, c % ENTRIES * 4, WordBytes(v)));
    forall k | 0 <= k < |raw| ensures raw[c := v][k] == RawEntry(disk, g, cache', k) {
      assert raw[k] == RawEntry(disk, g, cache, k);
      EntryAfterStore(disk, g, cache, c, v, k);
    }
    hide RawEntry;
  }

  /** Writing sector `j` of cluster `c` changes those bytes of that cluster only. */
  lemma ClusterWrite(disk: Disk, g: Geometry, cache: Cache, raw: seq<uint32>, data: seq<seq<uint8>>,
                     c: nat, j: nat, bytes: Sector)
    requires Consistent(disk, g, cache, raw, data) && g.IsCluster(c) && j < g.sectorsPerCluster
    ensures 0 <= g.DataLba(c, j) < |disk|
    ensures Consistent(disk[g.DataLba(c, j) := bytes], g, cache, raw,
                       data[c := Put(data[c], j * SECTOR_SIZE, bytes)])
  {
    DataLbaBounds(g, c, j);
    var disk' := disk[g.DataLba(c, j) := bytes];
    forall copy: nat, s: nat | copy < g.numFats && s < g.sectorsPerFat
      ensures At(disk', g.FatLba(copy, s)) == At(disk, g.FatLba(copy, s))
    {
      FatLbaBounds(g, copy, s);
    }
    forall k | 0 <= k < |raw| ensures raw[k] == RawEntry(disk', g, cache, k) {
      assert raw[k] == RawEntry(disk, g, cache, k);
      assert FatSector(disk', g, cache, k / ENTRIES) == FatSector(disk, g, cache, k / ENTRIES);
    }
    forall d | g.IsCluster(d)
      ensures ClusterBytes(disk', g, d) == data[c := Put(data[c], j * SECTOR_SIZE, bytes)][d]
    {
      assert data[d] == ClusterBytes(disk, g, d);
      ClusterAfterWrite(disk, g, c, j, bytes, d);
    }
  }

  lemma ClusterAfterWrite(disk: Disk, g: Geometry, c: nat, j: nat, bytes: Sector, d: nat)
    requires g.WellFormed() && g.IsCluster(c) && g.IsCluster(d) && j < g.sectorsPerCluster
    requires 0 <= g.DataLba(c, j) < |disk|
    ensures ClusterBytes(disk[g.DataLba(c, j) := bytes], g, d)
         == if d == c then Put(ClusterBytes(disk, g, c), j * SECTOR_SIZE, bytes) else ClusterBytes(disk, g, d)
  {
    var disk' := disk[g.DataLba(c, j) := bytes];
    forall i: nat | i < g.sectorsPerCluster
      ensures At(disk', g.DataLba(d, i)) == if d == c && i == j then bytes else At(disk, g.DataLba(d, i))
    {
      if g.DataLba(d, i) == g.DataLba(c, j) {
        DataLbaInjective(g, c, j, d, i);
      }
    }
  }

  lemma ClusterSector(disk: Disk, g: Geometry, cache: Cache, raw: seq<uint32>, data: seq<seq<uint8>>, c: nat, j: nat)
    requires Consistent(disk, g, cache, raw, data) && g.IsCluster(c) && j < g.sectorsPerCluster
    ensures |data[c]| == g.sectorsPerCluster * SECTOR_SIZE
    ensures data[c][j * SECTOR_SIZE..(j + 1) * SECTOR_SIZE] == At(disk, g.DataLba(c, j))
  {
    hide RawEntry, Mirrored;
    assert data[c] == ClusterBytes(disk, g, c);
  }

  /** The word of a cluster whose FAT sector is cached. */
  lemma CachedEntry(disk: Disk, g: Geometry, cache: Cache, raw: seq<uint32>, data: seq<seq<uint8>>, c: nat)
    requires Consistent(disk, g, cache, raw, data) && c < g.Clusters() && cache.sector == c / ENTRIES
    ensures raw[c] == Word(cache.bytes, c % ENTRIES * 4)
  {
    assert raw[c] == RawEntry(disk, g, cache, c);
  }

  /** On a clean cache every FAT copy on disk spells out the logical FAT. */
  lemma SyncedCopies(disk: Disk, g: Geometry, cache: Cache, raw: seq<uint32>, data: seq<seq<uint8>>, copy: nat, k: nat)
    requires Consistent(disk, g, cache, raw, data) && !cache.dirty
    requires copy < g.numFats && k < g.Clusters()
    ensures Word(At(disk, g.FatLba(copy, k / ENTRIES)), k % ENTRIES * 4) == raw[k]
  {
    assert raw[k] == RawEntry(disk, g, cache, k);
    assert At(disk, g.FatLba(copy, k / ENTRIES)) == At(disk, g.FatLba(0, k / ENTRIES));
  }

  /**
   * Without its cache the FAT is copy 0 on disk: the same entries outside the cached sector, and
   * everywhere if that is clean.
   */
  lemma Dropped(disk: Disk, g: Geometry, cache: Cache, raw: seq<uint32>, data: seq<seq<uint8>>)
    requires Consistent(disk, g, cache, raw, data)
    ensures !cache.dirty ==> Consistent(disk, g, cache.(sector := NONE), raw, data)
    ensures forall k | 0 <= k < |raw| ::
              RawEntry(disk, g, Cache(NONE, false, cache.bytes), k)
              == if k / ENTRIES == cache.sector then Word(At(disk, g.FatLba(0, k / ENTRIES)), k % ENTRIES * 4)
                  else raw[k]
  {
    forall k | 0 <= k < |raw|
      ensures RawEntry(disk, g, Cache(NONE, false, cache.bytes), k)
           == if k / ENTRIES == cache.sector then Word(At(disk, g.FatLba(0, k / ENTRIES)), k % ENTRIES * 4) else raw[k]
      ensures !cache.dirty ==> raw[k] == RawEntry(disk, g, Cache(NONE, false, cache.bytes), k)
    {
      assert raw[k] == RawEntry(disk, g, cache, k);
    }
  }

  /** Sector `i` of a cluster's bytes. */
  function SectorOf(b: seq<uint8>, i: nat): Sector {
    if (i + 1) * SECTOR_SIZE <= |b| then b[i * SECTOR_SIZE..(i + 1) * SECTOR_SIZE] else seq(SECTOR_SIZE, _ => 0)
  }

  /** Cluster contents `was` after the first `n` sectors of `bytes` have been written over it. */
  ghost function Partly(was: seq<uint8>, bytes: seq<uint8>, n: nat): (r: seq<uint8>) {
    if n * SECTOR_SIZE <= |bytes| == |was| then bytes[..n * SECTOR_SIZE] + was[n * SECTOR_SIZE..] else was
  }

  lemma PartlyEnds(g: Geometry, was: seq<uint8>, bytes: seq<uint8>)
    requires g.WellFormed() && |bytes| == |was| == g.bytesPerCluster
    ensures Partly(was, bytes, 0) == was
    ensures Partly(was, bytes, g.sectorsPerCluster) == bytes
  {}

  lemma PartlyStep(was: seq<uint8>, bytes: seq<uint8>, n: nat)
    requires (n + 1) * SECTOR_SIZE <= |bytes| == |was|
    ensures Put(Partly(was, bytes, n), n * SECTOR_SIZE, SectorOf(bytes, n)) == Partly(was, bytes, n + 1)
  {}

  /** The driver's LBA for sector `j` of a cluster is on the disk. */
  lemma ClusterSectorLba(g: Geometry, c: uint32, j: nat, disk: Disk, cache: Cache, raw: seq<uint32>,
      data: seq<seq<uint8>>)
    requires Consistent(disk, g, cache, raw, data) && g.IsCluster(c) && j < g.sectorsPerCluster
    ensures g.DataLba(c, j) == g.ClusterToLba(c) + j < |disk|
    ensures g.ClusterToLba(c) + j < TWO_TO_THE_32
  {
    ClusterLbaRoundTrip(g, c, j);
    DataLbaBounds(g, c, j);
  }

  /** Writing sector `i` of `bytes` over a cluster whose first `i` sectors are already written. */
  lemma WriteSectorStep(disk: Disk, g: Geometry, cache: Cache, raw: seq<uint32>, data: seq<seq<uint8>>,
                        was: seq<uint8>, bytes: seq<uint8>, c: uint32, i: nat)
    requires g.IsCluster(c) && i < g.sectorsPerCluster && c < |data|
    requires |bytes| == |was| == g.bytesPerCluster
    requires Consistent(disk, g, cache, raw, data[c := Partly(was, bytes, i)])
    ensures g.ClusterToLba(c) + i < TWO_TO_THE_32 && g.ClusterToLba(c) + i < |disk|
    ensures Consistent(disk[g.ClusterToLba(c) + i := SectorOf(bytes, i)],
                       g, cache, raw, data[c := Partly(was, bytes, i + 1)])
  {
    assert (i + 1) * SECTOR_SIZE <= |bytes| == g.sectorsPerCluster * SECTOR_SIZE;
    assert |Partly(was, bytes, i)| == |was|;
    hide Consistent, Partly, SectorOf;
    var now := data[c := Partly(was, bytes, i)];
    ClusterSectorLba(g, c, i, disk, cache, raw, now);
    ClusterWrite(disk, g, cache, raw, now, c, i, SectorOf(bytes, i));
    PartlyStep(was, bytes, i);
    assert data[c := Partly(was, bytes, i + 1)] == now[c := Partly(was, bytes, i + 1)];
  }
}
