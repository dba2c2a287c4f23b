/**
 * A freshly formatted volume of eight clusters: it meets every invariant, and a file can be stored on
 * it and loaded back.
 */
module Formatted {
  import opened Bytes
  import opened Chains
  import opened Contents
  import opened Device
  import opened DirMaps
  import opened Directories
  import opened Fat
  import opened Files
  import opened FileSystems
  import opened Geometry
  import opened Image
  import opened Memory
  import opened Mounts
  import opened Paths
  import opened Persistence
  import opened ShortNames
  import opened Slots
  import opened Soundness
  import opened Tokens

  const ROOT: uint32 := 2

  function Zeros(): Sector { Repeat(0, SECTOR_SIZE) }

  /** 512-byte sectors, one per cluster, one reserved, two FATs of one sector each, eleven sectors in all, root at 2. */
  function Boot(): Sector {
    seq(SECTOR_SIZE, i =>
      if i == 12 || i == 16 || i == 44 then 2
      else if i == 13 || i == 14 || i == 36 then 1
      else if i == 32 then 11
      else 0)
  }

  /** The FAT: the media word, and end marks for cluster 1 and the root directory. */
  function FirstFat(): Sector {
    Put(Put(Put(Zeros(), 0, WordBytes(EOC_MIN)), 4, WordBytes(EOC)), 8, WordBytes(EOC))
  }

  function EmptyDisk(): Disk {
    [Boot(), FirstFat(), FirstFat()] + seq(8, _ => Zeros())
  }

  function EmptyGeometry(): Geometry {
    Geometry(512, 1, 512, 1, 2, 1, ROOT, 1, 3, 11, 8)
  }

  lemma BootFields()
    ensures var b := Boot();
      && BytesPerSector(b) == 512 && SectorsPerCluster(b) == 1 && ReservedSectors(b) == 1 && NumFats(b) == 2
      && Half(b, 22) == 0 && TotalSectors(b) == 11 && SectorsPerFat(b) == 1 && Word(b, 44) == 2
  {
    hide Boot;
    var b := Boot();
    BootBytes(11, 5);
    BootBytes(22, 1);
    BootBytes(32, 16);
    assert b[11] == 0 && b[12] == 2 && b[13] == 1 && b[14] == 1 && b[15] == 0 && b[22] == 0 && b[23] == 0;
  }

  lemma BootBytes(from: nat, n: nat)
    requires from + n < SECTOR_SIZE
    ensures forall i | from <= i <= from + n :: Boot()[i] == if i == 12 || i == 16 || i == 44 then 2
      else if i == 13 || i == 14 || i == 36 then 1 else if i == 32 then 11 else 0
  {}

  lemma BootParses()
    ensures Parse(Boot()) == Parsed(EmptyGeometry()) && EmptyGeometry().WellFormed()
  {
    hide Boot, Half, Word, TotalSectors, BytesPerSector, SectorsPerCluster, ReservedSectors, NumFats, SectorsPerFat,
         Geometry.WellFormed, Parse;
    BootFields();
    FieldsParse(Boot());
    EmptyUsable();
  }

  lemma FieldsParse(b: Sector)
    requires BytesPerSector(b) == 512 && SectorsPerCluster(b) == 1 && ReservedSectors(b) == 1 && NumFats(b) == 2
    requires Half(b, 22) == 0 && TotalSectors(b) == 11 && SectorsPerFat(b) == 1 && Word(b, 44) == 2
    ensures Parse(b) == Parsed(EmptyGeometry())
  {
    hide Half, Word, TotalSectors, BytesPerSector, SectorsPerCluster, ReservedSectors, NumFats, SectorsPerFat;
  }

  lemma EmptyUsable()
    ensures EmptyGeometry().WellFormed()
  {}

  /** The word of cluster `k` in the FAT sector. */
  lemma FatWords(k: nat)
    requires 2 <= k < 10
    ensures Word(FirstFat(), k * 4) == if k == ROOT then EOC else 0
  {
    var f1 := Put(Put(Zeros(), 0, WordBytes(EOC_MIN)), 4, WordBytes(EOC));
    WordOfPut(f1, 8, EOC);
  }

  lemma DiskSectors()
    ensures |EmptyDisk()| == 11 && EmptyDisk()[0] == Boot()
    ensures EmptyDisk()[1] == EmptyDisk()[2] == FirstFat() && EmptyDisk()[3] == Zeros()
  {
    hide FirstFat, Boot, Zeros;
  }

  lemma EmptyMirrored(b: Sector)
    ensures Mirrored(EmptyDisk(), EmptyGeometry(), Cache(NONE, false, b))
  {
    hide FirstFat, Boot, Zeros, EmptyDisk;
    DiskSectors();
    var g := EmptyGeometry();
    forall copy: nat, s: nat | copy < g.numFats && s < g.sectorsPerFat
      ensures At(EmptyDisk(), g.FatLba(copy, s)) == FirstFat()
    {
      assert g.FatLba(copy, s) == 1 + copy;
    }
  }

  /** What the FAT and the root directory of the empty volume hold. */
  ghost predicate IsEmpty(t: Table, data: Data) {
    && |t| == |data| == 10
    && (forall k | 2 <= k < 10 :: t[k] == if k == ROOT then EOC else 0)
    && data[ROOT] == Zeros()
  }

  lemma EmptyVolume(t: Table, raw: seq<uint32>, data: Data, b: Sector)
    requires Consistent(EmptyDisk(), EmptyGeometry(), Cache(NONE, false, b), raw, data) && IsTableOf(t, raw)
    ensures IsEmpty(t, data)
  {
    hide FirstFat, Boot, Zeros, Mirrored, EmptyDisk, RawEntry, ClusterBytes;
    forall k | 2 <= k < 10 ensures t[k] == if k == ROOT then EOC else 0 {
      assert raw[k] == RawEntry(EmptyDisk(), EmptyGeometry(), Cache(NONE, false, b), k);
      EmptyEntry(k, b);
    }
    assert data[ROOT] == ClusterBytes(EmptyDisk(), EmptyGeometry(), ROOT);
    RootBytes();
  }

  lemma EmptyEntry(k: nat, b: Sector)
    requires 2 <= k < 10
    ensures RawEntry(EmptyDisk(), EmptyGeometry(), Cache(NONE, false, b), k) == if k == ROOT then EOC else 0
  {
    hide FirstFat, Boot, Zeros, EmptyDisk, Word;
    DiskSectors();
    var cache := Cache(NONE, false, b);
    assert k / ENTRIES == 0 && k % ENTRIES == k;
    FirstSector(EmptyDisk(), cache);
    hide FatSector;
    FatWords(k);
  }

  lemma FirstSector(disk: Disk, cache: Cache)
    requires |disk| == 11 && cache.sector == NONE
    ensures FatSector(disk, EmptyGeometry(), cache, 0) == disk[1]
  {
    hide EmptyGeometry, Geometry.FatLba;
    FirstLba();
  }

  lemma FirstLba()
    ensures EmptyGeometry().FatLba(0, 0) == 1
  {}

  lemma RootBytes()
    ensures ClusterBytes(EmptyDisk(), EmptyGeometry(), ROOT) == Zeros()
  {
    hide FirstFat, Boot, Zeros, EmptyDisk;
    DiskSectors();
    var g, disk := EmptyGeometry(), EmptyDisk();
    assert g.DataLba(ROOT, 0) == 3 && At(disk, 3) == Zeros();
    forall i | 0 <= i < SECTOR_SIZE ensures ClusterBytes(disk, g, ROOT)[i] == Zeros()[i] {
      assert i / SECTOR_SIZE == 0 && i % SECTOR_SIZE == i;
    }
  }

  /** Its root directory is one cluster of end marks. */
  lemma EmptyRoot(t: Table, data: Data)
    requires IsEmpty(t, data)
    ensures ChainOf(t, ROOT) == [ROOT] && IsChain(t, [ROOT])
    ensures |SlotsAt(t, data, ROOT)| == 16 && forall i | 0 <= i < 16 :: IsEnd(SlotsAt(t, data, ROOT)[i])
    ensures LeastFree(t) == 3
  {
    ChainOfIs(t, [ROOT]);
    DirSlotsOne(data, ROOT);
    var slots := ClusterSlots(data[ROOT]);
    forall i | 0 <= i < 16 ensures IsEnd(slots[i]) {
      assert slots[i][0] == data[ROOT][i * SLOT_SIZE];
    }
    assert FreeFrom(t, 3) == 3;
  }

  lemma EmptySound(t: Table, data: Data)
    requires IsEmpty(t, data)
    ensures Sound(t, data, {ROOT}, {})
  {
    hide DirSlots, WellFormed, SlotsAt, HasFile, HasDir, IsEnd;
    EmptyRoot(t, data);
    EndsHoldNothing(SlotsAt(t, data, ROOT));
  }

  lemma EndsHoldNothing(slots: seq<Slot>)
    requires forall i | 0 <= i < |slots| :: IsEnd(slots[i])
    ensures WellFormed(slots) && forall i | 0 <= i < |slots| :: !HasFile(slots[i]) && !HasDir(slots[i])
  {
    hide IsEnd;
  }

  /** Mounting the empty volume: the boot sector parses, and the whole-volume invariant holds. */
  method MountEmpty() returns (fs: FileSystem)
    ensures fresh(fs) && fs.Valid() && fs.currentDirectory == ROOT == fs.vol.geo.rootCluster
    ensures IsEmpty(fs.vol.table, fs.vol.data) && fs.vol.geo.bytesPerCluster == SECTOR_SIZE
    ensures forall f | f in fs.files.files :: !f.inUse && fresh(f)
    ensures fresh(fs.vol.Footprint()) && fresh(fs.files.buffer) && fresh(fs.dir.buffer)
  {
    hide Consistent, IsTableOf, Boot, FirstFat, EmptyDisk, Parse, Geometry.WellFormed, Sound, IsEmpty, DistinctFiles,
         Mirrored;
    var dev := new BlockDevice(EmptyDisk(), true);
    var sectorBuffer := new uint8[SECTOR_SIZE](_ => 0);
    DiskSectors();
    BootParses();
    var ok, p := ParseBpb(dev, sectorBuffer);
    EmptyMirrored(seq(SECTOR_SIZE, _ => 0));
    var vol := new Volume(dev, p.geo);
    EmptyVolume(vol.table, vol.raw, vol.data, vol.fatBuffer[..]);
    EmptySound(vol.table, vol.data);
    fs := new FileSystem(vol, {ROOT});
  }

  /** In the root directory of the empty volume any file can be created, and there is room for one cluster of data. */
  lemma EmptyCreatable(fs: FileSystem, name: seq<uint8>)
    requires IsEmpty(fs.vol.table, fs.vol.data) && fs.currentDirectory == ROOT
    requires Storable(name) && SLASH !in name
    ensures Creatable(fs, name) && Free(fs.vol.table) >= 1
  {
    hide IsEmpty, DirSlots, PathDir, FilePart, Key, Hits, UpperAll, Storable, FreeCount, FreeFrom;
    var t, data := fs.vol.table, fs.vol.data;
    EmptyRoot(t, data);
    EmptyTable(t, data);
    NoneFree(t, 2);
    ShortName(name);
    SinglePath(t, data, fs.vol.geo.rootCluster, ROOT, name);
  }

  lemma ShortName(name: seq<uint8>)
    requires Storable(name)
    ensures |name| <= 12 && 0 !in name
  {}

  lemma EmptyTable(t: Table, data: Data)
    requires IsEmpty(t, data)
    ensures |t| == 10
  {}

  /** A file of up to one cluster can be created in the root directory of the empty volume and loaded back. */
  method FirstFile(name: seq<uint8>, input: array<uint8>, n: uint32) returns (out: array<uint8>)
    requires Storable(name) && SLASH !in name && n <= SECTOR_SIZE && n <= input.Length
    ensures out.Length == n && out[..] == input[..n]
  {
    hide Consistent, IsTableOf, Geometry.WellFormed, Sound, IsEmpty, DistinctFiles, FreeCount, Creatable,
         FileTable.States;
    out := new uint8[n];
    var fs := MountEmpty();
    EmptyCreatable(fs, name);
    fs.files.StateAt(0);
    assert fs.files.States()[0] in fs.files.States();
    var r := StoreThenLoad(fs, name, input, n, out);
    assert out[..n] == out[..];
  }
}
