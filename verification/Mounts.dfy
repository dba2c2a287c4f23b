/** `fat32_parse_bpb`, unmounting and the space queries of drivers/fat32/mount.c. */
module Mounts {
  import opened Arithmetic
  import opened Bytes
  import opened Chains
  import opened Device
  import opened Fat
  import opened Geometry
  import opened Image

  /** What a boot sector yields: a rejection, a division by zero clusters per sector, or a geometry. */
  datatype Parsed = Rejected | DividesByZero | Parsed(geo: Geometry)

  // ----- The fields of the boot sector

  function BytesPerSector(b: Sector): uint16 { Half(b, 11) }

  function SectorsPerCluster(b: Sector): uint8 { b[13] }

  function ReservedSectors(b: Sector): uint16 { Half(b, 14) }

  function NumFats(b: Sector): uint8 { b[16] }

  function SectorsPerFat(b: Sector): uint32 { Word(b, 36) }

  function TotalSectors(b: Sector): uint32 {
    if Word(b, 32) > 0 then Word(b, 32) else Half(b, 19)
  }

  /** The fields a formatter writes, and the sector `b` with each of them at its place in the on-disk format. */
  datatype BootRecord = BootRecord(
    bytesPerSector: uint16,
    sectorsPerCluster: uint8,
    reservedSectors: uint16,
    numFats: uint8,
    totalSectors16: uint16,
    sectorsPerFat16: uint16,
    totalSectors32: uint32,
    sectorsPerFat32: uint32,
    rootCluster: uint32)

  function Written(b: Sector, f: BootRecord): Sector {
    var b1 := Put(Put(Put(b, 11, HalfBytes(f.bytesPerSector)), 13, [f.sectorsPerCluster]),
        14, HalfBytes(f.reservedSectors));
    var b2 := Put(Put(Put(b1, 16, [f.numFats]), 19, HalfBytes(f.totalSectors16)), 22, HalfBytes(f.sectorsPerFat16));
    Put(Put(Put(b2, 32, WordBytes(f.totalSectors32)), 36, WordBytes(f.sectorsPerFat32)), 44, WordBytes(f.rootCluster))
  }

  /** What the driver computes from the boot sector, in 32-bit arithmetic. */
  function Parse(b: Sector): Parsed {
    var bps, spc, reserved := BytesPerSector(b), SectorsPerCluster(b), ReservedSectors(b);
    var fats, spf := NumFats(b), SectorsPerFat(b);
    if (bps != 512 && bps != 1024 && bps != 2048 && bps != 4096) || Half(b, 22) != 0 then Rejected
    else if spc == 0 then DividesByZero
    else
      var firstData := (reserved + fats * spf % TWO_TO_THE_32) % TWO_TO_THE_32;
      var total := TotalSectors(b);
      SmallProduct(bps, spc);
      Parsed(Geometry(bps, spc, bps * spc, reserved, fats, spf, Word(b, 44), reserved, firstData, total,
                      ShareFits((total - firstData) % TWO_TO_THE_32, spc)))
  }

  /** Every field is read from where it was written, whatever else the sector holds. */
  lemma FieldsReadBack(b: Sector, f: BootRecord)
    ensures var w := Written(b, f);
      && BytesPerSector(w) == f.bytesPerSector && SectorsPerCluster(w) == f.sectorsPerCluster
      && ReservedSectors(w) == f.reservedSectors && NumFats(w) == f.numFats && Half(w, 22) == f.sectorsPerFat16
      && TotalSectors(w) == (if f.totalSectors32 != 0 then f.totalSectors32 else f.totalSectors16)
      && SectorsPerFat(w) == f.sectorsPerFat32 && Word(w, 44) == f.rootCluster
  {
    var w := Written(b, f);
    var h := [HalfBytes(f.bytesPerSector), HalfBytes(f.reservedSectors), HalfBytes(f.totalSectors16),
              HalfBytes(f.sectorsPerFat16)];
    var v := [WordBytes(f.totalSectors32), WordBytes(f.sectorsPerFat32), WordBytes(f.rootCluster)];
    hide HalfBytes, WordBytes;
    assert w[11..13] == h[0] && w[14..16] == h[1] && w[19..21] == h[2] && w[22..24] == h[3];
    assert w[32..36] == v[0] && w[36..40] == v[1] && w[44..48] == v[2];
  }

  /**
   * The round trip from any field values: the driver accepts exactly the four sector sizes with no 16-bit
   * FAT size, and then its geometry has every field, with the 16-bit sector count where the 32-bit one is 0.
   */
  lemma BootRoundTrip(b: Sector, f: BootRecord)
    ensures var p := Parse(Written(b, f));
      && (p.Rejected? <==> f.bytesPerSector !in {512, 1024, 2048, 4096} || f.sectorsPerFat16 != 0)
      && (p.DividesByZero? <==> !p.Rejected? && f.sectorsPerCluster == 0)
      && (p.Parsed? ==>
          && p.geo.bytesPerSector == f.bytesPerSector && p.geo.sectorsPerCluster == f.sectorsPerCluster
          && p.geo.bytesPerCluster == f.bytesPerSector * f.sectorsPerCluster
          && p.geo.reservedSectors == p.geo.firstFatSector == f.reservedSectors && p.geo.numFats == f.numFats
          && p.geo.sectorsPerFat == f.sectorsPerFat32 && p.geo.rootCluster == f.rootCluster
          && p.geo.firstDataSector == (f.reservedSectors + f.numFats * f.sectorsPerFat32) % TWO_TO_THE_32
          && p.geo.totalSectors == (if f.totalSectors32 != 0 then f.totalSectors32 else f.totalSectors16)
          && p.geo.totalClusters
             == (p.geo.totalSectors - p.geo.firstDataSector) % TWO_TO_THE_32 / f.sectorsPerCluster)
  {
    hide Written, Half, Word, TotalSectors, BytesPerSector, SectorsPerCluster, ReservedSectors, NumFats, SectorsPerFat;
    FieldsReadBack(b, f);
    WrapOnce(f.numFats * f.sectorsPerFat32, f.reservedSectors, 0);
  }

  lemma SmallProduct(a: nat, b: nat)
    requires a <= 4096 && b < 256
    ensures 0 <= a * b < TWO_TO_THE_32
  {
    MulMono(a, 4096, b);
  }

  function ShareFits(n: uint32, m: nat): (q: uint32)
    requires m > 0
    ensures q == n / m
  {
    QuotientFits(n, m);
    n / m
  }

  /**
   * What a boot sector must say for the rest of the driver to work: 512-byte sectors, clusters of
   * at most 64 of them, a FAT, regions in order and a FAT large enough for every cluster.
   */
  ghost predicate Sane(b: Sector) {
    var spc := SectorsPerCluster(b);
    var firstData, total := ReservedSectors(b) + NumFats(b) * SectorsPerFat(b), TotalSectors(b);
    && BytesPerSector(b) == SECTOR_SIZE && 1 <= spc <= 64 && NumFats(b) >= 1
    && firstData <= total
    && ((total - firstData) / spc + 2) * 4 <= SectorsPerFat(b) * SECTOR_SIZE
    && (total - firstData) / spc + 2 <= 0x0FFF_FFF7
  }

  /** The driver accepts more than it can handle: the geometry it computes is usable exactly for sane boot sectors. */
  lemma ParseUsable(b: Sector)
    requires Parse(b).Parsed?
    ensures Parse(b).geo.WellFormed() <==> Sane(b)
  {
    hide Word, Half;
    MulMono(0, NumFats(b), SectorsPerFat(b));
    var fats, total := NumFats(b) * SectorsPerFat(b), TotalSectors(b);
    if ReservedSectors(b) + fats <= total {
      NoWrap(ReservedSectors(b), fats, total);
      assert Parse(b).geo.totalClusters == (total - (ReservedSectors(b) + fats)) / SectorsPerCluster(b);
    }
  }

  /** Regions in order never wrap around. */
  lemma NoWrap(reserved: nat, fats: nat, total: uint32)
    requires reserved + fats <= total
    ensures (reserved + fats % TWO_TO_THE_32) % TWO_TO_THE_32 == reserved + fats
    ensures (total - (reserved + fats)) % TWO_TO_THE_32 == total - (reserved + fats)
  {}

  /**
   * `fat32_parse_bpb`: reads the first sector and computes the geometry. It fails when the sector
   * cannot be read or is rejected; a boot sector it divides by zero on yields no geometry either.
   */
  method ParseBpb(dev: BlockDevice, sectorBuffer: array<uint8>) returns (ok: bool, p: Parsed)
    requires sectorBuffer.Length == SECTOR_SIZE
    modifies sectorBuffer
    ensures ok == p.Parsed?
    ensures ok ==> |dev.sectors| > 0 && p == Parse(dev.sectors[0])
    ensures dev.reliable && |dev.sectors| > 0 ==> p == Parse(dev.sectors[0])
  {
    ok := dev.Read(0, sectorBuffer, 0);
    if !ok {
      return false, Rejected;
    }
    assert sectorBuffer[..] == dev.sectors[0];
    p := Parse(sectorBuffer[..]);
    ok := p.Parsed?;
  }

  // ----- Space

  /** `fat32_get_free_space`, whose product wraps from 4 GiB on. */
  method GetFreeSpace(vol: Volume) returns (bytes: uint32)
    requires vol.Valid() && vol.dev.reliable
    modifies vol.Footprint()
    ensures vol.Valid() && vol.table == old(vol.table) && vol.data == old(vol.data)
    ensures bytes == Free(vol.table) * vol.geo.bytesPerCluster % TWO_TO_THE_32
    ensures vol.geo.totalClusters * vol.geo.bytesPerCluster < TWO_TO_THE_32 ==>
              bytes == Free(vol.table) * vol.geo.bytesPerCluster <= vol.geo.totalClusters * vol.geo.bytesPerCluster
  {
    hide Consistent, IsTableOf, Geometry.WellFormed, FreeCount;
    vol.Facts();
    var count := vol.CountFreeClusters();
    MulMono(count, vol.geo.totalClusters, vol.geo.bytesPerCluster);
    MulMono(0, count, vol.geo.bytesPerCluster);
    bytes := count * vol.geo.bytesPerCluster % TWO_TO_THE_32;
  }

  // ----- Unmounting

  /** The FAT part of `fat32_unmount`: on a working device every copy of the FAT spells out the logical one. */
  method Unmount(vol: Volume)
    requires vol.Valid() && vol.dev.reliable
    modifies vol.Footprint()
    ensures vol.Valid() && vol.raw == old(vol.raw) && vol.table == old(vol.table) && vol.data == old(vol.data)
    ensures vol.cachedSector == NONE && !vol.dirty
    ensures forall copy: nat, k: nat | copy < vol.geo.numFats && k < vol.geo.Clusters() ::
              Word(At(vol.dev.sectors, vol.geo.FatLba(copy, k / ENTRIES)), k % ENTRIES * 4) == vol.raw[k]
  {
    hide Consistent, IsTableOf, Geometry.WellFormed;
    vol.Facts();
    var _ := vol.SyncFat();
    var _ := vol.InvalidateCache();
    forall copy: nat, k: nat | copy < vol.geo.numFats && k < vol.geo.Clusters()
      ensures Word(At(vol.dev.sectors, vol.geo.FatLba(copy, k / ENTRIES)), k % ENTRIES * 4) == vol.raw[k]
    {
      SyncedCopies(vol.dev.sectors, vol.geo, Cache(vol.cachedSector, vol.dirty, vol.fatBuffer[..]), vol.raw, vol.data,
          copy, k);
    }
  }
}
