/** drivers/fat32/bpb.c: the geometry read from the boot sector and the cluster/LBA arithmetic. */
module Geometry {
  import opened Arithmetic
  import opened Bytes

  /** The size of the static cluster buffers of file.c and directory.c. */
  const BUFFER_SIZE := 32768

  /** The fields of `fat32_fs_t` that describe the mounted volume. */
  datatype Geometry = Geometry(
    bytesPerSector: uint32,
    sectorsPerCluster: uint32,
    bytesPerCluster: uint32,
    reservedSectors: uint32,
    numFats: uint32,
    sectorsPerFat: uint32,
    rootCluster: uint32,
    firstFatSector: uint32,
    firstDataSector: uint32,
    totalSectors: uint32,
    totalClusters: uint32)
  {
    /**
     * What the driver relies on but does not check: 512-byte sectors, a cluster
     * that fits the 32 KiB buffers, a FAT large enough for every cluster, regions
     * in order, no wrap-around, and cluster numbers below the bad-cluster mark.
     */
    ghost predicate WellFormed() {
      && bytesPerSector == SECTOR_SIZE
      && 1 <= sectorsPerCluster <= 64
      && bytesPerCluster == SECTOR_SIZE * sectorsPerCluster
      && 1 <= numFats
      && firstFatSector == reservedSectors
      && firstDataSector == reservedSectors + numFats * sectorsPerFat
      && firstDataSector <= totalSectors
      && totalClusters == (totalSectors - firstDataSector) / sectorsPerCluster
      && Clusters() * 4 <= sectorsPerFat * SECTOR_SIZE
      && Clusters() <= 0x0FFF_FFF7
    }

    /** Cluster numbers run from 2 up to but excluding this bound. */
    ghost function Clusters(): nat { totalClusters + 2 }

    ghost predicate IsCluster(c: int) { 2 <= c < Clusters() }

    /** Where sector `s` of FAT copy `copy` lives. */
    ghost function FatLba(copy: nat, s: nat): nat {
      firstFatSector + copy * sectorsPerFat + s
    }

    /** Where sector `j` of cluster `c` lives. */
    ghost function DataLba(c: nat, j: nat): int {
      firstDataSector + (c - 2) * sectorsPerCluster + j
    }

    /** Which FAT sector holds the entry of cluster `c`, and at which byte. */
    function FatSectorOf(c: uint32): int
      requires bytesPerSector != 0
    {
      c * 4 / bytesPerSector
    }

    function FatOffsetOf(c: uint32): int
      requires bytesPerSector != 0
    {
      c * 4 % bytesPerSector
    }

    function ClusterToLba(c: uint32): uint32 {
      (firstDataSector + (c - 2) % TWO_TO_THE_32 * sectorsPerCluster) % TWO_TO_THE_32
    }

    function LbaToCluster(lba: uint32): uint32
      requires sectorsPerCluster != 0
    {
      ((lba - firstDataSector) % TWO_TO_THE_32 / sectorsPerCluster + 2) % TWO_TO_THE_32
    }
  }

  // ----- Region arithmetic

  /** Every FAT copy lies between the reserved area and the data area. */
  lemma FatLbaBounds(g: Geometry, copy: nat, s: nat)
    requires g.WellFormed() && copy < g.numFats && s < g.sectorsPerFat
    ensures g.reservedSectors <= g.FatLba(copy, s) < g.firstDataSector
    ensures 0 <= copy * g.sectorsPerFat <= g.FatLba(copy, s)
  {
    MulMono(0, copy, g.sectorsPerFat);
    MulMono(copy + 1, g.numFats, g.sectorsPerFat);
    assert (copy + 1) * g.sectorsPerFat == copy * g.sectorsPerFat + g.sectorsPerFat;
  }

  /** No two sectors of the FAT copies coincide. */
  lemma FatLbaInjective(g: Geometry, copy: nat, s: nat, copy': nat, s': nat)
    requires s < g.sectorsPerFat && s' < g.sectorsPerFat
    requires g.FatLba(copy, s) == g.FatLba(copy', s')
    ensures copy == copy' && s == s'
  {
    SplitUnique(g.sectorsPerFat, copy, s, copy', s');
  }

  /** Every cluster stays inside the data area. */
  lemma DataLbaBounds(g: Geometry, c: nat, j: nat)
    requires g.WellFormed() && g.IsCluster(c) && j < g.sectorsPerCluster
    ensures g.firstDataSector <= g.DataLba(c, j) < g.totalSectors
  {
    BlockInside(g.totalClusters, g.sectorsPerCluster, c - 2, j);
    QuotientFits(g.totalSectors - g.firstDataSector, g.sectorsPerCluster);
  }

  /** Blocks of `m` sectors, numbered from 0, lie inside their area. */
  lemma BlockInside(blocks: nat, m: nat, q: nat, j: nat)
    requires q < blocks && j < m
    ensures 0 <= q * m && q * m + j < blocks * m
  {
    MulMono(q + 1, blocks, m);
    MulMono(0, q, m);
    assert (q + 1) * m == q * m + m;
  }

  /** No two clusters share a sector. */
  lemma DataLbaInjective(g: Geometry, c: nat, j: nat, c': nat, j': nat)
    requires j < g.sectorsPerCluster && j' < g.sectorsPerCluster
    requires g.DataLba(c, j) == g.DataLba(c', j')
    ensures c == c' && j == j'
  {
    SplitUnique(g.sectorsPerCluster, c - 2, j, c' - 2, j');
  }

  lemma LbaArithmetic(first: nat, q: nat, m: nat, j: nat)
    requires j < m && q + 2 < TWO_TO_THE_32
    requires first + q * m + j < TWO_TO_THE_32
    ensures (first + q % TWO_TO_THE_32 * m) % TWO_TO_THE_32 == first + q * m
    ensures ((first + q * m + j - first) % TWO_TO_THE_32 / m + 2) % TWO_TO_THE_32 == q + 2
  {
    var n := q * m;
    MulMono(0, q, m);
    assert q % TWO_TO_THE_32 == q;
    assert (first + n) % TWO_TO_THE_32 == first + n;
    assert (first + n + j - first) % TWO_TO_THE_32 == n + j;
    DivModUnique(n + j, m, q, j);
  }

  /** The 32-bit arithmetic of the driver never wraps on a cluster, and every LBA of a cluster maps back to it. */
  lemma ClusterLbaRoundTrip(g: Geometry, c: uint32, j: nat)
    requires g.WellFormed() && g.IsCluster(c) && j < g.sectorsPerCluster
    ensures g.ClusterToLba(c) == g.DataLba(c, 0)
    ensures g.DataLba(c, j) == g.ClusterToLba(c) + j < TWO_TO_THE_32
    ensures g.LbaToCluster(g.ClusterToLba(c) + j) == c
  {
    hide Geometry.WellFormed;
    DataLbaBounds(g, c, j);
    LbaArithmetic(g.firstDataSector, c - 2, g.sectorsPerCluster, j);
  }

  /** No data sector, FAT sector or reserved sector is any other. */
  lemma RegionsDisjoint(g: Geometry, c: nat, j: nat, copy: nat, s: nat)
    requires g.WellFormed() && g.IsCluster(c) && j < g.sectorsPerCluster
    requires copy < g.numFats && s < g.sectorsPerFat
    ensures g.reservedSectors <= g.FatLba(copy, s) < g.DataLba(c, j) < g.totalSectors
  {
    FatLbaBounds(g, copy, s);
    DataLbaBounds(g, c, j);
  }

  lemma EntryPlace(g: Geometry, c: uint32)
    requires g.WellFormed() && c < g.Clusters()
    ensures g.FatSectorOf(c) == c / 128 < g.sectorsPerFat
    ensures g.FatOffsetOf(c) == c % 128 * 4
  {}

  // ----- Any number taken for a cluster

  /** The cluster sizes the on-disk format allows, as far as the driver can handle them. */
  predicate PowerOfTwo(spc: uint32) {
    spc == 1 || spc == 2 || spc == 4 || spc == 8 || spc == 16 || spc == 32 || spc == 64
  }

  predicate IsEndMark(c: uint32) { 0x0FFF_FFF8 <= c <= 0x0FFF_FFFF }

  /** Sector `i` of what the driver takes for cluster `c`. */
  function LbaAt(g: Geometry, c: uint32, i: nat): uint32 {
    (g.ClusterToLba(c) + i) % TWO_TO_THE_32
  }

  /** For a cluster these are its own sectors. */
  lemma ClusterLbaAt(g: Geometry, c: uint32, i: nat)
    requires g.WellFormed() && g.IsCluster(c) && i < g.sectorsPerCluster
    ensures LbaAt(g, c, i) == g.DataLba(c, i)
  {
    hide Geometry.ClusterToLba, Geometry.DataLba, Geometry.LbaToCluster, Geometry.WellFormed, Geometry.IsCluster;
    ClusterLbaRoundTrip(g, c, i);
  }

  /** The data area ends before the sectors of the FAT could run out. */
  lemma DataAreaBounds(g: Geometry)
    requires g.WellFormed()
    ensures g.Clusters() <= g.sectorsPerFat * 128 && g.sectorsPerFat <= g.firstDataSector
    ensures g.firstDataSector + g.totalClusters * g.sectorsPerCluster <= g.totalSectors
  {
    MulMono(1, g.numFats, g.sectorsPerFat);
    QuotientFits(g.totalSectors - g.firstDataSector, g.sectorsPerCluster);
  }

  /** Sums may be cut to 32 bits at every step or once, and whole multiples of 2^32 do not matter. */
  lemma WrapOnce(a: int, i: int, k: int)
    ensures (a % TWO_TO_THE_32 + i) % TWO_TO_THE_32 == (a + i) % TWO_TO_THE_32
    ensures (a + k * TWO_TO_THE_32) % TWO_TO_THE_32 == a % TWO_TO_THE_32
  {
    var q := (a + i) / TWO_TO_THE_32 - a / TWO_TO_THE_32;
    DivModUnique(a % TWO_TO_THE_32 + i, TWO_TO_THE_32, q, (a + i) % TWO_TO_THE_32);
    DivModUnique(a + k * TWO_TO_THE_32, TWO_TO_THE_32, a / TWO_TO_THE_32 + k, a % TWO_TO_THE_32);
  }

  lemma BelowDataArea(first: nat, area: nat, down: nat)
    requires 0 < down <= 640 && area <= first * 8192 && first + area < TWO_TO_THE_32
    ensures var lba := (first - down) % TWO_TO_THE_32; lba < first || first + area <= lba
  {}

  lemma AboveDataArea(first: nat, area: nat, up: nat)
    requires area <= up < TWO_TO_THE_32 && first < TWO_TO_THE_32
    ensures var lba := (first + up) % TWO_TO_THE_32; lba < first || first + area <= lba
  {}

  lemma EndMarkDown(spc: uint32, c: uint32, i: nat)
    requires spc == 16 || spc == 32 || spc == 64
    requires IsEndMark(c) && i < spc
    ensures 0 < (0x1000_0002 - c) * spc - i <= 640
    ensures (c - 2) * spc + i == spc / 16 * TWO_TO_THE_32 - ((0x1000_0002 - c) * spc - i)
  {}

  lemma EndMarkUp(spc: uint32, clusters: nat, c: uint32, i: nat)
    requires spc == 1 || spc == 2 || spc == 4 || spc == 8
    requires IsEndMark(c) && i < spc && clusters <= 0x0FFF_FFF5
    ensures clusters * spc <= (c - 2) * spc + i < TWO_TO_THE_32
  {}

  lemma AreaSmall(first: nat, clusters: nat, spc: uint32)
    requires spc <= 64 && clusters + 2 <= first * 128
    ensures clusters * spc <= first * 8192
  {
    MulMono(clusters, first * 128, spc);
    MulMono(spc, 64, first * 128);
  }

  /** The first LBA behind the data area's start that `EndMarkOutside` speaks of, cut to 32 bits once. */
  lemma EndMarkLba(first: nat, clusters: nat, spc: uint32, c: uint32, i: nat)
    requires PowerOfTwo(spc) && IsEndMark(c) && i < spc
    requires clusters <= 0x0FFF_FFF5 && clusters + 2 <= first * 128 && first + clusters * spc < TWO_TO_THE_32
    ensures var lba := (first + ((c - 2) * spc + i)) % TWO_TO_THE_32;
      && (lba < first || first + clusters * spc <= lba)
      && (spc >= 16 ==> lba == (first - (0x1000_0002 - c) * spc + i) % TWO_TO_THE_32)
  {
    if spc < 16 {
      EndMarkUp(spc, clusters, c, i);
      AboveDataArea(first, clusters * spc, (c - 2) * spc + i);
    } else {
      AreaSmall(first, clusters, spc);
      var down := (0x1000_0002 - c) * spc - i;
      EndMarkDown(spc, c, i);
      WrapOnce(first - down, 0, spc / 16);
      BelowDataArea(first, clusters * spc, down);
    }
  }

  lemma LbaAtOnce(g: Geometry, c: uint32, i: nat)
    requires c >= 2
    ensures LbaAt(g, c, i) == (g.firstDataSector + ((c - 2) * g.sectorsPerCluster + i)) % TWO_TO_THE_32
  {
    var n := (c - 2) * g.sectorsPerCluster;
    assert (c - 2) % TWO_TO_THE_32 == c - 2;
    assert g.ClusterToLba(c) == (g.firstDataSector + n) % TWO_TO_THE_32;
    WrapOnce(g.firstDataSector + n, i, 0);
  }

  lemma DataInArea(g: Geometry, e: nat, j: nat)
    requires g.IsCluster(e) && j < g.sectorsPerCluster
    ensures g.firstDataSector <= g.DataLba(e, j) < g.firstDataSector + g.totalClusters * g.sectorsPerCluster
  {
    BlockInside(g.totalClusters, g.sectorsPerCluster, e - 2, j);
  }

  /**
   * Taken for a cluster, an end mark leads to sectors of no cluster. With 16 sectors per cluster or
   * more they lie right below the data area, 3 to 10 clusters down.
   */
  lemma EndMarkOutside(g: Geometry, c: uint32, i: nat)
    requires g.WellFormed() && PowerOfTwo(g.sectorsPerCluster) && IsEndMark(c) && i < g.sectorsPerCluster
    ensures forall e: nat, j: nat | g.IsCluster(e) && j < g.sectorsPerCluster :: g.DataLba(e, j) != LbaAt(g, c, i)
    ensures g.sectorsPerCluster >= 16 ==>
              LbaAt(g, c, i) == (g.firstDataSector - (0x1000_0002 - c) * g.sectorsPerCluster + i) % TWO_TO_THE_32
  {
    hide LbaAt, Geometry.DataLba;
    DataAreaBounds(g);
    EndMarkLba(g.firstDataSector, g.totalClusters, g.sectorsPerCluster, c, i);
    LbaAtOnce(g, c, i);
    forall e: nat, j: nat | g.IsCluster(e) && j < g.sectorsPerCluster
      ensures g.DataLba(e, j) != LbaAt(g, c, i)
    {
      DataInArea(g, e, j);
    }
  }
}
