/** What sequences of file operations add up to. */
module FileLaws {
  import opened Arithmetic
  import opened Bytes
  import opened Chains
  import opened Contents
  import opened Fat
  import opened Files
  import opened Geometry
  import opened Image
  import opened Ledger

  // ----- The cursor over a run of reads

  /**
   * A handle between reads: its position, the index of the block its cursor is on, how many
   * reads ended exactly on a block boundary, and the bytes delivered so far.
   */
  datatype Reader = Reader(position: nat, block: nat, lag: nat, bytes: seq<uint8>)

  /** How many bytes one call of `Read` delivers, from which stream offset on. */
  ghost function Count(r: Reader, b: nat, s: seq<uint8>, size: nat, n: nat): int {
    Min(if r.position >= size then 0 else Min(n, size - r.position), |s| - Offset(b, r.block, r.position))
  }

  /** What the contract of `Files.FileTable.Read` says one call does to the handle. */
  ghost function AfterRead(r: Reader, b: nat, s: seq<uint8>, size: nat, n: nat): Reader {
    var q, count := Offset(b, r.block, r.position), Count(r, b, s, size, n);
    if count <= 0 || q + count > |s| then r
    else
      Reader(r.position + count, LastBlock(b, q + count),
             r.lag + (if BlockOf(b, r.position + count) * b == r.position + count then 1 else 0),
             r.bytes + s[q..q + count])
  }

  /** A handle after the given requests. */
  ghost function AfterReads(start: Reader, b: nat, s: seq<uint8>, size: nat, ns: seq<nat>): Reader {
    if ns == [] then start
    else AfterRead(AfterReads(start, b, s, size, ns[..|ns| - 1]), b, s, size, ns[|ns| - 1])
  }

  /** A handle after a seek to `p` inside its chain; `p` is 0 for one just opened. */
  ghost function Sought(b: nat, p: nat): Reader {
    Reader(p, BlockOf(b, p), 0, [])
  }

  ghost predicate Lagging(r: Reader, b: nat, size: nat) {
    r.position <= size && r.lag <= BlockOf(b, r.position) && r.block == BlockOf(b, r.position) - r.lag
  }

  lemma OffsetLags(r: Reader, b: nat)
    requires b > 0 && r.lag <= BlockOf(b, r.position) && r.block == BlockOf(b, r.position) - r.lag
    ensures Offset(b, r.block, r.position) == r.position - r.lag * b
    ensures 0 <= r.lag * b
  {
    var p := r.position;
    assert p == p / b * b + p % b;
    assert (p / b - r.lag) * b == p / b * b - r.lag * b;
  }

  /** The block of the last byte before `p'` on a cursor `l` blocks behind: one further back on a boundary. */
  lemma LastBlockLags(b: nat, p: nat, l: nat, p': nat)
    requires b > 0 && p < p' && l <= BlockOf(b, p)
    ensures var full, i := if BlockOf(b, p') * b == p' then 1 else 0, BlockOf(b, p');
      l + full <= i && l * b < p' && LastBlock(b, p' - l * b) == i - l - full
  {
    var i := p' / b;
    QuotientFits(p', b);
    QuotientFits(p, b);
    QuotientMono(p, p', b);
    MulMono(l, p / b, b);
    assert (i - l) * b == i * b - l * b;
    assert (i - 1 - l) * b == i * b - b - l * b;
    if i * b == p' {
      LastBoundary(p, p', b);
      LastBlockIs(b, p' - l * b, i - 1 - l);
    } else {
      LastBlockIs(b, p' - l * b, i - l);
    }
  }

  /** One read moves the cursor with the position, except that ending on a boundary leaves it one block behind. */
  lemma ReadKeepsLag(r: Reader, b: nat, s: seq<uint8>, size: nat, n: nat)
    requires b > 0 && size <= |s| && Lagging(r, b, size)
    ensures Lagging(AfterRead(r, b, s, size, n), b, size)
    ensures AfterRead(r, b, s, size, n).position == r.position + Min(n, size - r.position)
  {
    hide BlockOf, LastBlock, Offset;
    OffsetLags(r, b);
    var count := Count(r, b, s, size, n);
    if count > 0 {
      LastBlockLags(b, r.position, r.lag, r.position + count);
    }
  }

  lemma QuotientMono(p: nat, p': nat, b: nat)
    requires b > 0 && p <= p'
    ensures p / b <= p' / b
  {
    if p / b > p' / b {
      MulMono(p' / b + 1, p / b, b);
    }
  }

  /** Before a boundary the quotient is smaller. */
  lemma LastBoundary(p: nat, p': nat, b: nat)
    requires b > 0 && p < p' && p' / b * b == p'
    ensures p / b < p' / b
  {
    if p / b >= p' / b {
      MulMono(p' / b, p / b, b);
    }
  }

  /**
   * The cursor law: through any run of reads on a file whose chain is long enough, the cursor falls
   * behind the position by one block for every read that ended on a block boundary.
   */
  lemma {:induction false} CursorLaw(start: Reader, b: nat, s: seq<uint8>, size: nat, ns: seq<nat>)
    requires b > 0 && size <= |s| && Lagging(start, b, size)
    ensures Lagging(AfterReads(start, b, s, size, ns), b, size)
    ensures start.position <= AfterReads(start, b, s, size, ns).position
    decreases |ns|
  {
    hide AfterRead, Lagging;
    if ns != [] {
      CursorLaw(start, b, s, size, ns[..|ns| - 1]);
      ReadKeepsLag(AfterReads(start, b, s, size, ns[..|ns| - 1]), b, s, size, ns[|ns| - 1]);
      LagsInside(AfterReads(start, b, s, size, ns[..|ns| - 1]), b, size);
    }
  }

  lemma LagsInside(r: Reader, b: nat, size: nat)
    requires Lagging(r, b, size)
    ensures r.position <= size
  {}

  /** A seek inside the file, or opening it, starts a run without lag. */
  lemma SoughtLags(b: nat, p: nat, size: nat)
    requires b > 0 && p <= size
    ensures Lagging(Sought(b, p), b, size)
  {}

  /** A read without lag continues what was delivered. */
  lemma ReadAppends(r: Reader, p: nat, b: nat, s: seq<uint8>, size: nat, n: nat)
    requires b > 0 && size <= |s| && Lagging(r, b, size) && r.lag == 0
    requires p <= r.position && r.bytes == s[p..r.position]
    ensures var r' := AfterRead(r, b, s, size, n);
      p <= r'.position <= |s| && r'.bytes == s[p..r'.position]
  {
    OffsetLags(r, b);
    hide Offset, LastBlock, BlockOf;
    var count := Count(r, b, s, size, n);
    if count > 0 {
      assert s[p..r.position] + s[r.position..r.position + count] == s[p..r.position + count];
    }
  }

  /** From a seek on, reads deliver the file's bytes in order as long as no read before the last ended on a boundary. */
  lemma {:induction false} ReadsConcatenate(p: nat, b: nat, s: seq<uint8>, size: nat, ns: seq<nat>)
    requires b > 0 && p <= size <= |s|
    requires ns != [] ==> AfterReads(Sought(b, p), b, s, size, ns[..|ns| - 1]).lag == 0
    ensures p <= AfterReads(Sought(b, p), b, s, size, ns).position <= |s|
    ensures AfterReads(Sought(b, p), b, s, size, ns).bytes == s[p..AfterReads(Sought(b, p), b, s, size, ns).position]
    decreases |ns|
  {
    hide AfterRead, Lagging, BlockOf;
    var start := Sought(b, p);
    if ns != [] {
      var before := ns[..|ns| - 1];
      if before != [] {
        LagGrows(start, b, s, size, before);
      }
      SoughtLags(b, p, size);
      CursorLaw(start, b, s, size, before);
      ReadsConcatenate(p, b, s, size, before);
      ReadAppends(AfterReads(start, b, s, size, before), p, b, s, size, ns[|ns| - 1]);
    }
  }

  lemma LagGrows(start: Reader, b: nat, s: seq<uint8>, size: nat, ns: seq<nat>)
    requires ns != []
    ensures AfterReads(start, b, s, size, ns[..|ns| - 1]).lag <= AfterReads(start, b, s, size, ns).lag
  {}

  /** The first `n` bytes of a stream whose first block repeats for ever. */
  ghost function Repeating(s: seq<uint8>, b: nat, n: nat): (r: seq<uint8>)
    requires 0 < b <= |s|
    ensures |r| == n
  {
    seq(n, i requires 0 <= i => s[i % b])
  }

  /** One read of a chunk that divides the block never leaves the first block. */
  lemma ChunkStays(r: Reader, b: nat, c: nat, s: seq<uint8>, size: nat)
    requires 0 < c <= b <= |s| && b % c == 0 && r.position <= size && r.block == 0
    requires r.position % c == 0 || r.position == size
    ensures var r' := AfterRead(r, b, s, size, c);
      && r'.block == 0 && r'.position == Min(r.position + c, size)
      && (r'.position % c == 0 || r'.position == size)
      && (r.bytes == Repeating(s, b, r.position) ==> r'.bytes == Repeating(s, b, r'.position))
  {
    var p, q := r.position, r.position % b;
    if p < size {
      var count := Min(c, size - p);
      ChunkFits(p, b, c);
      assert Offset(b, 0, p) == q;
      LastBlockIs(b, q + count, 0);
      RepeatingGrows(s, b, p, count);
    }
  }

  /** A chunk that starts on a multiple of its size ends inside its block. */
  lemma ChunkFits(p: nat, b: nat, c: nat)
    requires 0 < c <= b && b % c == 0 && p % c == 0
    ensures p % b + c <= b && (p + c) % c == 0
  {
    var m, n, i := b / c, p / c, p / b;
    assert b == m * c && p == n * c && p % b == p - i * b;
    assert i * b == i * m * c;
    assert p % b == (n - i * m) * c;
    if n - i * m > m - 1 {
      MulMono(m, n - i * m, c);
    }
    MulMono(n - i * m, m - 1, c);
    DivModUnique(p + c, c, n + 1, 0);
  }

  lemma RepeatingGrows(s: seq<uint8>, b: nat, p: nat, count: nat)
    requires 0 < b <= |s| && p % b + count <= b
    ensures Repeating(s, b, p) + s[p % b..p % b + count] == Repeating(s, b, p + count)
  {
    forall i | p <= i < p + count ensures i % b == p % b + (i - p) {
      DivModUnique(i, b, p / b, p % b + (i - p));
    }
  }

  /**
   * Reading a file in equal chunks that divide the block, as `fat32_copy` does, delivers the
   * first block over and over.
   */
  lemma {:induction false} ChunkedReadsRepeat(b: nat, c: nat, s: seq<uint8>, size: nat, ns: seq<nat>)
    requires 0 < c <= b <= |s| && b % c == 0 && size <= |s|
    requires forall i | 0 <= i < |ns| :: ns[i] == c
    ensures var r := AfterReads(Sought(b, 0), b, s, size, ns);
      && r.block == 0 && r.position <= size && (r.position % c == 0 || r.position == size)
      && r.bytes == Repeating(s, b, r.position)
    decreases |ns|
  {
    hide AfterRead, Repeating, BlockOf;
    if ns != [] {
      ChunkedReadsRepeat(b, c, s, size, ns[..|ns| - 1]);
      ChunkStays(AfterReads(Sought(b, 0), b, s, size, ns[..|ns| - 1]), b, c, s, size);
    } else {
      NoneRepeated(s, b);
      BlockZero(b);
    }
  }

  lemma NoneRepeated(s: seq<uint8>, b: nat)
    requires 0 < b <= |s|
    ensures Repeating(s, b, 0) == []
  {}

  /** So such reads deliver every file of this size faithfully exactly when it is at most one block long. */
  lemma ChunkedReadsFaithful(b: nat, size: nat)
    requires b > 0
    ensures (forall s: seq<uint8> | |s| >= b && |s| >= size :: Repeating(s, b, size) == s[..size]) <==> size <= b
  {
    if size <= b {
      forall s: seq<uint8> | |s| >= b && |s| >= size ensures Repeating(s, b, size) == s[..size] {}
    } else {
      var s := seq(size, i => if i == b then 1 else 0);
      assert Repeating(s, b, size)[b] == s[b % b] == 0 && s[..size][b] == 1;
    }
  }

  lemma DeliveredPrefix(out: seq<uint8>, s: seq<uint8>, q: nat, n: nat)
    requires n <= |out|
    ensures q + n <= |s| ==> Delivered(out, s, q, n)[..n] == s[q..q + n]
  {}

  /** The handle is where the abstract reader says. */
  ghost predicate At(f: OpenFile, t: Table, ch: Chain, r: Reader)
    reads f
  {
    f.inUse && f.position == r.position && f.OnChain(t, ch, r.block)
  }

  /** One read through the driver's handle is one step of the abstract reader. */
  method ReadOne(ft: FileTable, fd: int, n: uint32, ghost ch: Chain, ghost r: Reader) returns (bytes: seq<uint8>)
    requires ft.Valid() && ft.vol.dev.reliable && ft.IsOpen(fd) && At(ft.files[fd], ft.vol.table, ch, r)
    requires Lagging(r, ft.vol.geo.bytesPerCluster, ft.files[fd].size)
        && ft.files[fd].size <= |Content(ft.vol.data, ch)|
    modifies ft.vol.Footprint(), ft.buffer, ft.Slot(fd)`position, ft.Slot(fd)`currentCluster
    ensures ft.Valid() && ft.vol.table == old(ft.vol.table) && ft.vol.data == old(ft.vol.data)
    ensures var r' := AfterRead(r, ft.vol.geo.bytesPerCluster, Content(ft.vol.data, ch), ft.files[fd].size, n);
      At(ft.files[fd], ft.vol.table, ch, r') && r'.bytes == r.bytes + bytes
  {
    hide Consistent, IsTableOf, Geometry.WellFormed, Content, LastBlock, Offset, IsChain, DistinctFiles, Lagging,
         Delivered;
    var out := new uint8[n](_ => 0);
    ghost var s, was := Content(ft.vol.data, ch), out[..];
    var count := ft.Read(fd, out, n, ch, r.block);
    DeliveredPrefix(was, s, Offset(ft.vol.geo.bytesPerCluster, r.block, r.position), count);
    bytes := out[..count];
  }

  /** The driver's handle follows the abstract reader through any run of reads. */
  method ReadRun(ft: FileTable, fd: int, ns: seq<uint32>, ghost ch: Chain, ghost start: Reader)
    returns (bytes: seq<uint8>)
    requires ft.Valid() && ft.vol.dev.reliable && ft.IsOpen(fd)
    requires At(ft.files[fd], ft.vol.table, ch, start) && start.bytes == []
    requires Lagging(start, ft.vol.geo.bytesPerCluster, ft.files[fd].size)
    requires ft.files[fd].size <= |Content(ft.vol.data, ch)|
    modifies ft.vol.Footprint(), ft.buffer, ft.Slot(fd)`position, ft.Slot(fd)`currentCluster
    ensures ft.Valid() && ft.vol.table == old(ft.vol.table) && ft.vol.data == old(ft.vol.data)
    ensures var r := AfterReads(start, ft.vol.geo.bytesPerCluster, Content(ft.vol.data, ch), ft.files[fd].size, ns);
      && At(ft.files[fd], ft.vol.table, ch, r) && bytes == r.bytes
      && Lagging(r, ft.vol.geo.bytesPerCluster, ft.files[fd].size)
  {
    hide Consistent, IsTableOf, Geometry.WellFormed, Content, IsChain, DistinctFiles, Lagging, AfterRead, At;
    ft.vol.Facts();
    ghost var b, s, size := ft.vol.geo.bytesPerCluster, Content(ft.vol.data, ch), ft.files[fd].size;
    bytes := [];
    var i := 0;
    assert ns[..0] == [];
    while i < |ns|
      invariant 0 <= i <= |ns|
      invariant ft.Valid() && ft.vol.table == old(ft.vol.table) && ft.vol.data == old(ft.vol.data)
      invariant At(ft.files[fd], ft.vol.table, ch, AfterReads(start, b, s, size, ns[..i]))
      invariant Lagging(AfterReads(start, b, s, size, ns[..i]), b, size)
      invariant bytes == AfterReads(start, b, s, size, ns[..i]).bytes
    {
      var more := ReadOne(ft, fd, ns[i], ch, AfterReads(start, b, s, size, ns[..i]));
      bytes := bytes + more;
      assert ns[..i + 1][..i] == ns[..i] && ns[..i + 1][i] == ns[i];
      CursorLaw(start, b, s, size, ns[..i + 1]);
      i := i + 1;
    }
    assert ns[..|ns|] == ns;
  }

  // ----- Writing and reading back

  lemma BlockZero(b: nat)
    ensures BlockOf(b, 0) == 0
  {}

  lemma FirstBlockOf(b: nat, p: nat)
    ensures p < b ==> BlockOf(b, p) == 0
  {
    if p < b {
      DivModUnique(p, b, 0, p);
    }
  }

  lemma OneMore(l: nat, b: nat)
    ensures (l + 1) * b == l * b + b && l * b >= 0
  {
    MulMono(0, l, b);
  }

  /** The offset in its block is what whole blocks leave of a position. */
  lemma FarOffset(b: nat, p: nat)
    requires b > 0
    ensures p - BlockOf(b, p) * b == p % b && p % b < b && (p < b <==> p % b == p) && (p >= b ==> p % b + b <= p)
  {
    if p < b {
      DivModUnique(p, b, 0, p);
    } else {
      var k := BlockOf(b, p);
      if k < 1 {
        MulMono(k, 0, b);
      }
      MulMono(1, k, b);
      OneMore(0, b);
    }
  }

  /** A write never shortens the chain it starts from. */
  lemma FinalChainLong(t: Table, first: uint32, ch: Chain, m: nat)
    ensures |StartChain(t, first, ch)| <= |FinalChain(t, first, ch, m)|
  {
    GrownLong(StartTable(t, first), StartChain(t, first, ch), m);
  }

  lemma {:induction false} GrownLong(t: Table, ch: Chain, m: nat)
    ensures |ch| <= |Grown(t, ch, m).1|
  {
    if m > 0 {
      GrownLong(t, ch, m - 1);
    }
  }

  lemma OffsetSeek(b: nat, p: nat)
    requires b > 0
    ensures Offset(b, BlockOf(b, p), p) == p
  {}

  /** After a seek inside the chain the cursor is on the addressed block. */
  lemma SeekInside(t: Table, ch: Chain, i: nat)
    requires IsChain(t, ch) && i < |ch|
    ensures ChainOf(t, ch[0]) == ch && SeekTo(t, ch[0], i) == ch[i]
  {
    ChainOfIs(t, ch);
  }

  /** What was written at `q` is what a reader finds at `q`. */
  lemma WrittenThere(was: Data, data: Data, ch: Chain, q: nat, w: seq<uint8>)
    requires Written(was, data, ch, q, w)
    ensures q + |w| <= |Content(data, ch)|
    ensures Content(data, ch)[q..q + |w|] == w
  {
    hide Content, Put;
  }

  /** What a write through a cursor addressed by a seek to `p` leaves for a reader. */
  lemma WroteThere(b: nat, t: Table, data: Data, h: Handle, t': Table, data': Data, h': Handle,
                   input: seq<uint8>, ch: Chain, k: nat, r: nat, m: nat)
    requires b > 0 && Wrote(b, t, data, h, t', data', h', input, ch, k, r, m)
    requires k == BlockOf(b, h.position) && (h.firstCluster == 0 ==> k == 0)
    requires h.firstCluster != 0 ==> k < |ch|
    ensures var ch', p := FinalChain(t, h.firstCluster, ch, m), h.position;
      && IsChain(t', ch') && ch'[0] == h'.firstCluster && k < |ch'|
      && p + r <= |Content(data', ch')| && p + r <= h'.size
      && Content(data', ch')[p..p + r] == input[..r]
  {
    hide Content, Written, LastBlock, FreeFrom, Grown, IsChain;
    OffsetSeek(b, h.position);
    hide Offset, BlockOf;
    FinalChainLong(t, h.firstCluster, ch, m);
    WrittenThere(data, data', FinalChain(t, h.firstCluster, ch, m), h.position, input[..r]);
  }

  /** seek(p), read(r): the bytes of the file at `p`. */
  method SeekThenRead(ft: FileTable, fd: int, p: uint32, out: array<uint8>, r: uint32,
      ghost ch: Chain) returns (back: int)
    requires ft.Valid() && ft.vol.dev.reliable && ft.IsOpen(fd)
    requires out != ft.buffer && out != ft.vol.fatBuffer && r <= out.Length
    requires IsChain(ft.vol.table, ch) && ch[0] == ft.files[fd].firstCluster
        && BlockOf(ft.vol.geo.bytesPerCluster, p) < |ch|
    requires 0 < r && p + r <= ft.files[fd].size && p + r <= |Content(ft.vol.data, ch)|
    modifies ft.vol.Footprint(), ft.buffer, out, ft.Slot(fd)`position, ft.Slot(fd)`currentCluster
    ensures ft.Valid() && ft.vol.table == old(ft.vol.table) && ft.vol.data == old(ft.vol.data)
    ensures back == r && out[..r] == Content(ft.vol.data, ch)[p..p + r]
  {
    hide Consistent, IsTableOf, Geometry.WellFormed, Content, LastBlock, Offset, DistinctFiles, Delivered, SeekTo,
         BlockOf, IsChain;
    ft.vol.Facts();
    ghost var k := BlockOf(ft.vol.geo.bytesPerCluster, p);
    OffsetSeek(ft.vol.geo.bytesPerCluster, p);
    SeekInside(ft.vol.table, ch, k);
    var _ := ft.Seek(fd, p);
    ghost var out0 := out[..];
    back := ft.Read(fd, out, r, ch, k);
    DeliveredPrefix(out0, Content(ft.vol.data, ch), p, back);
  }

  /** seek(p), read, read, ...: no lag is left from before, and reads without new lag deliver the file from `p` on. */
  method SeekThenRun(ft: FileTable, fd: int, p: uint32, ns: seq<uint32>, ghost ch: Chain) returns (bytes: seq<uint8>)
    requires ft.Valid() && ft.vol.dev.reliable && ft.IsOpen(fd)
    requires IsChain(ft.vol.table, ch) && ch[0] == ft.files[fd].firstCluster
        && BlockOf(ft.vol.geo.bytesPerCluster, p) < |ch|
    requires p <= ft.files[fd].size <= |Content(ft.vol.data, ch)|
    modifies ft.vol.Footprint(), ft.buffer, ft.Slot(fd)`position, ft.Slot(fd)`currentCluster
    ensures ft.Valid() && ft.vol.table == old(ft.vol.table) && ft.vol.data == old(ft.vol.data)
    ensures FollowsSeek(ft.vol.geo.bytesPerCluster, Content(ft.vol.data, ch), ft.files[fd].size, p, ns, bytes)
    ensures At(ft.files[fd], ft.vol.table, ch, AfterReads(Sought(ft.vol.geo.bytesPerCluster, p),
        ft.vol.geo.bytesPerCluster, Content(ft.vol.data, ch), ft.files[fd].size, ns))
  {
    hide Consistent, IsTableOf, Geometry.WellFormed, Content, DistinctFiles, SeekTo, BlockOf, IsChain, Lagging,
         AfterReads, FollowsSeek;
    ft.vol.Facts();
    ghost var b, s, size := ft.vol.geo.bytesPerCluster, Content(ft.vol.data, ch), ft.files[fd].size;
    SeekInside(ft.vol.table, ch, BlockOf(b, p));
    var _ := ft.Seek(fd, p);
    SoughtLags(b, p, size);
    bytes := ReadRun(ft, fd, ns, ch, Sought(b, p));
    SeekFollowed(b, s, size, p, ns);
  }

  /** What a run of reads after a seek to `p` delivers. */
  ghost predicate FollowsSeek(b: nat, s: seq<uint8>, size: nat, p: nat, ns: seq<nat>, bytes: seq<uint8>) {
    var r := AfterReads(Sought(b, p), b, s, size, ns);
    && Lagging(r, b, size) && bytes == r.bytes
    && ((ns != [] ==> AfterReads(Sought(b, p), b, s, size, ns[..|ns| - 1]).lag == 0) ==>
          p <= r.position <= |s| && bytes == s[p..r.position])
  }

  lemma SeekFollowed(b: nat, s: seq<uint8>, size: nat, p: nat, ns: seq<nat>)
    requires b > 0 && p <= size <= |s|
    ensures FollowsSeek(b, s, size, p, ns, AfterReads(Sought(b, p), b, s, size, ns).bytes)
  {
    hide AfterReads, Lagging, BlockOf;
    SoughtLags(b, p, size);
    CursorLaw(Sought(b, p), b, s, size, ns);
    if ns != [] ==> AfterReads(Sought(b, p), b, s, size, ns[..|ns| - 1]).lag == 0 {
      ReadsConcatenate(p, b, s, size, ns);
    }
  }

  // ----- Seeking past the last cluster

  /** Sector `lba` belongs to a cluster of the chain. */
  ghost predicate OfChain(g: Geometry, ch: Chain, lba: uint32) {
    exists k: nat, j: nat :: k < |ch| && j < g.sectorsPerCluster && g.DataLba(ch[k], j) == lba
  }

  /** The cluster a write starts on after a seek to `p`: an empty file takes a free one first. */
  ghost function StartCursor(t: Table, first: uint32, b: nat, p: nat): uint32 {
    if first == 0 && |t| <= BAD_CLUSTER then LeastFree(t) else SeekTo(t, first, BlockOf(b, p))
  }

  /** A file with a chain, or an empty file that gets its first cluster. */
  ghost predicate Writable(t: Table, first: uint32, ch: Chain) {
    if first == 0 then |t| <= BAD_CLUSTER && LeastFree(t) != 0
    else IsChain(t, ch) && ch[0] == first && t[ch[|ch| - 1]] <= EOC
  }

  lemma InsideOfChain(g: Geometry, ch: Chain, k: nat)
    requires g.WellFormed() && k < |ch| && g.IsCluster(ch[k])
    ensures forall i: nat | i < g.sectorsPerCluster :: OfChain(g, ch, LbaAt(g, ch[k], i))
  {
    hide Geometry.WellFormed, Geometry.DataLba, LbaAt;
    forall i: nat | i < g.sectorsPerCluster ensures OfChain(g, ch, LbaAt(g, ch[k], i)) {
      ClusterLbaAt(g, ch[k], i);
    }
  }

  /** Past the end of the chain a seek stops at the end mark. */
  lemma SeekOutside(t: Table, ch: Chain, i: nat)
    requires IsChain(t, ch) && i >= |ch|
    ensures SeekTo(t, ch[0], i) == t[ch[|ch| - 1]] && IsEoc(t[ch[|ch| - 1]])
  {
    ChainOfIs(t, ch);
  }

  lemma OutsideOfChain(g: Geometry, ch: Chain, c: uint32)
    requires g.WellFormed() && PowerOfTwo(g.sectorsPerCluster) && IsEndMark(c)
    requires forall k | 0 <= k < |ch| :: g.IsCluster(ch[k])
    ensures forall i: nat, e: nat, j: nat | i < g.sectorsPerCluster && g.IsCluster(e) && j < g.sectorsPerCluster ::
              g.DataLba(e, j) != LbaAt(g, c, i)
    ensures !OfChain(g, ch, LbaAt(g, c, 0))
  {
    hide Geometry.WellFormed, LbaAt, Geometry.DataLba, PowerOfTwo;
    forall i: nat | i < g.sectorsPerCluster
      ensures forall e: nat, j: nat | g.IsCluster(e) && j < g.sectorsPerCluster :: g.DataLba(e, j) != LbaAt(g, c, i)
    {
      EndMarkOutside(g, c, i);
    }
  }

  /**
   * After a seek to `p` a write starts on sectors of the file exactly when the file is empty or `p`
   * is inside its chain. Otherwise, so also at the end of a file that fills its last cluster, it
   * starts on sectors that belong to no cluster at all.
   */
  lemma WriteAfterSeek(g: Geometry, t: Table, first: uint32, ch: Chain, p: nat)
    requires g.WellFormed() && PowerOfTwo(g.sectorsPerCluster) && |t| == g.Clusters() && Writable(t, first, ch)
    ensures var c := StartCursor(t, first, g.bytesPerCluster, p);
      && ((forall i: nat | i < g.sectorsPerCluster :: OfChain(g, StartChain(t, first, ch), LbaAt(g, c, i))) <==>
          first == 0 || BlockOf(g.bytesPerCluster, p) < |ch|)
      && (first != 0 && BlockOf(g.bytesPerCluster, p) >= |ch| ==>
            forall i: nat, e: nat, j: nat | i < g.sectorsPerCluster && g.IsCluster(e) && j < g.sectorsPerCluster ::
              g.DataLba(e, j) != LbaAt(g, c, i))
  {
    hide BlockOf, LbaAt, Geometry.DataLba, Geometry.WellFormed, SeekTo, FreeFrom, PowerOfTwo;
    var k, c := BlockOf(g.bytesPerCluster, p), StartCursor(t, first, g.bytesPerCluster, p);
    if first == 0 {
      InsideOfChain(g, [c], 0);
    } else if k < |ch| {
      SeekInside(t, ch, k);
      InsideOfChain(g, ch, k);
    } else {
      SeekOutside(t, ch, k);
      ChainFacts(t, ch);
      SectorsCount(g);
      OutsideOfChain(g, ch, c);
    }
  }

  lemma SectorsCount(g: Geometry)
    requires g.WellFormed()
    ensures 1 <= g.sectorsPerCluster <= 64 && g.Clusters() <= BAD_CLUSTER
  {}

  /**
   * An append that goes wrong: clusters of 16 sectors, a file that fills its last cluster, a seek to its
   * end. The next write starts 48 sectors below the data area, inside the FAT if that is long enough.
   */
  lemma AppendMisses(g: Geometry, t: Table, ch: Chain, i: nat)
    requires g.WellFormed() && g.sectorsPerCluster == 16 && |t| == g.Clusters()
    requires IsChain(t, ch) && t[ch[|ch| - 1]] == EOC && i < 16
    requires g.numFats * g.sectorsPerFat >= 48
    ensures var c := StartCursor(t, ch[0], g.bytesPerCluster, |ch| * g.bytesPerCluster);
      c == EOC && g.firstFatSector <= LbaAt(g, c, i) == g.firstDataSector - 48 + i < g.firstDataSector
  {
    hide LbaAt, SeekTo;
    DivModUnique(|ch| * g.bytesPerCluster, g.bytesPerCluster, |ch|, 0);
    SeekOutside(t, ch, |ch|);
    EndMarkOutside(g, EOC, i);
  }

  /**
   * seek(p), write(d), seek(p), read: the bytes accepted by the write come back. In an empty file this
   * holds for positions in the first cluster only, see `WriteLaws.WriteFar`.
   */
  method WriteThenRead(ft: FileTable, fd: int, p: uint32, input: array<uint8>, n: uint32, out: array<uint8>,
      ghost ch: Chain)
    returns (r: int, back: int)
    requires ft.Valid() && ft.vol.dev.reliable && ft.IsOpen(fd)
    requires input != ft.buffer && input != ft.vol.fatBuffer && n <= input.Length && p + n < TWO_TO_THE_32
    requires out != ft.buffer && out != ft.vol.fatBuffer && out != input && n <= out.Length
    requires if ft.files[fd].firstCluster == 0 then p < ft.vol.geo.bytesPerCluster
             else IsChain(ft.vol.table, ch) && ch[0] == ft.files[fd].firstCluster
                  && BlockOf(ft.vol.geo.bytesPerCluster, p) < |ch|
    modifies ft.vol.Footprint(), ft.buffer, out, ft.Slot(fd)
    ensures ft.Valid()
    ensures r > 0 ==> r <= n && back == r && out[..r] == input[..r]
    ensures r <= 0 ==> n == 0 || (old(ft.files[fd].firstCluster) == 0 && LeastFree(old(ft.vol.table)) == 0)
  {
    hide Consistent, IsTableOf, Geometry.WellFormed, Content, DistinctFiles, Wrote, SeekTo, BlockOf, FreeFrom, IsChain,
         FinalChain;
    ft.vol.Facts();
    ghost var b := ft.vol.geo.bytesPerCluster;
    ghost var k := BlockOf(b, p);
    if ft.files[fd].firstCluster != 0 {
      SeekInside(ft.vol.table, ch, k);
    } else {
      FirstBlockOf(b, p);
    }
    var _ := ft.Seek(fd, p);
    ghost var t, data, h := ft.vol.table, ft.vol.data, ft.files[fd].State();
    ghost var m;
    r, m := ft.Write(fd, input, n, ch, k);
    back := 0;
    if r > 0 {
      WroteThere(b, t, data, h, ft.vol.table, ft.vol.data, ft.files[fd].State(), input[..n], ch, k, r, m);
      assert input[..n][..r] == input[..r];
      back := SeekThenRead(ft, fd, p, out, r, FinalChain(t, h.firstCluster, ch, m));
    }
  }
}
