/** drivers/fat32/file.c: open files, and reading, writing and seeking through cluster chains. */
module Files {
  import opened Arithmetic
  import opened Bytes
  import opened Chains
  import opened Contents
  import opened Geometry
  import opened Image
  import opened Ledger
  import opened Memory
  import opened Fat

  const MAX_OPEN_FILES := 8

  /** The fields of an open file, as a value. */
  datatype Handle = Handle(
    inUse: bool, dirty: bool, firstCluster: uint32, currentCluster: uint32, position: uint32, size: uint32,
    originalSize: uint32, attributes: uint8, parentCluster: uint32, filename: seq<uint8>)

  /** One slot of the open-file table. */
  class OpenFile {
    var inUse: bool
    var dirty: bool
    var firstCluster: uint32
    var currentCluster: uint32
    var position: uint32
    var size: uint32
    var originalSize: uint32
    var attributes: uint8
    var parentCluster: uint32
    var filename: seq<uint8>

    constructor ()
      ensures !inUse
    {
      inUse, dirty := false, false;
      firstCluster, currentCluster, position, size, originalSize := 0, 0, 0, 0, 0;
      attributes, parentCluster, filename := 0, 0, [];
    }

    /** The file's chain is `ch` and its cursor stands on `ch[k]`. */
    ghost predicate OnChain(t: Table, ch: Chain, k: nat)
      reads this
    {
      IsChain(t, ch) && firstCluster == ch[0] && k < |ch| && currentCluster == ch[k]
    }

    ghost function State(): Handle
      reads this
    {
      Handle(inUse, dirty, firstCluster, currentCluster, position, size, originalSize, attributes, parentCluster,
          filename)
    }

    /** Fills every field. */
    method Assign(h: Handle)
      modifies this
      ensures State() == h
    {
      inUse, dirty, firstCluster, currentCluster := h.inUse, h.dirty, h.firstCluster, h.currentCluster;
      position, size, originalSize, attributes := h.position, h.size, h.originalSize, h.attributes;
      parentCluster, filename := h.parentCluster, h.filename;
    }

    /** Size and dirty flag once a write that started from `size0` and `dirty0` has moved some bytes. */
    ghost predicate Accounts(size0: uint32, dirty0: bool, moved: bool)
      reads `size, `dirty, `position
    {
      && size == (if moved then Max(size0, position) else size0)
      && dirty == (dirty0 || (moved && position > size0))
    }

    lemma AccountsStart()
      ensures Accounts(size, dirty, false)
    {}

    /** How many bytes a read asks of the chain: never past the end of the file. */
    function Wanted(n: uint32): uint32
      reads this
    {
      if position >= size then 0 else Min(n, size - position)
    }
  }

  function Min(a: int, b: int): int { if a <= b then a else b }

  function Max(a: int, b: int): int { if a <= b then b else a }

  /** The offset in the chain's content that a cursor on block `k` at file position `p` addresses. */
  ghost function Offset(b: nat, k: nat, p: nat): nat {
    if b == 0 then 0 else k * b + p % b
  }

  /** The block that file position `p` falls into. */
  function BlockOf(b: nat, p: nat): nat {
    if b == 0 then 0 else p / b
  }

  /** The block that holds the last of the bytes up to `end`. */
  ghost function LastBlock(b: nat, end: nat): nat {
    if b == 0 || end == 0 then 0 else (end - 1) / b
  }

  /** `out` after the first `n` bytes of `s` from `q` on were copied to its start. */
  ghost function Delivered(out: seq<uint8>, s: seq<uint8>, q: nat, n: nat): seq<uint8> {
    if q + n <= |s| && n <= |out| then Put(out, 0, s[q..q + n]) else out
  }

  /** The table a write starts growing from: an empty file first takes the least free cluster. */
  ghost function StartTable(t: Table, first: uint32): Table {
    if first == 0 && |t| <= BAD_CLUSTER then Allocated(t) else t
  }

  ghost function StartChain(t: Table, first: uint32, ch: Chain): Chain {
    if first == 0 && |t| <= BAD_CLUSTER then [LeastFree(t)] else ch
  }

  ghost function StartBlock(first: uint32, k: nat): nat {
    if first == 0 then 0 else k
  }

  /** The table and the file's chain after a write that extended the chain `m` times. */
  ghost function FinalTable(t: Table, first: uint32, ch: Chain, m: nat): Table {
    Grown(StartTable(t, first), StartChain(t, first, ch), m).0
  }

  ghost function FinalChain(t: Table, first: uint32, ch: Chain, m: nat): Chain {
    Grown(StartTable(t, first), StartChain(t, first, ch), m).1
  }

  /**
   * What a successful write of `r` bytes of `input` does: the table grows the file's chain, the
   * bytes land at the stream offset of the cursor, and the handle moves on. Fewer bytes than
   * asked are written only when no cluster is left.
   */
  ghost predicate Wrote(b: nat, t: Table, data: Data, h: Handle, t': Table, data': Data, h': Handle,
                        input: seq<uint8>, ch: Chain, k: nat, r: nat, m: nat)
  {
    var q, ch' := Offset(b, StartBlock(h.firstCluster, k), h.position), FinalChain(t, h.firstCluster, ch, m);
    var i := LastBlock(b, q + r);
    && 0 < r <= |input| && h.position + r < TWO_TO_THE_32
    && t' == FinalTable(t, h.firstCluster, ch, m) && IsChain(t', ch')
    && Written(data, data', ch', q, input[..r])
    && i < |ch'|
    && h' == h.(firstCluster := ch'[0], currentCluster := ch'[i], position := h.position + r,
        size := Max(h.size, h.position + r),
                dirty := h.dirty || h.firstCluster == 0 || h.position + r > h.size)
    && (|ch'| > |StartChain(t, h.firstCluster, ch)| ==> i == |ch'| - 1)
    && (r < |input| ==> LeastFree(t') == 0 && q + r == |Content(data', ch')|)
  }

  /** The cluster `fat32_seek` stops at after skipping `i` clusters from `first`. */
  ghost function SeekTo(t: Table, first: uint32, i: nat): uint32 {
    var ch := ChainOf(t, first);
    if ch == [] then first
    else if i < |ch| then ch[i]
    else t[ch[|ch| - 1]]
  }

  lemma SeekStart(t: Table, first: uint32)
    ensures SeekTo(t, first, 0) == first
  {}

  /** One skip follows the link; at the end of the chain, or without one, skipping stops for good. */
  lemma SeekStep(t: Table, first: uint32, i: nat, last: nat)
    requires i <= last && (first >= 2 ==> ChainOf(t, first) != [])
    ensures var c := SeekTo(t, first, i);
      if c < 2 || IsEoc(c) then SeekTo(t, first, last) == c
      else c < |t| && t[c] == SeekTo(t, first, i + 1)
  {
    var ch := ChainOf(t, first);
    if i < |ch| {
      ChainStep(t, ch, i);
    }
  }

  // ----- Cursor arithmetic

  /** While the stream offset is inside block `kk`, the file position agrees with it modulo the block size. */
  lemma ModAlong(b: nat, k: nat, p: nat, kk: nat, done: nat)
    requires b > 0 && kk * b <= Offset(b, k, p) + done < kk * b + b
    ensures (p + done) % b == Offset(b, k, p) + done - kk * b
  {
    var off := Offset(b, k, p) + done - kk * b;
    assert p == p / b * b + p % b;
    assert (p / b - k + kk) * b == p / b * b - k * b + kk * b;
    DivModUnique(p + done, b, p / b - k + kk, off);
  }

  lemma LastBlockIs(b: nat, end: nat, kk: nat)
    requires b > 0 && kk * b < end <= kk * b + b
    ensures LastBlock(b, end) == kk
  {
    DivModUnique(end - 1, b, kk, end - 1 - kk * b);
  }

  /**
   * A transfer of `n` bytes has moved `done` of them and its cursor is on block
   * `kk`: strictly before the end of the block while bytes are wanted, and not
   * moved on when the last wanted byte filled the block.
   */
  ghost predicate Moving(b: nat, k: nat, p: nat, n: nat, done: nat, kk: nat) {
    var at := Offset(b, k, p) + done;
    && b > 0
    && done <= n
    && kk * b <= at
    && (done < n ==> at < kk * b + b)
    && (done == n > 0 ==> kk * b < at <= kk * b + b)
  }

  lemma MovingStart(b: nat, k: nat, p: nat, n: nat, len: nat)
    requires b > 0 && k < len
    ensures Moving(b, k, p, n, 0, k)
    ensures Offset(b, k, p) < len * b
  {
    MulMono(k + 1, len, b);
  }

  lemma MovingDone(b: nat, k: nat, p: nat, n: nat, kk: nat)
    requires n > 0 && Moving(b, k, p, n, n, kk)
    ensures LastBlock(b, Offset(b, k, p) + n) == kk
  {
    LastBlockIs(b, Offset(b, k, p) + n, kk);
  }

  /** The part of block `kk` that the next step of a transfer touches, and where the step leads. */
  lemma MovingStep(b: nat, k: nat, p: nat, n: nat, done: nat, kk: nat, off: nat, count: nat)
    requires Moving(b, k, p, n, done, kk) && done < n
    requires off == (p + done) % b && count == Min(n - done, b - off)
    ensures kk * b + off == Offset(b, k, p) + done
    ensures 0 < count && off + count <= b && done + count <= n
    ensures (p + done + count) % b == 0 <==> off + count == b
    ensures off + count == b && done + count < n ==> Moving(b, k, p, n, done + count, kk + 1)
    ensures off + count < b || done + count == n ==> Moving(b, k, p, n, done + count, kk)
    ensures off + count == b ==> LastBlock(b, Offset(b, k, p) + done + count) == kk
  {
    ModAlong(b, k, p, kk, done);
    assert (kk + 1) * b == kk * b + b;
    if off + count == b {
      ModAlong(b, k, p, kk + 1, done + count);
      LastBlockIs(b, Offset(b, k, p) + done + count, kk);
    } else {
      ModAlong(b, k, p, kk, done + count);
    }
  }

  lemma DeliveredNothing(out: seq<uint8>, s: seq<uint8>, q: nat)
    ensures Delivered(out, s, q, 0) == out
  {}

  /** One step of a read appends the touched part of the block to what was delivered. */
  lemma ReadStep(data: Data, ch: Chain, b: nat, q: nat, done: nat, kk: nat, off: nat, count: nat, out: seq<uint8>)
    requires Blocks(data, ch, b) && kk < |ch| && done + count <= |out|
    requires kk * b + off == q + done && off + count <= b
    ensures var s := Content(data, ch);
      && |data[ch[kk]]| == b
      && Put(Delivered(out, s, q, done), done, data[ch[kk]][off..off + count]) == Delivered(out, s, q, done + count)
      && q + done + count <= |s|
      && (off + count == b && kk + 1 == |ch| ==> q + done + count == |s|)
  {
    hide Content, Put;
    ContentPart(data, ch, b, kk, off, count);
    PutStream(out, Content(data, ch), q, done, count);
  }

  /** One step of a write puts the next bytes into block `k`, and where it leads. */
  lemma BlockStep(was: Data, t: Table, data: Data, ch: Chain, b: nat, k0: nat, p: nat, n: nat, done: nat, k: nat,
                  off: nat, count: nat, input: seq<uint8>)
    requires IsChain(t, ch) && Blocks(data, ch, b) && k < |ch| && n <= |input|
    requires Moving(b, k0, p, n, done, k) && done < n && off == (p + done) % b && count == Min(n - done, b - off)
    requires Written(was, data, ch, Offset(b, k0, p), input[..done])
    ensures 0 < count <= n - done && off + count <= b && ch[k] < |data|
    ensures done + count < n ==> Moving(b, k0, p, n, done + count, k + 1)
    ensures done + count == n ==> Moving(b, k0, p, n, n, k)
    ensures LastBlock(b, Offset(b, k0, p) + done + count) == k
    ensures var data' := data[ch[k] := Put(data[ch[k]], off, input[done..done + count])];
      && Written(was, data', ch, Offset(b, k0, p), input[..done + count])
      && (done + count < n && k + 1 == |ch| ==> Offset(b, k0, p) + done + count == |Content(data', ch)|)
  {
    hide Content, Put, Moving, LastBlock, Offset, Written, IsChain, Blocks;
    MovingStep(b, k0, p, n, done, k, off, count);
    if done + count == n {
      MovingDone(b, k0, p, n, k);
    }
    ChainAcyclic(t, ch);
    BlockThere(data, ch, b, k);
    ContentPart(data, ch, b, k, off, count);
    WrittenStep(was, data, ch, b, k, off, Offset(b, k0, p), input[..done], input[done..done + count]);
    assert input[..done] + input[done..done + count] == input[..done + count];
    PutLength(data, ch, b, k, off, input[done..done + count]);
  }

  lemma BlockThere(data: Data, ch: Chain, b: nat, k: nat)
    requires Blocks(data, ch, b) && k < |ch|
    ensures ch[k] < |data| && |data[ch[k]]| == b
  {}

  /** Overwriting part of a block does not change how much the chain holds. */
  lemma PutLength(data: Data, ch: Chain, b: nat, k: nat, off: nat, w: seq<uint8>)
    requires Blocks(data, ch, b) && Distinct(ch) && k < |ch| && off + |w| <= b
    ensures ch[k] < |data| && |Content(data[ch[k] := Put(data[ch[k]], off, w)], ch)| == |Content(data, ch)|
  {
    hide Content;
    ContentPut(data, ch, b, k, off, w);
  }

  ghost predicate DistinctFiles(files: seq<OpenFile>) {
    forall i, j | 0 <= i < j < |files| :: files[i] != files[j]
  }

  class FileTable {
    const vol: Volume
    const files: seq<OpenFile>
    const buffer: array<uint8>

    ghost predicate Valid()
      reads vol, vol.fatBuffer, vol.dev
    {
      && vol.Valid()
      && |files| == MAX_OPEN_FILES
      && DistinctFiles(files)
      && buffer.Length == BUFFER_SIZE
      && buffer != vol.fatBuffer
    }

    /** The slot that `fd` names, if any. */
    ghost function Slot(fd: int): set<OpenFile> {
      if 0 <= fd < |files| then {files[fd]} else {}
    }

    ghost predicate IsOpen(fd: int)
      reads Slot(fd)
    {
      0 <= fd < |files| && files[fd].inUse
    }

    /** The open-file table as a value. */
    ghost function States(): (hs: seq<Handle>)
      reads set f: OpenFile | f in files
      ensures |hs| == |files|
    {
      seq(|files|, i requires 0 <= i < |files| reads set f: OpenFile | f in files => files[i].State())
    }

    lemma StateAt(fd: int)
      requires 0 <= fd < |files|
      ensures States()[fd] == files[fd].State() && IsOpen(fd) == files[fd].State().inUse
    {}

    /** Every handle but number `fd` is in use or not as it was. */
    twostate predicate UseBut(fd: int)
      reads set f: OpenFile | f in files
    {
      forall f | f in files && !(0 <= fd < |files| && f == files[fd]) :: f.inUse == old(f.inUse)
    }

    twostate lemma OneFilled(fd: int)
      requires if 0 <= fd < |files| then States() == old(States())[fd := States()[fd]] else States() == old(States())
      ensures UseBut(fd)
      ensures 0 <= fd < |files| ==> files[fd].inUse == States()[fd].inUse && old(files[fd].inUse == States()[fd].inUse)
    {
      forall f | f in files && !(0 <= fd < |files| && f == files[fd]) ensures f.inUse == old(f.inUse) {
        var i :| 0 <= i < |files| && files[i] == f;
        assert States()[i] == old(States())[i];
        assert States()[i].inUse == f.inUse && old(States()[i].inUse == f.inUse);
      }
    }

    lemma SlotsDiffer(i: int, j: int)
      requires Valid() && 0 <= i < |files| && 0 <= j < |files| && i != j
      ensures files[i] != files[j]
    {
      hide Consistent, IsTableOf;
    }

    /** Fills slot `fd`. */
    method Fill(fd: nat, h: Handle)
      requires Valid() && fd < MAX_OPEN_FILES
      modifies files[fd]
      ensures States() == old(States())[fd := h]
    {
      hide Consistent, IsTableOf;
      files[fd].Assign(h);
    }

    lemma ChainBlocks(ch: Chain)
      requires Valid() && IsChain(vol.table, ch)
      ensures 0 < vol.geo.bytesPerCluster <= BUFFER_SIZE
      ensures Blocks(vol.data, ch, vol.geo.bytesPerCluster)
      ensures |Content(vol.data, ch)| == |ch| * vol.geo.bytesPerCluster
    {
      vol.Facts();
      ContentLength(vol.data, ch, vol.geo.bytesPerCluster);
    }

    /** `fat32_init_files` over a mounted volume: no file is open. */
    constructor (vol: Volume)
      requires vol.Valid()
      ensures Valid() && this.vol == vol && fresh(buffer)
      ensures forall f | f in files :: !f.inUse && fresh(f)
    {
      this.vol := vol;
      buffer := new uint8[BUFFER_SIZE](_ => 0);
      var slots: seq<OpenFile> := [];
      while |slots| < MAX_OPEN_FILES
        invariant |slots| <= MAX_OPEN_FILES
        invariant forall f | f in slots :: !f.inUse && fresh(f)
        invariant DistinctFiles(slots)
      {
        var f := new OpenFile();
        slots := slots + [f];
      }
      files := slots;
    }

    /** Loads cluster `c` into the file buffer and copies part of it to the caller. */
    method CopyOut(c: uint32, off: nat, count: nat, out: array<uint8>, done: nat) returns (ok: bool)
      requires Valid() && vol.geo.IsCluster(c) && off + count <= vol.geo.bytesPerCluster
      requires out != buffer && out != vol.fatBuffer && done + count <= out.Length
      modifies buffer, out
      ensures Valid()
      ensures !ok ==> out[..] == old(out[..])
      ensures ok ==> |vol.data[c]| == vol.geo.bytesPerCluster
                     && out[..] == Put(old(out[..]), done, vol.data[c][off..off + count])
      ensures vol.dev.reliable ==> ok
    {
      hide Consistent, IsTableOf, Geometry.WellFormed, Put, DistinctFiles;
      vol.Facts();
      ok := vol.ReadCluster(c, buffer);
      if ok {
        SliceOfTake(buffer[..], vol.geo.bytesPerCluster, off, count);
        assert buffer[..][..vol.geo.bytesPerCluster] == buffer[..vol.geo.bytesPerCluster];
        Memcpy(out, done, buffer, off, count);
      }
    }

    /** One block of `fat32_read`: what is left of it behind the cursor, and on to the next if more is wanted. */
    method ReadBlock(file: OpenFile, out: array<uint8>, n: uint32, done: uint32, ghost ch: Chain, ghost k: nat,
                     ghost k0: nat, ghost p: nat, ghost was: seq<uint8>)
      returns (ok: bool, count: uint32, more: bool)
      requires Valid() && vol.dev.reliable && file.OnChain(vol.table, ch, k)
      requires out != buffer && out != vol.fatBuffer && done < n <= out.Length == |was|
      requires file.position == p + done && p + n < TWO_TO_THE_32
      requires Moving(vol.geo.bytesPerCluster, k0, p, n, done, k)
      requires out[..] == Delivered(was, Content(vol.data, ch), Offset(vol.geo.bytesPerCluster, k0, p), done)
      modifies vol.Footprint(), buffer, out, file`position, file`currentCluster
      ensures Valid() && vol.table == old(vol.table) && vol.data == old(vol.data)
      ensures ok && 0 < count <= n - done && file.position == p + done + count
      ensures var s, q := Content(vol.data, ch), Offset(vol.geo.bytesPerCluster, k0, p);
        q + done + count <= |s| && out[..] == Delivered(was, s, q, done + count)
      ensures done + count == n ==>
                Moving(vol.geo.bytesPerCluster, k0, p, n, n, k) && file.OnChain(vol.table, ch, k)
      ensures done + count < n ==> more == (k + 1 < |ch|)
      ensures done + count < n && k + 1 < |ch| ==>
                Moving(vol.geo.bytesPerCluster, k0, p, n, done + count, k + 1) && file.OnChain(vol.table, ch, k + 1)
      ensures done + count < n && k + 1 == |ch| ==>
                var q := Offset(vol.geo.bytesPerCluster, k0, p);
                && q + done + count == |Content(vol.data, ch)| && file.OnChain(vol.table, ch, k)
                && LastBlock(vol.geo.bytesPerCluster, q + done + count) == k
    {
      hide Consistent, IsTableOf, Geometry.WellFormed, Content, Put, Moving, LastBlock, Offset, Delivered, IsChain,
           Blocks, DistinctFiles;
      vol.Facts();
      var bytesPerCluster := vol.geo.bytesPerCluster;
      ChainBlocks(ch);
      ChainStep(vol.table, ch, k);
      var entry := vol.GetEntry(file.currentCluster);
      var off := file.position % bytesPerCluster;
      count := n - done;
      if count > bytesPerCluster - off {
        count := bytesPerCluster - off;
      }
      MovingStep(bytesPerCluster, k0, p, n, done, k, off, count);
      ReadStep(vol.data, ch, bytesPerCluster, Offset(bytesPerCluster, k0, p), done, k, off, count, was);
      more := false;
      ok := CopyOut(file.currentCluster, off, count, out, done);
      if !ok {
        return;
      }
      file.position := file.position + count;
      if file.position % bytesPerCluster == 0 && done + count < n {
        if IsEoc(entry) {
          return;
        }
        file.currentCluster := entry;
        more := true;
      }
    }

    /**
     * The loop of `fat32_read` through a cursor on `ch[k]`: it delivers the bytes of the chain
     * from the cursor on, as many as are wanted and the chain has, and leaves the cursor on the
     * last block touched.
     */
    method ReadChain(file: OpenFile, out: array<uint8>, n: uint32, ghost ch: Chain, ghost k: nat) returns (done: int)
      requires Valid() && vol.dev.reliable
      requires out != buffer && out != vol.fatBuffer && n <= out.Length
      requires file.OnChain(vol.table, ch, k) && file.position + n <= file.size
      modifies vol.Footprint(), buffer, out, file`position, file`currentCluster
      ensures Valid() && vol.table == old(vol.table) && vol.data == old(vol.data)
      ensures var b, s, q := vol.geo.bytesPerCluster, Content(vol.data, ch), Offset(vol.geo.bytesPerCluster, k,
          old(file.position));
        && 0 <= done == Min(n, |s| - q)
        && (n > 0 ==> done > 0)
        && out[..] == Delivered(old(out[..]), s, q, done)
        && file.position == old(file.position) + done
        && file.OnChain(vol.table, ch, if done == 0 then k else LastBlock(b, q + done))
    {
      hide Consistent, IsTableOf, Geometry.WellFormed, Content, Put, Moving, LastBlock, Offset, Delivered, IsChain,
           Blocks, DistinctFiles;
      vol.Facts();
      ghost var s, was := Content(vol.data, ch), out[..];
      ghost var b: nat, p: nat, kk: nat := vol.geo.bytesPerCluster, file.position, k;
      ghost var q := Offset(b, k, p);
      ChainBlocks(ch);
      ChainStep(vol.table, ch, k);
      MovingStart(b, k, p, n, |ch|);
      DeliveredNothing(was, s, q);
      done := 0;
      while done < n && file.currentCluster >= 2
        invariant Valid() && vol.table == old(vol.table) && vol.data == old(vol.data)
        invariant 0 <= done <= n && file.position == p + done
        invariant Moving(b, k, p, n, done, kk) && file.OnChain(vol.table, ch, kk) && 2 <= file.currentCluster
        invariant q + done <= |s| && out[..] == Delivered(was, s, q, done)
        invariant done == 0 ==> kk == k
      {
        var ok, count, more := ReadBlock(file, out, n, done, ch, kk, k, p, was);
        if !ok {
          return if done > 0 then done else -1;
        }
        done := done + count;
        if done < n {
          if !more {
            break;
          }
          kk := kk + 1;
          ChainStep(vol.table, ch, kk);
        }
      }
      if done == n > 0 {
        MovingDone(b, k, p, n, kk);
      }
    }

    /** `find_free_fd`: the first slot not in use, or -1. */
    method FindFreeFd() returns (fd: int)
      requires Valid()
      ensures -1 <= fd < MAX_OPEN_FILES
      ensures fd >= 0 ==> !States()[fd].inUse && forall i | 0 <= i < fd :: States()[i].inUse
      ensures fd < 0 ==> |States()| == 8 && forall h | h in States() :: h.inUse
    {
      hide Consistent, IsTableOf, Geometry.WellFormed;
      fd := 0;
      while fd < MAX_OPEN_FILES
        invariant 0 <= fd <= MAX_OPEN_FILES
        invariant forall i | 0 <= i < fd :: files[i].inUse
      {
        if !files[fd].inUse {
          return fd;
        }
        fd := fd + 1;
      }
      return -1;
    }

    /** `fat32_read`. */
    method Read(fd: int, out: array<uint8>, size: uint32, ghost ch: Chain, ghost k: nat) returns (r: int)
      requires Valid() && vol.dev.reliable
      requires out != buffer && out != vol.fatBuffer && size <= out.Length
      requires IsOpen(fd) && files[fd].position < files[fd].size ==> files[fd].OnChain(vol.table, ch, k)
      modifies vol.Footprint(), buffer, out, Slot(fd)`position, Slot(fd)`currentCluster
      ensures Valid() && vol.table == old(vol.table) && vol.data == old(vol.data)
      ensures !IsOpen(fd) ==> r == -1 && out[..] == old(out[..])
      ensures IsOpen(fd) && old(files[fd].position >= files[fd].size) ==>
                r == 0 && out[..] == old(out[..])
                && files[fd].position == old(files[fd].position)
                && files[fd].currentCluster == old(files[fd].currentCluster)
      ensures IsOpen(fd) && old(files[fd].position < files[fd].size) ==>
                var b, s := vol.geo.bytesPerCluster, Content(vol.data, ch);
                var q := Offset(b, k, old(files[fd].position));
                && 0 <= r == Min(old(files[fd].Wanted(size)), |s| - q)
                && (size > 0 ==> r > 0)
                && out[..] == Delivered(old(out[..]), s, q, r)
                && files[fd].position == old(files[fd].position) + r
                && files[fd].OnChain(vol.table, ch, if r == 0 then k else LastBlock(b, q + r))
    {
      hide Consistent, IsTableOf, Geometry.WellFormed, Content, LastBlock, Offset, Delivered, IsChain;
      if fd < 0 || fd >= MAX_OPEN_FILES {
        return -1;
      }
      var file := files[fd];
      if !file.inUse {
        return -1;
      }
      if file.position >= file.size {
        return 0;
      }
      var n: uint32 := if size > file.size - file.position then file.size - file.position else size;
      r := ReadChain(file, out, n, ch, k);
    }

    /** Reads cluster `c`, overwrites part of it from the caller's bytes and stores it back. */
    method CopyIn(c: uint32, off: nat, count: nat, input: array<uint8>, done: nat) returns (ok: bool)
      requires Valid() && vol.geo.IsCluster(c) && off + count <= vol.geo.bytesPerCluster && vol.dev.reliable
      requires input != buffer && done + count <= input.Length
      modifies buffer, vol, vol.dev
      ensures Valid() && vol.table == old(vol.table) && ok
      ensures |old(vol.data)[c]| == vol.geo.bytesPerCluster
      ensures vol.data == old(vol.data)[c := Put(old(vol.data)[c], off, input[done..done + count])]
    {
      hide Consistent, IsTableOf, Geometry.WellFormed, Put, DistinctFiles;
      vol.Facts();
      var b := vol.geo.bytesPerCluster;
      ok := vol.ReadCluster(c, buffer);
      if !ok {
        return;
      }
      ghost var was := buffer[..];
      Memcpy(buffer, off, input, done, count);
      PutTake(was, b, off, input[done..done + count]);
      ghost var written;
      ok, written := vol.WriteCluster(c, buffer[..b]);
    }

    /** Moves the cursor from `ch[k]` to the next cluster, extending the chain at its end. */
    method Advance(file: OpenFile, ghost ch: Chain, ghost k: nat) returns (moved: bool)
      requires Valid() && vol.dev.reliable && file.OnChain(vol.table, ch, k)
      modifies vol.Footprint(), file`currentCluster
      ensures Valid() && vol.data == old(vol.data)
      ensures k + 1 < |ch| ==> moved && vol.table == old(vol.table) && file.OnChain(vol.table, ch, k + 1)
      ensures k + 1 == |ch| ==>
                var (t', ch') := Extended(old(vol.table), ch);
                && vol.table == t'
                && moved == (|ch'| > |ch|) == (LeastFree(old(vol.table)) != 0)
                && (moved ==> ch' == ch + [LeastFree(old(vol.table))] && file.OnChain(t', ch', k + 1))
                && (!moved ==> file.OnChain(t', ch, k))
    {
      hide Consistent, IsTableOf, Geometry.WellFormed, IsChain, DistinctFiles, FreeFrom, Extended;
      vol.Facts();
      ChainStep(vol.table, ch, k);
      ExtendedChain(vol.table, ch);
      var next := vol.GetEntry(file.currentCluster);
      if IsEoc(next) {
        var c := vol.AllocateCluster();
        if c == 0 {
          return false;
        }
        SmallEntry(c);
        var _ := vol.ExtendChain(file.currentCluster, c);
        file.currentCluster := c;
      } else if next >= 2 {
        file.currentCluster := next;
      } else {
        return false;
      }
      return true;
    }

    /** One block of `fat32_write`: as much of the rest of the input as fits behind the cursor. */
    method WriteBlock(file: OpenFile, input: array<uint8>, n: uint32, done: uint32, ghost ch: Chain, ghost k: nat,
                      ghost was: Data, ghost k0: nat, ghost p: nat, ghost size0: uint32, ghost dirty0: bool)
      returns (count: uint32)
      requires Valid() && vol.dev.reliable && file.OnChain(vol.table, ch, k)
      requires input != buffer && input != vol.fatBuffer && done < n <= input.Length
      requires file.position == p + done && p + n < TWO_TO_THE_32
      requires file.Accounts(size0, dirty0, done > 0)
      requires Moving(vol.geo.bytesPerCluster, k0, p, n, done, k)
      requires Written(was, vol.data, ch, Offset(vol.geo.bytesPerCluster, k0, p), input[..done])
      modifies vol, vol.dev, buffer, file`position, file`size, file`dirty
      ensures Valid() && vol.table == old(vol.table)
      ensures 0 < count <= n - done
      ensures Written(was, vol.data, ch, Offset(vol.geo.bytesPerCluster, k0, p), input[..done + count])
      ensures done + count < n ==> Moving(vol.geo.bytesPerCluster, k0, p, n, done + count, k + 1)
      ensures done + count == n ==> Moving(vol.geo.bytesPerCluster, k0, p, n, n, k)
      ensures LastBlock(vol.geo.bytesPerCluster, Offset(vol.geo.bytesPerCluster, k0, p) + done + count) == k
      ensures done + count < n && k + 1 == |ch| ==>
                Offset(vol.geo.bytesPerCluster, k0, p) + done + count == |Content(vol.data, ch)|
      ensures file.position == p + done + count
      ensures file.Accounts(size0, dirty0, true)
    {
      hide Consistent, IsTableOf, Geometry.WellFormed, Content, Put, Moving, LastBlock, Offset, Written, IsChain,
           Blocks, DistinctFiles;
      vol.Facts();
      var bytesPerCluster := vol.geo.bytesPerCluster;
      var off := file.position % bytesPerCluster;
      count := n - done;
      if count > bytesPerCluster - off {
        count := bytesPerCluster - off;
      }
      ChainBlocks(ch);
      ChainStep(vol.table, ch, k);
      BlockStep(was, vol.table, vol.data, ch, bytesPerCluster, k0, p, n, done, k, off, count, input[..]);
      ghost var data := vol.data;
      var ok := CopyIn(file.currentCluster, off, count, input, done);
      assert vol.data == data[ch[k] := Put(data[ch[k]], off, input[done..done + count])];
      file.position := file.position + count;
      if file.position > file.size {
        file.size := file.position;
        file.dirty := true;
      }
    }

    /**
     * Between two blocks of a write: on to the next cluster of `chain`, which has been grown `m` times
     * from `ch0`, growing it once more at its end.
     */
    method GrowOn(file: OpenFile, ghost t0: Table, ghost ch0: Chain, ghost chain: Chain, ghost m: nat, ghost k: nat,
                  ghost was: Data, ghost q: nat, ghost w: seq<uint8>)
      returns (moved: bool, ghost chain': Chain, ghost m': nat)
      requires Valid() && vol.dev.reliable && file.OnChain(vol.table, chain, k)
      requires (vol.table, chain) == Grown(t0, ch0, m) && Written(was, vol.data, chain, q, w)
      requires |chain| > |ch0| ==> k == |chain| - 1
      modifies vol.Footprint(), file`currentCluster
      ensures Valid() && vol.data == old(vol.data)
      ensures (vol.table, chain') == Grown(t0, ch0, m') && Written(was, vol.data, chain', q, w)
      ensures moved ==> file.OnChain(vol.table, chain', k + 1) && file.currentCluster >= 2
      ensures moved ==> (|chain'| > |ch0| ==> k + 1 == |chain'| - 1)
      ensures !moved ==>
                && chain' == chain && file.OnChain(vol.table, chain, k)
                && k + 1 == |chain| && LeastFree(vol.table) == 0
    {
      hide Consistent, IsTableOf, Geometry.WellFormed, Content, Written, IsChain, DistinctFiles, FreeFrom, Extended;
      vol.Facts();
      chain', m' := chain, m;
      ghost var t := vol.table;
      ExtendedChain(t, chain);
      ChainFacts(t, chain);
      moved := Advance(file, chain, k);
      if moved {
        if k + 1 == |chain| {
          vol.Facts();
          WrittenExtend(was, vol.data, chain, LeastFree(t), q, w);
          chain', m' := Extended(t, chain).1, m + 1;
        }
        ChainStep(vol.table, chain', k + 1);
      }
    }

    /**
     * The loop of `fat32_write` through a cursor on `ch[k]`: the bytes go to the chain's content
     * from the cursor on, growing the chain by `m` least free clusters where needed.
     */
    method WriteChain(file: OpenFile, input: array<uint8>, n: uint32, ghost ch: Chain, ghost k: nat)
      returns (done: uint32, ghost m: nat)
      requires Valid() && vol.dev.reliable && 0 < n
      requires input != buffer && input != vol.fatBuffer && n <= input.Length
      requires file.OnChain(vol.table, ch, k) && file.position + n < TWO_TO_THE_32
      modifies vol.Footprint(), buffer, file`position, file`currentCluster, file`size, file`dirty
      ensures Valid() && 0 < done <= n
      ensures vol.table == Grown(old(vol.table), ch, m).0
      ensures var b, q, ch' := vol.geo.bytesPerCluster, Offset(vol.geo.bytesPerCluster, k,
          old(file.position)), Grown(old(vol.table), ch, m).1;
        && Written(old(vol.data), vol.data, ch', q, input[..done])
        && file.OnChain(vol.table, ch', LastBlock(b, q + done))
        && (|ch'| > |ch| ==> LastBlock(b, q + done) == |ch'| - 1)
        && (done < n ==> LeastFree(vol.table) == 0 && q + done == |Content(vol.data, ch')|)
      ensures file.position == old(file.position) + done
      ensures file.Accounts(old(file.size), old(file.dirty), true)
    {
      hide Consistent, IsTableOf, Geometry.WellFormed, Content, Put, Moving, LastBlock, Offset, Written, IsChain,
           Blocks, DistinctFiles, FreeFrom, Extended, OpenFile.Accounts;
      vol.Facts();
      ghost var b: nat, p: nat, kk: nat := vol.geo.bytesPerCluster, file.position, k;
      ghost var q, was, chain := Offset(b, k, p), vol.data, ch;
      ChainBlocks(ch);
      ChainStep(vol.table, ch, k);
      MovingStart(b, k, p, n, |ch|);
      WrittenStart(vol.data, ch, q);
      m := 0;
      done := 0;
      file.AccountsStart();
      assert input[..0] == [];
      while done < n && file.currentCluster >= 2
        invariant Valid() && done <= n && file.position == p + done
        invariant (vol.table, chain) == Grown(old(vol.table), ch, m)
        invariant file.OnChain(vol.table, chain, kk) && 2 <= file.currentCluster
        invariant Moving(b, k, p, n, done, kk) && Written(was, vol.data, chain, q, input[..done])
        invariant |chain| > |ch| ==> kk == |chain| - 1
        invariant file.Accounts(old(file.size), old(file.dirty), done > 0)
        invariant done == n ==> LastBlock(b, q + done) == kk
      {
        var count := WriteBlock(file, input, n, done, chain, kk, was, k, p, old(file.size), old(file.dirty));
        done := done + count;
        if done < n {
          var moved;
          moved, chain, m := GrowOn(file, old(vol.table), ch, chain, m, kk, was, q, input[..done]);
          if !moved {
            break;
          }
          kk := kk + 1;
        }
      }
    }

    /** A write whose empty file, if it was one, has its first cluster by now. */
    method WriteStarted(file: OpenFile, input: array<uint8>, n: uint32, ghost t: Table, ghost h: Handle,
        ghost ch: Chain, ghost k: nat)
      returns (done: uint32, ghost m: nat)
      requires Valid() && vol.dev.reliable && 0 < n && |t| <= BAD_CLUSTER
      requires input != buffer && input != vol.fatBuffer && n <= input.Length
      requires vol.table == StartTable(t, h.firstCluster)
      requires file.OnChain(vol.table, StartChain(t, h.firstCluster, ch), StartBlock(h.firstCluster, k))
      requires file.State() == h.(firstCluster := file.firstCluster, currentCluster := file.currentCluster,
          dirty := h.dirty || h.firstCluster == 0)
      requires file.position + n < TWO_TO_THE_32
      modifies vol.Footprint(), buffer, file`position, file`currentCluster, file`size, file`dirty
      ensures Valid() && 0 < done <= n
      ensures Wrote(vol.geo.bytesPerCluster, t, old(vol.data), h, vol.table, vol.data, file.State(), input[..n], ch, k,
          done, m)
    {
      hide Consistent, IsTableOf, Geometry.WellFormed, Content, LastBlock, Offset, Written, DistinctFiles, FreeFrom,
           Grown, IsChain, Wrote, StartTable, StartChain, StartBlock;
      ghost var data := vol.data;
      done, m := WriteChain(file, input, n, StartChain(t, h.firstCluster, ch), StartBlock(h.firstCluster, k));
      assert input[..n][..done] == input[..done];
      ghost var b := vol.geo.bytesPerCluster;
      ghost var q := Offset(b, StartBlock(h.firstCluster, k), h.position);
      WrotePack(b, t, data, h, vol.table, vol.data, file.State(), input[..n], ch, k, done, m, q,
          FinalChain(t, h.firstCluster, ch, m), LastBlock(b, q + done));
    }

    /** `fat32_write`. An empty file first gets a cluster of its own; `m` counts the extensions after that. */
    method Write(fd: int, input: array<uint8>, n: uint32, ghost ch: Chain, ghost k: nat) returns (r: int, ghost m: nat)
      requires Valid() && vol.dev.reliable
      requires input != buffer && input != vol.fatBuffer && n <= input.Length
      requires IsOpen(fd) && 0 < n ==>
                 && files[fd].position + n < TWO_TO_THE_32
                 && (files[fd].firstCluster != 0 ==> files[fd].OnChain(vol.table, ch, k))
      modifies vol.Footprint(), buffer, Slot(fd)
      ensures Valid() && r <= n
      ensures !old(IsOpen(fd)) ==> r == -1
      ensures old(IsOpen(fd)) && n == 0 ==> r == 0
      ensures old(IsOpen(fd)) && 0 < n && old(files[fd].firstCluster == 0 && LeastFree(vol.table) == 0) ==> r == -1
      ensures old(IsOpen(fd)) && 0 < n && old(files[fd].firstCluster != 0 || LeastFree(vol.table) != 0) ==> r > 0
      ensures r <= 0 ==> vol.table == old(vol.table) && vol.data == old(vol.data)
      ensures r <= 0 && 0 <= fd < |files| ==> files[fd].State() == old(files[fd].State())
      ensures r > 0 ==>
                && IsOpen(fd)
                && Wrote(vol.geo.bytesPerCluster, old(vol.table), old(vol.data), old(files[fd].State()),
                         vol.table, vol.data, files[fd].State(), input[..n], ch, k, r, m)
    {
      hide Consistent, IsTableOf, Geometry.WellFormed, Content, DistinctFiles, FreeFrom, Wrote;
      m := 0;
      if fd < 0 || fd >= MAX_OPEN_FILES {
        return -1, 0;
      }
      var file := files[fd];
      if !file.inUse {
        return -1, 0;
      }
      if n == 0 {
        return 0, 0;
      }
      vol.Facts();
      ghost var t, h := vol.table, file.State();
      if file.firstCluster == 0 {
        var c := vol.AllocateCluster();
        if c == 0 {
          return -1, 0;
        }
        file.firstCluster := c;
        file.currentCluster := c;
        file.dirty := true;
        assert IsChain(vol.table, [c]);
      }
      r, m := WriteStarted(file, input, n, t, h, ch, k);
      assert file.State().inUse;
    }

    lemma WrotePack(b: nat, t: Table, data: Data, h: Handle, t': Table, data': Data, h': Handle,
                    input: seq<uint8>, ch: Chain, k: nat, r: nat, m: nat, q: nat, ch': Chain, i: nat)
      requires |t| <= BAD_CLUSTER && 0 < r <= |input| && h.position + r < TWO_TO_THE_32
      requires q == Offset(b, StartBlock(h.firstCluster, k), h.position) && i == LastBlock(b, q + r)
      requires ch' == FinalChain(t, h.firstCluster, ch, m) && t' == FinalTable(t, h.firstCluster, ch, m)
      requires IsChain(t', ch') && i < |ch'|
      requires Written(data, data', ch', q, input[..r])
      requires h'.firstCluster == ch'[0] && h'.currentCluster == ch'[i]
      requires |ch'| > |StartChain(t, h.firstCluster, ch)| ==> i == |ch'| - 1
      requires r < |input| ==> LeastFree(t') == 0 && q + r == |Content(data', ch')|
      requires h'.position == h.position + r && h'.size == Max(h.size, h.position + r)
      requires h'.dirty == (h.dirty || h.firstCluster == 0 || h.position + r > h.size)
      requires h' == h.(firstCluster := h'.firstCluster, currentCluster := h'.currentCluster, position := h'.position,
                        size := h'.size, dirty := h'.dirty)
      ensures Wrote(b, t, data, h, t', data', h', input, ch, k, r, m)
    {}

    /** `fat32_seek`: the cursor lands on the addressed block, or on the end mark past the last one. */
    method Seek(fd: int, position: uint32) returns (ok: bool)
      requires Valid() && vol.dev.reliable
      requires IsOpen(fd) && files[fd].firstCluster >= 2 ==> ChainOf(vol.table, files[fd].firstCluster) != []
      modifies vol.Footprint(), Slot(fd)`position, Slot(fd)`currentCluster
      ensures Valid() && vol.table == old(vol.table) && vol.data == old(vol.data)
      ensures ok == IsOpen(fd)
      ensures ok ==>
                && files[fd].position == position
                && files[fd].currentCluster
                    == SeekTo(vol.table, files[fd].firstCluster, BlockOf(vol.geo.bytesPerCluster, position))
    {
      hide Consistent, IsTableOf, Geometry.WellFormed, DistinctFiles, SeekTo, IsChain, BlockOf;
      if fd < 0 || fd >= MAX_OPEN_FILES {
        return false;
      }
      var file := files[fd];
      if !file.inUse {
        return false;
      }
      vol.Facts();
      file.position := position;
      file.currentCluster := file.firstCluster;
      var clustersToSkip := BlockOf(vol.geo.bytesPerCluster, position);
      var i := 0;
      SeekStart(vol.table, file.firstCluster);
      while i < clustersToSkip
        invariant 0 <= i <= clustersToSkip
        invariant Valid() && vol.table == old(vol.table) && vol.data == old(vol.data)
        invariant file.position == position && file.currentCluster == SeekTo(vol.table, file.firstCluster, i)
      {
        SeekStep(vol.table, file.firstCluster, i, clustersToSkip);
        if file.currentCluster < 2 || IsEoc(file.currentCluster) {
          break;
        }
        file.currentCluster := vol.GetEntry(file.currentCluster);
        i := i + 1;
      }
      return true;
    }
  }
}
