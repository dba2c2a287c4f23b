/** `fat32_copy`, whose chunked reads and writes never leave the first cluster. */
module Copies {
  import opened Arithmetic
  import opened Bytes
  import opened Chains
  import opened Contents
  import opened DirMaps
  import opened Directories
  import opened Fat
  import opened FileLaws
  import opened Files
  import opened FileSystems
  import opened Geometry
  import opened Handles
  import opened Image
  import opened Ledger
  import opened Lookups
  import opened Paths
  import opened Persistence
  import opened Renames
  import opened ShortNames
  import opened Slots
  import opened Soundness

  /** The part of a volume that paths and files are about, and the size of its clusters. */
  datatype View = View(t: Table, data: Data, dirs: set<uint32>, heads: set<uint32>, root: uint32, current: uint32,
    b: nat)

  ghost predicate InOrder(v: View) {
    Sound(v.t, v.data, v.dirs, v.heads) && InTree(v.dirs, v.root) && InTree(v.dirs, v.current)
  }

  /** A directory entry together with a path that leads to it. */
  datatype Place = Place(path: seq<uint8>, d: uint32, i: nat)

  ghost predicate LeadsTo(v: View, p: Place) {
    p.d in v.dirs && Leads(v.t, v.data, v.root, v.current, p.path, p.d, p.i)
  }

  ghost function SlotAt(v: View, p: Place): Slot {
    if p.i < |SlotsAt(v.t, v.data, p.d)| then SlotsAt(v.t, v.data, p.d)[p.i] else seq(SLOT_SIZE, _ => 0)
  }

  // ----- The source of a copy

  /** The file at a place, with its bytes. */
  ghost predicate Source(v: View, p: Place, s: Slot, bytes: seq<uint8>) {
    LeadsTo(v, p) && SlotAt(v, p) == s && Stored(v.t, v.data, s, bytes)
  }

  /** A file without clusters is empty, and any other is a file of the volume. */
  lemma SourceFile(v: View, p: Place, s: Slot, bytes: seq<uint8>)
    requires Source(v, p, s, bytes)
    ensures FirstCluster(s) == 0 ==> bytes == []
    ensures FirstCluster(s) != 0 ==> FileAt(v.t, v.data, p.d, p.i) && FileHead(v.t, v.data, p.d, p.i) == FirstCluster(s)
    ensures Live(s) && !HasDir(s) && p.i < |SlotsAt(v.t, v.data, p.d)|
  {
    hide Find, DirSlots, PathDir, Content, FirstCluster;
  }

  /** A change of one slot of a directory leaves the bytes of every file alone. */
  lemma FileContentKept(v: View, data': Data, p: Place, s: Slot, bytes: seq<uint8>, e: uint32, j: nat, s': Slot)
    requires InOrder(v) && Source(v, p, s, bytes) && e in v.dirs && OneSlotChanged(v.t, v.data, data', e, j, s')
    ensures Stored(v.t, data', s, bytes)
  {
    hide Find, DirSlots, PathDir, Content, FirstCluster, SoundDirs, SoundFiles, FileAt, FileHead, InTree;
    SourceFile(v, p, s, bytes);
    if FirstCluster(s) != 0 {
      FileIsHeld(v.t, v.data, v.dirs, v.heads, p.d, p.i);
      ContentFrame(v.data, data', ChainOf(v.t, FirstCluster(s)));
    }
  }

  /** A new entry of another name moves no other entry. */
  lemma InsertAnswers(slots: seq<Slot>, name: seq<uint8>, i: int, s: Slot)
    requires Answers(slots, name, i) && FindFree(slots) >= 0 && !IsEnd(s) && Find(slots, Key(s), true) < 0
    ensures i != FindFree(slots) && Answers(slots[FindFree(slots) := s], name, i)
  {
    hide Find, FindFree, Key, UpperAll;
    FindAfterInsert(slots, FindFree(slots), s, UpperAll(name), true);
    FindAfterInsert(slots, FindFree(slots), s, UpperAll(name), false);
  }

  lemma UpdateAnswers(slots: seq<Slot>, name: seq<uint8>, i: int, j: nat, size: uint32, first: uint32)
    requires Answers(slots, name, i) && j < |slots|
    ensures Answers(slots[j := UpdateSlot(slots[j], size, first)], name, i)
  {
    hide Find, Key, UpperAll, UpdateSlot;
    UpdatedSlot(slots[j], size, first);
    FindReplaced(slots, j, UpdateSlot(slots[j], size, first), UpperAll(name), true);
    FindReplaced(slots, j, UpdateSlot(slots[j], size, first), UpperAll(name), false);
  }

  /** A change of one slot that keeps all paths and the place's answer keeps the place. */
  lemma PlaceKept(v: View, data': Data, p: Place, e: uint32, j: nat, s: Slot)
    requires InOrder(v) && LeadsTo(v, p) && e in v.dirs && OneSlotChanged(v.t, v.data, data', e, j, s)
    requires KeepsPaths(v.t, v.data, v.t, data', v.dirs) && (p.d, p.i) != (e, j)
    requires p.d == e ==> Answers(SlotsAt(v.t, v.data, e)[j := s], FilePart(Take(p.path, 255)), p.i)
    ensures LeadsTo(v.(data := data'), p) && SlotAt(v.(data := data'), p) == SlotAt(v, p)
  {
    hide Find, DirSlots, PathDir, SoundFiles, SoundDirs, Held, KeepsPaths, Closed, FilePart, Answers, InTree;
    PlaceSound(v);
    PathKept(v.t, v.data, v.t, data', v.dirs, v.root, v.current, Take(p.path, 255));
    if p.d != e {
      OtherDirectory(v.t, v.data, data', v.dirs, e, j, s, p.d);
    }
  }

  lemma PlaceSound(v: View)
    requires InOrder(v)
    ensures SoundDirs(v.t, v.data, v.dirs) && Closed(v.t, v.data, v.dirs)
  {
    hide SoundDirs, SoundFiles, Held, Closed;
    SoundIsClosed(v.t, v.data, v.dirs);
  }

  /** A new entry of another name leaves the source in place. */
  lemma SourceInsert(v: View, data': Data, p: Place, s: Slot, bytes: seq<uint8>, e: uint32, s': Slot)
    requires InOrder(v) && Source(v, p, s, bytes) && e in v.dirs && FindFree(SlotsAt(v.t, v.data, e)) >= 0
    requires OneSlotChanged(v.t, v.data, data', e, FindFree(SlotsAt(v.t, v.data, e)), s')
    requires !IsEnd(s') && Find(SlotsAt(v.t, v.data, e), Key(s'), true) < 0
    ensures Source(v.(data := data'), p, s, bytes) && (p.d, p.i) != (e, FindFree(SlotsAt(v.t, v.data, e)))
  {
    hide InOrder, OneSlotChanged, Find, FindFree, DirSlots, PathDir, Stored, Key, KeepsPaths, FilePart, Answers;
    FileContentKept(v, data', p, s, bytes, e, FindFree(SlotsAt(v.t, v.data, e)), s');
    PlaceSound(v);
    InsertKeepsPaths(v.t, v.data, data', v.dirs, e, s');
    if p.d == e {
      InsertAnswers(SlotsAt(v.t, v.data, e), FilePart(Take(p.path, 255)), p.i, s');
    }
    PlaceKept(v, data', p, e, FindFree(SlotsAt(v.t, v.data, e)), s');
  }

  /** New fields in another file's entry leave the source in place. */
  lemma SourceUpdate(v: View, data': Data, p: Place, s: Slot, bytes: seq<uint8>, e: uint32, j: nat, size: uint32,
      first: uint32)
    requires InOrder(v) && Source(v, p, s, bytes) && e in v.dirs && j < |SlotsAt(v.t, v.data, e)|
        && (p.d, p.i) != (e, j)
    requires Live(SlotsAt(v.t, v.data, e)[j]) && !HasDir(SlotsAt(v.t, v.data, e)[j])
    requires OneSlotChanged(v.t, v.data, data', e, j, UpdateSlot(SlotsAt(v.t, v.data, e)[j], size, first))
    ensures Source(v.(data := data'), p, s, bytes)
  {
    hide InOrder, OneSlotChanged, Find, DirSlots, PathDir, Stored, KeepsPaths, FilePart, Answers, UpdateSlot, HasDir,
         Live;
    var s' := UpdateSlot(SlotsAt(v.t, v.data, e)[j], size, first);
    FileContentKept(v, data', p, s, bytes, e, j, s');
    PlaceSound(v);
    UpdateKeepsPaths(v.t, v.data, data', v.dirs, e, j, size, first);
    if p.d == e {
      UpdateAnswers(SlotsAt(v.t, v.data, e), FilePart(Take(p.path, 255)), p.i, j, size, first);
    }
    PlaceKept(v, data', p, e, j, s');
  }

  /** A write to another file leaves the source in place. */
  lemma SourceKept(v: View, t': Table, data': Data, heads': set<uint32>, p: Place, s: Slot, bytes: seq<uint8>)
    requires InOrder(v) && Source(v, p, s, bytes)
    requires forall e | e in v.dirs :: SlotsAt(t', data', e) == SlotsAt(v.t, v.data, e)
    requires FirstCluster(s) != 0 ==>
               var ch := ChainOf(v.t, FirstCluster(s));
               ChainOf(t', FirstCluster(s)) == ch && Content(data', ch) == Content(v.data, ch)
    ensures Source(v.(t := t', data := data', heads := heads'), p, s, bytes)
  {
    hide Find, DirSlots, PathDir, SoundFiles, SoundDirs, Held, Content, Closed, Leads, FirstCluster, Live, HasDir;
    SourceFile(v, p, s, bytes);
    PlaceSound(v);
    SameSlotsLeads(v.t, v.data, t', data', v.dirs, v.root, v.current, p.path, p.d, p.i);
  }

  // ----- The handles of a copy

  /** The entry of a new empty file. */
  ghost predicate Fresh(v: View, p: Place) {
    LeadsTo(v, p) && Stored(v.t, v.data, SlotAt(v, p), []) && FirstCluster(SlotAt(v, p)) == 0
  }

  const CHUNK := 512

  /** Clusters are made of whole chunks. */
  ghost predicate Chunked(b: nat) {
    b >= CHUNK && b % CHUNK == 0
  }

  /** The first cluster's worth of bytes. */
  function FirstPart(bytes: seq<uint8>, b: nat): (r: seq<uint8>)
    ensures r <= bytes && |r| == Min(|bytes|, b)
  {
    if |bytes| <= b then bytes else bytes[..b]
  }

  /** The `r` bytes that a chunk at position `n` is about: the position counts modulo the cluster. */
  ghost function Piece(bytes: seq<uint8>, b: nat, n: nat, r: int): seq<uint8> {
    if b > 0 && 0 <= r && n % b + r <= |bytes| then bytes[n % b..n % b + r] else []
  }

  /** A chunk boundary, or the end. */
  ghost predicate Between(bytes: seq<uint8>, n: nat) {
    n <= |bytes| && (n % CHUNK == 0 || n == |bytes|)
  }

  /** A chunk stays inside its cluster, and what follows it is a chunk boundary or the end. */
  lemma PieceFits(bytes: seq<uint8>, b: nat, n: nat, r: nat)
    requires Chunked(b) && Between(bytes, n) && n < |bytes| && r == Min(CHUNK, |bytes| - n)
    ensures n % b + r <= b && n % b + r <= |bytes| && n % b <= n && Between(bytes, n + r)
    ensures n < b ==> n % b == n && n + r <= b
    ensures |Piece(bytes, b, n, r)| == r
  {
    ChunkFits(n, b, CHUNK);
    FarOffset(b, n);
    MulMono(0, BlockOf(b, n), b);
    QuotientFits(n, b);
    if n < b {
      FirstBlockOf(b, n);
    }
  }

  /** A handle that has read up to position `n` in chunks, its cursor still on the first cluster. */
  ghost predicate Reading(s: Slot, h: Handle, bytes: seq<uint8>, n: nat) {
    && h.inUse && !h.dirty && h.position == n <= |bytes| && h.size == |bytes| && h.firstCluster == FirstCluster(s)
    && (bytes != [] ==> h.currentCluster == h.firstCluster)
  }

  /** A handle through which a new file was written up to position `n` in chunks, all of them into its one cluster. */
  ghost predicate Filling(v: View, p: Place, h: Handle, bytes: seq<uint8>, n: nat) {
    && LeadsTo(v, p) && Linked(v.t, v.data, v.dirs, v.heads, h) && h.parentCluster == p.d
        && SlotOf(v.t, v.data, h) == p.i
    && h.inUse && h.position == h.size == n <= |bytes| && h.dirty == (n > 0)
    && (n == 0 ==> h.firstCluster == 0 && Fresh(v, p))
    && (n > 0 ==>
          && h.firstCluster != 0 && h.currentCluster == h.firstCluster
              && ChainOf(v.t, h.firstCluster) == [h.firstCluster]
          && FirstPart(bytes[..n], v.b) <= Content(v.data, [h.firstCluster]))
  }

  /** A write that stays within the first cluster neither grows the chain nor stops short. */
  lemma WroteInBlock(b: nat, t: Table, data: Data, h: Handle, t': Table, data': Data, h': Handle,
                     input: seq<uint8>, ch: Chain, w: nat, m: nat)
    requires Wrote(b, t, data, h, t', data', h', input, ch, 0, w, m)
    requires |t| == |data| <= BAD_CLUSTER && b > 0 && h.position % b + |input| <= b
    requires if h.firstCluster == 0 then LeastFree(t) != 0 && h.position == 0
             else IsChain(t, ch) && ch == [h.firstCluster]
    requires forall c | 2 <= c < |data'| :: |data'[c]| == b
    ensures 0 < w == |input| && FinalChain(t, h.firstCluster, ch, m) == [h'.firstCluster]
        && IsChain(t', [h'.firstCluster])
    ensures h' == h.(firstCluster := h'.firstCluster, currentCluster := h'.firstCluster, position := h.position + w,
                     size := Max(h.size, h.position + w), dirty := h.dirty || h.firstCluster == 0
                         || h.position + w > h.size)
    ensures h'.firstCluster == (if h.firstCluster == 0 then LeastFree(t) else h.firstCluster) != 0
    ensures Written(data, data', [h'.firstCluster], h.position % b, input)
  {
    hide Content, FreeFrom, Grown, IsChain, Written, Free;
    var ch' := FinalChain(t, h.firstCluster, ch, m);
    OffsetInBlock(b, h.position);
    WriteRegrows(t, data, t', data', h.firstCluster, ch, m, h.position % b, input[..w]);
    LastBlockIs(b, h.position % b + w, 0);
    FinalChainLong(t, h.firstCluster, ch, m);
    ChainFacts(t', ch');
    assert ch' == [ch'[0]];
    ContentLength(data', ch', b);
    assert w == |input|;
    assert input[..w] == input;
  }

  lemma OffsetInBlock(b: nat, p: nat)
    requires b > 0
    ensures Offset(b, 0, p) == p % b
  {}

  /** The first write of a chunk extends what is known of the cluster, a later one over it changes nothing. */
  lemma PutPiece(was: seq<uint8>, b: nat, n: nat, bytes: seq<uint8>, k: nat)
    requires Chunked(b) && Between(bytes, n) && n < |bytes| && k == Min(CHUNK, |bytes| - n) && n % b + k <= |was|
    requires n > 0 ==> FirstPart(bytes[..n], b) <= was
    ensures FirstPart(bytes[..n + k], b) <= Put(was, n % b, Piece(bytes, b, n, k))
  {
    PieceFits(bytes, b, n, k);
    var q, now := n % b, Put(was, n % b, Piece(bytes, b, n, k));
    var before, after := FirstPart(bytes[..n], b), FirstPart(bytes[..n + k], b);
    forall i | 0 <= i < |after| ensures now[i] == after[i] {
      assert n > 0 && i < |before| ==> was[..|before|][i] == was[i] == bytes[i];
    }
    assert now[..|after|] == after;
  }

  lemma FillingChain(v: View, p: Place, h: Handle, bytes: seq<uint8>, n: nat)
    requires Filling(v, p, h, bytes, n)
    ensures h.inUse && h.position == n && (n == 0 ==> h.firstCluster == 0)
    ensures n > 0 ==>
              && IsChain(v.t, [h.firstCluster]) && h.firstCluster in v.heads && h.firstCluster != 0
              && h.currentCluster == h.firstCluster
  {
    hide Sound, IsChain, Content, Leads;
  }

  /** The bytes of the new file after one more chunk. */
  lemma FillContent(v: View, data': Data, p: Place, h: Handle, bytes: seq<uint8>, n: nat, k: nat, c: uint32)
    requires Filling(v, p, h, bytes, n) && (n > 0 ==> c == h.firstCluster)
    requires Chunked(v.b) && Between(bytes, n) && n < |bytes| && k == Min(CHUNK, |bytes| - n)
    requires Written(v.data, data', [c], n % v.b, Piece(bytes, v.b, n, k))
    ensures FirstPart(bytes[..n + k], v.b) <= Content(data', [c])
  {
    hide Content, LeadsTo, Linked, Put, Piece, FirstPart;
    PieceFits(bytes, v.b, n, k);
    PutPiece(Content(v.data, [c]), v.b, n, bytes, k);
  }

  /** One chunk of a copy arrives where it belongs modulo the cluster. */
  lemma FillStep(v: View, t': Table, data': Data, p: Place, h: Handle, h': Handle, bytes: seq<uint8>, n: nat, k: nat,
                 ch: Chain, w: nat, m: nat)
    requires InOrder(v) && Filling(v, p, h, bytes, n)
    requires Chunked(v.b) && Between(bytes, n) && n < |bytes| && k == Min(CHUNK, |bytes| - n)
    requires Wrote(v.b, v.t, v.data, h, t', data', h', Piece(bytes, v.b, n, k), ch, 0, w, m)
    requires if n == 0 then LeastFree(v.t) != 0 && ch == [] else ch == [h.firstCluster]
    requires forall c | 2 <= c < |data'| :: |data'[c]| == v.b
    ensures w == k
    ensures Filling(v.(t := t', data := data', heads := v.heads + {h'.firstCluster}), p, h', bytes, n + k)
  {
    hide Sound, IsChain, Content, Linked, Leads, Wrote, FreeFrom, Grown, Written, Closed, SoundDirs, DirSlots,
         FinalChain, InTree, Piece, FirstPart;
    SoundSize(v.t, v.data, v.dirs, v.heads);
    FillingChain(v, p, h, bytes, n);
    PieceFits(bytes, v.b, n, k);
    WroteInBlock(v.b, v.t, v.data, h, t', data', h', Piece(bytes, v.b, n, k), ch, w, m);
    WroteDirs(v.b, v.t, v.data, h, t', data', h', Piece(bytes, v.b, n, k), ch, 0, w, m, v.dirs, v.heads);
    WriteLinks(v.b, v.t, v.data, h, t', data', h', Piece(bytes, v.b, n, k), ch, 0, w, m, v.dirs, v.heads);
    PlaceSound(v);
    SameSlotsLeads(v.t, v.data, t', data', v.dirs, v.root, v.current, p.path, p.d, p.i);
    FillContent(v, data', p, h, bytes, n, k, h'.firstCluster);
    ChainOfIs(t', [h'.firstCluster]);
  }

  /** Meanwhile the source stays in place. */
  lemma FillKeepsSource(v: View, t': Table, data': Data, src: Place, s: Slot, p: Place, h: Handle, h': Handle,
                        bytes: seq<uint8>, n: nat, k: nat, ch: Chain, w: nat, m: nat)
    requires InOrder(v) && Filling(v, p, h, bytes, n) && Source(v, src, s, bytes) && (src.d, src.i) != (p.d, p.i)
    requires Wrote(v.b, v.t, v.data, h, t', data', h', Piece(bytes, v.b, n, k), ch, 0, w, m)
    requires if n == 0 then LeastFree(v.t) != 0 && ch == [] else ch == [h.firstCluster]
    ensures Source(v.(t := t', data := data', heads := v.heads + {h'.firstCluster}), src, s, bytes)
  {
    hide Sound, IsChain, Content, Leads, Wrote, FreeFrom, Stored, DirSlots, InTree, SoundDirs, Live, HasDir,
         FirstCluster, FileAt, FileHead, Piece;
    FillingChain(v, p, h, bytes, n);
    SourceFile(v, src, s, bytes);
    WroteDirs(v.b, v.t, v.data, h, t', data', h', Piece(bytes, v.b, n, k), ch, 0, w, m, v.dirs, v.heads);
    if FirstCluster(s) != 0 {
      assert FileHead(v.t, v.data, src.d, src.i) != h.firstCluster;
      WroteFrames(v.b, v.t, v.data, h, t', data', h', Piece(bytes, v.b, n, k), ch, 0, w, m, v.dirs, v.heads, src.d,
          src.i);
    }
    SourceKept(v, t', data', v.heads + {h'.firstCluster}, src, s, bytes);
  }

  // ----- The loop

  ghost function ViewOf(fs: FileSystem): View
    reads fs, fs.vol
  {
    View(fs.vol.table, fs.vol.data, fs.dirs, fs.heads, fs.vol.geo.rootCluster, fs.currentDirectory,
         fs.vol.geo.bytesPerCluster)
  }

  /** The buffer of a copy is its own. */
  ghost predicate Apart(fs: FileSystem, buf: array<uint8>) {
    buf.Length == CHUNK && buf != fs.files.buffer && buf != fs.vol.fatBuffer && buf != fs.dir.buffer
  }

  /** What a chunked read sees of the source's chain. */
  lemma ReadingChain(v: View, p: Place, s: Slot, h: Handle, bytes: seq<uint8>, n: nat)
    requires Source(v, p, s, bytes) && Reading(s, h, bytes, n) && bytes != []
    ensures var ch := ChainOf(v.t, FirstCluster(s));
      && IsChain(v.t, ch) && ch != [] && h.firstCluster == h.currentCluster == ch[0]
      && bytes <= Content(v.data, ch)
  {
    hide IsChain, Content, LeadsTo, Live, HasDir;
  }

  lemma WholeChunks(fs: FileSystem)
    requires fs.Valid()
    ensures Chunked(fs.vol.geo.bytesPerCluster)
  {
    hide Consistent, IsTableOf, Geometry.WellFormed, Sound, InTree, DistinctFiles;
    fs.vol.Facts();
    DivModUnique(fs.vol.geo.bytesPerCluster, CHUNK, fs.vol.geo.sectorsPerCluster, 0);
  }

  /** What a read delivers that wants all of a piece. */
  lemma PieceRead(out: seq<uint8>, s: seq<uint8>, bytes: seq<uint8>, b: nat, n: nat, r: nat)
    requires b > 0 && bytes <= s && n % b + r <= |bytes| && r <= |out|
    ensures Delivered(out, s, n % b, r)[..r] == Piece(bytes, b, n, r)
  {
    DeliveredPrefix(out, s, n % b, r);
    assert s[..|bytes|] == bytes;
    assert s[n % b..n % b + r] == bytes[n % b..n % b + r];
  }

  /** The buffer starts with the chunk of `r` bytes that follows the first `n`. */
  ghost predicate Fetched(buf: seq<uint8>, bytes: seq<uint8>, b: nat, n: nat, r: int) {
    && 0 <= r == Min(CHUNK, |bytes| - n) && Between(bytes, n + r)
    && (r > 0 ==> r <= |buf| && buf[..r] == Piece(bytes, b, n, r))
  }

  /** Reading the next chunk of the source. */
  method ReadChunk(fs: FileSystem, src: int, buf: array<uint8>, ghost p: Place, ghost s: Slot, ghost bytes: seq<uint8>,
      ghost n: nat)
    returns (r: int)
    requires fs.Valid() && Apart(fs, buf) && fs.files.IsOpen(src) && Between(bytes, n)
    requires Source(ViewOf(fs), p, s, bytes) && Reading(s, fs.files.files[src].State(), bytes, n)
    modifies fs.vol.Footprint(), fs.files.buffer, buf, fs.files.Slot(src)`position, fs.files.Slot(src)`currentCluster
    ensures fs.Valid() && ViewOf(fs) == old(ViewOf(fs))
    ensures Fetched(buf[..], bytes, fs.vol.geo.bytesPerCluster, n, r)
    ensures fs.files.IsOpen(src) && Reading(s, fs.files.files[src].State(), bytes, n + if r < 0 then 0 else r)
  {
    hide Consistent, IsTableOf, Geometry.WellFormed, DistinctFiles, Sound, Content, Delivered, IsChain, LastBlock,
         Offset, Source, InTree, Piece;
    ghost var v, h := ViewOf(fs), fs.files.files[src].State();
    ghost var b, ch, was := fs.vol.geo.bytesPerCluster, ChainOf(v.t, FirstCluster(s)), buf[..];
    WholeChunks(fs);
    if n < |bytes| {
      ReadingChain(v, p, s, h, bytes, n);
      PieceFits(bytes, b, n, Min(CHUNK, |bytes| - n));
      OffsetInBlock(b, n);
      LastBlockIs(b, n % b + Min(CHUNK, |bytes| - n), 0);
      PieceRead(was, Content(v.data, ch), bytes, b, n, Min(CHUNK, |bytes| - n));
    }
    r := fs.files.Read(src, buf, CHUNK, ch, 0);
  }

  lemma InOrderView(fs: FileSystem)
    requires fs.Valid()
    ensures InOrder(ViewOf(fs))
  {
    hide Sound;
  }

  /** Everything a copy relies on once `n` bytes are across. */
  ghost predicate Copying(fs: FileSystem, src: int, dst: int, p: Place, s: Slot, q: Place, bytes: seq<uint8>, n: nat)
    reads fs, fs.vol, fs.vol.fatBuffer, fs.vol.dev, fs.files.Slot(src), fs.files.Slot(dst)
  {
    && fs.Valid() && src != dst && fs.files.IsOpen(src) && fs.files.IsOpen(dst)
    && Between(bytes, n) && (p.d, p.i) != (q.d, q.i)
    && Source(ViewOf(fs), p, s, bytes) && Reading(s, fs.files.files[src].State(), bytes, n)
    && Filling(ViewOf(fs), q, fs.files.files[dst].State(), bytes, n)
  }

  /** Writing a chunk: it arrives whole, or no cluster is free for the first one. */
  method WriteChunk(fs: FileSystem, src: int, dst: int, buf: array<uint8>, k: uint32,
                    ghost p: Place, ghost s: Slot, ghost q: Place, ghost bytes: seq<uint8>, ghost n: nat)
    returns (w: int)
    requires fs.Valid() && Apart(fs, buf) && src != dst && fs.files.IsOpen(src) && fs.files.IsOpen(dst)
    requires Between(bytes, n) && n < |bytes| && k == Min(CHUNK, |bytes| - n) && (p.d, p.i) != (q.d, q.i)
    requires buf[..k] == Piece(bytes, fs.vol.geo.bytesPerCluster, n, k)
    requires Source(ViewOf(fs), p, s, bytes) && Reading(s, fs.files.files[src].State(), bytes, n + k)
    requires Filling(ViewOf(fs), q, fs.files.files[dst].State(), bytes, n)
    modifies fs.vol.Footprint(), fs.files.buffer, fs.files.Slot(dst), fs`heads
    ensures w > 0 ==> w == k && Copying(fs, src, dst, p, s, q, bytes, n + k)
    ensures w > 0 && n == 0 ==> LeastFree(old(fs.vol.table)) != 0
    ensures w <= 0 ==>
              && fs.Valid() && ViewOf(fs) == old(ViewOf(fs))
                  && fs.files.files[dst].State() == old(fs.files.files[dst].State())
              && n == 0 && LeastFree(fs.vol.table) == 0
  {
    hide Consistent, IsTableOf, Geometry.WellFormed, DistinctFiles, Sound, IsChain, Source, FreeFrom, Wrote, InTree,
         InOrder, Filling, Linked, Piece;
    ghost var v, h := ViewOf(fs), fs.files.files[dst].State();
    ghost var ch := if n == 0 then [] else [h.firstCluster];
    fs.vol.Facts();
    WholeChunks(fs);
    PieceFits(bytes, v.b, n, k);
    InOrderView(fs);
    FillingChain(v, q, h, bytes, n);
    ghost var m;
    w, m := fs.Write(dst, buf, k, ch, 0);
    if w > 0 {
      fs.vol.Facts();
      FillStep(v, fs.vol.table, fs.vol.data, q, h, fs.files.files[dst].State(), bytes, n, k,
          ch, w, m);
      FillKeepsSource(v, fs.vol.table, fs.vol.data, p, s, q, h, fs.files.files[dst].State(),
          bytes, n, k, ch, w, m);
    }
  }

  lemma HandlesDiffer(fs: FileSystem, i: int, j: int)
    requires fs.Valid() && fs.files.IsOpen(i) && fs.files.IsOpen(j) && i != j
    ensures fs.files.files[i] != fs.files.files[j] && |fs.files.files| == MAX_OPEN_FILES
  {
    hide Consistent, IsTableOf, Sound, InTree;
    fs.files.SlotsDiffer(i, j);
  }

  lemma ReadingFacts(s: Slot, h: Handle, bytes: seq<uint8>, n: nat)
    requires Reading(s, h, bytes, n)
    ensures h.inUse && !h.dirty && h.firstCluster == FirstCluster(s) && n <= |bytes|
  {}

  /** The loop of `fat32_copy`. It fails only when the first chunk finds no free cluster. */
  method CopyLoop(fs: FileSystem, src: int, dst: int, buf: array<uint8>, ghost p: Place, ghost s: Slot, ghost q: Place,
      ghost bytes: seq<uint8>)
    returns (ok: bool)
    requires Copying(fs, src, dst, p, s, q, bytes, 0) && Apart(fs, buf)
    modifies fs.vol.Footprint(), fs.files.buffer, fs.files.Slot(src)`position, fs.files.Slot(src)`currentCluster,
        fs.files.Slot(dst), buf, fs`heads
    ensures ok ==> Copying(fs, src, dst, p, s, q, bytes, |bytes|)
    ensures ok ==> bytes == [] || LeastFree(old(fs.vol.table)) != 0
    ensures !ok ==>
              && fs.Valid() && ViewOf(fs) == old(ViewOf(fs)) && LeastFree(fs.vol.table) == 0 && bytes != []
              && fs.files.IsOpen(src) && fs.files.IsOpen(dst) && !fs.files.files[src].dirty
              && Source(ViewOf(fs), p, s, bytes) && Filling(ViewOf(fs), q, fs.files.files[dst].State(), bytes, 0)
              && fs.files.files[src].State().firstCluster == FirstCluster(s)
  {
    hide Consistent, IsTableOf, Geometry.WellFormed, DistinctFiles, Sound, Source, FreeFrom, InTree, Filling, InOrder,
         Reading, FileSystem.Valid, Piece;
    ghost var n := 0;
    HandlesDiffer(fs, src, dst);
    EightFiles(fs);
    var r := ReadChunk(fs, src, buf, p, s, bytes, 0);
    ReadingFacts(s, fs.files.files[src].State(), bytes, r);
    while r > 0
      invariant Between(bytes, n) && 0 <= r == Min(CHUNK, |bytes| - n) && Between(bytes, n + r)
      invariant r > 0 ==> buf[..r] == Piece(bytes, fs.vol.geo.bytesPerCluster, n, r)
      invariant fs.Valid() && fs.files.IsOpen(src) && fs.files.IsOpen(dst)
      invariant Source(ViewOf(fs), p, s, bytes) && Reading(s, fs.files.files[src].State(), bytes, n + r)
      invariant Filling(ViewOf(fs), q, fs.files.files[dst].State(), bytes, n)
      invariant n == 0 ==> ViewOf(fs) == old(ViewOf(fs))
      invariant n > 0 ==> LeastFree(old(fs.vol.table)) != 0
      decreases |bytes| - n
    {
      var w := WriteChunk(fs, src, dst, buf, r, p, s, q, bytes, n);
      ReadingFacts(s, fs.files.files[src].State(), bytes, n + r);
      if w != r {
        return false;
      }
      n := n + r;
      r := ReadChunk(fs, src, buf, p, s, bytes, n);
    }
    return true;
  }

  // ----- Closing both files

  /** Giving up the source's handle leaves the new file's handle tied. */
  lemma FillingAlone(v: View, heads': set<uint32>, p: Place, s: Slot, q: Place, h: Handle, bytes: seq<uint8>, n: nat)
    requires Source(v, p, s, bytes) && Filling(v, q, h, bytes, n) && (p.d, p.i) != (q.d, q.i)
    requires heads' == v.heads - Heads(FirstCluster(s))
    ensures Filling(v.(heads := heads'), q, h, bytes, n)
  {
    hide Leads, Content, DirSlots, Find, FirstCluster, Linked, Stored, Source;
    OwnChain(v, p, s, q, h, bytes);
    LinkedAlone(v.t, v.data, v.dirs, v.heads, FirstCluster(s), h);
  }

  /** The new file's chain is not the source's. */
  lemma OwnChain(v: View, p: Place, s: Slot, q: Place, h: Handle, bytes: seq<uint8>)
    requires Source(v, p, s, bytes) && Linked(v.t, v.data, v.dirs, v.heads, h)
    requires h.parentCluster == q.d && SlotOf(v.t, v.data, h) == q.i && (p.d, p.i) != (q.d, q.i)
    ensures h.firstCluster != 0 ==> h.firstCluster != FirstCluster(s)
  {
    hide Leads, Content, DirSlots, Find, FirstCluster, FileAt, FileHead, HasDir, Live, Stored;
    SourceFile(v, p, s, bytes);
  }

  lemma LinkedAlone(t: Table, data: Data, dirs: set<uint32>, heads: set<uint32>, c: uint32, h: Handle)
    requires Linked(t, data, dirs, heads, h) && (h.firstCluster != 0 ==> h.firstCluster != c)
    ensures Linked(t, data, dirs, heads - Heads(c), h)
  {
    hide DirSlots, Find, FileAt, FileHead, HasDir, FirstCluster;
  }

  /** The entry of a copy: the source's size, but at most one cluster, with the first cluster's worth of bytes. */
  ghost predicate Copied(t: Table, data: Data, s: Slot, bytes: seq<uint8>, b: nat) {
    && Live(s) && !HasDir(s) && Slots.Size(s) == |bytes|
    && (bytes != [] ==>
          && ChainOf(t, FirstCluster(s)) == [FirstCluster(s)]
          && FirstPart(bytes, b) <= Content(data, [FirstCluster(s)]))
  }

  /** A copy holds the source's bytes exactly when they fit one cluster. */
  lemma CopiedExact(t: Table, data: Data, s: Slot, bytes: seq<uint8>, b: nat)
    requires Copied(t, data, s, bytes, b) && b > 0 && forall c | 2 <= c < |data| :: |data[c]| == b
    requires |t| == |data|
    ensures Stored(t, data, s, bytes) <==> |bytes| <= b
  {
    hide FirstCluster, Live, HasDir, IsChain;
    if bytes != [] {
      ChainFacts(t, [FirstCluster(s)]);
      ContentLength(data, [FirstCluster(s)], b);
      assert bytes[..|bytes|] == bytes;
    }
  }

  /** Closing the new file's handle makes its entry describe the copy and keeps the source. */
  lemma FillingCloses(v: View, data': Data, p: Place, s: Slot, q: Place, h: Handle, bytes: seq<uint8>)
    requires InOrder(v) && Source(v, p, s, bytes) && Filling(v, q, h, bytes, |bytes|) && (p.d, p.i) != (q.d, q.i)
    requires Recorded(v.t, v.data, data', h)
    ensures Source(v.(data := data'), p, s, bytes)
    ensures var v' := v.(data := data'); LeadsTo(v', q) && Copied(v.t, data', SlotAt(v', q), bytes, v.b)
  {
    hide Sound, SoundDirs, Closed, Leads, Content, DirSlots, Find, HasDir, Live, Source, Stored, UpdateSlot, InTree,
         Linked, OneSlotChanged, FirstPart;
    if bytes == [] {
      NothingRecorded(v.t, v.data, data', h);
      assert v.(data := data') == v;
      FreshCopied(v, q);
    } else {
      LinkedIn(v.t, v.data, v.dirs, v.heads, h);
      LinkedLive(v.t, v.data, v.dirs, v.heads, h);
      PlaceSound(v);
      assert bytes[..|bytes|] == bytes;
      CloseLeads(v.t, v.data, data', v.dirs, v.heads, v.root, v.current, q.path, q.d, q.i, h);
      CloseCopied(v.t, v.data, data', v.dirs, v.heads, h, bytes, v.b);
      SourceUpdate(v, data', p, s, bytes, q.d, q.i, h.size, h.firstCluster);
    }
  }

  lemma FreshCopied(v: View, q: Place)
    requires Fresh(v, q)
    ensures Copied(v.t, v.data, SlotAt(v, q), [], v.b)
  {
    hide LeadsTo, Content, FirstCluster;
  }

  lemma CloseCopied(t: Table, data: Data, data': Data, dirs: set<uint32>, heads: set<uint32>, h: Handle,
      bytes: seq<uint8>, b: nat)
    requires Sound(t, data, dirs, heads) && Linked(t, data, dirs, heads, h) && h.dirty && Recorded(t, data, data', h)
    requires h.firstCluster != 0 && h.size == |bytes| && ChainOf(t, h.firstCluster) == [h.firstCluster]
    requires FirstPart(bytes, b) <= Content(data, [h.firstCluster])
    ensures Copied(t, data', UpdateSlot(SlotsAt(t, data, h.parentCluster)[SlotOf(t, data, h)], h.size, h.firstCluster),
        bytes, b)
  {
    hide DirSlots, Find, SoundDirs, SoundFiles, Key, UpdateSlot, Content, InfoOf, Live, HasDir, UpperAll,
         Soundness.Held, Disjoint, FirstPart;
    var d, i := h.parentCluster, SlotOf(t, data, h);
    var s := SlotsAt(t, data, d)[i];
    LinkedLive(t, data, dirs, heads, h);
    UpdatedSlot(s, h.size, h.firstCluster);
    UpdateSlotFields(s, h.size, h.firstCluster);
    HeldContent(t, data, data', dirs, heads, d, i, UpdateSlot(s, h.size, h.firstCluster), h.firstCluster);
  }

  /** The two closes at the end of a copy. */
  method FinishCopy(fs: FileSystem, src: int, dst: int, ghost p: Place, ghost s: Slot, ghost q: Place,
      ghost bytes: seq<uint8>)
    requires Copying(fs, src, dst, p, s, q, bytes, |bytes|)
    modifies fs.vol.Footprint(), fs.dir.buffer, fs.files.Slot(src)`inUse, fs.files.Slot(dst)`inUse, fs`heads
    ensures fs.Valid() && !fs.files.IsOpen(src) && !fs.files.IsOpen(dst)
    ensures Source(ViewOf(fs), p, s, bytes)
    ensures LeadsTo(ViewOf(fs), q)
    ensures Copied(fs.vol.table, fs.vol.data, SlotAt(ViewOf(fs), q), bytes, fs.vol.geo.bytesPerCluster)
  {
    hide Consistent, IsTableOf, Geometry.WellFormed, DistinctFiles, Sound, Source, InTree, Filling, InOrder, Reading,
         LeadsTo, Stored, Linked, Recorded, FileSystem.Valid, Heads, Copied;
    HandlesDiffer(fs, src, dst);
    ghost var v, hs := ViewOf(fs), fs.files.files[src].State();
    ReadingFacts(s, hs, bytes, |bytes|);
    fs.Close(src);
    NothingRecorded(fs.vol.table, v.data, fs.vol.data, hs);
    ghost var v1, hd := ViewOf(fs), fs.files.files[dst].State();
    FillingAlone(v, fs.heads, p, s, q, hd, bytes, |bytes|);
    SourceHeads(v, fs.heads, p, s, bytes);
    InOrderView(fs);
    FillingLinked(v1, q, hd, bytes, |bytes|);
    fs.Close(dst);
    FillingCloses(v1, fs.vol.data, p, s, q, hd, bytes);
    SourceHeads(v1.(data := fs.vol.data), fs.heads, p, s, bytes);
    LeadsHeads(v1.(data := fs.vol.data), fs.heads, q);
  }

  lemma SourceHeads(v: View, heads': set<uint32>, p: Place, s: Slot, bytes: seq<uint8>)
    requires Source(v, p, s, bytes)
    ensures Source(v.(heads := heads'), p, s, bytes)
  {
    hide Leads, Stored, DirSlots;
  }

  lemma LeadsHeads(v: View, heads': set<uint32>, p: Place)
    requires LeadsTo(v, p)
    ensures LeadsTo(v.(heads := heads'), p) && SlotAt(v.(heads := heads'), p) == SlotAt(v, p)
  {
    hide Leads, DirSlots;
  }

  lemma FillingLinked(v: View, p: Place, h: Handle, bytes: seq<uint8>, n: nat)
    requires Filling(v, p, h, bytes, n)
    ensures Linked(v.t, v.data, v.dirs, v.heads, h)
  {}

  // ----- Opening both files

  /**
   * A path that names a file with these bytes that nobody else has open, or no file at all.
   */
  ghost predicate Copyable(fs: FileSystem, path: seq<uint8>, bytes: seq<uint8>)
    reads fs, fs.vol
  {
    NamesFile(fs, path) ==>
      StoredAt(fs, path, bytes) && FirstCluster(fs.Entry(path)) !in fs.heads
  }

  ghost predicate NamesFile(fs: FileSystem, path: seq<uint8>)
    reads fs, fs.vol
  {
    fs.Lookup(path) >= 0 && !HasDir(fs.Entry(path))
  }

  ghost function PlaceOf(fs: FileSystem, path: seq<uint8>): Place
    reads fs, fs.vol
  {
    Place(path, fs.TargetDir(path), if fs.Lookup(path) < 0 then 0 else fs.Lookup(path))
  }

  /** A stored file is the source of a copy, and a handle just opened on it has read nothing yet. */
  lemma StoredSource(fs: FileSystem, path: seq<uint8>, bytes: seq<uint8>)
    requires fs.Valid() && StoredAt(fs, path, bytes)
    ensures var v, p, s := ViewOf(fs), PlaceOf(fs, path), fs.Entry(path);
      Source(v, p, s, bytes) && Reading(s, OpenedOn(p.d, fs.LastName(path), InfoOf(s)), bytes, 0)
  {
    hide Sound, Stored, Leads, DirSlots, Find, OpenedOn, IsChain, Content, PathDir, Consistent, IsTableOf, InTree,
         HasDir;
    StoredLeads(fs, path, bytes);
    LeadsNames(fs, path, fs.TargetDir(path), fs.Lookup(path));
    StoredHandle(fs.vol.table, fs.vol.data, fs.Entry(path), fs.TargetDir(path), fs.LastName(path), bytes);
    OpenedHead(fs.TargetDir(path), fs.LastName(path), InfoOf(fs.Entry(path)));
  }

  lemma OpenedHead(d: uint32, name: seq<uint8>, i: Info)
    ensures var h := OpenedOn(d, name, i);
      h.firstCluster == h.currentCluster == i.firstCluster && h.inUse && !h.dirty && h.position == 0 && h.size == i.size
      && h.parentCluster == d
  {}

  ghost predicate OneFree(hs: seq<Handle>) {
    exists h :: h in hs && !h.inUse
  }

  /** One more handle is in use. */
  ghost predicate Taken(was: seq<Handle>, now: seq<Handle>, fd: int) {
    0 <= fd < |was| == |now| && !was[fd].inUse && now[fd].inUse && now == was[fd := now[fd]]
  }

  /** A handle at the start of the source. */
  ghost predicate Opened(fs: FileSystem, src: int, p: Place, s: Slot, bytes: seq<uint8>)
    reads fs, fs.vol, fs.files.Slot(src)
  {
    fs.files.IsOpen(src) && Source(ViewOf(fs), p, s, bytes) && Reading(s, fs.files.files[src].State(), bytes, 0)
  }

  /** Opening the source of a copy. */
  method OpenSource(fs: FileSystem, path: seq<uint8>, ghost bytes: seq<uint8>) returns (src: int)
    requires fs.Valid() && 0 !in path && Copyable(fs, path, bytes)
    modifies fs.vol.Footprint(), fs.dir.buffer, fs`heads, set f: OpenFile | f in fs.files.files
    ensures fs.Valid() && fs.vol.table == old(fs.vol.table) && fs.vol.data == old(fs.vol.data)
    ensures src >= 0 <==> old(NamesFile(fs, path)) && OneFree(old(fs.files.States()))
    ensures src >= 0 ==> Taken(old(fs.files.States()), fs.files.States(), src) && !old(fs.files.IsOpen(src))
    ensures fs.files.UseBut(src)
    ensures src >= 0 ==> Opened(fs, src, old(PlaceOf(fs, path)), old(fs.Entry(path)), bytes)
  {
    hide Consistent, IsTableOf, Geometry.WellFormed, DistinctFiles, Sound, HasDir, OpenedOn, InTree, Linked,
         FileTable.States, Source, Reading, StoredAt, InfoOf, FirstCluster, FileSystem.LastName, FileSystem.Valid,
         FileSystem.Lookup, FileSystem.Entry, FileSystem.TargetDir;
    ghost var v, p, s := ViewOf(fs), PlaceOf(fs, path), fs.Entry(path);
    if NamesFile(fs, path) {
      StoredSource(fs, path, bytes);
    }
    src := fs.Open(path);
    EightFiles(fs);
    fs.files.OneFilled(src);
    if src >= 0 {
      assert fs.files.States()[src] == OpenedOn(p.d, fs.LastName(path), InfoOf(s));
      fs.files.StateAt(src);
      OpenedHead(p.d, fs.LastName(path), InfoOf(s));
      assert ViewOf(fs) == v.(heads := fs.heads);
      InfoHead(s);
      SourceHeads(v, fs.heads, p, s, bytes);
    }
  }

  lemma InfoHead(s: Slot)
    ensures InfoOf(s).firstCluster == FirstCluster(s)
  {}

  lemma EightFiles(fs: FileSystem)
    requires fs.Valid()
    ensures |fs.files.files| == MAX_OPEN_FILES && |fs.vol.table| <= BAD_CLUSTER
  {
    hide Consistent, IsTableOf, Geometry.WellFormed, Sound, InTree, DistinctFiles;
    fs.vol.Facts();
  }

  /** A path under which a file may be created: its name is storable and not shared with a volume label. */
  ghost predicate Nameable(t: Table, data: Data, root: uint32, current: uint32, path: seq<uint8>) {
    var name, d := FilePart(Take(path, 255)), PathDir(t, data, root, current, Take(path, 255));
    && 0 !in path && Storable(name)
    && (d >= 0 && Find(SlotsAt(t, data, d), UpperAll(name), true) < 0
        ==> Find(SlotsAt(t, data, d), UpperAll(name), false) < 0)
  }

  /** The path leads to a directory that lacks the name and has room for it. */
  ghost predicate CanCreate(t: Table, data: Data, root: uint32, current: uint32, path: seq<uint8>) {
    var name, d := FilePart(Take(path, 255)), PathDir(t, data, root, current, Take(path, 255));
    d >= 0 && Find(SlotsAt(t, data, d), UpperAll(name), true) < 0 && FindFree(SlotsAt(t, data, d)) >= 0
  }

  /** A new entry is fresh, and the source stays in place. */
  lemma TargetCreated(v: View, data': Data, p: Place, s: Slot, bytes: seq<uint8>, path: seq<uint8>, e: uint32)
    requires InOrder(v) && Source(v, p, s, bytes) && e in v.dirs
        && PathDir(v.t, v.data, v.root, v.current, Take(path, 255)) == e
    requires var name, slots := FilePart(Take(path, 255)), SlotsAt(v.t, v.data, e);
      && Storable(name) && Find(slots, UpperAll(name), true) < 0 && Find(slots, UpperAll(name), false) < 0
      && FindFree(slots) >= 0 && OneSlotChanged(v.t, v.data, data', e, FindFree(slots),
          MakeSlot(name, ATTR_ARCHIVE, 0, 0))
    ensures var v', q := v.(data := data'), Place(path, e, FindFree(SlotsAt(v.t, v.data, e)));
      Source(v', p, s, bytes) && Fresh(v', q) && (p.d, p.i) != (q.d, q.i)
  {
    hide Sound, Find, FindFree, DirSlots, PathDir, MakeSlot, Stored, Leads, Key, Closed, SoundDirs, OneSlotChanged,
         Source, UpperAll, FilePart, FirstCluster, Storable;
    var name, q := FilePart(Take(path, 255)), Place(path, e, FindFree(SlotsAt(v.t, v.data, e)));
    PlaceSound(v);
    MadeSlotLive(name, ATTR_ARCHIVE, 0, 0);
    SourceInsert(v, data', p, s, bytes, e, MakeSlot(name, ATTR_ARCHIVE, 0, 0));
    CreateLeads(v.t, v.data, data', v.dirs, v.heads, v.root, v.current, path, e);
    LeadsInside(v.t, data', v.root, v.current, path, e, q.i);
    NewStored(v.t, data', name, e);
    MakeSlotFields(name, ATTR_ARCHIVE, 0, 0);
  }

  lemma LeadsInside(t: Table, data: Data, root: uint32, current: uint32, path: seq<uint8>, d: uint32, i: int)
    requires Leads(t, data, root, current, path, d, i)
    ensures 0 <= i < |SlotsAt(t, data, d)|
  {}

  /** What the directory at `d` stands for. */
  ghost function NamesAt(t: Table, data: Data, d: uint32): map<seq<uint8>, Info> {
    DirMap(SlotsAt(t, data, d))
  }

  lemma NoSlots()
    ensures WellFormed([])
  {}

  /** The slots of a directory of a sound volume, or of directory 0. */
  lemma TreeFormed(t: Table, data: Data, dirs: set<uint32>, heads: set<uint32>, d: uint32)
    requires Sound(t, data, dirs, heads) && InTree(dirs, d)
    ensures WellFormed(SlotsAt(t, data, d))
  {
    hide WellFormed, SlotsAt;
    EmptyDirectory(t, data);
    NoSlots();
    if d != 0 {
      WellFormedAt(t, data, dirs, d);
    }
  }

  lemma TargetFormed(fs: FileSystem, path: seq<uint8>)
    requires fs.Valid() && fs.Target(path) >= 0
    ensures fs.TargetSlots(path) == SlotsAt(fs.vol.table, fs.vol.data, fs.TargetDir(path))
    ensures WellFormed(fs.TargetSlots(path))
  {
    hide Consistent, IsTableOf, Geometry.WellFormed, DistinctFiles, PathDir, Sound, WellFormed, SlotsAt, InTree;
    fs.TargetInTree(path);
    TreeFormed(fs.vol.table, fs.vol.data, fs.dirs, fs.heads, fs.TargetDir(path));
  }

  /** A name put into the target directory and taken out again leaves it as it was. */
  lemma NameComesAndGoes(fs: FileSystem, path: seq<uint8>, i: Info)
    requires fs.Valid() && fs.Target(path) >= 0 && fs.Lookup(path) < 0
    ensures var m, key := NamesAt(fs.vol.table, fs.vol.data, fs.TargetDir(path)), UpperAll(fs.LastName(path));
      m == DirMap(fs.TargetSlots(path)) && m[key := i] - {key} == m
  {
    hide FileSystem.Valid, FileSystem.Target, FileSystem.TargetSlots, FileSystem.TargetDir, FileSystem.LastName, Find,
         DirMap, UpperAll, WellFormed, SlotsAt;
    TargetFormed(fs, path);
    LookupIsMap(fs.TargetSlots(path), UpperAll(fs.LastName(path)));
  }

  /** Creating the target of a copy. */
  method CreateTarget(fs: FileSystem, path: seq<uint8>, ghost p: Place, ghost s: Slot, ghost bytes: seq<uint8>)
    returns (ok: bool, ghost q: Place)
    requires fs.Valid() && Source(ViewOf(fs), p, s, bytes)
    requires Nameable(fs.vol.table, fs.vol.data, fs.vol.geo.rootCluster, fs.currentDirectory, path)
    modifies fs.vol.Footprint(), fs.dir.buffer
    ensures fs.Valid() && fs.vol.table == old(fs.vol.table)
    ensures ok == CanCreate(old(fs.vol.table), old(fs.vol.data), fs.vol.geo.rootCluster, fs.currentDirectory, path)
    ensures !ok ==> fs.vol.data == old(fs.vol.data)
    ensures ok ==> Source(ViewOf(fs), p, s, bytes) && Fresh(ViewOf(fs), q) && q.path == path && (p.d, p.i) != (q.d, q.i)
    ensures ok ==> q.d == old(fs.TargetDir(path))
    ensures ok ==> NamesAt(fs.vol.table, fs.vol.data, q.d) - {UpperAll(fs.LastName(path))}
                   == old(NamesAt(fs.vol.table, fs.vol.data, fs.TargetDir(path)))
  {
    hide Consistent, IsTableOf, Geometry.WellFormed, DistinctFiles, Sound, Find, FindFree, DirSlots, PathDir, MakeSlot,
         OneSlotChanged, UpperAll, Storable, Source, Fresh, InOrder, InTree, DirMap;
    ghost var v := ViewOf(fs);
    InOrderView(fs);
    fs.TargetInTree(path);
    if fs.Target(path) >= 0 && fs.Lookup(path) < 0 {
      NameComesAndGoes(fs, path, Info(UpperAll(fs.LastName(path)), 0x20, 0, 0));
    }
    q := Place(path, fs.TargetDir(path), if FindFree(fs.TargetSlots(path)) < 0 then 0
        else FindFree(fs.TargetSlots(path)));
    ok := fs.CreateFile(path);
    if ok {
      TargetCreated(v, fs.vol.data, p, s, bytes, path, q.d);
    }
  }

  /** What the operations by path see of a fresh entry. */
  lemma FreshNames(fs: FileSystem, q: Place)
    requires fs.Valid() && Fresh(ViewOf(fs), q)
    ensures fs.Lookup(q.path) >= 0 && fs.Plain(q.path) && !HasDir(fs.Entry(q.path)) && fs.Deletable(q.path)
    ensures FirstCluster(fs.Entry(q.path)) == 0
    ensures var h := OpenedOn(fs.TargetDir(q.path), fs.LastName(q.path), InfoOf(fs.Entry(q.path)));
      && h.inUse && !h.dirty && h.position == h.size == h.firstCluster == 0
      && h.parentCluster == q.d && SlotOf(fs.vol.table, fs.vol.data, h) == q.i
  {
    hide Sound, Leads, DirSlots, Find, OpenedOn, Content, PathDir, Consistent, IsTableOf, InTree, FirstCluster,
         FileSystem.Lookup, FileSystem.Plain, FileSystem.Entry, FileSystem.TargetDir;
    LeadsNames(fs, q.path, q.d, q.i);
    OpenedHead(fs.TargetDir(q.path), fs.LastName(q.path), InfoOf(fs.Entry(q.path)));
    InfoHead(fs.Entry(q.path));
    NoneAtZero(fs.vol.table, fs.vol.data, fs.dirs, fs.heads);
  }

  lemma FreshTarget(fs: FileSystem, q: Place)
    requires fs.Valid() && Fresh(ViewOf(fs), q)
    ensures fs.TargetDir(q.path) == q.d && fs.TargetSlots(q.path) == SlotsAt(fs.vol.table, fs.vol.data, q.d)
  {
    hide Sound, Leads, DirSlots, Find, PathDir, Consistent, IsTableOf, InTree;
    LeadsNames(fs, q.path, q.d, q.i);
  }

  lemma NoneAtZero(t: Table, data: Data, dirs: set<uint32>, heads: set<uint32>)
    requires Sound(t, data, dirs, heads)
    ensures 0 !in heads
  {
    hide SoundDirs, SoundFiles;
    NoChainAtZero(t);
  }

  lemma NoChainAtZero(t: Table)
    ensures ChainOf(t, 0) == []
  {}

  /** Opening a file that has no clusters yet. */
  method OpenFresh(fs: FileSystem, path: seq<uint8>, ghost q: Place, ghost bytes: seq<uint8>) returns (dst: int)
    requires fs.Valid() && 0 !in path && q.path == path && Fresh(ViewOf(fs), q)
    modifies fs.vol.Footprint(), fs.dir.buffer, fs`heads, set f: OpenFile | f in fs.files.files
    ensures fs.Valid() && ViewOf(fs) == old(ViewOf(fs)) && -1 <= dst < |fs.files.files|
    ensures dst < 0 ==> fs.files.States() == old(fs.files.States())
    ensures dst >= 0 ==>
              && !old(fs.files.States())[dst].inUse && fs.files.States()[dst].inUse
              && fs.files.States() == old(fs.files.States())[dst := fs.files.States()[dst]]
              && Filling(ViewOf(fs), q, fs.files.States()[dst], bytes, 0)
    ensures dst >= 0 <==> OneFree(old(fs.files.States()))
    ensures fs.files.UseBut(dst) && (dst >= 0 ==> !old(fs.files.IsOpen(dst)))
  {
    hide Consistent, IsTableOf, Geometry.WellFormed, DistinctFiles, Sound, HasDir, OpenedOn, InTree, Linked,
         FileTable.States, Fresh, InfoOf, FirstCluster, Filling, Heads, FileSystem.LastName, FileSystem.Valid,
         FileSystem.Lookup, FileSystem.Plain, FileSystem.Entry, FileSystem.TargetDir;
    ghost var v, heads, first := ViewOf(fs), fs.heads, InfoOf(fs.Entry(path)).firstCluster;
    EightFiles(fs);
    FreshNames(fs, q);
    InfoHead(fs.Entry(path));
    NoHead(heads, first);
    dst := fs.Open(path);
    fs.files.OneFilled(dst);
    assert fs.heads == heads;
    if dst >= 0 {
      FillingStart(v, q, fs.files.States()[dst], bytes);
    }
  }

  /** Opening the target of a copy. */
  method OpenTarget(fs: FileSystem, ghost src: int, ghost p: Place, ghost s: Slot, path: seq<uint8>, ghost q: Place,
      ghost bytes: seq<uint8>)
    returns (dst: int)
    requires fs.Valid() && 0 !in path && q.path == path && Fresh(ViewOf(fs), q) && (p.d, p.i) != (q.d, q.i)
    requires fs.files.IsOpen(src) && Source(ViewOf(fs), p, s, bytes)
    requires Reading(s, fs.files.files[src].State(), bytes, 0)
    modifies fs.vol.Footprint(), fs.dir.buffer, fs`heads, set f: OpenFile | f in fs.files.files
    ensures dst < 0 ==>
              && fs.Valid() && ViewOf(fs) == old(ViewOf(fs)) && fs.files.States() == old(fs.files.States())
              && fs.files.IsOpen(src) && fs.files.files[src].State() == old(fs.files.files[src].State())
    ensures dst >= 0 ==> Copying(fs, src, dst, p, s, q, bytes, 0) && ViewOf(fs) == old(ViewOf(fs))
    ensures dst >= 0 <==> OneFree(old(fs.files.States()))
    ensures fs.files.UseBut(dst) && (dst >= 0 ==> !old(fs.files.IsOpen(dst)))
  {
    hide Consistent, IsTableOf, Geometry.WellFormed, DistinctFiles, Sound, InTree, FileTable.States, Source, Reading,
         Fresh, Filling, FileSystem.Valid;
    EightFiles(fs);
    fs.files.StateAt(src);
    ghost var all := fs.files.States();
    dst := OpenFresh(fs, path, q, bytes);
    StateKept(all, fs.files.States(), src, dst);
    fs.files.StateAt(src);
    if dst >= 0 {
      fs.files.StateAt(dst);
    }
  }

  lemma NoHead(heads: set<uint32>, first: uint32)
    requires first == 0
    ensures heads + Heads(first) == heads
  {}

  /** Filling a slot that was not in use leaves the ones in use alone. */
  lemma StateKept(was: seq<Handle>, now: seq<Handle>, src: int, dst: int)
    requires 0 <= src < |was| && was[src].inUse
    requires if 0 <= dst < |was| then |now| == |was| && !was[dst].inUse && now == was[dst := now[dst]] else now == was
    ensures src < |now| && now[src] == was[src] && src != dst
  {}

  lemma FillingStart(v: View, q: Place, h: Handle, bytes: seq<uint8>)
    requires Fresh(v, q) && Linked(v.t, v.data, v.dirs, v.heads, h)
    requires h.inUse && !h.dirty && h.position == h.size == h.firstCluster == 0 && h.parentCluster == q.d
        && SlotOf(v.t, v.data, h) == q.i
    ensures Filling(v, q, h, bytes, 0)
  {
    hide Linked, Stored, Leads, DirSlots, Find, FirstCluster;
  }

  // ----- Giving up

  lemma FreshHeads(v: View, heads': set<uint32>, q: Place)
    requires Fresh(v, q)
    ensures Fresh(v.(heads := heads'), q)
  {
    hide Leads, Stored, DirSlots, FirstCluster;
  }

  /** Closing a handle that wrote nothing. */
  method CloseClean(fs: FileSystem, fd: int)
    requires fs.Valid() && fs.files.IsOpen(fd) && !fs.files.files[fd].dirty
    modifies fs.vol.Footprint(), fs.dir.buffer, fs.files.Slot(fd)`inUse, fs`heads
    ensures fs.Valid() && ViewOf(fs)
        == old(ViewOf(fs)).(heads := old(fs.heads) - Heads(old(fs.files.files[fd].firstCluster)))
    ensures !fs.files.IsOpen(fd)
  {
    hide Consistent, IsTableOf, Geometry.WellFormed, DistinctFiles, Sound, InTree, Linked, Recorded, FileSystem.Valid,
         Heads;
    ghost var data, h := fs.vol.data, fs.files.files[fd].State();
    fs.Close(fd);
    NothingRecorded(fs.vol.table, data, fs.vol.data, h);
  }

  /** Deleting the target again. */
  method DropTarget(fs: FileSystem, path: seq<uint8>, ghost q: Place)
    requires fs.Valid() && 0 !in path && q.path == path && Fresh(ViewOf(fs), q)
    modifies fs.vol.Footprint(), fs.dir.buffer
    ensures fs.Valid() && fs.vol.table == old(fs.vol.table)
    ensures NamesAt(fs.vol.table, fs.vol.data, q.d)
         == old(NamesAt(fs.vol.table, fs.vol.data, q.d)) - {UpperAll(fs.LastName(path))}
  {
    hide Consistent, IsTableOf, Geometry.WellFormed, DistinctFiles, Sound, InTree, Fresh, FileSystem.Valid,
         FileSystem.Deletable, FileSystem.TargetDir, OneSlotChanged, DirMap, FirstCluster, Find, DirSlots, UpperAll,
         FileSystem.Target, FileSystem.TargetSlots, FileSystem.Lookup, FileSystem.LastName, SlotsAt, FileSystem.Entry;
    FreshNames(fs, q);
    FreshTarget(fs, q);
    EntryIs(fs, path);
    var _ := fs.Delete(path);
  }

  lemma EntryIs(fs: FileSystem, path: seq<uint8>)
    ensures fs.Lookup(path) >= 0 ==>
              fs.Lookup(path) < |fs.TargetSlots(path)| && fs.Entry(path) == fs.TargetSlots(path)[fs.Lookup(path)]
  {}

  // ----- The whole copy

  /** The path names a copy of these bytes, of which only the first cluster's worth is there. */
  ghost predicate CopiedAt(fs: FileSystem, path: seq<uint8>, bytes: seq<uint8>)
    reads fs, fs.vol
  {
    && fs.Lookup(path) >= 0 && fs.Plain(path)
    && Copied(fs.vol.table, fs.vol.data, fs.Entry(path), bytes, fs.vol.geo.bytesPerCluster)
  }

  /**
   * When a copy succeeds: the source is a file, the target can be created, two handles are free, and
   * so is a cluster if one is needed.
   */
  ghost predicate CanCopy(fs: FileSystem, srcPath: seq<uint8>, dstPath: seq<uint8>, bytes: seq<uint8>)
    reads fs, fs.vol, set f: OpenFile | f in fs.files.files
  {
    && NamesFile(fs, srcPath)
    && CanCreate(fs.vol.table, fs.vol.data, fs.vol.geo.rootCluster, fs.currentDirectory, dstPath)
    && TwoFree(fs.files.States()) && HasRoom(fs.vol.table, bytes)
  }

  ghost predicate HasRoom(t: Table, bytes: seq<uint8>) {
    bytes == [] || (|t| <= BAD_CLUSTER && LeastFree(t) != 0)
  }

  ghost predicate TwoFree(hs: seq<Handle>) {
    exists i, j :: 0 <= i < j < |hs| && !hs[i].inUse && !hs[j].inUse
  }

  lemma TwoHasOne(hs: seq<Handle>)
    ensures TwoFree(hs) ==> OneFree(hs)
  {}

  /** Opening one handle when another stays free. */
  lemma OneLess(was: seq<Handle>, now: seq<Handle>, fd: int)
    requires Taken(was, now, fd)
    ensures TwoFree(was) <==> OneFree(now)
  {
    if TwoFree(was) {
      var i, j :| 0 <= i < j < |was| && !was[i].inUse && !was[j].inUse;
      assert now[if i == fd then j else i] in now;
    }
    if g :| g in now && !g.inUse {
      var k :| 0 <= k < |now| && now[k] == g;
      assert k != fd && was[k] == g;
    }
  }

  /** A source, by its path. */
  lemma SourceStored(fs: FileSystem, p: Place, s: Slot, bytes: seq<uint8>)
    requires Source(ViewOf(fs), p, s, bytes)
    ensures StoredAt(fs, p.path, bytes)
  {
    hide Leads, Stored, StoredAt;
    LeadsInside(fs.vol.table, fs.vol.data, fs.vol.geo.rootCluster, fs.currentDirectory, p.path, p.d, p.i);
    LeadsStored(fs, p.path, p.d, p.i, bytes);
  }

  lemma NothingFilled(v: View, q: Place, h: Handle, bytes: seq<uint8>)
    requires Filling(v, q, h, bytes, 0)
    ensures !h.dirty && Fresh(v, q)
  {}

  /** The cleanup when the first chunk finds no cluster. */
  method AbandonCopy(fs: FileSystem, src: int, dst: int, path: seq<uint8>, ghost q: Place, ghost bytes: seq<uint8>)
    requires fs.Valid() && src != dst && fs.files.IsOpen(src) && fs.files.IsOpen(dst) && !fs.files.files[src].dirty
    requires 0 !in path && q.path == path && Filling(ViewOf(fs), q, fs.files.files[dst].State(), bytes, 0)
    modifies fs.vol.Footprint(), fs.dir.buffer, fs.files.Slot(src)`inUse, fs.files.Slot(dst)`inUse, fs`heads
    ensures fs.Valid() && fs.vol.table == old(fs.vol.table)
    ensures !fs.files.IsOpen(src) && !fs.files.IsOpen(dst)
    ensures NamesAt(fs.vol.table, fs.vol.data, q.d)
         == old(NamesAt(fs.vol.table, fs.vol.data, q.d)) - {UpperAll(fs.LastName(path))}
  {
    hide Consistent, IsTableOf, Geometry.WellFormed, DistinctFiles, Sound, InTree, Fresh, Filling, Heads,
         FileSystem.Valid, NamesAt;
    HandlesDiffer(fs, src, dst);
    ghost var v := ViewOf(fs);
    NothingFilled(v, q, fs.files.files[dst].State(), bytes);
    CloseClean(fs, src);
    CloseClean(fs, dst);
    FreshHeads(v, fs.heads, q);
    DropTarget(fs, path, q);
  }

  /**
   * `fat32_copy`: on success the source is as it was and the target has its size, but at most one
   * cluster, with the first cluster's worth of bytes. So it is a faithful copy exactly when the source
   * has at most one cluster of bytes. On failure the FAT is as it was.
   */
  method Copy(fs: FileSystem, srcPath: seq<uint8>, dstPath: seq<uint8>, ghost bytes: seq<uint8>) returns (ok: bool)
    requires fs.Valid() && 0 !in srcPath && Copyable(fs, srcPath, bytes)
    requires Nameable(fs.vol.table, fs.vol.data, fs.vol.geo.rootCluster, fs.currentDirectory, dstPath)
    modifies fs.vol.Footprint(), fs.files.buffer, fs.dir.buffer, fs`heads, set f: OpenFile | f in fs.files.files
    ensures fs.Valid()
    ensures ok ==> StoredAt(fs, srcPath, bytes) && CopiedAt(fs, dstPath, bytes)
    ensures ok ==> (StoredAt(fs, dstPath, bytes) <==> |bytes| <= fs.vol.geo.bytesPerCluster)
    ensures !ok ==> fs.vol.table == old(fs.vol.table)
    ensures !ok ==> NamesAt(fs.vol.table, fs.vol.data, old(fs.TargetDir(dstPath)))
                    == old(NamesAt(fs.vol.table, fs.vol.data, fs.TargetDir(dstPath)))
    ensures fs.files.UseBut(-1)
    ensures ok == old(CanCopy(fs, srcPath, dstPath, bytes))
  {
    hide Consistent, IsTableOf, Geometry.WellFormed, DistinctFiles, Sound, InTree, Source, Reading, Filling, Fresh,
         FileSystem.Valid, FileTable.States, StoredAt, FileSystem.Lookup, FileSystem.Entry, FileSystem.TargetDir,
         FileSystem.Target, FileSystem.TargetSlots, Copyable, Heads, Nameable, Stored, LeadsTo, OneFree, TwoFree,
         HasRoom, CanCreate, Taken, NamesFile, FreeFrom, CopiedAt, NamesAt, UpperAll, FileSystem.LastName,
         PathDir;
    ghost var p, s := PlaceOf(fs, srcPath), fs.Entry(srcPath);
    NameFacts(fs.vol.table, fs.vol.data, fs.vol.geo.rootCluster, fs.currentDirectory, dstPath);
    TwoHasOne(fs.files.States());
    DirOfTarget(fs, dstPath);
    var src := OpenSource(fs, srcPath, bytes);
    if src < 0 {
      return false;
    }
    DirOfTarget(fs, dstPath);
    ReadingFacts(s, fs.files.files[src].State(), bytes, 0);
    OneLess(old(fs.files.States()), fs.files.States(), src);
    var created;
    ghost var q;
    created, q := CreateTarget(fs, dstPath, p, s, bytes);
    if !created {
      CloseClean(fs, src);
      return false;
    }
    ok := CopyTo(fs, src, dstPath, p, s, q, bytes);
  }

  lemma DirOfTarget(fs: FileSystem, path: seq<uint8>)
    ensures var c := PathDir(fs.vol.table, fs.vol.data, fs.vol.geo.rootCluster, fs.currentDirectory, Take(path, 255));
      fs.TargetDir(path) == if 0 <= c < TWO_TO_THE_32 then c else 0
  {}

  /** The part of a copy after the target was created. */
  method CopyTo(fs: FileSystem, src: int, dstPath: seq<uint8>, ghost p: Place, ghost s: Slot, ghost q: Place,
      ghost bytes: seq<uint8>)
    returns (ok: bool)
    requires fs.Valid() && 0 !in dstPath && q.path == dstPath && Fresh(ViewOf(fs), q) && (p.d, p.i) != (q.d, q.i)
    requires Opened(fs, src, p, s, bytes)
    modifies fs.vol.Footprint(), fs.files.buffer, fs.dir.buffer, fs`heads, set f: OpenFile | f in fs.files.files
    ensures fs.Valid()
    ensures ok ==> StoredAt(fs, p.path, bytes) && CopiedAt(fs, dstPath, bytes)
    ensures ok ==> (StoredAt(fs, dstPath, bytes) <==> |bytes| <= fs.vol.geo.bytesPerCluster)
    ensures !ok ==> fs.vol.table == old(fs.vol.table)
    ensures !ok ==> NamesAt(fs.vol.table, fs.vol.data, q.d)
                    == old(NamesAt(fs.vol.table, fs.vol.data, q.d)) - {UpperAll(fs.LastName(dstPath))}
    ensures fs.files.UseBut(src) && !fs.files.IsOpen(src)
    ensures ok == (OneFree(old(fs.files.States())) && HasRoom(old(fs.vol.table), bytes))
  {
    hide Consistent, IsTableOf, Geometry.WellFormed, DistinctFiles, Sound, InTree, Source, Reading, Filling, Fresh,
         FileSystem.Valid, FileTable.States, StoredAt, Heads, Stored, LeadsTo, OneFree, FreeFrom, Copied, CopiedAt,
         NamesAt, UpperAll, FileSystem.LastName;
    ghost var v := ViewOf(fs);
    EightFiles(fs);
    ReadingFacts(s, fs.files.files[src].State(), bytes, 0);
    var dst := OpenTarget(fs, src, p, s, dstPath, q, bytes);
    if dst < 0 {
      CloseClean(fs, src);
      FreshHeads(v, fs.heads, q);
      DropTarget(fs, dstPath, q);
      return false;
    }
    ok := CopyAcross(fs, src, dst, dstPath, p, s, q, bytes);
  }

  /** The part of a copy after both files were opened. */
  method CopyAcross(fs: FileSystem, src: int, dst: int, dstPath: seq<uint8>, ghost p: Place, ghost s: Slot,
      ghost q: Place, ghost bytes: seq<uint8>)
    returns (ok: bool)
    requires Copying(fs, src, dst, p, s, q, bytes, 0) && 0 !in dstPath && q.path == dstPath
    modifies fs.vol.Footprint(), fs.files.buffer, fs.dir.buffer, fs`heads, fs.files.Slot(src), fs.files.Slot(dst)
    ensures fs.Valid() && !fs.files.IsOpen(src) && !fs.files.IsOpen(dst)
    ensures ok ==> StoredAt(fs, p.path, bytes) && CopiedAt(fs, dstPath, bytes)
    ensures ok ==> (StoredAt(fs, dstPath, bytes) <==> |bytes| <= fs.vol.geo.bytesPerCluster)
    ensures !ok ==> fs.vol.table == old(fs.vol.table)
    ensures !ok ==> NamesAt(fs.vol.table, fs.vol.data, q.d)
                    == old(NamesAt(fs.vol.table, fs.vol.data, q.d)) - {UpperAll(fs.LastName(dstPath))}
    ensures ok == HasRoom(old(fs.vol.table), bytes)
  {
    hide Consistent, IsTableOf, Geometry.WellFormed, DistinctFiles, Sound, InTree, Source, Reading, Filling, Fresh,
         FileSystem.Valid, StoredAt, Heads, Stored, LeadsTo, FreeFrom, Copied, CopiedAt, NamesAt, UpperAll,
         FileSystem.LastName;
    EightFiles(fs);
    var buf := new uint8[CHUNK];
    ok := CopyLoop(fs, src, dst, buf, p, s, q, bytes);
    if !ok {
      AbandonCopy(fs, src, dst, dstPath, q, bytes);
      return false;
    }
    FinishCopy(fs, src, dst, p, s, q, bytes);
    SourceStored(fs, p, s, bytes);
    TargetCopied(fs, q, bytes);
  }

  lemma TargetCopied(fs: FileSystem, q: Place, bytes: seq<uint8>)
    requires fs.Valid() && LeadsTo(ViewOf(fs), q)
    requires Copied(fs.vol.table, fs.vol.data, SlotAt(ViewOf(fs), q), bytes, fs.vol.geo.bytesPerCluster)
    ensures CopiedAt(fs, q.path, bytes)
    ensures StoredAt(fs, q.path, bytes) <==> |bytes| <= fs.vol.geo.bytesPerCluster
  {
    hide Leads, Stored, Copied, Consistent, IsTableOf, Geometry.WellFormed, DistinctFiles, Sound, InTree;
    fs.vol.Facts();
    LeadsInside(fs.vol.table, fs.vol.data, fs.vol.geo.rootCluster, fs.currentDirectory, q.path, q.d, q.i);
    LeadsNames(fs, q.path, q.d, q.i);
    CopiedExact(fs.vol.table, fs.vol.data, SlotAt(ViewOf(fs), q), bytes, fs.vol.geo.bytesPerCluster);
  }

  lemma NameFacts(t: Table, data: Data, root: uint32, current: uint32, path: seq<uint8>)
    requires Nameable(t, data, root, current, path)
    ensures 0 !in path
  {}
}
