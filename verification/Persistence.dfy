/** A file written once is found and read back after it was closed. */
module Persistence {
  import opened Bytes
  import opened Chains
  import opened Contents
  import opened DirMaps
  import opened Directories
  import opened Fat
  import opened Files
  import opened FileLaws
  import opened FileSystems
  import opened Geometry
  import opened Handles
  import opened Image
  import opened Ledger
  import opened Lookups
  import opened Paths
  import opened Renames
  import opened ShortNames
  import opened Slots
  import opened Soundness

  /** A path leads to slot `i` of the directory at `d`, whether volume labels are scanned or not. */
  ghost predicate Leads(t: Table, data: Data, root: uint32, current: uint32, path: seq<uint8>, d: uint32, i: int) {
    var p := Take(path, 255);
    PathDir(t, data, root, current, p) == d && Answers(SlotsAt(t, data, d), FilePart(p), i)
  }

  /** The entry `s` describes a regular file with these bytes. */
  ghost predicate Stored(t: Table, data: Data, s: Slot, bytes: seq<uint8>) {
    && Live(s) && !HasDir(s) && Slots.Size(s) == |bytes|
    && (bytes != [] ==>
          && ChainOf(t, FirstCluster(s)) != []
          && |bytes| <= |Content(data, ChainOf(t, FirstCluster(s)))|
          && Content(data, ChainOf(t, FirstCluster(s)))[..|bytes|] == bytes)
  }

  // ----- Free space

  lemma RoomFor(t: Table, n: nat, b: nat)
    requires |t| <= BAD_CLUSTER && n <= Free(t) * b
    ensures n > 0 ==> LeastFree(t) != 0
  {
    NoneFree(t, 2);
  }

  /** A write into an empty file that fits the free space is complete. */
  lemma WroteAll(b: nat, t: Table, data: Data, h: Handle, t': Table, data': Data, h': Handle,
                 input: seq<uint8>, r: nat, m: nat)
    requires Wrote(b, t, data, h, t', data', h', input, [], 0, r, m)
    requires |t| == |data| <= BAD_CLUSTER && LeastFree(t) != 0
    requires b > 0 && h.firstCluster == 0 && h.position == 0 && |input| <= Free(t) * b
    requires forall c | 2 <= c < |data'| :: |data'[c]| == b
    ensures r == |input|
  {
    hide Content, LastBlock, FreeFrom, FreeCount, Grown, IsChain, Written;
    var ch' := FinalChain(t, 0, [], m);
    assert Offset(b, 0, 0) == 0;
    WriteRegrows(t, data, t', data', 0, [], m, 0, input[..r]);
    NoneFree(t', 2);
    ChainFacts(t', ch');
    ContentLength(data', ch', b);
    assert r < |input| ==> r == |ch'| * b;
  }

  /** The bytes of a completed first write. */
  lemma WroteStored(b: nat, t: Table, data: Data, h: Handle, t': Table, data': Data, h': Handle,
                    input: seq<uint8>, m: nat)
    requires Wrote(b, t, data, h, t', data', h', input, [], 0, |input|, m)
    requires b > 0 && h.firstCluster == 0 && h.position == 0
    ensures var ch' := FinalChain(t, 0, [], m);
      && IsChain(t', ch') && ch'[0] == h'.firstCluster
      && |input| <= |Content(data', ch')| && Content(data', ch')[..|input|] == input
      && h'.size == Max(h.size, |input|) && h'.dirty
  {
    hide Content, LastBlock, FreeFrom, Grown, IsChain;
    var ch' := FinalChain(t, 0, [], m);
    assert Offset(b, 0, 0) == 0;
    assert input[..|input|] == input;
    assert Written(data, data', ch', 0, input);
  }

  // ----- The steps of a store

  /** A path under which a file can be created. */
  ghost predicate Creatable(fs: FileSystem, path: seq<uint8>)
    reads fs, fs.vol
  {
    && 0 !in path && Storable(fs.LastName(path)) && fs.Target(path) >= 0
    && fs.Lookup(path) < 0 && Find(fs.TargetSlots(path), UpperAll(fs.LastName(path)), false) < 0
    && FindFree(fs.TargetSlots(path)) >= 0
  }

  lemma CreateLeads(t: Table, data: Data, data': Data, dirs: set<uint32>, heads: set<uint32>,
                    root: uint32, current: uint32, path: seq<uint8>, d: uint32)
    requires Sound(t, data, dirs, heads) && Closed(t, data, dirs) && InTree(dirs, root) && InTree(dirs, current)
    requires PathDir(t, data, root, current, Take(path, 255)) == d && d in dirs
    requires var name, slots := FilePart(Take(path, 255)), SlotsAt(t, data, d);
      && Storable(name) && Find(slots, UpperAll(name), true) < 0 && Find(slots, UpperAll(name), false) < 0
      && FindFree(slots) >= 0 && OneSlotChanged(t, data, data', d, FindFree(slots), MakeSlot(name, ATTR_ARCHIVE, 0, 0))
    ensures var name, i := FilePart(Take(path, 255)), FindFree(SlotsAt(t, data, d));
      && Leads(t, data', root, current, path, d, i)
      && SlotsAt(t, data', d)[i] == MakeSlot(name, ATTR_ARCHIVE, 0, 0)
  {
    hide DirSlots, Find, FindFree, Closed, PathDir, MakeSlot, SoundDirs, SoundFiles, Key, UpperAll;
    var name, slots := FilePart(Take(path, 255)), SlotsAt(t, data, d);
    var s := MakeSlot(name, ATTR_ARCHIVE, 0, 0);
    MadeSlotLive(name, ATTR_ARCHIVE, 0, 0);
    InsertKeepsPaths(t, data, data', dirs, d, s);
    PathKept(t, data, t, data', dirs, root, current, Take(path, 255));
    FindInserted(slots, s, UpperAll(name), true);
    FindInserted(slots, s, UpperAll(name), false);
  }

  /** A successful creation: the path leads to a new empty file. */
  method Create(fs: FileSystem, path: seq<uint8>) returns (ghost d: uint32, ghost i: nat)
    requires fs.Valid() && Creatable(fs, path)
    modifies fs.vol.Footprint(), fs.dir.buffer
    ensures fs.Valid() && fs.vol.table == old(fs.vol.table) && d in fs.dirs
    ensures Leads(fs.vol.table, fs.vol.data, fs.vol.geo.rootCluster, fs.currentDirectory, path, d, i)
    ensures i < |SlotsAt(fs.vol.table, fs.vol.data, d)|
    ensures SlotsAt(fs.vol.table, fs.vol.data, d)[i] == MakeSlot(fs.LastName(path), ATTR_ARCHIVE, 0, 0)
  {
    hide Consistent, IsTableOf, Geometry.WellFormed, DistinctFiles, Sound, Closed, Find, FindFree, DirSlots, PathDir,
         MakeSlot, OneSlotChanged, UpperAll, Shadowed, DirMap, Storable, MapWith;
    fs.SoundClosed();
    fs.TargetInTree(path);
    ghost var t, data := fs.vol.table, fs.vol.data;
    d, i := fs.TargetDir(path), FindFree(fs.TargetSlots(path));
    var _ := fs.CreateFile(path);
    CreateLeads(t, data, fs.vol.data, fs.dirs, fs.heads, fs.vol.geo.rootCluster, fs.currentDirectory, path, d);
  }

  /** Slots that stay as they are keep every path. */
  lemma SameSlotsLeads(t: Table, data: Data, t': Table, data': Data, dirs: set<uint32>,
                       root: uint32, current: uint32, path: seq<uint8>, d: uint32, i: int)
    requires Closed(t, data, dirs) && InTree(dirs, root) && InTree(dirs, current) && d in dirs
    requires forall e | e in dirs :: SlotsAt(t', data', e) == SlotsAt(t, data, e)
    requires Leads(t, data, root, current, path, d, i)
    ensures Leads(t', data', root, current, path, d, i)
  {
    hide DirSlots, Find, Closed, PathDir, KeepsPaths;
    SameSlotsPaths(t, data, t', data', dirs);
    PathKept(t, data, t', data', dirs, root, current, Take(path, 255));
  }

  /** Closing a handle keeps its path. */
  lemma CloseLeads(t: Table, data: Data, data': Data, dirs: set<uint32>, heads: set<uint32>, root: uint32,
      current: uint32,
                   path: seq<uint8>, d: uint32, i: nat, h: Handle)
    requires Sound(t, data, dirs, heads) && Closed(t, data, dirs) && InTree(dirs, root) && InTree(dirs, current)
    requires Linked(t, data, dirs, heads, h) && h.parentCluster == d && SlotOf(t, data, h) == i
        && Leads(t, data, root, current, path, d, i)
    requires h.dirty && Recorded(t, data, data', h)
    ensures SlotsAt(t, data', d) == SlotsAt(t, data, d)[i := UpdateSlot(SlotsAt(t, data, d)[i], h.size, h.firstCluster)]
    ensures Leads(t, data', root, current, path, d, i)
  {
    hide DirSlots, Find, Closed, PathDir, KeepsPaths, SoundDirs, SoundFiles, Key, UpdateSlot, InfoOf, Live, HasDir,
         WellFormed, UpperAll, FilePart, Held, Disjoint;
    var slots := SlotsAt(t, data, d);
    var s := UpdateSlot(slots[i], h.size, h.firstCluster);
    LinkedLive(t, data, dirs, heads, h);
    UpdatedSlot(slots[i], h.size, h.firstCluster);
    UpdateKeepsPaths(t, data, data', dirs, d, i, h.size, h.firstCluster);
    PathKept(t, data, t, data', dirs, root, current, Take(path, 255));
    FindReplaced(slots, i, s, UpperAll(FilePart(Take(path, 255))), true);
    FindReplaced(slots, i, s, UpperAll(FilePart(Take(path, 255))), false);
  }

  /** Closing a handle after a write makes the entry describe the file. */
  lemma CloseStores(t: Table, data: Data, data': Data, dirs: set<uint32>, heads: set<uint32>, h: Handle,
      bytes: seq<uint8>)
    requires Sound(t, data, dirs, heads) && Linked(t, data, dirs, heads, h)
    requires h.dirty && Recorded(t, data, data', h)
    requires h.firstCluster != 0 && h.size == |bytes| && |bytes| <= |Content(data, ChainOf(t, h.firstCluster))|
    requires Content(data, ChainOf(t, h.firstCluster))[..|bytes|] == bytes
    ensures Stored(t, data', UpdateSlot(SlotsAt(t, data, h.parentCluster)[SlotOf(t, data, h)], h.size, h.firstCluster),
        bytes)
  {
    hide DirSlots, Find, SoundDirs, SoundFiles, Key, UpdateSlot, Content, InfoOf, Live, HasDir, UpperAll, Held,
         Disjoint;
    var d, i := h.parentCluster, SlotOf(t, data, h);
    var s := SlotsAt(t, data, d)[i];
    LinkedLive(t, data, dirs, heads, h);
    UpdatedSlot(s, h.size, h.firstCluster);
    UpdateSlotFields(s, h.size, h.firstCluster);
    HeldContent(t, data, data', dirs, heads, d, i, UpdateSlot(s, h.size, h.firstCluster), h.firstCluster);
  }

  lemma LinkedLive(t: Table, data: Data, dirs: set<uint32>, heads: set<uint32>, h: Handle)
    requires Linked(t, data, dirs, heads, h)
    ensures var s := SlotsAt(t, data, h.parentCluster)[SlotOf(t, data, h)];
      Live(s) && !HasDir(s) && !IsEnd(s) && Compared(s, true) && Compared(s, false)
  {
    hide DirSlots, Key;
  }

  /** A change of a directory leaves the bytes of held chains alone. */
  lemma HeldContent(t: Table, data: Data, data': Data, dirs: set<uint32>, heads: set<uint32>, d: uint32, i: nat,
      s: Slot, c: uint32)
    requires Sound(t, data, dirs, heads) && d in dirs && c in heads && OneSlotChanged(t, data, data', d, i, s)
    ensures ChainOf(t, c) != [] && Content(data', ChainOf(t, c)) == Content(data, ChainOf(t, c))
  {
    hide DirSlots, SoundFiles, WellFormed;
    ContentFrame(data, data', ChainOf(t, c));
  }

  // ----- Storing and loading

  ghost predicate HasFreeHandle(fs: FileSystem)
    reads set f: OpenFile | f in fs.files.files
  {
    exists h :: h in fs.files.States() && !h.inUse
  }

  /** Opening a file that a path leads to. */
  method OpenAt(fs: FileSystem, path: seq<uint8>, ghost d: uint32, ghost i: int) returns (fd: int)
    requires fs.Valid() && 0 !in path && d in fs.dirs
    requires Leads(fs.vol.table, fs.vol.data, fs.vol.geo.rootCluster, fs.currentDirectory, path, d, i)
    requires !HasDir(SlotsAt(fs.vol.table, fs.vol.data, d)[i])
    requires HasFreeHandle(fs)
    modifies fs.vol.Footprint(), fs.dir.buffer, fs`heads, set f: OpenFile | f in fs.files.files
    ensures fs.Valid() && fs.vol.table == old(fs.vol.table) && fs.vol.data == old(fs.vol.data)
    ensures var h := OpenedOn(d, fs.LastName(path), InfoOf(SlotsAt(fs.vol.table, fs.vol.data, d)[i]));
      && 0 <= fd < MAX_OPEN_FILES && !old(fs.files.States())[fd].inUse
      && fs.files.States() == old(fs.files.States())[fd := h]
      && fs.heads == old(fs.heads) + Heads(h.firstCluster)
      && Linked(fs.vol.table, fs.vol.data, fs.dirs, fs.heads, h) && SlotOf(fs.vol.table, fs.vol.data, h) == i
    ensures fs.files.UseBut(fd) && !old(fs.files.IsOpen(fd))
  {
    hide Consistent, IsTableOf, Geometry.WellFormed, DistinctFiles, Sound, Closed, Find, DirSlots, PathDir, Linked,
         FileTable.States, OpenedOn, Heads, UpperAll, FileTable.UseBut;
    LeadsNames(fs, path, d, i);
    fd := fs.Open(path);
    fs.files.OneFilled(fd);
  }

  lemma LeadsNames(fs: FileSystem, path: seq<uint8>, d: uint32, i: int)
    requires Leads(fs.vol.table, fs.vol.data, fs.vol.geo.rootCluster, fs.currentDirectory, path, d, i)
    ensures fs.Target(path) == d == fs.TargetDir(path) && fs.Lookup(path) == i && fs.Plain(path)
    ensures 0 <= i < |SlotsAt(fs.vol.table, fs.vol.data, d)|
        && fs.Entry(path) == SlotsAt(fs.vol.table, fs.vol.data, d)[i]
    ensures var h := OpenedOn(d, fs.LastName(path), InfoOf(fs.Entry(path)));
      SlotOf(fs.vol.table, fs.vol.data, h) == i && h.firstCluster == InfoOf(fs.Entry(path)).firstCluster
  {
    hide DirSlots, PathDir, Find, InfoOf;
    FindTake(fs.TargetSlots(path), fs.LastName(path), true);
  }

  /** What a first write that fits and the close after it amount to. */
  lemma Filled(b: nat, t: Table, data: Data, h: Handle, t1: Table, data1: Data, h1: Handle, data2: Data,
               dirs: set<uint32>, heads: set<uint32>, root: uint32, current: uint32, path: seq<uint8>,
               d: uint32, i: nat,
               input: seq<uint8>, r: nat, m: nat)
    requires Sound(t, data, dirs, heads) && InTree(dirs, root) && InTree(dirs, current) && LeastFree(t) != 0
    requires Wrote(b, t, data, h, t1, data1, h1, input, [], 0, r, m)
    requires b > 0 && |input| <= Free(t) * b && forall c | 2 <= c < |data1| :: |data1[c]| == b
    requires h.firstCluster == 0 && h.position == 0 && h.size == 0 && h.parentCluster == d
    requires Linked(t, data, dirs, heads, h) && SlotOf(t, data, h) == i && Leads(t, data, root, current, path, d, i)
    requires Recorded(t1, data1, data2, h1)
    ensures Leads(t1, data2, root, current, path, d, i) && i < |SlotsAt(t1, data2, d)|
    ensures Stored(t1, data2, SlotsAt(t1, data2, d)[i], input)
  {
    hide Sound, SoundDirs, Closed, Wrote, Linked, Leads, Stored, FreeFrom, FreeCount, Recorded, IsChain, Content,
         DirSlots, UpdateSlot, FinalChain, UpperAll;
    SoundSize(t, data, dirs, heads);
    SoundIsClosed(t, data, dirs);
    WroteAll(b, t, data, h, t1, data1, h1, input, r, m);
    WroteStored(b, t, data, h, t1, data1, h1, input, m);
    WroteDirs(b, t, data, h, t1, data1, h1, input, [], 0, r, m, dirs, heads);
    WriteLinks(b, t, data, h, t1, data1, h1, input, [], 0, r, m, dirs, heads);
    WroteSameEntry(b, t, data, h, t1, data1, h1, input, [], 0, r, m);
    LinkedIn(t, data, dirs, heads, h);
    SameSlotsLeads(t, data, t1, data1, dirs, root, current, path, d, i);
    var heads1 := heads + {h1.firstCluster};
    SoundSize(t1, data1, dirs, heads1);
    SoundIsClosed(t1, data1, dirs);
    CloseLeads(t1, data1, data2, dirs, heads1, root, current, path, d, i, h1);
    CloseStores(t1, data1, data2, dirs, heads1, h1, input);
  }

  lemma LinkedIn(t: Table, data: Data, dirs: set<uint32>, heads: set<uint32>, h: Handle)
    requires Linked(t, data, dirs, heads, h)
    ensures h.parentCluster in dirs && 0 <= SlotOf(t, data, h) < |SlotsAt(t, data, h.parentCluster)|
  {}

  /** The write and the close of a store: what they leave on the volume. */
  method WriteAndClose(fs: FileSystem, fd: int, input: array<uint8>, n: uint32, ghost path: seq<uint8>, ghost d: uint32,
      ghost i: nat)
    requires fs.Valid() && n <= input.Length && input != fs.files.buffer && input != fs.vol.fatBuffer
        && input != fs.dir.buffer
    requires fs.files.IsOpen(fd) && n <= Free(fs.vol.table) * fs.vol.geo.bytesPerCluster
    requires var h := fs.files.files[fd].State();
      && h.firstCluster == 0 && h.position == 0 && h.size == 0 && !h.dirty && h.parentCluster == d
      && Linked(fs.vol.table, fs.vol.data, fs.dirs, fs.heads, h) && SlotOf(fs.vol.table, fs.vol.data, h) == i
    requires Leads(fs.vol.table, fs.vol.data, fs.vol.geo.rootCluster, fs.currentDirectory, path, d, i)
    requires Stored(fs.vol.table, fs.vol.data, SlotsAt(fs.vol.table, fs.vol.data, d)[i], [])
    modifies fs.vol.Footprint(), fs.files.buffer, fs.dir.buffer, fs.files.Slot(fd), fs`heads
    ensures fs.Valid() && !fs.files.IsOpen(fd)
    ensures Leads(fs.vol.table, fs.vol.data, fs.vol.geo.rootCluster, fs.currentDirectory, path, d, i)
    ensures Stored(fs.vol.table, fs.vol.data, SlotsAt(fs.vol.table, fs.vol.data, d)[i], input[..n])
  {
    hide Consistent, IsTableOf, Geometry.WellFormed, DistinctFiles, Sound, Closed, Wrote, Linked, Leads, Stored,
         FreeFrom, FreeCount, Recorded, IsChain, Content, UpperAll, DirSlots, Heads;
    ghost var t, data, h := fs.vol.table, fs.vol.data, fs.files.files[fd].State();
    fs.vol.Facts();
    RoomFor(t, n, fs.vol.geo.bytesPerCluster);
    var r;
    ghost var m;
    r, m := fs.Write(fd, input, n, [], 0);
    ghost var t1, data1, h1 := fs.vol.table, fs.vol.data, fs.files.files[fd].State();
    fs.vol.Facts();
    fs.Close(fd);
    if n > 0 {
      Filled(fs.vol.geo.bytesPerCluster, t, data, h, t1, data1, h1, fs.vol.data, fs.dirs, old(fs.heads),
             fs.vol.geo.rootCluster, fs.currentDirectory, path, d, i, input[..n], r, m);
    } else {
      assert input[..0] == [];
      NothingRecorded(t, data, fs.vol.data, h);
    }
  }

  /** The same, with every other handle left alone. */
  method FillAndClose(fs: FileSystem, fd: int, input: array<uint8>, n: uint32, ghost path: seq<uint8>, ghost d: uint32,
      ghost i: nat)
    requires fs.Valid() && n <= input.Length && input != fs.files.buffer && input != fs.vol.fatBuffer
        && input != fs.dir.buffer
    requires fs.files.IsOpen(fd) && n <= Free(fs.vol.table) * fs.vol.geo.bytesPerCluster
    requires var h := fs.files.files[fd].State();
      && h.firstCluster == 0 && h.position == 0 && h.size == 0 && !h.dirty && h.parentCluster == d
      && Linked(fs.vol.table, fs.vol.data, fs.dirs, fs.heads, h) && SlotOf(fs.vol.table, fs.vol.data, h) == i
    requires Leads(fs.vol.table, fs.vol.data, fs.vol.geo.rootCluster, fs.currentDirectory, path, d, i)
    requires Stored(fs.vol.table, fs.vol.data, SlotsAt(fs.vol.table, fs.vol.data, d)[i], [])
    modifies fs.vol.Footprint(), fs.files.buffer, fs.dir.buffer, fs.files.Slot(fd), fs`heads
    ensures fs.Valid() && !fs.files.IsOpen(fd) && fs.files.UseBut(fd)
    ensures Leads(fs.vol.table, fs.vol.data, fs.vol.geo.rootCluster, fs.currentDirectory, path, d, i)
    ensures Stored(fs.vol.table, fs.vol.data, SlotsAt(fs.vol.table, fs.vol.data, d)[i], input[..n])
  {
    hide Consistent, IsTableOf, Geometry.WellFormed, DistinctFiles, Sound, Closed, Linked, Leads, Stored, FreeCount,
         DirSlots, SlotsAt, FileSystem.Valid;
    WriteAndClose(fs, fd, input, n, path, d, i);
  }

  lemma NothingRecorded(t: Table, data: Data, data': Data, h: Handle)
    requires !h.dirty && Recorded(t, data, data', h)
    ensures data' == data
  {}

  /** The entry of a new file describes the empty file, and a handle on it starts empty. */
  lemma NewStored(t: Table, data: Data, name: seq<uint8>, d: uint32)
    requires Storable(name)
    ensures var s := MakeSlot(name, ATTR_ARCHIVE, 0, 0); var h := OpenedOn(d, name, InfoOf(s));
      && Stored(t, data, s, []) && !HasDir(s)
      && h.firstCluster == 0 && h.position == 0 && h.size == 0 && !h.dirty && h.parentCluster == d && h.inUse
  {
    hide MakeSlot, Key;
    var s := MakeSlot(name, ATTR_ARCHIVE, 0, 0);
    MadeSlotLive(name, ATTR_ARCHIVE, 0, 0);
    MakeSlotFields(name, ATTR_ARCHIVE, 0, 0);
  }

  lemma CreatableName(fs: FileSystem, path: seq<uint8>)
    requires Creatable(fs, path)
    ensures 0 !in path && Storable(fs.LastName(path))
  {}

  /** The path names a regular file with these bytes. */
  ghost predicate StoredAt(fs: FileSystem, path: seq<uint8>, bytes: seq<uint8>)
    reads fs, fs.vol
  {
    fs.Lookup(path) >= 0 && fs.Plain(path) && Stored(fs.vol.table, fs.vol.data, fs.Entry(path), bytes)
  }

  lemma StoredLeads(fs: FileSystem, path: seq<uint8>, bytes: seq<uint8>)
    requires fs.Valid() && StoredAt(fs, path, bytes)
    ensures fs.TargetDir(path) in fs.dirs
    ensures Leads(fs.vol.table, fs.vol.data, fs.vol.geo.rootCluster, fs.currentDirectory, path, fs.TargetDir(path),
        fs.Lookup(path))
  {
    hide Sound, Find, DirSlots, PathDir, WellFormed;
    fs.LookupLive(path);
  }

  /** create_file, open, write, close: the path leads to an entry that describes a file with exactly these bytes. */
  method Store(fs: FileSystem, path: seq<uint8>, input: array<uint8>, n: uint32)
    requires fs.Valid() && Creatable(fs, path)
    requires n <= input.Length && input != fs.files.buffer && input != fs.vol.fatBuffer && input != fs.dir.buffer
    requires n <= Free(fs.vol.table) * fs.vol.geo.bytesPerCluster && HasFreeHandle(fs)
    modifies fs.vol.Footprint(), fs.files.buffer, fs.dir.buffer, fs`heads, set f: OpenFile | f in fs.files.files
    ensures fs.Valid() && StoredAt(fs, path, input[..n]) && HasFreeHandle(fs)
    ensures fs.files.UseBut(-1)
  {
    hide Consistent, IsTableOf, Geometry.WellFormed, DistinctFiles, Sound, Linked, Leads, Stored, FreeCount, UpperAll,
         DirSlots, Heads, FileTable.States, OpenedOn, MakeSlot, HasDir, Creatable, HasFreeHandle, StoredAt, InTree;
    CreatableName(fs, path);
    ghost var d, i := Create(fs, path);
    NewStored(fs.vol.table, fs.vol.data, fs.LastName(path), d);
    OpenAndFill(fs, path, input, n, d, i);
  }

  /** The part of a store after the file was created. */
  method OpenAndFill(fs: FileSystem, path: seq<uint8>, input: array<uint8>, n: uint32, ghost d: uint32, ghost i: nat)
    requires fs.Valid() && 0 !in path && d in fs.dirs
    requires n <= input.Length && input != fs.files.buffer && input != fs.vol.fatBuffer && input != fs.dir.buffer
    requires n <= Free(fs.vol.table) * fs.vol.geo.bytesPerCluster && HasFreeHandle(fs)
    requires Leads(fs.vol.table, fs.vol.data, fs.vol.geo.rootCluster, fs.currentDirectory, path, d, i)
    requires i < |SlotsAt(fs.vol.table, fs.vol.data, d)|
    requires var s := SlotsAt(fs.vol.table, fs.vol.data, d)[i]; var h := OpenedOn(d, fs.LastName(path), InfoOf(s));
      && Stored(fs.vol.table, fs.vol.data, s, []) && !HasDir(s)
      && h.firstCluster == 0 && h.position == 0 && h.size == 0 && !h.dirty && h.parentCluster == d && h.inUse
    modifies fs.vol.Footprint(), fs.files.buffer, fs.dir.buffer, fs`heads, set f: OpenFile | f in fs.files.files
    ensures fs.Valid() && StoredAt(fs, path, input[..n]) && HasFreeHandle(fs)
    ensures fs.files.UseBut(-1)
  {
    hide Consistent, IsTableOf, Geometry.WellFormed, DistinctFiles, Sound, Linked, Leads, Stored, FreeCount, UpperAll,
         DirSlots, Heads, FileTable.States, OpenedOn, HasDir, HasFreeHandle, StoredAt, InTree;
    var fd := OpenAt(fs, path, d, i);
    fs.files.StateAt(fd);
    FillAndClose(fs, fd, input, n, path, d, i);
    LeadsStored(fs, path, d, i, input[..n]);
    HandleFreed(fs, fd);
  }

  lemma LeadsStored(fs: FileSystem, path: seq<uint8>, d: uint32, i: int, bytes: seq<uint8>)
    requires Leads(fs.vol.table, fs.vol.data, fs.vol.geo.rootCluster, fs.currentDirectory, path, d, i)
    requires Stored(fs.vol.table, fs.vol.data, SlotsAt(fs.vol.table, fs.vol.data, d)[i], bytes)
    ensures StoredAt(fs, path, bytes)
  {
    hide Leads, Stored;
    LeadsNames(fs, path, d, i);
  }

  lemma HandleFreed(fs: FileSystem, fd: int)
    requires 0 <= fd < |fs.files.files| && !fs.files.IsOpen(fd)
    ensures HasFreeHandle(fs)
  {
    fs.files.StateAt(fd);
    assert fs.files.States()[fd] in fs.files.States();
  }

  /** `out` starts with as many of the bytes as were asked for and there are. */
  ghost predicate Delivers(out: seq<uint8>, bytes: seq<uint8>, n: nat, r: int) {
    0 <= r == Min(n, |bytes|) <= |out| && out[..r] == bytes[..r]
  }

  /** The first read through a handle. */
  method ReadStart(fs: FileSystem, fd: int, out: array<uint8>, n: uint32, ghost ch: Chain,
      ghost bytes: seq<uint8>) returns (r: int)
    requires fs.Valid() && n <= out.Length && out != fs.files.buffer && out != fs.vol.fatBuffer && out != fs.dir.buffer
    requires fs.files.IsOpen(fd) && fs.files.files[fd].position == 0 && fs.files.files[fd].size == |bytes|
    requires bytes != [] ==>
               && fs.files.files[fd].OnChain(fs.vol.table, ch, 0)
               && |bytes| <= |Content(fs.vol.data, ch)| && Content(fs.vol.data, ch)[..|bytes|] == bytes
    modifies fs.vol.Footprint(), fs.files.buffer, out, fs.files.Slot(fd)`position, fs.files.Slot(fd)`currentCluster
    ensures fs.Valid() && fs.vol.table == old(fs.vol.table) && fs.vol.data == old(fs.vol.data)
    ensures Delivers(out[..], bytes, n, r)
  {
    hide Consistent, IsTableOf, Geometry.WellFormed, DistinctFiles, Sound, Content, Delivered, IsChain, LastBlock,
         Offset;
    ghost var was, s, b := out[..], Content(fs.vol.data, ch), fs.vol.geo.bytesPerCluster;
    OffsetStart(b);
    r := fs.files.Read(fd, out, n, ch, 0);
    if r > 0 {
      DeliveredPrefix(was, s, 0, r);
      assert s[..|bytes|][..r] == s[0..r];
    }
  }

  lemma OffsetStart(b: nat)
    ensures Offset(b, 0, 0) == 0
  {}

  /** open, read, close: a file is delivered from its start, as far as asked. */
  method Load(fs: FileSystem, path: seq<uint8>, out: array<uint8>, n: uint32, ghost bytes: seq<uint8>) returns (r: int)
    requires fs.Valid() && 0 !in path && n <= out.Length
    requires out != fs.files.buffer && out != fs.vol.fatBuffer && out != fs.dir.buffer
    requires StoredAt(fs, path, bytes) && HasFreeHandle(fs)
    modifies fs.vol.Footprint(), fs.files.buffer, fs.dir.buffer, out, fs`heads, set f: OpenFile | f in fs.files.files
    ensures fs.Valid() && fs.vol.table == old(fs.vol.table) && fs.vol.data == old(fs.vol.data)
    ensures Delivers(out[..], bytes, n, r) && fs.files.UseBut(-1)
  {
    hide Consistent, IsTableOf, Geometry.WellFormed, DistinctFiles, Sound, Linked, Leads, Content, UpperAll, DirSlots,
         Heads, FileTable.States, OpenedOn, HasDir, Stored, Delivers, IsChain, HasFreeHandle, InTree,
         FileSystem.TargetDir, FileSystem.Lookup, FileSystem.Entry;
    StoredLeads(fs, path, bytes);
    ghost var d, i, s := fs.TargetDir(path), fs.Lookup(path), fs.Entry(path);
    LeadsNames(fs, path, d, i);
    StoredHandle(fs.vol.table, fs.vol.data, s, d, fs.LastName(path), bytes);
    var fd := OpenAt(fs, path, d, i);
    fs.files.StateAt(fd);
    r := ReadAndClose(fs, fd, out, n, ChainOf(fs.vol.table, FirstCluster(s)), bytes);
  }

  /** The read and the close of a load. */
  method ReadAndClose(fs: FileSystem, fd: int, out: array<uint8>, n: uint32, ghost ch: Chain,
      ghost bytes: seq<uint8>) returns (r: int)
    requires fs.Valid() && n <= out.Length && out != fs.files.buffer && out != fs.vol.fatBuffer && out != fs.dir.buffer
    requires fs.files.IsOpen(fd) && fs.files.files[fd].position == 0 && fs.files.files[fd].size == |bytes|
        && !fs.files.files[fd].dirty
    requires bytes != [] ==>
               && fs.files.files[fd].OnChain(fs.vol.table, ch, 0)
               && |bytes| <= |Content(fs.vol.data, ch)| && Content(fs.vol.data, ch)[..|bytes|] == bytes
    modifies fs.vol.Footprint(), fs.files.buffer, fs.dir.buffer, out, fs`heads, fs.files.Slot(fd)
    ensures fs.Valid() && fs.vol.table == old(fs.vol.table) && fs.vol.data == old(fs.vol.data)
    ensures Delivers(out[..], bytes, n, r) && !fs.files.IsOpen(fd) && fs.files.UseBut(fd)
  {
    hide Consistent, IsTableOf, Geometry.WellFormed, DistinctFiles, Sound, Linked, Content, Heads, Delivers, IsChain,
         Recorded;
    r := ReadStart(fs, fd, out, n, ch, bytes);
    ghost var h := fs.files.files[fd].State();
    fs.Close(fd);
    NothingRecorded(fs.vol.table, old(fs.vol.data), fs.vol.data, h);
  }

  /** The persistence round trip: what was stored under a new name is what is loaded from it. */
  method StoreThenLoad(fs: FileSystem, path: seq<uint8>, input: array<uint8>, n: uint32,
      out: array<uint8>) returns (r: int)
    requires fs.Valid() && Creatable(fs, path)
    requires n <= input.Length && input != fs.files.buffer && input != fs.vol.fatBuffer && input != fs.dir.buffer
    requires n <= out.Length && out != fs.files.buffer && out != fs.vol.fatBuffer && out != fs.dir.buffer
        && out != input
    requires n <= Free(fs.vol.table) * fs.vol.geo.bytesPerCluster && HasFreeHandle(fs)
    modifies fs.vol.Footprint(), fs.files.buffer, fs.dir.buffer, out, fs`heads, set f: OpenFile | f in fs.files.files
    ensures fs.Valid() && fs.files.UseBut(-1)
    ensures r == n && out[..n] == input[..n]
  {
    hide Consistent, IsTableOf, Geometry.WellFormed, DistinctFiles, Sound, FreeCount, HasFreeHandle, StoredAt,
         Creatable;
    CreatableName(fs, path);
    Store(fs, path, input, n);
    r := Load(fs, path, out, n, input[..n]);
  }

  /** What a handle on a stored file starts with. */
  lemma StoredHandle(t: Table, data: Data, s: Slot, d: uint32, name: seq<uint8>, bytes: seq<uint8>)
    requires Stored(t, data, s, bytes)
    ensures !HasDir(s)
    ensures var h, ch := OpenedOn(d, name, InfoOf(s)), ChainOf(t, FirstCluster(s));
      && h.inUse && !h.dirty && h.position == 0 && h.size == |bytes|
      && (bytes != [] ==>
            && IsChain(t, ch) && ch != [] && h.firstCluster == h.currentCluster == ch[0]
            && |bytes| <= |Content(data, ch)| && Content(data, ch)[..|bytes|] == bytes)
  {
    hide Content, IsChain;
  }
}
