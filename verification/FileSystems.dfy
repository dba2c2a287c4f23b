/** drivers/fat32/file.c on whole volumes: paths, opening, creating, deleting and renaming. */
module FileSystems {
  import opened Arithmetic
  import opened Bytes
  import opened Chains
  import opened Contents
  import opened DirMaps
  import opened Directories
  import opened Fat
  import opened Files
  import opened Geometry
  import opened Handles
  import opened Image
  import opened Ledger
  import opened Lookups
  import opened MakeDirs
  import opened Memory
  import opened Paths
  import opened Renames
  import opened ShortNames
  import opened Slots
  import opened Soundness
  import opened Tokens

  class FileSystem {
    const vol: Volume
    const dir: Directory
    const files: FileTable
    var currentDirectory: uint32

    /** The directories of the volume, and the first clusters of the chains that open files hold. */
    ghost var dirs: set<uint32>
    ghost var heads: set<uint32>

    /** The parts fit together and the device works. */
    ghost predicate Ready()
      reads vol, vol.fatBuffer, vol.dev
    {
      && dir.vol == vol && files.vol == vol
      && dir.buffer != files.buffer
      && dir.Valid() && files.Valid()
      && vol.dev.reliable
    }

    /** The volume is in order, the chains of open files included. */
    ghost predicate Valid()
      reads this, vol, vol.fatBuffer, vol.dev
    {
      && Ready()
      && Sound(vol.table, vol.data, dirs, heads)
      && vol.geo.rootCluster in dirs
      && InTree(dirs, currentDirectory)
    }

    constructor (vol: Volume, ghost dirs: set<uint32>)
      requires vol.Valid() && vol.dev.reliable
      requires Sound(vol.table, vol.data, dirs, {}) && vol.geo.rootCluster in dirs
      ensures Valid() && this.vol == vol && this.dirs == dirs && heads == {} && currentDirectory == vol.geo.rootCluster
      ensures forall f | f in files.files :: !f.inUse && fresh(f)
      ensures fresh(dir.buffer) && fresh(files.buffer)
    {
      hide Consistent, IsTableOf, Geometry.WellFormed, DistinctFiles, Sound;
      this.vol := vol;
      this.dir := new Directory(vol);
      this.files := new FileTable(vol);
      this.currentDirectory := vol.geo.rootCluster;
      this.dirs, this.heads := dirs, {};
    }

    lemma SoundClosed()
      requires Valid()
      ensures Closed(vol.table, vol.data, dirs)
    {}

    /** The directory a path starts from. */
    function StartOf(path: seq<uint8>): uint32
      reads this
    {
      if path != [] && path[0] == SLASH then vol.geo.rootCluster else currentDirectory
    }

    /** A path of at most 255 bytes in its 256-byte buffer. */
    ghost function Padded(p: seq<uint8>): (b: seq<uint8>)
      requires |p| < MAX_PATH
      ensures |b| == MAX_PATH && b[..|p|] == p && forall i | |p| <= i < MAX_PATH :: b[i] == 0
    {
      p + Repeat(0, MAX_PATH - |p|)
    }

    /** The local copy of a path: at most 255 bytes, ended by zeros. */
    method CopyPath(path: seq<uint8>) returns (copy: array<uint8>)
      ensures fresh(copy) && copy[..] == Padded(Take(path, 255))
    {
      copy := new uint8[MAX_PATH];
      var i := 0;
      while i < 255 && i < |path|
        invariant 0 <= i <= |Take(path, 255)|
        invariant copy[..i] == path[..i]
      {
        copy[i] := path[i];
        i := i + 1;
      }
      while i < MAX_PATH
        invariant |Take(path, 255)| <= i <= MAX_PATH
        invariant copy[..|Take(path, 255)|] == Take(path, 255)
        invariant forall j | |Take(path, 255)| <= j < i :: copy[j] == 0
      {
        copy[i] := 0;
        i := i + 1;
      }
      assert copy[..] == copy[..|Take(path, 255)|] + copy[|Take(path, 255)|..];
    }

    /** The reverse scan for the last slash. */
    method FindLastSlash(copy: array<uint8>, ghost p: seq<uint8>, n: nat) returns (i: int)
      requires n == |p| <= copy.Length && copy[..n] == p
      ensures i == LastIndex(p, SLASH)
    {
      i := n - 1;
      assert p[..n] == p;
      while i >= 0
        invariant -1 <= i < n
        invariant LastIndex(p, SLASH) == LastIndex(p[..i + 1], SLASH)
      {
        assert copy[i] == p[i];
        if copy[i] == SLASH {
          return i;
        }
        assert p[..i + 1][..i] == p[..i];
        i := i - 1;
      }
    }

    /** One component of a path: the directory of that name below `current`. */
    method EnterNext(current: uint32, name: seq<uint8>) returns (ok: bool, next: uint32)
      requires Ready() && Closed(vol.table, vol.data, dirs) && InTree(dirs, current)
      modifies vol.Footprint(), dir.buffer
      ensures Ready() && vol.table == old(vol.table) && vol.data == old(vol.data)
      ensures ok == (Enter(vol.table, vol.data, current, name) >= 0)
      ensures ok ==> next == Enter(vol.table, vol.data, current, name) && InTree(dirs, next)
    {
      hide Consistent, IsTableOf, Geometry.WellFormed, DistinctFiles, Closed, Enter, Find, DirSlots, Reports;
      EnterClosed(vol.table, vol.data, dirs, current, name);
      next := current;
      var info;
      ok, info := dir.FindEntry(current, name);
      EnterIs(vol.table, vol.data, current, name, ok, info);
      if !ok {
        return;
      }
      if !IsDirectory(info) {
        return false, current;
      }
      next := info.firstCluster;
    }

    /** The `strtok` loop over directory components: follows them from `start` by lookups. */
    method WalkPath(copy: array<uint8>, from: nat, start: uint32) returns (ok: bool, current: uint32)
      requires Ready() && Closed(vol.table, vol.data, dirs) && InTree(dirs, start)
      requires from < copy.Length && copy[copy.Length - 1] == 0
      requires copy != dir.buffer && copy != vol.fatBuffer
      modifies vol.Footprint(), dir.buffer, copy
      ensures Ready() && vol.table == old(vol.table) && vol.data == old(vol.data)
      ensures var c := Resolve(vol.table, vol.data, start, Components(StringAt(old(copy[..]), from)));
        ok == (c >= 0) && (ok ==> current == c)
    {
      hide Consistent, IsTableOf, Geometry.WellFormed, DistinctFiles, Closed, Components, CString, StringAt, Enter,
           Find, DirSlots, Resolve, InTree;
      ghost var t, data := vol.table, vol.data;
      current := start;
      var tok := new Tokenizer(copy);
      tok.save := from;
      ghost var names := Components(StringAt(copy[..], from));
      ghost var left := names;
      var segment := tok.Next();
      EmptyPath(t, data, current);
      while segment >= 0
        invariant Ready() && vol.table == t && vol.data == data
        invariant tok.Valid() && tok.buf == copy && segment < copy.Length && fresh(tok)
        invariant Closed(t, data, dirs) && InTree(dirs, current)
        invariant Resolve(t, data, start, names) == Resolve(t, data, current, left)
        invariant if segment < 0 then left == []
                  else left == [StringAt(copy[..], segment)] + Components(Rest(copy[..], tok.save))
        decreases |left|
      {
        var name := CString(copy[segment..]);
        SegmentName(copy[..], segment);
        assert copy[..][segment..] == copy[segment..];
        ResolveStep(t, data, current, name, left[1..]);
        ok, current := EnterNext(current, name);
        if !ok {
          return;
        }
        left := left[1..];
        segment := tok.Next();
      }
      EmptyPath(t, data, current);
      return true, current;
    }

    lemma SegmentName(b: seq<uint8>, i: nat)
      requires i <= |b|
      ensures StringAt(b, i) == CString(b[i..])
    {}

    lemma ResolveStep(t: Table, data: Data, c: uint32, name: seq<uint8>, rest: seq<seq<uint8>>)
      ensures Resolve(t, data, c, [name] + rest)
           == if Enter(t, data, c, name) < 0 then -1 else Resolve(t, data, Enter(t, data, c, name), rest)
    {
      assert ([name] + rest)[0] == name && ([name] + rest)[1..] == rest;
    }

    lemma EnterIs(t: Table, data: Data, c: uint32, name: seq<uint8>, found: bool, info: Info)
      requires var slots := SlotsAt(t, data, c);
        var i := Find(slots, UpperAll(name), true);
        found == (i >= 0) && (found ==> info == InfoOf(slots[i]))
      ensures Enter(t, data, c, name) == if found && IsDirectory(info) then info.firstCluster else -1
    {}

    /** The in-place split of the copied path at its last slash. */
    method SplitCopy(path: seq<uint8>) returns (copy: array<uint8>, lastSlash: int, filename: seq<uint8>)
      requires 0 !in path
      ensures fresh(copy) && copy.Length == MAX_PATH
      ensures filename == FilePart(Take(path, 255)) && lastSlash == LastIndex(Take(path, 255), SLASH)
      ensures lastSlash >= 0 ==> copy[..] == Padded(Take(path, 255))[lastSlash := 0]
    {
      hide LastIndex, Padded;
      copy := CopyPath(path);
      ghost var p := Take(path, 255);
      var n := if |path| < 255 then |path| else 255;
      assert copy[..n] == copy[..][..n] == p;
      lastSlash := FindLastSlash(copy, p, n);
      filename := copy[lastSlash + 1..n];
      assert filename == copy[..n][lastSlash + 1..];
      if lastSlash >= 0 {
        copy[lastSlash] := 0;
      }
    }

    /**
     * `parse_path`: the directory named by everything before the last slash, and the rest as a
     * file name. Paths are cut to 255 bytes.
     */
    method ParsePath(path: seq<uint8>) returns (ok: bool, dirCluster: uint32, filename: seq<uint8>)
      requires Ready() && Closed(vol.table, vol.data, dirs) && 0 !in path
      requires InTree(dirs, vol.geo.rootCluster) && InTree(dirs, currentDirectory)
      modifies vol.Footprint(), dir.buffer
      ensures Ready() && vol.table == old(vol.table) && vol.data == old(vol.data)
      ensures var p := Take(path, 255);
        var c := PathDir(vol.table, vol.data, vol.geo.rootCluster, currentDirectory, p);
        && ok == (c >= 0)
        && (ok ==> dirCluster == c && InTree(dirs, c) && filename == FilePart(p))
    {
      hide Consistent, IsTableOf, Geometry.WellFormed, DistinctFiles, Closed, CString, Resolve, LastIndex, Components,
           StringAt, Padded, DirPart, FilePart, Take;
      var current := if path != [] && path[0] == SLASH then vol.geo.rootCluster else currentDirectory;
      ghost var p := Take(path, 255);
      TakeHead(path);
      ghost var names := Components(DirPart(p));
      ResolveClosed(vol.table, vol.data, dirs, current, names);
      EmptyPath(vol.table, vol.data, current);
      var copy, lastSlash;
      copy, lastSlash, filename := SplitCopy(path);
      DirString(p, lastSlash);
      if lastSlash > 0 {
        assert copy[0] == copy[..][0] && copy[MAX_PATH - 1] == copy[..][MAX_PATH - 1];
        if copy[0] == SLASH {
          ok, dirCluster := WalkPath(copy, 1, current);
        } else {
          ok, dirCluster := WalkPath(copy, 0, current);
        }
      } else {
        ok, dirCluster := true, current;
      }
    }

    lemma TakeHead(path: seq<uint8>)
      requires 0 !in path
      ensures var p := Take(path, 255);
        |p| < MAX_PATH && 0 !in p && (p == [] <==> path == []) && (p != [] ==> p[0] == path[0])
    {}

    lemma EmptyPath(t: Table, data: Data, c: uint32)
      ensures Components([]) == [] && Resolve(t, data, c, []) == c
    {}

    /** The directory part as the string left in the copy, with or without its leading slash. */
    lemma DirString(p: seq<uint8>, l: int)
      requires |p| < MAX_PATH && 0 !in p && l == LastIndex(p, SLASH)
      ensures l <= 0 ==> Components(DirPart(p)) == []
      ensures l > 0 ==>
                var b := Padded(p)[l := 0];
                && b[MAX_PATH - 1] == 0 && b[0] == p[0]
                && Components(StringAt(b, 0)) == Components(DirPart(p))
                && (p[0] == SLASH ==> Components(StringAt(b, 1)) == Components(DirPart(p)))
    {
      hide Padded, LastIndex;
      if l > 0 {
        var b := Padded(p)[l := 0];
        assert b[..l] == p[..l] == DirPart(p);
        assert b[0..][..l] == p[..l];
        CStringPrefix(b[0..], l);
        if p[0] == SLASH {
          assert b[1..][..l - 1] == p[..l][1..];
          CStringPrefix(b[1..], l - 1);
        }
      }
    }

    // ----- Operations on names

    /** The directory a path leads to, or -1. */
    ghost function Target(path: seq<uint8>): (c: int)
      reads this, vol
      ensures c == -1 || 0 <= c < TWO_TO_THE_32
    {
      PathDir(vol.table, vol.data, vol.geo.rootCluster, currentDirectory, Take(path, 255))
    }

    /** The directory a path leads to, when it leads to one. */
    ghost function TargetDir(path: seq<uint8>): uint32
      reads this, vol
    {
      if Target(path) < 0 then 0 else Target(path)
    }

    ghost function TargetSlots(path: seq<uint8>): seq<Slot>
      reads this, vol
    {
      if Target(path) < 0 then [] else SlotsAt(vol.table, vol.data, Target(path))
    }

    /** The last component of a path, as the driver reads it. */
    function LastName(path: seq<uint8>): seq<uint8> {
      FilePart(Take(path, 255))
    }

    /** Which slot a path names, or -1. */
    ghost function Lookup(path: seq<uint8>): int
      reads this, vol
    {
      Find(TargetSlots(path), UpperAll(LastName(path)), true)
    }

    /** The slot a path names, if it names one. */
    ghost function Entry(path: seq<uint8>): Slot
      reads this, vol
    {
      if Lookup(path) >= 0 then TargetSlots(path)[Lookup(path)] else Repeat(0, SLOT_SIZE)
    }

    /** No volume label hides the entry a path names from deletions and updates. */
    ghost predicate Plain(path: seq<uint8>)
      reads this, vol
    {
      Lookup(path) >= 0 ==> Find(TargetSlots(path), UpperAll(LastName(path)), false) == Lookup(path)
    }

    lemma TargetInTree(path: seq<uint8>)
      requires Valid()
      ensures Target(path) >= 0 ==> InTree(dirs, Target(path)) && IsDir(vol.table, Target(path))
      ensures |TargetSlots(path)| > 0 ==> Target(path) >= 0 && Target(path) in dirs
    {
      SoundClosed();
      hide Sound, Closed;
      var p := Take(path, 255);
      ResolveClosed(vol.table, vol.data, dirs, StartOf(p), Components(DirPart(p)));
      assert Closed(vol.table, vol.data, dirs);
      EnterClosed(vol.table, vol.data, dirs, StartOf(p), []);
      if Target(path) >= 0 {
        EnterClosed(vol.table, vol.data, dirs, Target(path), []);
      }
    }

    /** `fat32_create_file`: a new empty file, unless the name is taken or the directory is full. */
    method CreateFile(path: seq<uint8>) returns (ok: bool)
      requires Valid() && 0 !in path
      modifies vol.Footprint(), dir.buffer
      ensures Ready() && vol.table == old(vol.table)
      ensures ok == (old(Target(path)) >= 0 && old(Lookup(path)) < 0 && FindFree(old(TargetSlots(path))) >= 0)
      ensures !ok ==> vol.data == old(vol.data)
      ensures ok ==> OneSlotChanged(vol.table, old(vol.data), vol.data, old(TargetDir(path)),
          FindFree(old(TargetSlots(path))),
                                    MakeSlot(LastName(path), ATTR_ARCHIVE, 0, 0))
      ensures !ok || Storable(LastName(path)) ==> Valid()
      ensures ok ==> (Valid() <==> !Shadowed(old(TargetSlots(path)), LastName(path)))
      ensures ok && Valid() ==>
                DirMap(SlotsAt(vol.table, vol.data, old(TargetDir(path))))
                == MapWith(DirMap(old(TargetSlots(path))), MakeSlot(LastName(path), ATTR_ARCHIVE, 0, 0))
      ensures ok && Storable(LastName(path)) ==>
                DirMap(SlotsAt(vol.table, vol.data, old(TargetDir(path))))
                == DirMap(old(TargetSlots(path)))[UpperAll(LastName(path)) :=
                     Info(UpperAll(LastName(path)), 0x20, 0, 0)]
    {
      hide Consistent, IsTableOf, Geometry.WellFormed, DistinctFiles, Sound, Closed, Find, FindFree, DirSlots,
           OneSlotChanged, MakeSlot, PathDir, DirMap, UpperAll, Shadowed, MapWith, Storable, Reports;
      SoundClosed();
      TargetInTree(path);
      var dirCluster, filename;
      ok, dirCluster, filename := ParsePath(path);
      if !ok {
        return false;
      }
      var found, info := dir.FindEntry(dirCluster, filename);
      if found {
        return false;
      }
      ok := dir.CreateEntry(dirCluster, filename, ATTR_ARCHIVE, 0, 0);
      if ok {
        CreateExact(vol.table, old(vol.data), vol.data, dirs, heads, dirCluster, filename, ATTR_ARCHIVE, 0);
      }
    }

    /**
     * A new empty file, or an entry for a directory of the tree, under a name that no lookup finds: the
     * volume stays in order exactly when the entry shadows none of the directory's.
     */
    lemma CreateExact(t: Table, data: Data, data': Data, dirs: set<uint32>, heads: set<uint32>, d: uint32,
                      name: seq<uint8>, attributes: uint8, c: uint32)
      requires Sound(t, data, dirs, heads) && d in dirs && 0 !in name
      requires Find(SlotsAt(t, data, d), UpperAll(name), true) < 0 && FindFree(SlotsAt(t, data, d)) >= 0
      requires (attributes == ATTR_ARCHIVE && c == 0) || (attributes == ATTR_DIRECTORY && c in dirs)
      requires OneSlotChanged(t, data, data', d, FindFree(SlotsAt(t, data, d)), MakeSlot(name, attributes, c, 0))
      ensures Sound(t, data', dirs, heads) <==> !Shadowed(SlotsAt(t, data, d), name)
      ensures Sound(t, data', dirs, heads) ==>
                DirMap(SlotsAt(t, data', d)) == MapWith(DirMap(SlotsAt(t, data, d)), MakeSlot(name, attributes, c, 0))
      ensures Storable(name) ==>
                && Sound(t, data', dirs, heads)
                && DirMap(SlotsAt(t, data', d))
                   == DirMap(SlotsAt(t, data, d))[UpperAll(name) := Info(UpperAll(name), attributes, c, 0)]
    {
      hide Find, FindFree, DirSlots, MakeSlot, Key, DirMap, SoundDirs, SoundFiles, WellFormed, Live, HasFile, HasDir,
           Held, Shadowed, Storable;
      var slots, s := SlotsAt(t, data, d), MakeSlot(name, attributes, c, 0);
      MadeSlotKind(name, attributes, c);
      WellFormedAt(t, data, dirs, d);
      CreatedExact(slots, name, attributes, c, 0);
      if Shadowed(slots, name) {
        if Sound(t, data', dirs, heads) {
          WellFormedAt(t, data', dirs, d);
        }
      } else {
        PlainSlotKeeps(t, data, data', dirs, heads, d, FindFree(slots), s);
      }
      if Storable(name) {
        StorableUnshadowed(slots, name);
        MadeSlotLive(name, attributes, c, 0);
      }
    }

    /** A new directory keeps the volume in order exactly when its entry shadows none of its parent's. */
    lemma DirMade(t: Table, data: Data, t1: Table, data1: Data, data2: Data, dirs: set<uint32>, heads: set<uint32>,
                  b: nat, c: uint32, d: uint32, name: seq<uint8>)
      requires Sound(t, data, dirs, heads) && b >= 2 * SLOT_SIZE && b % SLOT_SIZE == 0 && InTree(dirs, d)
      requires 0 !in name && c == LeastFree(t) && FreshCluster(t, data, t1, data1, c, NewDirBytes(b, c, d))
      requires Find(SlotsAt(t, data, d), UpperAll(name), true) < 0 && FindFree(SlotsAt(t, data, d)) >= 0
      requires SlotsAt(t1, data1, d) == SlotsAt(t, data, d)
      requires OneSlotChanged(t1, data1, data2, d, FindFree(SlotsAt(t, data, d)), MakeSlot(name, ATTR_DIRECTORY, c, 0))
      ensures d in dirs && MadeDir(b, t, data, t1, data2, d, name, c)
      ensures Storable(name) ==> Sound(t1, data2, dirs + {c}, heads)
      ensures Sound(t1, data2, dirs + {c}, heads) <==> !Shadowed(SlotsAt(t, data, d), name)
    {
      hide Sound, Find, FindFree, DirSlots, OneSlotChanged, MakeSlot, FreshCluster, MadeDir, FreeFrom, NewDirBytes,
           Shadowed, Storable;
      EmptyDirectory(t, data);
      assert d in dirs;
      FreshDir(t, data, t1, data1, dirs, heads, b, c, d);
      MadeDirIs(t, data, t1, data1, data2, dirs, heads, b, c, d, name);
      CreateExact(t1, data1, data2, dirs + {c}, heads, d, name, ATTR_DIRECTORY, c);
    }

    lemma MadeSlotKind(name: seq<uint8>, attributes: uint8, c: uint32)
      requires (attributes == ATTR_ARCHIVE && c == 0) || attributes == ATTR_DIRECTORY
      ensures var s := MakeSlot(name, attributes, c, 0);
        !HasFile(s) && (HasDir(s) ==> attributes == ATTR_DIRECTORY) && FirstCluster(s) == c
    {
      hide MakeSlot, Key;
      MakeSlotFields(name, attributes, c, 0);
    }

    // ----- New directories

    lemma WholeSlots()
      requires vol.Valid()
      ensures vol.geo.bytesPerCluster >= 2 * SLOT_SIZE && vol.geo.bytesPerCluster % SLOT_SIZE == 0
    {
      hide Consistent, IsTableOf, Geometry.WellFormed;
      vol.Facts();
      DivModUnique(vol.geo.bytesPerCluster, SLOT_SIZE, vol.geo.sectorsPerCluster * 16, 0);
    }

    /** The fresh cluster of a new directory below `d`: its FAT entry and its "." and ".." slots. */
    method StartDir(d: uint32) returns (c: uint32)
      requires Valid() && InTree(dirs, d)
      modifies vol.Footprint(), files.buffer
      ensures Valid() && c == LeastFree(old(vol.table)) && vol.table == Allocated(old(vol.table))
      ensures c == 0 ==> vol.data == old(vol.data)
      ensures c != 0 ==> FreshCluster(old(vol.table), old(vol.data), vol.table, vol.data, c,
          NewDirBytes(vol.geo.bytesPerCluster, c, d))
    {
      hide Consistent, IsTableOf, Geometry.WellFormed, DistinctFiles, Sound, FreeFrom, NewDirBytes;
      ghost var t, data := vol.table, vol.data;
      vol.Facts();
      c := vol.AllocateCluster();
      if c == 0 {
        return;
      }
      var b := vol.geo.bytesPerCluster;
      FillDots(files.buffer, b, c, d);
      vol.Facts();
      var _, _ := vol.WriteCluster(c, files.buffer[..b]);
      StartedKeeps(t, data, vol.table, vol.data, dirs, heads, c, NewDirBytes(b, c, d));
    }

    /** A cluster taken but not entered anywhere leaves the volume in order. */
    lemma StartedKeeps(t: Table, data: Data, t1: Table, data1: Data, dirs: set<uint32>, heads: set<uint32>, c: uint32,
        bytes: seq<uint8>)
      requires Sound(t, data, dirs, heads) && FreshCluster(t, data, t1, data1, c, bytes)
      ensures Sound(t1, data1, dirs, heads)
    {
      hide Sound;
      FreshHeld(t, data, t1, data1, dirs, heads, c, bytes);
      DropHead(t1, data1, dirs, heads + {c}, {c});
      assert heads + {c} - {c} == heads;
    }

    /** The part of `fat32_create_dir` after its lookups. */
    method MakeDirAt(d: uint32, name: seq<uint8>) returns (ok: bool)
      requires Valid() && InTree(dirs, d) && 0 !in name
      requires Find(SlotsAt(vol.table, vol.data, d), UpperAll(name), true) < 0
      modifies vol.Footprint(), files.buffer, dir.buffer, this`dirs
      ensures Ready()
      ensures DirOutcome(ok, old(vol.table), old(vol.data), vol.table, vol.data, d, name)
      ensures !ok ==> Valid() && dirs == old(dirs)
      ensures ok ==> dirs == old(dirs) + {LeastFree(old(vol.table))} && (Storable(name) ==> Valid())
      ensures ok ==> (Valid() <==> !Shadowed(SlotsAt(old(vol.table), old(vol.data), d), name))
    {
      hide Shadowed, Consistent, IsTableOf, Geometry.WellFormed, DistinctFiles, Sound, Find, FindFree, DirSlots,
           OneSlotChanged, MakeSlot, FreshCluster, MadeDir, FreeFrom, NewDirBytes, InTree, SlotsAt, Storable, UpperAll;
      ghost var t, data := vol.table, vol.data;
      TreeSlots(d);
      vol.Facts();
      var c := StartDir(d);
      if c == 0 {
        return false;
      }
      ghost var t1, data1 := vol.table, vol.data;
      vol.Facts();
      WholeSlots();
      StillInTree(dirs + {c}, c);
      FreshSlots(t, data, t1, data1, dirs, heads, c, NewDirBytes(vol.geo.bytesPerCluster, c, d), d);
      ok := dir.CreateEntry(d, name, ATTR_DIRECTORY, c, 0);
      if ok {
        DirMade(t, data, t1, data1, vol.data, dirs, heads, vol.geo.bytesPerCluster, c, d, name);
        dirs := dirs + {c};
      }
    }

    /**
     * What a directory creation under an absent name does: success needs a free cluster and a free
     * slot, and a full parent costs the cluster.
     */
    ghost predicate DirOutcome(ok: bool, t: Table, data: Data, t': Table, data': Data, d: uint32, name: seq<uint8>) {
      && |t| <= BAD_CLUSTER
      && ok == (LeastFree(t) != 0 && FindFree(SlotsAt(t, data, d)) >= 0)
      && if ok then MadeDir(vol.geo.bytesPerCluster, t, data, t', data', d, name, LeastFree(t))
         else if LeastFree(t) == 0 then t' == t && data' == data
         else FreshCluster(t, data, t', data', LeastFree(t), NewDirBytes(vol.geo.bytesPerCluster, LeastFree(t), d))
    }

    /**
     * `fat32_create_dir`: a new directory with "." and "..", unless the name is taken, no cluster
     * is free or the parent is full. In the last case the cluster is lost.
     */
    method CreateDir(path: seq<uint8>) returns (ok: bool)
      requires Valid() && 0 !in path
      modifies vol.Footprint(), files.buffer, dir.buffer, this`dirs
      ensures Ready()
      ensures old(Target(path)) < 0 || old(Lookup(path)) >= 0 ==>
                !ok && vol.table == old(vol.table) && vol.data == old(vol.data)
      ensures old(Target(path)) >= 0 && old(Lookup(path)) < 0 ==>
                DirOutcome(ok, old(vol.table), old(vol.data), vol.table, vol.data, old(TargetDir(path)), LastName(path))
      ensures !ok ==> Valid() && dirs == old(dirs)
      ensures ok ==> dirs == old(dirs) + {LeastFree(old(vol.table))} && (Storable(LastName(path)) ==> Valid())
      ensures ok ==> (Valid() <==> !Shadowed(old(TargetSlots(path)), LastName(path)))
      ensures old(Target(path)) >= 0 && old(Lookup(path)) < 0 ==>
                Free(vol.table) == Free(old(vol.table)) - (if Free(old(vol.table)) > 0 then 1 else 0)
    {
      hide Shadowed, Consistent, IsTableOf, Geometry.WellFormed, DistinctFiles, Sound, Closed, Find, DirSlots, PathDir,
           FreeFrom, FileSystem.DirOutcome, Reports, FreeCount;
      SoundClosed();
      TargetInTree(path);
      var d, dirname;
      ok, d, dirname := ParsePath(path);
      if !ok {
        return;
      }
      var found, info := dir.FindEntry(d, dirname);
      if found {
        return false;
      }
      ok := MakeDirAt(d, dirname);
      OutcomeCosts(ok, old(vol.table), old(vol.data), vol.table, vol.data, d, dirname);
    }

    /** Once the lookups are through, a directory creation costs a cluster, if there is one, even when it fails. */
    lemma OutcomeCosts(ok: bool, t: Table, data: Data, t': Table, data': Data, d: uint32, name: seq<uint8>)
      requires DirOutcome(ok, t, data, t', data', d, name)
      ensures Free(t') == Free(t) - (if Free(t) > 0 then 1 else 0)
    {
      hide FreeCount, FreeFrom, SlotsAt, FindFree, NewDirBytes;
      NoneFree(t, 2);
      if LeastFree(t) != 0 {
        FreeCountUpdate(t, 2, LeastFree(t), EOC);
      }
    }

    // ----- Deleting

    /** The path names, if anything, a regular file that no handle holds and no volume label hides. */
    ghost predicate Deletable(path: seq<uint8>)
      reads this, vol
    {
      Plain(path) && (Lookup(path) >= 0 ==> !HasDir(Entry(path)) && FirstCluster(Entry(path)) !in heads)
    }

    /** A slot found by path is a live slot of a directory of the volume. */
    lemma LookupLive(path: seq<uint8>)
      requires Valid() && Lookup(path) >= 0
      ensures Target(path) >= 0 && Target(path) in dirs
      ensures Lookup(path) < |TargetSlots(path)| && Live(TargetSlots(path)[Lookup(path)])
      ensures WellFormed(TargetSlots(path))
    {
      TargetInTree(path);
    }

    /**
     * `fat32_delete`: gives back exactly the file's chain and removes exactly its name, and the
     * volume stays in order.
     */
    method Delete(path: seq<uint8>) returns (ok: bool)
      requires Valid() && 0 !in path && Deletable(path)
      modifies vol.Footprint(), dir.buffer
      ensures Valid()
      ensures ok == (old(Lookup(path)) >= 0)
      ensures !ok ==> vol.table == old(vol.table) && vol.data == old(vol.data)
      ensures ok ==>
                var t, d, slots, i := old(vol.table), old(TargetDir(path)), old(TargetSlots(path)), old(Lookup(path));
                && vol.table == Released(t, FirstCluster(slots[i]))
                && OneSlotChanged(t, old(vol.data), vol.data, d, i, DeleteSlot(slots[i]))
                && SlotsAt(vol.table, vol.data, d) == slots[i := DeleteSlot(slots[i])]
                && DirMap(slots[i := DeleteSlot(slots[i])]) == DirMap(slots) - {UpperAll(LastName(path))}
    {
      hide Consistent, IsTableOf, Geometry.WellFormed, DistinctFiles, Sound, Closed, Find, DirSlots, PathDir, IsChain,
           Freed, Live, HasDir, DirMap, WellFormed, WalkInRange, FreeCount, Reports;
      SoundClosed();
      TargetInTree(path);
      ghost var t, data := vol.table, vol.data;
      ghost var slots, i := TargetSlots(path), Lookup(path);
      if i >= 0 {
        LookupLive(path);
        RemovableChain(t, data, dirs, heads, Target(path), i);
        ReleaseKeepsDirs(t, data, dirs, heads, Target(path), i);
        DeleteIsRemove(slots, UpperAll(LastName(path)));
      }
      var dirCluster, filename;
      ok, dirCluster, filename := ParsePath(path);
      if !ok {
        return false;
      }
      var found, info := dir.FindEntry(dirCluster, filename);
      if !found {
        return false;
      }
      if info.firstCluster >= 2 {
        var _ := vol.FreeChain(info.firstCluster);
      }
      ok := dir.DeleteEntry(dirCluster, filename);
      RemoveKeeps(t, data, vol.data, dirs, heads, dirCluster, i);
    }

    // ----- Renaming

    /** The new name is storable and absent, and no volume label hides the old one. */
    ghost predicate Renamable(oldPath: seq<uint8>, newPath: seq<uint8>)
      reads this, vol
    {
      Storable(LastName(newPath)) && Lookup(newPath) < 0 && Plain(oldPath)
    }

    /** The part of a rename that follows the two path lookups. */
    method MoveEntry(d: uint32, oldName: seq<uint8>, e: uint32, newName: seq<uint8>) returns (ok: bool)
      requires Valid() && InTree(dirs, d) && InTree(dirs, e)
      requires 0 !in newName && |oldName| < MAX_PATH
      modifies vol.Footprint(), dir.buffer
      ensures Ready() && vol.table == old(vol.table)
      ensures MoveOutcome(ok, vol.table, old(vol.data), vol.data, d, oldName, e, newName)
      ensures !ok ==> Valid()
      ensures ok ==> (Valid() <==> RenameKeeps(vol.table, old(vol.data), d,
          Find(SlotsAt(vol.table, old(vol.data), d), UpperAll(oldName), true), oldName, e, newName))
    {
      hide Consistent, IsTableOf, Geometry.WellFormed, DistinctFiles, Sound, Find, FindFree, DirSlots, IsChain, Live,
           HasDir, WellFormed, MakeSlot, OneSlotChanged, UpperAll, DeleteSlot, RenameLeaves, RenameKeeps, RenameStarts,
           SlotsAt, Reports;
      ghost var t, data := vol.table, vol.data;
      ghost var i := Find(SlotsAt(t, data, d), UpperAll(oldName), true);
      TreeSlots(d);
      TreeSlots(e);
      var found, info := dir.FindEntry(d, oldName);
      if !found {
        return false;
      }
      ok := dir.CreateEntry(e, newName, info.attributes, info.firstCluster, info.size);
      if !ok {
        return false;
      }
      ghost var data1 := vol.data;
      RenamedIs(SlotsAt(t, data, d)[i], newName);
      RenameCan(t, data, dirs, heads, d, i, oldName, e, newName);
      StillFound(t, data, data1, dirs, heads, d, i, oldName, e, newName);
      ok := dir.DeleteEntry(d, oldName);
      RenameSlots(t, data, data1, vol.data, dirs, heads, d, i, oldName, e, newName);
      RenameVolume(t, data, vol.data, dirs, heads, d, i, oldName, e, newName);
    }

    /** A rename succeeds when the old name is found and there is a slot for the copy. */
    ghost predicate MoveOutcome(ok: bool, t: Table, data: Data, data': Data, d: uint32, oldName: seq<uint8>, e: uint32,
        newName: seq<uint8>)
      reads this
    {
      var i := Find(SlotsAt(t, data, d), UpperAll(oldName), true);
      && ok == (i >= 0 && FindFree(SlotsAt(t, data, e)) >= 0)
      && (!ok ==> data' == data)
      && (ok ==> RenameLeaves(t, data, data', dirs, d, i, oldName, e, newName))
    }

    lemma RenameCan(t: Table, data: Data, dirs: set<uint32>, heads: set<uint32>,
                    d: uint32, i: int, oldName: seq<uint8>, e: uint32, newName: seq<uint8>)
      requires Sound(t, data, dirs, heads) && InTree(dirs, d) && InTree(dirs, e) && 0 !in newName
      requires 0 <= i == Find(SlotsAt(t, data, d), UpperAll(oldName), true) && FindFree(SlotsAt(t, data, e)) >= 0
      ensures RenameStarts(t, data, dirs, heads, d, i, oldName, e, newName)
    {
      hide Find, FindFree, UpperAll, Sound;
      EmptyDirectory(t, data);
    }

    lemma StillInTree(more: set<uint32>, c: uint32)
      requires Valid() && more == dirs + {c}
      ensures vol.geo.rootCluster in more && InTree(more, currentDirectory)
    {}

    lemma TreeSlots(c: uint32)
      requires Valid() && InTree(dirs, c)
      ensures IsDir(vol.table, c) && (c == 0 || c in dirs)
    {}

    /**
     * `fat32_rename`: the copy is stored under the new name, the first slot of the old name is freed, and
     * neither the FAT nor any other slot changes. The volume stays in order exactly under `RenameKeeps`,
     * so in particular for a storable, absent new name.
     */
    method Rename(oldPath: seq<uint8>, newPath: seq<uint8>) returns (ok: bool)
      requires Valid() && 0 !in oldPath && 0 !in newPath
      modifies vol.Footprint(), dir.buffer
      ensures Ready() && vol.table == old(vol.table)
      ensures ok == (old(Lookup(oldPath)) >= 0 && old(Target(newPath)) >= 0 && FindFree(old(TargetSlots(newPath))) >= 0)
      ensures !ok ==> Valid() && vol.data == old(vol.data)
      ensures ok ==> RenameLeaves(vol.table, old(vol.data), vol.data, dirs, old(TargetDir(oldPath)),
                                  old(Lookup(oldPath)), LastName(oldPath), old(TargetDir(newPath)), LastName(newPath))
      ensures ok ==> (Valid() <==> RenameKeeps(vol.table, old(vol.data), old(TargetDir(oldPath)), old(Lookup(oldPath)),
                                               LastName(oldPath), old(TargetDir(newPath)), LastName(newPath)))
      ensures ok && old(Renamable(oldPath, newPath)) ==>
                && Valid()
                && MovedSlot(vol.table, old(vol.data), vol.data, old(TargetDir(oldPath)), old(Lookup(oldPath)),
                             old(TargetDir(newPath)), LastName(newPath))
    {
      hide Consistent, IsTableOf, Geometry.WellFormed, DistinctFiles, Sound, Closed, Find, FindFree, DirSlots, PathDir,
           MovedSlot, RenameLeaves, RenameKeeps, UpperAll, Storable, Startable, FileSystem.Renamable, Take, FilePart;
      SoundClosed();
      NameFits(oldPath);
      NameFits(newPath);
      LookupNeedsTarget(oldPath);
      RenamableStarts(oldPath, newPath);
      ghost var data, i, can := vol.data, Lookup(oldPath), Renamable(oldPath, newPath);
      ghost var d, e := TargetDir(oldPath), TargetDir(newPath);
      var oldDir, oldName, newDir, newName;
      ok, oldDir, oldName := ParsePath(oldPath);
      if !ok {
        return false;
      }
      ok, newDir, newName := ParsePath(newPath);
      if !ok {
        return false;
      }
      ok := MoveEntry(oldDir, oldName, newDir, newName);
      if ok && can {
        StartableMoves(vol.table, data, vol.data, dirs, heads, d, i, oldName, e, newName);
      }
    }

    /** A rename to a storable, absent name can start when the lookups and the slot search succeed. */
    lemma RenamableStarts(oldPath: seq<uint8>, newPath: seq<uint8>)
      requires Valid()
      ensures Renamable(oldPath, newPath) && Lookup(oldPath) >= 0 && FindFree(TargetSlots(newPath)) >= 0 ==>
                Startable(vol.table, vol.data, dirs, heads, TargetDir(oldPath), Lookup(oldPath), LastName(oldPath),
                          TargetDir(newPath), LastName(newPath))
    {
      hide Find, FindFree, Sound, PathDir, DirSlots, UpperAll, Storable;
      TargetInTree(oldPath);
      TargetInTree(newPath);
    }

    lemma NameFits(path: seq<uint8>)
      ensures |LastName(path)| < MAX_PATH && (0 !in path ==> 0 !in LastName(path))
    {}

    lemma LookupNeedsTarget(path: seq<uint8>)
      ensures Lookup(path) >= 0 ==> Target(path) >= 0
    {}

    // ----- Open files

    /** The path lookup of `fat32_open`: the entry of a regular file. */
    method FindFile(path: seq<uint8>) returns (ok: bool, d: uint32, filename: seq<uint8>, info: Info)
      requires Valid() && 0 !in path
      modifies vol.Footprint(), dir.buffer
      ensures Valid() && vol.table == old(vol.table) && vol.data == old(vol.data)
      ensures ok == old(Lookup(path) >= 0 && !HasDir(Entry(path)))
      ensures ok ==> d == old(TargetDir(path)) && filename == LastName(path) && info == InfoOf(old(Entry(path)))
    {
      hide Consistent, IsTableOf, Geometry.WellFormed, DistinctFiles, Sound, Closed, Find, DirSlots, PathDir, Live,
           HasDir, WellFormed, Reports;
      SoundClosed();
      TargetInTree(path);
      if Lookup(path) >= 0 {
        LookupLive(path);
        LiveKind(TargetSlots(path)[Lookup(path)]);
      }
      info := Info([], 0, 0, 0);
      ok, d, filename := ParsePath(path);
      if !ok {
        return;
      }
      ok, info := dir.FindEntry(d, filename);
      if !ok {
        return;
      }
      if IsDirectory(info) {
        ok := false;
      }
    }

    /** `fat32_open`: a handle on the regular file that a path names, or -1. */
    method Open(path: seq<uint8>) returns (fd: int)
      requires Valid() && 0 !in path
      modifies vol.Footprint(), dir.buffer, this`heads, set f: OpenFile | f in files.files
      ensures Valid() && vol.table == old(vol.table) && vol.data == old(vol.data)
      ensures dirs == old(dirs) && currentDirectory == old(currentDirectory)
      ensures fd == -1 || 0 <= fd < MAX_OPEN_FILES
      ensures fd == -1 <==>
              (forall h | h in old(files.States()) :: h.inUse) || old(Lookup(path) < 0 || HasDir(Entry(path)))
      ensures fd < 0 ==> files.States() == old(files.States()) && heads == old(heads)
      ensures fd >= 0 ==>
                && !old(files.States())[fd].inUse
                && files.States() == old(files.States())[fd := OpenedOn(old(TargetDir(path)), LastName(path),
                    InfoOf(old(Entry(path))))]
                && heads == old(heads) + Heads(InfoOf(old(Entry(path))).firstCluster)
      ensures fd >= 0 ==> OpensFile(files.States()[fd], old(TargetDir(path)), LastName(path), InfoOf(old(Entry(path))))
      ensures fd >= 0 && old(Plain(path)) ==> Linked(vol.table, vol.data, dirs, heads, files.States()[fd])
    {
      hide Consistent, IsTableOf, Geometry.WellFormed, DistinctFiles, Sound, HasDir, OpenedOn, InTree, Linked,
           FileSystem.Plain, FileSystem.TargetDir, FileSystem.Lookup, FileSystem.Entry, FileSystem.LastName,
           FileTable.States, OpensFile;
      fd := files.FindFreeFd();
      if fd < 0 {
        return -1;
      }
      EntryKeeps(path);
      var ok, d, filename, info := FindFile(path);
      if !ok {
        return -1;
      }
      OpenedOpens(d, filename, info);
      files.Fill(fd, OpenedOn(d, filename, info));
      heads := heads + Heads(info.firstCluster);
    }

    /** The chain of the file that a path names may join the held ones. */
    lemma EntryKeeps(path: seq<uint8>)
      requires Valid()
      ensures Lookup(path) >= 0 && !HasDir(Entry(path)) ==>
                var i := InfoOf(Entry(path));
                && Sound(vol.table, vol.data, dirs, heads + Heads(i.firstCluster))
                && (Plain(path) ==> Linked(vol.table, vol.data, dirs, heads + Heads(i.firstCluster),
                    OpenedOn(TargetDir(path), LastName(path), i)))
    {
      hide Sound, Find, DirSlots, PathDir, HasDir, WellFormed, Live, FirstCluster, Linked;
      if Lookup(path) >= 0 && !HasDir(Entry(path)) {
        LookupLive(path);
        OpenKeeps(vol.table, vol.data, dirs, heads, Target(path), Lookup(path));
        if Plain(path) {
          OpenLinks(vol.table, vol.data, dirs, heads, Target(path), LastName(path), Lookup(path));
        }
      }
    }

    lemma LiveKind(s: Slot)
      ensures Live(s) ==> HasDir(s) == IsDirectory(InfoOf(s))
    {}

    /** The chain of a file on the volume may join the held ones. */
    lemma OpenKeeps(t: Table, data: Data, dirs: set<uint32>, heads: set<uint32>, d: uint32, i: nat)
      requires Sound(t, data, dirs, heads) && d in dirs && i < |SlotsAt(t, data, d)|
      requires Live(SlotsAt(t, data, d)[i]) && !HasDir(SlotsAt(t, data, d)[i])
      ensures var c := FirstCluster(SlotsAt(t, data, d)[i]);
        Sound(t, data, dirs, heads + Heads(c)) && (c != 0 ==> ChainOf(t, c) != [])
    {
      var c := FirstCluster(SlotsAt(t, data, d)[i]);
      if c != 0 {
        assert FileAt(t, data, d, i);
        FileIsHeld(t, data, dirs, heads, d, i);
        AdoptHead(t, data, dirs, heads, c);
      } else {
        assert heads + {} == heads;
      }
    }

    /** `fat32_write` on a volume in order keeps it so. */
    method Write(fd: int, input: array<uint8>, n: uint32, ghost ch: Chain, ghost k: nat) returns (r: int, ghost m: nat)
      requires Valid() && input != files.buffer && input != vol.fatBuffer && n <= input.Length
      requires files.IsOpen(fd) && 0 < n ==>
                 && files.files[fd].position + n < TWO_TO_THE_32
                 && (files.files[fd].firstCluster != 0 ==>
                       files.files[fd].OnChain(vol.table, ch, k) && files.files[fd].firstCluster in heads)
      modifies vol.Footprint(), files.buffer, files.Slot(fd), this`heads
      ensures Valid() && r <= n && dirs == old(dirs) && currentDirectory == old(currentDirectory)
      ensures r <= 0 ==> vol.table == old(vol.table) && vol.data == old(vol.data) && heads == old(heads)
      ensures r <= 0 && 0 <= fd < |files.files| ==> files.files[fd].State() == old(files.files[fd].State())
      ensures files.IsOpen(fd) && 0 < n && old(files.files[fd].firstCluster != 0 || LeastFree(vol.table) != 0) ==> r > 0
      ensures files.IsOpen(fd) && r > 0 ==> old(files.files[fd].firstCluster != 0 || LeastFree(vol.table) != 0)
      ensures r > 0 ==>
                && files.IsOpen(fd)
                && Wrote(vol.geo.bytesPerCluster, old(vol.table), old(vol.data), old(files.files[fd].State()),
                         vol.table, vol.data, files.files[fd].State(), input[..n], ch, k, r, m)
                && heads == old(heads) + {files.files[fd].firstCluster}
                && (old(Linked(vol.table, vol.data, dirs, heads, files.files[fd].State())) ==>
                      Linked(vol.table, vol.data, dirs, heads, files.files[fd].State()))
    {
      hide Consistent, IsTableOf, Geometry.WellFormed, DistinctFiles, Sound, Wrote, IsChain, FreeFrom, Linked, InTree;
      ghost var t, data := vol.table, vol.data;
      ghost var h := if 0 <= fd < MAX_OPEN_FILES then files.files[fd].State()
          else Handle(false, false, 0, 0, 0, 0, 0, 0, 0, []);
      r, m := files.Write(fd, input, n, ch, k);
      if r > 0 {
        WroteKeeps(vol.geo.bytesPerCluster, t, data, h, vol.table, vol.data, files.files[fd].State(), input[..n], ch, k,
            r, m, dirs, heads);
        heads := heads + {files.files[fd].firstCluster};
      }
    }

    /**
     * `fat32_close`: stores size and first cluster of a changed file in its entry, writes the FAT
     * cache back and gives the handle up.
     */
    method Close(fd: int)
      requires Valid()
      requires files.IsOpen(fd) && files.files[fd].dirty
          ==> Linked(vol.table, vol.data, dirs, heads, files.files[fd].State())
      modifies vol.Footprint(), dir.buffer, files.Slot(fd)`inUse, this`heads
      ensures Valid() && vol.table == old(vol.table) && dirs == old(dirs) && currentDirectory == old(currentDirectory)
      ensures !files.IsOpen(fd)
      ensures !old(files.IsOpen(fd)) ==> vol.data == old(vol.data) && heads == old(heads)
      ensures old(files.IsOpen(fd)) ==>
                && Recorded(vol.table, old(vol.data), vol.data, old(files.files[fd].State()))
                && files.files[fd].State() == old(files.files[fd].State()).(inUse := false)
                && heads == old(heads) - Heads(files.files[fd].firstCluster)
                && !vol.dirty
    {
      hide Consistent, IsTableOf, Geometry.WellFormed, DistinctFiles, Sound, Linked, Recorded, Heads, SlotsAt, Find,
           UpperAll, UpdateSlot, OneSlotChanged;
      if fd < 0 || fd >= MAX_OPEN_FILES {
        return;
      }
      var file := files.files[fd];
      if !file.inUse {
        return;
      }
      ghost var data, h := vol.data, file.State();
      if file.dirty {
        LinkedDir(vol.table, data, dirs, heads, h);
        var _ := dir.UpdateEntry(file.parentCluster, file.filename, file.size, file.firstCluster);
      }
      RecordedIs(vol.table, data, vol.data, dirs, heads, h);
      var _ := vol.SyncFat();
      file.inUse := false;
      heads := heads - Heads(h.firstCluster);
    }
  }
}
