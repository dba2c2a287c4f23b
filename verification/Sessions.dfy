/** drivers/fat32/mount.c: the mounted volume with its working directory. */
module Sessions {
  import opened Bytes
  import opened Chains
  import opened Contents
  import opened DirMaps
  import opened Directories
  import opened Fat
  import opened Files
  import opened FileSystems
  import opened Geometry
  import opened Image
  import opened Lookups
  import opened MakeDirs
  import opened Memory
  import opened Paths
  import opened ShortNames
  import opened Slots
  import opened Soundness
  import opened Tokens
  import opened WorkingDirs

  class Session {
    const fs: FileSystem
    const currentPath: array<uint8>

    ghost predicate Valid()
      reads fs, fs.vol, fs.vol.fatBuffer, fs.vol.dev, currentPath
    {
      && fs.Valid()
      && currentPath.Length == MAX_PATH && 0 in currentPath[..]
      && currentPath != fs.vol.fatBuffer && currentPath != fs.dir.buffer && currentPath != fs.files.buffer
    }

    /** The working directory's path string. */
    ghost function Path(): seq<uint8>
      reads currentPath
    {
      CString(currentPath[..])
    }

    ghost function Here(): Cwd
      reads fs, currentPath
    {
      Cwd(fs.currentDirectory, Path())
    }

    /** The state that `fat32_parse_bpb` leaves. */
    constructor (fs: FileSystem)
      requires fs.Valid() && fs.currentDirectory == fs.vol.geo.rootCluster
      ensures Valid() && this.fs == fs && fresh(currentPath) && Here() == Cwd(fs.vol.geo.rootCluster, ROOT_PATH)
    {
      hide FileSystem.Valid, CString;
      this.fs := fs;
      var buf := new uint8[MAX_PATH](_ => 0);
      buf[0] := SLASH;
      currentPath := buf;
      new;
      assert currentPath[..][1] == 0;
      CStringPrefix(currentPath[..], 1);
      assert currentPath[..][..1] == ROOT_PATH;
    }

    /** Puts `s` and a NUL at index `at` of the path buffer. */
    method PutPath(at: nat, s: seq<uint8>)
      requires currentPath.Length == MAX_PATH && at + |s| < MAX_PATH && 0 !in s
      requires at <= |CString(currentPath[..])|
      modifies currentPath
      ensures 0 in currentPath[..] && Path() == old(Path())[..at] + s
      ensures at == 0 ==> Path() == s
    {
      ghost var b := currentPath[..];
      Store(currentPath, at, s + [0]);
      PutString(b, at, s);
    }

    lemma CStringIn(b: seq<uint8>)
      ensures CString(b) <= b && 0 !in CString(b)
    {}

    lemma PutString(b: seq<uint8>, at: nat, s: seq<uint8>)
      requires at + |s| < |b| && 0 !in s && at <= |CString(b)|
      ensures var b' := Put(b, at, s + [0]);
        b'[at + |s|] == 0 && CString(b') == CString(b)[..at] + s
    {
      hide Put, CString;
      var b' := Put(b, at, s + [0]);
      CStringIn(b);
      assert b[..at] == CString(b)[..at];
      assert b'[..at + |s|] == CString(b)[..at] + s;
      CStringPrefix(b', at + |s|);
    }

    /** Replaces the whole path string. */
    method SetPath(s: seq<uint8>)
      requires Valid() && |s| < MAX_PATH && 0 !in s
      modifies currentPath
      ensures Valid() && Path() == s
    {
      hide Consistent, IsTableOf, Geometry.WellFormed, DistinctFiles, Sound, InTree, CString;
      PutPath(0, s);
    }

    /** Changes the working directory's cluster. */
    method MoveTo(c: uint32)
      requires Valid() && InTree(fs.dirs, c)
      modifies fs`currentDirectory
      ensures Valid() && fs.currentDirectory == c
    {
      hide Consistent, IsTableOf, Geometry.WellFormed, DistinctFiles, Sound, InTree, CString;
      fs.currentDirectory := c;
    }

    /** Adds one component to the path string, or leaves it out where the string would reach 255 bytes. */
    method AppendPath(segment: seq<uint8>)
      requires currentPath.Length == MAX_PATH && 0 in currentPath[..] && 0 !in segment
      modifies currentPath
      ensures 0 in currentPath[..] && Path() == Append(old(Path()), segment)
      ensures Path() == if |Joined(old(Path()), segment)| < 255 then Joined(old(Path()), segment) else old(Path())
    {
      hide CString;
      var path := CString(currentPath[..]);
      StringShort(currentPath[..]);
      if path != ROOT_PATH {
        if |path| + |segment| + 2 < MAX_PATH {
          PutPath(|path|, [SLASH] + segment);
          assert path[..|path|] == path;
        }
      } else if |segment| + 2 < MAX_PATH {
        PutPath(1, segment);
      }
    }

    lemma {:induction false} StringShort(b: seq<uint8>)
      requires 0 in b
      ensures |CString(b)| < |b|
    {
      if b[0] != 0 {
        StringShort(b[1..]);
      }
    }

    /** Cuts the last component off the path string. */
    method CutPath()
      requires currentPath.Length == MAX_PATH && 0 in currentPath[..]
      modifies currentPath
      ensures 0 in currentPath[..] && Path() == ParentPath(old(Path()))
    {
      hide CString;
      var path := CString(currentPath[..]);
      StringShort(currentPath[..]);
      var i := |path| - 1;
      assert path[..i + 1] == path;
      while i > 0 && path[i] != SLASH
        invariant -1 <= i < |path|
        invariant LastIndex(path[..i + 1], SLASH) == LastIndex(path, SLASH)
      {
        assert path[..i + 1][..i] == path[..i];
        i := i - 1;
      }
      if i > 0 {
        PutPath(i, []);
      } else {
        PutPath(0, ROOT_PATH);
      }
    }

    /** The slots of the working directory. */
    ghost function HereSlots(): seq<Slot>
      reads fs, fs.vol
    {
      SlotsAt(fs.vol.table, fs.vol.data, fs.currentDirectory)
    }

    /** `fat32_change_dir("..")`, which does not look at what kind of entry it finds. */
    method GoUp() returns (ok: bool)
      requires Valid()
      modifies fs.vol.Footprint(), fs.dir.buffer, fs`currentDirectory, currentPath
      ensures fs.vol.table == old(fs.vol.table) && fs.vol.data == old(fs.vol.data)
      ensures Valid() <==> !UpIsFile(old(HereSlots()))
      ensures (ok, Here()) == Changed(fs.vol.table, fs.vol.data, fs.vol.geo.rootCluster, old(Here()), DOT_DOT)
    {
      hide Consistent, IsTableOf, Geometry.WellFormed, DistinctFiles, Sound, Find, DirSlots, CString, ParentPath,
           AppendAll, Components, FirstCluster, UpIsFile, Reports, Walk, Depth, UpperAll, Closed;
      fs.TreeSlots(fs.currentDirectory);
      UpLeads();
      DotsUpper();
      var info;
      ok, info := fs.dir.FindEntry(fs.currentDirectory, DOT_DOT);
      if ok {
        fs.currentDirectory := info.firstCluster;
        if fs.currentDirectory == 0 {
          fs.currentDirectory := fs.vol.geo.rootCluster;
        }
        CutPath();
      }
    }

    /** The entry named ".." leads out of the tree exactly when it belongs to a file. */
    lemma UpLeads()
      requires Valid()
      ensures var i := Find(HereSlots(), DOT_DOT, true);
        && (i >= 0 ==> (InTree(fs.dirs, InfoOf(HereSlots()[i]).firstCluster) <==> !UpIsFile(HereSlots())))
        && (i < 0 ==> !UpIsFile(HereSlots()))
    {
      hide Find, DirSlots, FirstCluster, Consistent, IsTableOf, Geometry.WellFormed, DistinctFiles;
      var i := Find(HereSlots(), DOT_DOT, true);
      if i >= 0 {
        EntryLeads(fs.vol.table, fs.vol.data, fs.dirs, fs.heads, fs.currentDirectory, i);
      }
    }

    /** Live entries of files lead to no directory, all others into the tree. */
    lemma EntryLeads(t: Table, data: Data, dirs: set<uint32>, heads: set<uint32>, d: uint32, i: nat)
      requires Sound(t, data, dirs, heads) && InTree(dirs, d)
      requires i < |SlotsAt(t, data, d)| && Live(SlotsAt(t, data, d)[i])
      ensures InTree(dirs, FirstCluster(SlotsAt(t, data, d)[i])) <==> !HasFile(SlotsAt(t, data, d)[i])
    {
      hide WellFormed, DirSlots, FirstCluster;
      EmptyDirectory(t, data);
      var s := SlotsAt(t, data, d)[i];
      if HasFile(s) {
        assert FileAt(t, data, d, i) && FileHead(t, data, d, i) == FirstCluster(s);
        HeadUsed(t, FirstCluster(s));
      }
    }

    lemma DotsUpper()
      ensures UpperAll(DOT_DOT) == DOT_DOT
    {}

    /** One component of a change: a lookup in `c`, then the path string. */
    method StepInto(c: uint32, name: seq<uint8>) returns (ok: bool, next: uint32)
      requires Valid() && InTree(fs.dirs, c) && 0 !in name
      modifies fs.vol.Footprint(), fs.dir.buffer, currentPath
      ensures Valid() && fs.vol.table == old(fs.vol.table) && fs.vol.data == old(fs.vol.data)
      ensures ok == (Step(fs.vol.table, fs.vol.data, fs.vol.geo.rootCluster, c, name) >= 0)
      ensures ok ==> next == Step(fs.vol.table, fs.vol.data, fs.vol.geo.rootCluster, c, name) && InTree(fs.dirs, next)
      ensures Path() == if ok then Append(old(Path()), name) else old(Path())
    {
      hide Consistent, IsTableOf, Geometry.WellFormed, DistinctFiles, Sound, Closed, CString, Enter, Find, DirSlots,
           InTree, Append, Session.Path;
      fs.SoundClosed();
      ok, next := fs.EnterNext(c, name);
      if !ok {
        return;
      }
      if next == 0 {
        next := fs.vol.geo.rootCluster;
        RootInTree();
      }
      AppendPath(name);
    }

    /** The `strtok` loop of `fat32_change_dir`. */
    method Descend(copy: array<uint8>, start: uint32) returns (ok: bool, c: uint32)
      requires Valid() && InTree(fs.dirs, start)
      requires copy.Length > 0 && copy[copy.Length - 1] == 0
      requires copy != fs.dir.buffer && copy != fs.vol.fatBuffer && copy != currentPath
      modifies fs.vol.Footprint(), fs.dir.buffer, copy, currentPath
      ensures Valid() && fs.vol.table == old(fs.vol.table) && fs.vol.data == old(fs.vol.data)
      ensures var (r, p) := WorkingDirs.Descend(fs.vol.table, fs.vol.data, fs.vol.geo.rootCluster, start, old(Path()),
                                                Components(StringAt(old(copy[..]), 0)));
        ok == (r >= 0) && Path() == p && (ok ==> c == r && InTree(fs.dirs, c))
    {
      hide Consistent, IsTableOf, Geometry.WellFormed, DistinctFiles, Sound, Closed, Components, CString, StringAt,
           Enter, Step, Find, DirSlots, InTree, WorkingDirs.Descend, Append, Session.Path, Session.Valid;
      ghost var t, data, root := fs.vol.table, fs.vol.data, fs.vol.geo.rootCluster;
      Parts();
      c := start;
      var tok := new Tokenizer(copy);
      tok.save := 0;
      ghost var names, path := Components(StringAt(copy[..], 0)), Path();
      ghost var left := names;
      var segment := tok.Next();
      DescendStep(t, data, root, c, Path(), [], []);
      while segment >= 0
        invariant Valid() && fs.vol.table == t && fs.vol.data == data
        invariant tok.Valid() && tok.buf == copy && segment < copy.Length && fresh(tok)
        invariant InTree(fs.dirs, c)
        invariant WorkingDirs.Descend(t, data, root, start, path, names)
            == WorkingDirs.Descend(t, data, root, c, Path(), left)
        invariant if segment < 0 then left == []
                  else left == [StringAt(copy[..], segment)] + Components(Rest(copy[..], tok.save))
        decreases |left|
      {
        var name := CString(copy[segment..]);
        fs.SegmentName(copy[..], segment);
        assert copy[..][segment..] == copy[segment..];
        DescendStep(t, data, root, c, Path(), name, left[1..]);
        ok, c := StepInto(c, name);
        if !ok {
          return;
        }
        left := left[1..];
        segment := tok.Next();
      }
      DescendStep(t, data, root, c, Path(), [], []);
      return true, c;
    }

    lemma RootInTree()
      requires fs.Valid()
      ensures InTree(fs.dirs, fs.vol.geo.rootCluster)
    {}

    /**
     * `fat32_change_dir`: the working directory moves as `Changed` says, also when the walk breaks
     * off halfway.
     */
    method ChangeDir(path: seq<uint8>) returns (ok: bool)
      requires Valid() && 0 !in path
      modifies fs.vol.Footprint(), fs.dir.buffer, fs`currentDirectory, currentPath
      ensures Valid() <==> !(path == DOT_DOT && UpIsFile(old(HereSlots())))
      ensures fs.vol.table == old(fs.vol.table) && fs.vol.data == old(fs.vol.data)
      ensures (ok, Here()) == Changed(fs.vol.table, fs.vol.data, fs.vol.geo.rootCluster, old(Here()), path)
      ensures path == ['/' as int] ==> ok && Here() == Cwd(fs.vol.geo.rootCluster, path)
      ensures path == ['.' as int] ==> ok && Here() == old(Here())
      ensures forall p | Rooted(p) :: fs.Target(p) == old(fs.Target(p)) && fs.Lookup(p) == old(fs.Lookup(p))
    {
      hide Consistent, IsTableOf, Geometry.WellFormed, DistinctFiles, Sound, Find, DirSlots, CString, ParentPath,
           AppendAll, Components, FirstCluster, Take, Changed, UpIsFile, FileSystem.Target, FileSystem.Lookup;
      ChangedCases(fs.vol.table, fs.vol.data, fs.vol.geo.rootCluster, Here(), path);
      ok := true;
      if path == ROOT_PATH {
        RootInTree();
        fs.currentDirectory := fs.vol.geo.rootCluster;
        PutPath(0, ROOT_PATH);
      } else if path == DOT_DOT {
        ok := GoUp();
      } else if path != [DOT] {
        ok := ChangeByNames(path);
      }
      RootedStay();
    }

    /** Where one is does not matter to a path that starts with a slash. */
    twostate lemma RootedStay()
      requires fs.vol.table == old(fs.vol.table) && fs.vol.data == old(fs.vol.data)
      ensures forall p | Rooted(p) :: fs.Target(p) == old(fs.Target(p)) && fs.Lookup(p) == old(fs.Lookup(p))
    {
      hide Resolve, Components, DirPart, Find;
      forall p | Rooted(p) ensures fs.Target(p) == old(fs.Target(p)) {
        assert Take(p, 255) != [] && Take(p, 255)[0] == p[0];
      }
    }

    /** The part of a change that copies the path and walks along it. */
    method ChangeByNames(path: seq<uint8>) returns (ok: bool)
      requires Valid() && 0 !in path && path != ROOT_PATH && path != DOT_DOT && path != [DOT]
      modifies fs.vol.Footprint(), fs.dir.buffer, fs`currentDirectory, currentPath
      ensures Valid() && fs.vol.table == old(fs.vol.table) && fs.vol.data == old(fs.vol.data)
      ensures (ok, Here()) == Changed(fs.vol.table, fs.vol.data, fs.vol.geo.rootCluster, old(Here()), path)
    {
      hide Consistent, IsTableOf, Geometry.WellFormed, DistinctFiles, Sound, Find, DirSlots, CString, ParentPath,
           AppendAll, Components, FirstCluster, Take, WorkingDirs.Descend, Changed, ChangeFrom, StringAt,
           FileSystem.Padded, Session.Path, Session.Valid, InTree;
      Parts();
      StartInTree();
      ChangedCases(fs.vol.table, fs.vol.data, fs.vol.geo.rootCluster, Here(), path);
      ChangeStart(fs.vol.geo.rootCluster, Here(), path);
      var start := fs.currentDirectory;
      var copy := fs.CopyPath(path);
      PaddedString(path);
      if path != [] && path[0] == SLASH {
        start := fs.vol.geo.rootCluster;
        SetPath([]);
      }
      var c;
      ok, c := Descend(copy, start);
      if !ok {
        return;
      }
      MoveTo(c);
      PathIs();
      var path' := CString(currentPath[..]);
      if path' == [] {
        SetPath(ROOT_PATH);
      }
    }

    lemma Parts()
      requires Valid()
      ensures fs.Valid() && currentPath != fs.vol.fatBuffer && currentPath != fs.dir.buffer
      ensures InTree(fs.dirs, fs.vol.geo.rootCluster)
    {
      hide Consistent, IsTableOf, Geometry.WellFormed, DistinctFiles, Sound;
    }

    lemma PathIs()
      ensures Path() == CString(currentPath[..])
    {}

    lemma StartInTree()
      requires fs.Valid()
      ensures InTree(fs.dirs, fs.currentDirectory)
    {}

    lemma ChangeStart(root: uint32, w: Cwd, path: seq<uint8>)
      ensures ChangeFrom(root, w, path) == if path != [] && path[0] == SLASH then Cwd(root, []) else w
    {}

    /** The copied path reads back as the path, cut to 255 bytes. */
    lemma PaddedString(path: seq<uint8>)
      requires 0 !in path
      ensures |Take(path, 255)| < MAX_PATH
      ensures var b := fs.Padded(Take(path, 255)); b[|b| - 1] == 0 && StringAt(b, 0) == Take(path, 255)
    {
      fs.TakeHead(path);
      var p := Take(path, 255);
      var b := fs.Padded(p);
      assert b[0..] == b;
      CStringPrefix(b, |p|);
    }

    /** The path string leads to the working directory. */
    ghost predicate Aligned()
      reads fs, fs.vol, currentPath
    {
      InStep(fs.vol.table, fs.vol.data, fs.vol.geo.rootCluster, Here())
    }

    /** It does so without a link to cluster 0. */
    ghost predicate Straight()
      reads fs, fs.vol, currentPath
    {
      !ZeroLink(fs.vol.table, fs.vol.data, fs.vol.geo.rootCluster, fs.vol.geo.rootCluster, Components(Path()))
    }

    /**
     * With cluster and path string in step, a name means the same alone and behind the path string
     * exactly when the way to the working directory has no link to cluster 0.
     */
    lemma LongAndShort(name: seq<uint8>, long: seq<uint8>)
      requires Valid() && Aligned() && '/' as int !in name
      requires long == Path() + (['/' as int] + name) && |long| <= 255
      ensures fs.Target(long) == fs.Target(name) <==> Straight()
      ensures Straight() ==> fs.Lookup(long) == fs.Lookup(name)
    {
      hide PathDir, ZeroLink, Components, InStep, Session.Path, FilePart, Find;
      PathStringLeads(fs.vol.table, fs.vol.data, fs.vol.geo.rootCluster, Here(), fs.currentDirectory, name);
      RootPositive();
    }

    lemma RootPositive()
      requires Valid()
      ensures fs.vol.geo.rootCluster != 0
    {}

    // ----- Into a new directory and back

    /** A name without slashes is looked up in the working directory. */
    lemma SingleName(name: seq<uint8>)
      requires SLASH !in name && |name| <= 12
      ensures fs.LastName(name) == name && fs.Target(name) == fs.currentDirectory == fs.TargetDir(name)
      ensures fs.TargetSlots(name) == SlotsAt(fs.vol.table, fs.vol.data, fs.currentDirectory)
      ensures fs.Lookup(name) == Find(SlotsAt(fs.vol.table, fs.vol.data, fs.currentDirectory), UpperAll(name), true)
    {
      hide Find, DirSlots, PathDir, FilePart;
      SinglePath(fs.vol.table, fs.vol.data, fs.vol.geo.rootCluster, fs.currentDirectory, name);
    }

    /** A new directory below the working directory can be entered and left again. */
    method MakeHere(name: seq<uint8>) returns (made: bool)
      requires Valid() && Storable(name) && name != [] && SLASH !in name
      requires Absolute(Path()) && fs.currentDirectory != 0
      modifies fs.vol.Footprint(), fs.files.buffer, fs.dir.buffer, fs`dirs
      ensures Valid()
      ensures made == (old(fs.Lookup(name)) < 0 && LeastFree(old(fs.vol.table)) != 0
          && FindFree(old(fs.TargetSlots(name))) >= 0)
      ensures Here() == old(Here())
      ensures made ==> Returns(fs.vol.table, fs.vol.data, fs.vol.geo.rootCluster, Here(), name)
    {
      hide Consistent, IsTableOf, Geometry.WellFormed, DistinctFiles, Sound, Find, FindFree, DirSlots, CString,
           ParentPath, AppendAll, Components, FreeFrom, Session.Path, Returns, Joined, MadeDir, InTree, Absolute,
           Storable, FileSystem.Target, FileSystem.TargetDir, FileSystem.TargetSlots, FileSystem.Lookup,
           FileSystem.LastName, Shadowed;
      StorableShort(name);
      SingleName(name);
      ghost var t, data, w := fs.vol.table, fs.vol.data, Here();
      made := fs.CreateDir(name);
      if !made {
        return;
      }
      fs.WholeSlots();
      MadeDirReturns(fs.vol.geo.bytesPerCluster, t, data, fs.vol.table, fs.vol.data, fs.vol.geo.rootCluster, w, name,
          LeastFree(t));
    }

    /**
     * create_dir, change_dir into it, change_dir(".."): the cluster is back where it was, and the
     * path string is too exactly when it stayed below 255 bytes with the name.
     */
    method MakeEnterLeave(name: seq<uint8>) returns (made: bool)
      requires Valid() && Storable(name) && name != [] && SLASH !in name
      requires Absolute(Path()) && fs.currentDirectory != 0
      modifies fs.vol.Footprint(), fs.files.buffer, fs.dir.buffer, fs`dirs, fs`currentDirectory, currentPath
      ensures Valid()
      ensures made == (old(fs.Lookup(name)) < 0 && LeastFree(old(fs.vol.table)) != 0
          && FindFree(old(fs.TargetSlots(name))) >= 0)
      ensures fs.currentDirectory == old(fs.currentDirectory)
      ensures made ==> (Path() == old(Path()) <==> |Joined(old(Path()), name)| < 255)
    {
      hide Consistent, IsTableOf, Geometry.WellFormed, DistinctFiles, Find, FindFree, CString, FreeFrom, Session.Path,
           Session.Valid, Changed, Joined, Absolute, UpIsFile, Storable, FileSystem.TargetSlots, FileSystem.Lookup,
           FileSystem.Valid;
      StorableShort(name);
      made := MakeHere(name);
      if !made {
        return;
      }
      var down := ChangeDir(name);
      var up := ChangeDir(DOT_DOT);
    }
  }
}
