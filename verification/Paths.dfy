/** Path strings and what they name on a volume. */
module Paths {
  import opened Bytes
  import opened Chains
  import opened Contents
  import opened Directories
  import opened Memory
  import opened ShortNames
  import opened Slots
  import opened Tokens

  /** The part before the last slash, and the part after it. */
  function DirPart(path: seq<uint8>): seq<uint8> {
    var l := LastIndex(path, SLASH);
    if l < 0 then [] else path[..l]
  }

  function FilePart(path: seq<uint8>): seq<uint8> {
    path[LastIndex(path, SLASH) + 1..]
  }

  /** One lookup step of a path: the directory that `name` leads to from `c`, or -1. */
  ghost function Enter(t: Table, data: Data, c: uint32, name: seq<uint8>): (r: int)
    ensures r == -1 || 0 <= r < TWO_TO_THE_32
  {
    var slots := SlotsAt(t, data, c);
    var i := Find(slots, UpperAll(name), true);
    if i >= 0 && IsDirectory(InfoOf(slots[i])) then FirstCluster(slots[i]) else -1
  }

  /** Following path components from `c` by directory lookups, or -1. */
  ghost function Resolve(t: Table, data: Data, c: uint32, names: seq<seq<uint8>>): (r: int)
    ensures r == -1 || 0 <= r < TWO_TO_THE_32
    decreases |names|
  {
    if names == [] then c
    else
      var next := Enter(t, data, c, names[0]);
      if next < 0 then -1 else Resolve(t, data, next, names[1..])
  }

  /** The directory that the directory part of a path names. */
  ghost function PathDir(t: Table, data: Data, root: uint32, current: uint32, path: seq<uint8>): int {
    Resolve(t, data, if path != [] && path[0] == SLASH then root else current, Components(DirPart(path)))
  }

  lemma NoSlash(name: seq<uint8>)
    requires SLASH !in name
    ensures LastIndex(name, SLASH) == -1 && DirPart(name) == [] && FilePart(name) == name
  {
    assert forall i | 0 <= i < |name| :: name[i] in name;
  }

  /** A name without slashes is looked up in the current directory. */
  lemma NameStart(t: Table, data: Data, root: uint32, current: uint32, name: seq<uint8>)
    requires SLASH !in name
    ensures PathDir(t, data, root, current, name) == current && FilePart(name) == name
  {
    hide LastIndex, Enter, FilePart, DirPart;
    NoSlash(name);
    assert name != [] ==> name[0] in name;
    assert Components([]) == [];
  }

  lemma SinglePath(t: Table, data: Data, root: uint32, current: uint32, name: seq<uint8>)
    requires SLASH !in name && |name| <= 255
    ensures Take(name, 255) == name && FilePart(name) == name && PathDir(t, data, root, current, name) == current
  {
    NameStart(t, data, root, current, name);
  }

  /** A set of directories that lookups do not leave, except into the empty directory 0. */
  ghost predicate Closed(t: Table, data: Data, dirs: set<uint32>) {
    && (forall d | d in dirs :: 2 <= d && ChainOf(t, d) != [])
    && (forall d, i | d in dirs && 0 <= i < |SlotsAt(t, data, d)| && !IsEnd(SlotsAt(t, data, d)[i])
                      && Compared(SlotsAt(t, data, d)[i], true) && IsDirectory(InfoOf(SlotsAt(t, data, d)[i])) ::
          FirstCluster(SlotsAt(t, data, d)[i]) in dirs || FirstCluster(SlotsAt(t, data, d)[i]) == 0)
  }

  ghost predicate InTree(dirs: set<uint32>, c: int) {
    c == 0 || c in dirs
  }

  lemma EnterClosed(t: Table, data: Data, dirs: set<uint32>, c: uint32, name: seq<uint8>)
    requires Closed(t, data, dirs) && InTree(dirs, c)
    ensures IsDir(t, c)
    ensures Enter(t, data, c, name) >= 0 ==> InTree(dirs, Enter(t, data, c, name))
  {}

  lemma {:induction false} ResolveClosed(t: Table, data: Data, dirs: set<uint32>, c: uint32, names: seq<seq<uint8>>)
    requires Closed(t, data, dirs) && InTree(dirs, c)
    ensures Resolve(t, data, c, names) >= 0 ==> InTree(dirs, Resolve(t, data, c, names))
    decreases |names|
  {
    if names != [] {
      EnterClosed(t, data, dirs, c, names[0]);
      var next := Enter(t, data, c, names[0]);
      if next >= 0 {
        ResolveClosed(t, data, dirs, next, names[1..]);
      }
    }
  }

  lemma {:induction false} ResolveConcat(t: Table, data: Data, c: uint32, a: seq<seq<uint8>>, b: seq<seq<uint8>>)
    ensures Resolve(t, data, c, a + b)
         == if Resolve(t, data, c, a) < 0 then -1 else Resolve(t, data, Resolve(t, data, c, a), b)
    decreases |a|
  {
    if a == [] {
      assert a + b == b;
    } else {
      assert (a + b)[0] == a[0] && (a + b)[1..] == a[1..] + b;
      var next := Enter(t, data, c, a[0]);
      if next >= 0 {
        ResolveConcat(t, data, next, a[1..], b);
      }
    }
  }

  // ----- Where a path starts

  /**
   * With a slash in front a path starts at the root, wherever one is; without one it starts in the
   * current directory, wherever the root is. The name looked up there is the same.
   */
  lemma PathStart(t: Table, data: Data, root: uint32, current: uint32, p: seq<uint8>)
    ensures PathDir(t, data, root, current, ['/' as int] + p) == Resolve(t, data, root, Components(DirPart(p)))
    ensures FilePart(['/' as int] + p) == FilePart(p)
    ensures p == [] || p[0] != '/' as int ==>
              PathDir(t, data, root, current, p) == Resolve(t, data, current, Components(DirPart(p)))
  {
    hide Resolve;
    SlashFirst(p);
    var l := LastIndex(p, SLASH);
    if l >= 0 {
      assert DirPart([SLASH] + p)[1..] == p[..l];
    } else {
      assert DirPart([SLASH] + p) == [];
    }
  }

  lemma SlashFirst(p: seq<uint8>)
    ensures LastIndex([SLASH] + p, SLASH) == LastIndex(p, SLASH) + 1
  {
    var l := LastIndex(p, SLASH);
    var s := [SLASH] + p;
    assert s[l + 1] == SLASH;
    forall i | l + 1 < i < |s| ensures s[i] != SLASH {
      assert s[i] == p[i - 1];
    }
  }

  // ----- Splitting

  /** Splitting off the last slash is splitting at every slash and taking the last piece off. */
  lemma {:induction false} SplitPath(path: seq<uint8>)
    ensures Components(path) == Components(DirPart(path)) + if FilePart(path) == [] then [] else [FilePart(path)]
  {
    var l := LastIndex(path, SLASH);
    if l < 0 {
      assert path[0..] == path;
      assert SLASH !in path;
      if path != [] {
        SplitHere(path, |path|);
        assert path[..|path|] == path && path[|path|..] == [];
      }
    } else {
      assert path == path[..l] + ([SLASH] + path[l + 1..]);
      ComponentsConcat(path[..l], path[l + 1..]);
      assert SLASH !in path[l + 1..];
      var f := path[l + 1..];
      if f != [] {
        SplitHere(f, |f|);
        assert f[..|f|] == f && f[|f|..] == [];
      }
    }
  }

  /** Components on both sides of a slash. */
  lemma {:induction false} ComponentsConcat(a: seq<uint8>, b: seq<uint8>)
    ensures Components(a + ([SLASH] + b)) == Components(a) + Components(b)
    decreases |a|
  {
    var s := a + ([SLASH] + b);
    if a == [] {
      assert s[1..] == b;
    } else if a[0] == SLASH {
      assert s[1..] == a[1..] + ([SLASH] + b);
      ComponentsConcat(a[1..], b);
    } else {
      var n := ComponentLength(a);
      assert s[..n] == a[..n] && s[n..] == a[n..] + ([SLASH] + b);
      SplitHere(s, n);
      ComponentsConcat(a[n..], b);
      Associative([a[..n]], Components(a[n..]), Components(b));
    }
  }
}
