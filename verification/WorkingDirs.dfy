/** The working directory as a pair of cluster and path string, and what changing it does to both. */
module WorkingDirs {
  import opened Bytes
  import opened Chains
  import opened Contents
  import opened DirMaps
  import opened Directories
  import opened Lookups
  import opened MakeDirs
  import opened Memory
  import opened Paths
  import opened ShortNames
  import opened Slots
  import opened Soundness
  import opened Tokens

  const ROOT_PATH: seq<uint8> := [SLASH]
  const DOT_DOT: seq<uint8> := [DOT, DOT]

  datatype Cwd = Cwd(cluster: uint32, path: seq<uint8>)

  // ----- Clusters

  /** One step of a directory change: like a path lookup, but cluster 0 stands for the root. */
  ghost function Step(t: Table, data: Data, root: uint32, c: uint32, name: seq<uint8>): (r: int)
    ensures r == -1 || 0 <= r < TWO_TO_THE_32
  {
    var e := Enter(t, data, c, name);
    if e == 0 then root else e
  }

  ghost function Walk(t: Table, data: Data, root: uint32, c: uint32, names: seq<seq<uint8>>): (r: int)
    ensures r == -1 || 0 <= r < TWO_TO_THE_32
    decreases |names|
  {
    if names == [] then c
    else
      var next := Step(t, data, root, c, names[0]);
      if next < 0 then -1 else Walk(t, data, root, next, names[1..])
  }

  /** How many leading components a walk gets through. */
  ghost function Depth(t: Table, data: Data, root: uint32, c: uint32, names: seq<seq<uint8>>): (n: nat)
    ensures n <= |names|
    ensures n == |names| <==> Walk(t, data, root, c, names) >= 0
    decreases |names|
  {
    if names == [] || Step(t, data, root, c, names[0]) < 0 then 0
    else 1 + Depth(t, data, root, Step(t, data, root, c, names[0]), names[1..])
  }

  lemma {:induction false} WalkConcat(t: Table, data: Data, root: uint32, c: uint32, a: seq<seq<uint8>>,
      b: seq<seq<uint8>>)
    ensures Walk(t, data, root, c, a + b)
         == if Walk(t, data, root, c, a) < 0 then -1 else Walk(t, data, root, Walk(t, data, root, c, a), b)
    decreases |a|
  {
    if a == [] {
      assert a + b == b;
    } else {
      assert (a + b)[0] == a[0] && (a + b)[1..] == a[1..] + b;
      var next := Step(t, data, root, c, a[0]);
      if next >= 0 {
        WalkConcat(t, data, root, next, a[1..], b);
      }
    }
  }

  // ----- Path strings

  /** The path string with one more component. */
  function Joined(path: seq<uint8>, name: seq<uint8>): seq<uint8> {
    (if path == ROOT_PATH then [] else path) + ([SLASH] + name)
  }

  /** The path string after a step: the component is left out when the string would not fit the 256-byte buffer. */
  function Append(path: seq<uint8>, name: seq<uint8>): seq<uint8> {
    if |Joined(path, name)| < 255 then Joined(path, name) else path
  }

  function JoinedAll(path: seq<uint8>, names: seq<seq<uint8>>): seq<uint8>
    decreases |names|
  {
    if names == [] then path else JoinedAll(Joined(path, names[0]), names[1..])
  }

  function AppendAll(path: seq<uint8>, names: seq<seq<uint8>>): seq<uint8>
    decreases |names|
  {
    if names == [] then path else AppendAll(Append(path, names[0]), names[1..])
  }

  predicate RoomForAll(path: seq<uint8>, names: seq<seq<uint8>>)
    decreases |names|
  {
    names != [] ==> |Joined(path, names[0])| < 255 && RoomForAll(Append(path, names[0]), names[1..])
  }

  /** The path without its last component. */
  function ParentPath(path: seq<uint8>): seq<uint8> {
    var l := LastIndex(path, SLASH);
    if l > 0 then path[..l] else ROOT_PATH
  }

  /** An absolute path as the driver keeps it. */
  predicate Absolute(path: seq<uint8>) {
    path != [] && path[0] == SLASH && (|path| > 1 ==> path[|path| - 1] != SLASH)
  }

  lemma AppendComponents(path: seq<uint8>, name: seq<uint8>)
    requires name != [] && SLASH !in name && |Joined(path, name)| < 255 && (path == [] || Absolute(path))
    ensures Components(Append(path, name)) == Components(path) + [name] && Absolute(Append(path, name))
  {
    var a := if path == ROOT_PATH then [] else path;
    assert Append(path, name) == a + ([SLASH] + name);
    ComponentsConcat(a, name);
    assert name[|name| - 1] in name;
    SplitHere(name, |name|);
    assert name[..|name|] == name && name[|name|..] == [];
    assert name[0] in name;
    assert ROOT_PATH[1..] == [];
  }

  lemma {:induction false} AppendAllComponents(path: seq<uint8>, names: seq<seq<uint8>>)
    requires RoomForAll(path, names) && (path == [] || Absolute(path))
    requires forall i | 0 <= i < |names| :: names[i] != [] && SLASH !in names[i]
    ensures Components(AppendAll(path, names)) == Components(path) + names
    ensures names != [] || path != [] ==> Absolute(AppendAll(path, names))
    decreases |names|
  {
    hide Components, Joined, Append;
    if names != [] {
      assert names[0] != [] && SLASH !in names[0];
      AppendComponents(path, names[0]);
      AppendAllComponents(Append(path, names[0]), names[1..]);
      Associative(Components(path), [names[0]], names[1..]);
      assert [names[0]] + names[1..] == names;
      assert path != [] || |Components(Append(path, names[0]))| > 0;
      ComponentsNone();
    } else {
      assert Components(path) + [] == Components(path);
    }
  }

  lemma ComponentsNone()
    ensures Components([]) == [] && Components(ROOT_PATH) == []
  {}

  /**
   * Entering a directory and cutting the last component off restores the path exactly when there was
   * room for the name, up to 254 bytes in all.
   */
  lemma ParentRestores(path: seq<uint8>, name: seq<uint8>)
    requires Absolute(path) && name != [] && SLASH !in name && |name| <= 12
    ensures ParentPath(Append(path, name)) == path <==> |Joined(path, name)| < 255
  {
    var p := Append(path, name);
    if |Joined(path, name)| < 255 {
      LastOfConcat(if path == ROOT_PATH then [] else path, name);
      assert p == (if path == ROOT_PATH then [] else path) + ([SLASH] + name);
    } else {
      assert |path| > 1;
    }
  }

  lemma LastOfConcat(a: seq<uint8>, name: seq<uint8>)
    requires SLASH !in name
    ensures LastIndex(a + ([SLASH] + name), SLASH) == |a|
  {
    var s := a + ([SLASH] + name);
    var l := LastIndex(s, SLASH);
    assert s[|a|] == SLASH;
    forall k | |a| < k < |s| ensures s[k] != SLASH {
      assert s[k] in name;
    }
  }

  // ----- Changing the working directory

  /** The path string leads from the root to the cluster. */
  ghost predicate InStep(t: Table, data: Data, root: uint32, w: Cwd) {
    Absolute(w.path) && Walk(t, data, root, root, Components(w.path)) == w.cluster
  }

  predicate Rooted(path: seq<uint8>) {
    path != [] && path[0] == SLASH
  }

  /** Where a change starts from: the root with an empty string for absolute paths. */
  function ChangeFrom(root: uint32, w: Cwd, path: seq<uint8>): Cwd {
    if Rooted(path) then Cwd(root, []) else w
  }

  /** The working directory after `fat32_change_dir`, and whether it reports success. */
  ghost function Changed(t: Table, data: Data, root: uint32, w: Cwd, path: seq<uint8>): (bool, Cwd) {
    var slots := SlotsAt(t, data, w.cluster);
    var up := Find(slots, DOT_DOT, true);
    var from, names := ChangeFrom(root, w, path), Components(Take(path, 255));
    var c, n := Walk(t, data, root, from.cluster, names), Depth(t, data, root, from.cluster, names);
    var p := AppendAll(from.path, names[..n]);
    if path == ROOT_PATH then (true, Cwd(root, ROOT_PATH))
    else if path == DOT_DOT then
      if up < 0 then (false, w)
      else (true, Cwd(if FirstCluster(slots[up]) == 0 then root else FirstCluster(slots[up]), ParentPath(w.path)))
    else if path == [DOT] then (true, w)
    else if c < 0 then (false, Cwd(w.cluster, p))
    else (true, Cwd(c, if p == [] then ROOT_PATH else p))
  }

  /** All names fit together exactly when the whole string stays below 255 bytes. */
  lemma {:induction false} JoinedFits(path: seq<uint8>, names: seq<seq<uint8>>)
    requires forall i | 0 <= i < |names| :: names[i] != []
    ensures names != [] ==> |JoinedAll(path, names)| > |path|
    ensures names == [] || |JoinedAll(path, names)| < 255 <==> RoomForAll(path, names)
    ensures RoomForAll(path, names) ==> AppendAll(path, names) == JoinedAll(path, names)
    decreases |names|
  {
    if names != [] {
      assert names[0] != [];
      JoinedFits(Joined(path, names[0]), names[1..]);
    }
  }

  lemma WalkNone(t: Table, data: Data, root: uint32)
    ensures Walk(t, data, root, root, []) == root && Absolute(ROOT_PATH)
  {}

  /**
   * A successful change by names keeps cluster and path string in step as long as the string with all
   * the names stays below 255 bytes, and then it is that string.
   */
  lemma ChangedInStep(t: Table, data: Data, root: uint32, w: Cwd, path: seq<uint8>)
    requires InStep(t, data, root, w) && path != DOT_DOT
    requires Changed(t, data, root, w, path).0
    requires var names := Components(Take(path, 255));
      names == [] || |JoinedAll(ChangeFrom(root, w, path).path, names)| < 255
    ensures InStep(t, data, root, Changed(t, data, root, w, path).1)
    ensures var joined := JoinedAll(ChangeFrom(root, w, path).path, Components(Take(path, 255)));
      path != ROOT_PATH && path != [DOT] ==>
        Changed(t, data, root, w, path).1.path == if joined == [] then ROOT_PATH else joined
  {
    hide Components, AppendAll, RoomForAll, Step, JoinedAll, Find, SlotsAt, FirstCluster, ParentPath, Take, Depth,
         Walk, Absolute, Joined;
    ComponentsNone();
    WalkNone(t, data, root);
    var from, names := ChangeFrom(root, w, path), Components(Take(path, 255));
    JoinedFits(from.path, names);
    if path != ROOT_PATH && path != [DOT] {
      AppendAllComponents(from.path, names);
      assert names[..|names|] == names;
      WalkConcat(t, data, root, root, Components(from.path), names);
      NothingAppended(from.path);
    }
  }

  /** Some name on the way leads to cluster 0: the root for a change of directory, nowhere for a path lookup. */
  ghost predicate ZeroLink(t: Table, data: Data, root: uint32, c: uint32, names: seq<seq<uint8>>)
    decreases |names|
  {
    names != []
    && (Enter(t, data, c, names[0]) == 0
        || (Step(t, data, root, c, names[0]) >= 0
            && ZeroLink(t, data, root, Step(t, data, root, c, names[0]), names[1..])))
  }

  /** A path lookup goes where a walk does unless the way leads through cluster 0. */
  lemma {:induction false} ResolveIsWalk(t: Table, data: Data, root: uint32, c: uint32, names: seq<seq<uint8>>)
    requires Walk(t, data, root, c, names) >= 0 && root != 0 && c != 0
    ensures Walk(t, data, root, c, names) != 0
    ensures if ZeroLink(t, data, root, c, names) then Resolve(t, data, c, names) <= 0
            else Resolve(t, data, c, names) == Walk(t, data, root, c, names)
    decreases |names|
  {
    hide Enter;
    if names != [] {
      var next := Enter(t, data, c, names[0]);
      ResolveIsWalk(t, data, root, Step(t, data, root, c, names[0]), names[1..]);
      if next == 0 && names[1..] != [] {
        EmptyEnter(t, data, names[1]);
      }
    }
  }

  /**
   * The path string names the working directory: with a name behind it a lookup starts in the same
   * directory as the name alone, from wherever one is, exactly when the way there has no link to cluster 0.
   */
  lemma PathStringLeads(t: Table, data: Data, root: uint32, w: Cwd, current: uint32, name: seq<uint8>)
    requires InStep(t, data, root, w) && root != 0 && '/' as int !in name
    ensures var long := w.path + (['/' as int] + name);
      && FilePart(long) == name == FilePart(name)
      && PathDir(t, data, root, w.cluster, name) == w.cluster
      && (PathDir(t, data, root, current, long) == w.cluster <==> !ZeroLink(t, data, root, root, Components(w.path)))
  {
    hide Components, Walk, ZeroLink, PathDir, Resolve, InStep;
    InStepIs(t, data, root, w);
    var p := w.path[1..] + ([SLASH] + name);
    assert w.path + ([SLASH] + name) == [SLASH] + p;
    LastOfConcat(w.path[1..], name);
    PathStart(t, data, root, current, p);
    NoSlash(name);
    assert p[..|w.path[1..]|] == w.path[1..] && p[|w.path[1..]| + 1..] == name;
    ResolveIsWalk(t, data, root, root, Components(w.path));
    NameStart(t, data, root, w.cluster, name);
  }

  lemma InStepIs(t: Table, data: Data, root: uint32, w: Cwd)
    requires InStep(t, data, root, w)
    ensures Walk(t, data, root, root, Components(w.path)) == w.cluster
    ensures w.path != [] && w.path[0] == SLASH && Components(w.path) == Components(w.path[1..])
  {}

  /** All components but the last. */
  function Parents(names: seq<seq<uint8>>): seq<seq<uint8>> {
    if names == [] then [] else names[..|names| - 1]
  }

  /** Cutting a path string takes off its last component. */
  lemma ParentComponents(path: seq<uint8>)
    requires Absolute(path)
    ensures Components(ParentPath(path)) == Parents(Components(path))
  {
    hide Components;
    ComponentsNone();
    if path == ROOT_PATH {
      assert LastIndex(path, SLASH) == 0;
    } else {
      var l := LastIndex(path, SLASH);
      SplitPath(path);
      assert path[0] == SLASH;
      assert FilePart(path) != [] && DirPart(path) == path[..l];
      assert l == 0 ==> path[..l] == [];
      assert Components(path) == Components(path[..l]) + [FilePart(path)];
    }
  }

  /**
   * A change to ".." keeps cluster and path string in step exactly when the entry named ".." leads where
   * the string without its last component does. It does for a directory made here and never moved; the
   * ".." of one that was renamed into another directory still leads to the old parent.
   */
  lemma UpInStep(t: Table, data: Data, root: uint32, w: Cwd)
    requires InStep(t, data, root, w) && Changed(t, data, root, w, DOT_DOT).0
    ensures var up := Changed(t, data, root, w, DOT_DOT).1;
      InStep(t, data, root, up) <==>
      Absolute(ParentPath(w.path)) && Walk(t, data, root, root, Parents(Components(w.path))) == up.cluster
  {
    hide Components, Find, DirSlots, FirstCluster, Walk, Absolute, ParentPath, Parents;
    ParentComponents(w.path);
  }

  /** From every directory below the root, ".." leads back to where an ordinary name entered it from. */
  ghost predicate UpLeadsBack(t: Table, data: Data, root: uint32) {
    forall names, name | Walk(t, data, root, root, names) >= 0 && name != DOT_DOT && name != [DOT] ::
      var c := Walk(t, data, root, root, names);
      Step(t, data, root, c, name) >= 0 ==> Step(t, data, root, Step(t, data, root, c, name), DOT_DOT) == c
  }

  /** So where no directory was moved, ".." keeps in step with any path string that ends in an ordinary name. */
  lemma UpInTree(t: Table, data: Data, root: uint32, w: Cwd)
    requires InStep(t, data, root, w) && UpLeadsBack(t, data, root) && Absolute(ParentPath(w.path))
    requires var names := Components(w.path);
      names != [] && names[|names| - 1] != DOT_DOT && names[|names| - 1] != [DOT]
    ensures var (ok, up) := Changed(t, data, root, w, DOT_DOT); ok && InStep(t, data, root, up)
  {
    hide Components, Absolute, ParentPath, Step;
    var names := Components(w.path);
    var before, last := names[..|names| - 1], names[|names| - 1];
    assert names == before + [last] && Parents(names) == before;
    WalkConcat(t, data, root, root, before, [last]);
    OneStep(t, data, root, Walk(t, data, root, root, before), last);
    UpIsStep(t, data, root, w);
    UpInStep(t, data, root, w);
  }

  /** Where ".." is a directory, a change to it goes where a step by that name does. */
  lemma UpIsStep(t: Table, data: Data, root: uint32, w: Cwd)
    ensures var (ok, up) := Changed(t, data, root, w, DOT_DOT);
      Step(t, data, root, w.cluster, DOT_DOT) >= 0 ==> ok && up.cluster == Step(t, data, root, w.cluster, DOT_DOT)
  {
    hide Find, DirSlots, FirstCluster, ParentPath;
    assert UpperAll(DOT_DOT) == DOT_DOT;
  }

  /** The two walks at once: the cluster reached, or -1, and the path string by then. */
  ghost function Descend(t: Table, data: Data, root: uint32, c: uint32, p: seq<uint8>,
      names: seq<seq<uint8>>): (r: (int, seq<uint8>))
    ensures r.0 == -1 || 0 <= r.0 < TWO_TO_THE_32
    decreases |names|
  {
    if names == [] then (c, p)
    else
      var next := Step(t, data, root, c, names[0]);
      if next < 0 then (-1, p) else Descend(t, data, root, next, Append(p, names[0]), names[1..])
  }

  lemma {:induction false} DescendIs(t: Table, data: Data, root: uint32, c: uint32, p: seq<uint8>,
      names: seq<seq<uint8>>)
    ensures Descend(t, data, root, c, p, names)
         == (Walk(t, data, root, c, names), AppendAll(p, names[..Depth(t, data, root, c, names)]))
    decreases |names|
  {
    hide Step, Append;
    if names != [] && Step(t, data, root, c, names[0]) >= 0 {
      var next := Step(t, data, root, c, names[0]);
      DescendIs(t, data, root, next, Append(p, names[0]), names[1..]);
      var n := Depth(t, data, root, next, names[1..]);
      assert names[..n + 1][0] == names[0] && names[..n + 1][1..] == names[1..][..n];
    }
  }

  lemma DescendStep(t: Table, data: Data, root: uint32, c: uint32, p: seq<uint8>, name: seq<uint8>,
      rest: seq<seq<uint8>>)
    ensures Descend(t, data, root, c, p, [name] + rest)
         == if Step(t, data, root, c, name) < 0 then (-1, p)
            else Descend(t, data, root, Step(t, data, root, c, name), Append(p, name), rest)
    ensures Descend(t, data, root, c, p, []) == (c as int, p)
  {
    hide Step;
    assert ([name] + rest)[0] == name && ([name] + rest)[1..] == rest;
  }

  /** The cases of a change, with both walks in one. */
  lemma ChangedCases(t: Table, data: Data, root: uint32, w: Cwd, path: seq<uint8>)
    ensures path == ROOT_PATH ==> Changed(t, data, root, w, path) == (true, Cwd(root, ROOT_PATH))
    ensures path == [DOT] ==> Changed(t, data, root, w, path) == (true, w)
    ensures path != ROOT_PATH && path != DOT_DOT && path != [DOT] ==>
              var from := ChangeFrom(root, w, path);
              var (c, p) := Descend(t, data, root, from.cluster, from.path, Components(Take(path, 255)));
              Changed(t, data, root, w, path)
              == if c < 0 then (false, Cwd(w.cluster, p)) else (true, Cwd(c, if p == [] then ROOT_PATH else p))
  {
    hide Components, AppendAll, Walk, Depth, Descend, Find, DirSlots, Take, FirstCluster;
    var from := ChangeFrom(root, w, path);
    DescendIs(t, data, root, from.cluster, from.path, Components(Take(path, 255)));
  }

  /** Appending changes a path exactly when there is room for one of the names. */
  lemma {:induction false} AppendAllSame(path: seq<uint8>, names: seq<seq<uint8>>)
    requires forall i | 0 <= i < |names| :: names[i] != []
    ensures |AppendAll(path, names)| >= |path|
    ensures AppendAll(path, names) == path <==> forall i | 0 <= i < |names| :: |Joined(path, names[i])| >= 255
    decreases |names|
  {
    if names != [] {
      assert names[0] != [];
      AppendAllSame(Append(path, names[0]), names[1..]);
      if |Joined(path, names[0])| >= 255 {
        forall i | 0 <= i < |names|
          ensures |Joined(path, names[i])| < 255 <==> i > 0 && |Joined(path, names[1..][i - 1])| < 255
        {}
      }
    }
  }

  /** The names that find room when all are appended in turn; the others are dropped. */
  function Fitting(path: seq<uint8>, names: seq<seq<uint8>>): seq<seq<uint8>>
    decreases |names|
  {
    if names == [] then []
    else if |Joined(path, names[0])| < 255 then [names[0]] + Fitting(Append(path, names[0]), names[1..])
    else Fitting(path, names[1..])
  }

  lemma {:induction false} FittingAll(path: seq<uint8>, names: seq<seq<uint8>>)
    ensures AppendAll(path, names) == AppendAll(path, Fitting(path, names))
    ensures RoomForAll(path, Fitting(path, names))
    ensures RoomForAll(path, names) ==> Fitting(path, names) == names
    ensures forall n | n in Fitting(path, names) :: n in names
    decreases |names|
  {
    hide Joined;
    if names != [] {
      var rest := Fitting(Append(path, names[0]), names[1..]);
      FittingAll(Append(path, names[0]), names[1..]);
      assert ([names[0]] + rest)[0] == names[0] && ([names[0]] + rest)[1..] == rest;
      assert [names[0]] + names[1..] == names;
    }
  }

  /** A failed change has appended the components before the missing one to where it started. */
  lemma FailedAppends(t: Table, data: Data, root: uint32, w: Cwd, path: seq<uint8>)
    requires !Changed(t, data, root, w, path).0
    ensures Changed(t, data, root, w, path).1.cluster == w.cluster
    ensures path == DOT_DOT ==> Changed(t, data, root, w, path).1 == w
    ensures var from, names := ChangeFrom(root, w, path), Components(Take(path, 255));
      path != DOT_DOT ==> Changed(t, data, root, w, path).1.path
                          == AppendAll(from.path, names[..Depth(t, data, root, from.cluster, names)])
  {
    hide Components, AppendAll, Walk, Depth, Find, DirSlots, Take, FirstCluster, ParentPath, ChangeFrom;
  }

  /** The path string built from the root lists the components that fit, and so do the strings equal to it. */
  lemma BuiltPath(path: seq<uint8>, names: seq<seq<uint8>>)
    requires forall i | 0 <= i < |names| :: names[i] != [] && SLASH !in names[i]
    ensures path == AppendAll([], names)
       <==> Components(path) == Fitting([], names) && path == AppendAll([], Components(path))
  {
    hide Components, AppendAll, Joined, Fitting, RoomForAll;
    var fit := Fitting([], names);
    FittingAll([], names);
    forall i | 0 <= i < |fit| ensures fit[i] != [] && SLASH !in fit[i] {
      assert fit[i] in names;
    }
    AppendAllComponents([], fit);
    ComponentsNone();
    assert [] + fit == fit;
  }

  /**
   * A change that fails leaves the cluster alone. It leaves the path string alone too exactly when,
   * for relative names, no component before the missing one had room, and for an absolute path, the
   * string lists just the components before the missing one, as far as they fit the buffer.
   */
  lemma FailedChange(t: Table, data: Data, root: uint32, w: Cwd, path: seq<uint8>)
    requires !Changed(t, data, root, w, path).0
    ensures Changed(t, data, root, w, path).1.cluster == w.cluster
    ensures path == DOT_DOT ==> Changed(t, data, root, w, path).1 == w
    ensures var names := Components(Take(path, 255));
      path != DOT_DOT && !Rooted(path) ==>
        (Changed(t, data, root, w, path).1 == w <==>
         forall i | 0 <= i < Depth(t, data, root, w.cluster, names) :: |Joined(w.path, names[i])| >= 255)
    ensures var names := Components(Take(path, 255));
      Rooted(path) ==>
        (Changed(t, data, root, w, path).1 == w <==>
         && Components(w.path) == Fitting([], names[..Depth(t, data, root, root, names)])
         && w.path == AppendAll([], Components(w.path)))
  {
    hide Components, AppendAll, Joined, Walk, Depth, Take, Changed, Fitting;
    FailedAppends(t, data, root, w, path);
    var names := Components(Take(path, 255));
    if Rooted(path) {
      BuiltPath(w.path, names[..Depth(t, data, root, root, names)]);
    } else {
      AppendAllSame(w.path, names[..Depth(t, data, root, w.cluster, names)]);
    }
  }

  /**
   * A failed change to a missing name below the root empties the path string and keeps the cluster.
   * A relative change after it then succeeds with a path string that is right only if the name leads
   * to the same place from the root.
   */
  lemma FailedChangeStrays(t: Table, data: Data, root: uint32, w: Cwd, missing: seq<uint8>, name: seq<uint8>)
    requires missing != [] && SLASH !in missing && |missing| <= 12 && Step(t, data, root, root, missing) < 0
    requires name != [] && SLASH !in name && |name| <= 12 && name != DOT_DOT && name != [DOT]
    requires Step(t, data, root, w.cluster, name) >= 0
    ensures Changed(t, data, root, w, [SLASH] + missing) == (false, Cwd(w.cluster, []))
    ensures var lost := Changed(t, data, root, Cwd(w.cluster, []), name);
      && lost == (true, Cwd(Step(t, data, root, w.cluster, name), [SLASH] + name))
      && (InStep(t, data, root, lost.1) <==> Step(t, data, root, root, name) == Step(t, data, root, w.cluster, name))
  {
    hide Find, DirSlots, Step, ParentPath;
    SingleComponent(missing);
    SingleComponent(name);
    assert ([SLASH] + missing)[1..] == missing && ([SLASH] + name)[1..] == name;
    OneStep(t, data, root, root, missing);
    OneStep(t, data, root, w.cluster, name);
    OneStep(t, data, root, root, name);
    OneAppend([], name);
    assert [missing][..0] == [] && [] + ([SLASH] + name) == [SLASH] + name;
  }

  lemma SingleComponent(name: seq<uint8>)
    requires name != [] && SLASH !in name
    ensures Components(name) == [name] && name[0] != SLASH
    ensures Components([SLASH] + name) == [name]
  {
    SplitHere(name, |name|);
    assert name[..|name|] == name && name[|name|..] == [];
    assert name[0] in name;
    assert ([SLASH] + name)[1..] == name;
  }

  lemma NothingAppended(path: seq<uint8>)
    ensures AppendAll(path, []) == path
  {}

  /** Entering one child and going up again, when the child's ".." leads back. */
  lemma DownAndUp(t: Table, data: Data, root: uint32, w: Cwd, name: seq<uint8>)
    requires Absolute(w.path) && w.cluster != 0
    requires name != [] && SLASH !in name && |name| <= 12 && name != DOT_DOT && name != [DOT]
    requires var c := Step(t, data, root, w.cluster, name);
      && c >= 0
      && var slots := SlotsAt(t, data, c);
         Find(slots, DOT_DOT, true) >= 0 && FirstCluster(slots[Find(slots, DOT_DOT, true)]) == w.cluster
    ensures var down := Changed(t, data, root, w, name);
      var up := Changed(t, data, root, down.1, DOT_DOT);
      && down.0 && down.1.cluster == Step(t, data, root, w.cluster, name)
      && up.0 && up.1.cluster == w.cluster && (up.1.path == w.path <==> |Joined(w.path, name)| < 255)
  {
    hide Find, DirSlots, Step, ParentPath, Append;
    SingleComponent(name);
    OneStep(t, data, root, w.cluster, name);
    OneAppend(w.path, name);
    ParentRestores(w.path, name);
    AppendNonEmpty(w.path, name);
  }

  lemma OneStep(t: Table, data: Data, root: uint32, c: uint32, name: seq<uint8>)
    ensures Walk(t, data, root, c, [name]) == Step(t, data, root, c, name)
    ensures Step(t, data, root, c, name) >= 0 ==> Depth(t, data, root, c, [name]) == 1
  {
    hide Step;
    assert [name][1..] == [];
  }

  lemma OneAppend(path: seq<uint8>, name: seq<uint8>)
    ensures AppendAll(path, [name]) == Append(path, name) && [name][..1] == [name]
  {
    assert [name][1..] == [];
  }

  lemma AppendNonEmpty(path: seq<uint8>, name: seq<uint8>)
    requires path != []
    ensures Append(path, name) != []
  {}

  lemma StorableShort(name: seq<uint8>)
    requires Storable(name)
    ensures |name| <= 12 && 0 !in name && name != DOT_DOT && name != [DOT]
  {
    assert [DOT][0] == DOT && DOT_DOT[1] == DOT;
  }

  /** The name of a directory just made leads to it. */
  lemma MadeEntry(b: nat, t: Table, data: Data, t': Table, data': Data, d: uint32, name: seq<uint8>, c: uint32)
    requires MadeDir(b, t, data, t', data', d, name, c) && Storable(name)
    requires Find(SlotsAt(t, data, d), UpperAll(name), true) < 0
    ensures Enter(t', data', d, name) == c
  {
    hide MakeSlot, Find, FindFree, DirSlots, Key, UpperAll, ClusterSlots, NewDirBytes, FreeFrom;
    MadeSlotLive(name, ATTR_DIRECTORY, c, 0);
    FindInserted(SlotsAt(t, data, d), MakeSlot(name, ATTR_DIRECTORY, c, 0), UpperAll(name), true);
  }

  lemma NewDirUp(b: nat, c: uint32, parent: uint32)
    requires b >= 2 * SLOT_SIZE && b % SLOT_SIZE == 0
    ensures var slots := ClusterSlots(NewDirBytes(b, c, parent)); var i := Find(slots, DOT_DOT, true);
      i >= 0 && HasDir(slots[i]) && FirstCluster(slots[i]) == parent
  {
    hide ClusterSlots, NewDirBytes, Find, DotSlot;
    NewDirSlots(b, c, parent);
    DotSlotFields(2, parent);
  }

  /** A change to `name` succeeds, and after it one to ".." leads back, with the path string if there was room. */
  ghost predicate Returns(t: Table, data: Data, root: uint32, w: Cwd, name: seq<uint8>) {
    var down := Changed(t, data, root, w, name);
    var up := Changed(t, data, root, down.1, DOT_DOT);
    && down.0 && !UpIsFile(SlotsAt(t, data, down.1.cluster))
    && up.0 && up.1.cluster == w.cluster && (up.1.path == w.path <==> |Joined(w.path, name)| < 255)
  }

  /** The entry named ".." belongs to a file with clusters. */
  ghost predicate UpIsFile(slots: seq<Slot>) {
    var i := Find(slots, DOT_DOT, true);
    i >= 0 && HasFile(slots[i])
  }

  lemma DirIsNoFile(s: Slot)
    ensures HasDir(s) ==> !HasFile(s)
  {}

  /** A directory just made below `w` is entered by its name and left by "..", back to `w`. */
  lemma MadeDirReturns(b: nat, t: Table, data: Data, t': Table, data': Data, root: uint32, w: Cwd, name: seq<uint8>,
      c: uint32)
    requires MadeDir(b, t, data, t', data', w.cluster, name, c) && b >= 2 * SLOT_SIZE && b % SLOT_SIZE == 0
    requires Storable(name) && name != [] && SLASH !in name && Absolute(w.path) && w.cluster != 0 && c != 0
    requires Find(SlotsAt(t, data, w.cluster), UpperAll(name), true) < 0
    ensures Returns(t', data', root, w, name)
  {
    MadeEntry(b, t, data, t', data', w.cluster, name, c);
    NewDirUp(b, c, w.cluster);
    StorableShort(name);
    hide Find, DirSlots, FindFree, Changed, Enter, HasDir, HasFile, FirstCluster, ClusterSlots, NewDirBytes, MakeSlot,
         FreeFrom, Joined, Storable;
    DownAndUp(t', data', root, w, name);
    var slots := SlotsAt(t', data', c);
    DirIsNoFile(slots[Find(slots, DOT_DOT, true)]);
  }
}
