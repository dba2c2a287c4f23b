/** New directories: the "." and ".." slots of `fat32_create_dir` and the place of the new directory in the tree. */
module MakeDirs {
  import opened Bytes
  import opened Chains
  import opened Contents
  import opened DirMaps
  import opened Directories
  import opened Memory
  import opened ShortNames
  import opened Slots
  import opened Soundness

  /** The 11 name bytes of "." or "..". */
  function DotsName(dots: nat): (n: seq<uint8>)
    requires dots <= 2
    ensures |n| == SHORT_LENGTH
  {
    Repeat(DOT, dots) + Repeat(SPACE, SHORT_LENGTH - dots)
  }

  /** The slot for "." (one dot) or ".." (two dots) leading to cluster `c`. */
  function DotSlot(dots: nat, c: uint32): Slot
    requires dots <= 2
  {
    DotsName(dots) + [ATTR_DIRECTORY] + Repeat(0, 8)
    + HalfBytes(c / 0x1_0000) + Repeat(0, 4) + HalfBytes(c % 0x1_0000) + Repeat(0, 4)
  }

  /** The cluster of a new directory at `c` below `parent`. */
  function NewDirBytes(b: nat, c: uint32, parent: uint32): (r: seq<uint8>)
    ensures b >= 2 * SLOT_SIZE ==> |r| == b
  {
    DotSlot(1, c) + DotSlot(2, parent) + Repeat(0, if b < 2 * SLOT_SIZE then 0 else b - 2 * SLOT_SIZE)
  }

  lemma DotSlotFields(dots: nat, c: uint32)
    requires 1 <= dots <= 2
    ensures var s := DotSlot(dots, c);
      Live(s) && HasDir(s) && Key(s) == Repeat(DOT, dots) && InfoOf(s) == Info(Repeat(DOT, dots), ATTR_DIRECTORY, c, 0)
  {
    var s := DotSlot(dots, c);
    var h, l := HalfBytes(c / 0x1_0000), HalfBytes(c % 0x1_0000);
    assert s[0] == DOT && s[11] == ATTR_DIRECTORY;
    assert s[20] == h[0] && s[21] == h[1] && s[26] == l[0] && s[27] == l[1];
    assert s[28] == 0 && s[29] == 0 && s[30] == 0 && s[31] == 0;
    DotName(dots, s[..SHORT_LENGTH]);
  }

  lemma DotName(dots: nat, n: ShortName)
    requires 1 <= dots <= 2 && n == DotsName(dots)
    ensures CString(Decode(n)) == Repeat(DOT, dots) == UpperAll(Repeat(DOT, dots))
  {
    assert n[..NAME_LENGTH][..dots] == Repeat(DOT, dots);
    TrimIs(n[..NAME_LENGTH], dots);
    CStringWhole(Repeat(DOT, dots));
  }

  /** A new directory's slots stand for the map from "." to itself and from ".." to its parent. */
  lemma NewDirSlots(b: nat, c: uint32, parent: uint32)
    requires b >= 2 * SLOT_SIZE && b % SLOT_SIZE == 0
    ensures var slots := ClusterSlots(NewDirBytes(b, c, parent));
      && |slots| >= 2 && slots[0] == DotSlot(1, c) && slots[1] == DotSlot(2, parent)
      && (forall i | 2 <= i < |slots| :: IsEnd(slots[i]))
      && WellFormed(slots)
      && Find(slots, [DOT], true) == 0 && Find(slots, [DOT, DOT], true) == 1
  {
    hide DotSlot, Key, Live, HasDir;
    var bytes := NewDirBytes(b, c, parent);
    var slots := ClusterSlots(bytes);
    assert slots[0] == bytes[..SLOT_SIZE] == DotSlot(1, c);
    assert slots[1] == bytes[SLOT_SIZE..2 * SLOT_SIZE] == DotSlot(2, parent);
    forall i | 2 <= i < |slots| ensures IsEnd(slots[i]) {
      assert slots[i][0] == bytes[i * SLOT_SIZE];
    }
    DotSlotFields(1, c);
    DotSlotFields(2, parent);
    assert Repeat(DOT, 1) == [DOT] && Repeat(DOT, 2) == [DOT, DOT];
    assert [DOT][..] != [DOT, DOT];
    EndDead(slots);
    FindDots(slots, c, parent);
  }

  lemma EndDead(slots: seq<Slot>)
    ensures forall i | 0 <= i < |slots| && IsEnd(slots[i]) :: !Live(slots[i])
    ensures forall i | 0 <= i < |slots| && Live(slots[i]) :: !IsEnd(slots[i]) && Compared(slots[i], true)
  {}

  lemma FindDots(slots: seq<Slot>, c: uint32, parent: uint32)
    requires |slots| >= 2 && slots[0] == DotSlot(1, c) && slots[1] == DotSlot(2, parent)
    ensures Find(slots, [DOT], true) == 0 && Find(slots, [DOT, DOT], true) == 1
  {
    hide DotSlot, Key;
    DotSlotFields(1, c);
    DotSlotFields(2, parent);
    assert Repeat(DOT, 1) == [DOT] && Repeat(DOT, 2) == [DOT, DOT];
    assert slots[1..][0] == slots[1];
  }

  // ----- A new directory in the tree

  /** The cluster `c`, free before, became a chain of its own with these bytes. */
  ghost predicate FreshCluster(t: Table, data: Data, t1: Table, data1: Data, c: uint32, bytes: seq<uint8>) {
    && |t| == |data| <= BAD_CLUSTER && 2 <= c < |t| && t[c] == FREE_CLUSTER
    && t1 == t[c := EOC] && data1 == data[c := bytes]
  }

  lemma FreshChain(t: Table, data: Data, t1: Table, data1: Data, c: uint32, bytes: seq<uint8>)
    requires FreshCluster(t, data, t1, data1, c, bytes)
    ensures IsChain(t1, [c]) && ChainOf(t1, c) == [c] && SlotsAt(t1, data1, c) == ClusterSlots(bytes)
    ensures Regrown(t, data, t1, data1, [], [c])
  {
    ChainOfIs(t1, [c]);
    DirSlotsOne(data1, c);
  }

  /** The fresh cluster is held like the chain of an open file, and no file starts there. */
  lemma FreshHeld(t: Table, data: Data, t1: Table, data1: Data, dirs: set<uint32>, heads: set<uint32>, c: uint32,
      bytes: seq<uint8>)
    requires Sound(t, data, dirs, heads) && FreshCluster(t, data, t1, data1, c, bytes)
    ensures Sound(t1, data1, dirs, heads + {c}) && c !in heads && c !in dirs
    ensures forall d, i: nat | d in dirs && FileAt(t1, data1, d, i) :: FileHead(t1, data1, d, i) != c
    ensures forall d | d in dirs :: ChainOf(t1, d) == ChainOf(t, d) && SlotsAt(t1, data1, d) == SlotsAt(t, data, d)
  {
    hide SoundDirs, SoundFiles, Held, WellFormed, DirSlots;
    FreshChain(t, data, t1, data1, c, bytes);
    FreshHead(t, data, dirs, heads, c);
    RegrowKeeps(t, data, t1, data1, dirs, heads, c, [], [c]);
    RegrowDirs(t, data, t1, data1, dirs, heads, c, [], [c]);
    NotADir(t, data, dirs, c);
    forall d, i: nat | d in dirs && FileAt(t1, data1, d, i) ensures FileHead(t1, data1, d, i) != c {
      RegrowFile(t, data, t1, data1, dirs, heads, c, [], [c], d, i);
    }
  }

  /** Taking a free cluster shows in no directory. */
  lemma FreshSlots(t: Table, data: Data, t1: Table, data1: Data, dirs: set<uint32>, heads: set<uint32>,
                   c: uint32, bytes: seq<uint8>, d: uint32)
    requires Sound(t, data, dirs, heads) && FreshCluster(t, data, t1, data1, c, bytes) && (d == 0 || d in dirs)
    ensures SlotsAt(t1, data1, d) == SlotsAt(t, data, d)
  {
    hide SoundDirs, SoundFiles, Held, WellFormed, FileAt, FileHead;
    if d != 0 {
      FreshHeld(t, data, t1, data1, dirs, heads, c, bytes);
    }
  }

  lemma NotADir(t: Table, data: Data, dirs: set<uint32>, c: uint32)
    requires SoundDirs(t, data, dirs) && c < |t| && t[c] == FREE_CLUSTER
    ensures c !in dirs
  {
    if c in dirs {
      HeadUsed(t, c);
    }
  }

  /** What makes a held chain a directory of the tree. */
  ghost predicate Adoptable(t: Table, data: Data, dirs: set<uint32>, heads: set<uint32>, c: uint32) {
    && Sound(t, data, dirs, heads + {c}) && c !in heads && c !in dirs && 2 <= c
    && (forall d, i: nat | d in dirs && FileAt(t, data, d, i) :: FileHead(t, data, d, i) != c)
    && WellFormed(SlotsAt(t, data, c))
    && (forall i | 0 <= i < |SlotsAt(t, data, c)| :: !HasFile(SlotsAt(t, data, c)[i]))
    && (forall i | 0 <= i < |SlotsAt(t, data, c)| && HasDir(SlotsAt(t, data, c)[i]) ::
          FirstCluster(SlotsAt(t, data, c)[i]) in dirs + {c})
  }

  lemma AdoptDirs(t: Table, data: Data, dirs: set<uint32>, heads: set<uint32>, c: uint32)
    requires Adoptable(t, data, dirs, heads, c)
    ensures SoundDirs(t, data, dirs + {c})
    ensures ChainOf(t, c) != []
    ensures forall d | d in dirs :: Disjoint(ChainOf(t, d), ChainOf(t, c)) && Disjoint(ChainOf(t, c), ChainOf(t, d))
  {
    hide SoundFiles, WellFormed, DirSlots, HasDir, HasFile, FirstCluster;
    assert c in heads + {c};
    assert ApartFromDirs(t, dirs, c);
  }

  /** Files of the old directories stay apart from the new one, which has none. */
  lemma AdoptFile(t: Table, data: Data, dirs: set<uint32>, heads: set<uint32>, c: uint32, d: uint32, i: nat)
    requires Adoptable(t, data, dirs, heads, c) && d in dirs + {c} && FileAt(t, data, d, i)
    ensures d in dirs && ChainOf(t, FileHead(t, data, d, i)) != []
    ensures ApartFromDirs(t, dirs + {c}, FileHead(t, data, d, i))
  {
    hide SoundDirs, WellFormed, DirSlots, HasDir, HasFile, FirstCluster, FileHead;
    assert c in heads + {c};
    DisjointSym(ChainOf(t, c), ChainOf(t, FileHead(t, data, d, i)));
  }

  lemma AdoptFiles(t: Table, data: Data, dirs: set<uint32>, heads: set<uint32>, c: uint32)
    requires Adoptable(t, data, dirs, heads, c)
    ensures SoundFiles(t, data, dirs + {c})
  {
    hide SoundDirs, Adoptable, ApartFromDirs, FileAt, FileHead;
    AdoptableFiles(t, data, dirs, heads, c);
    forall d, i: nat | d in dirs + {c} && FileAt(t, data, d, i)
      ensures d in dirs && ChainOf(t, FileHead(t, data, d, i)) != []
          && ApartFromDirs(t, dirs + {c}, FileHead(t, data, d, i))
    {
      AdoptFile(t, data, dirs, heads, c, d, i);
    }
  }

  lemma AdoptableFiles(t: Table, data: Data, dirs: set<uint32>, heads: set<uint32>, c: uint32)
    requires Adoptable(t, data, dirs, heads, c)
    ensures SoundFiles(t, data, dirs)
  {}

  lemma AdoptHeld(t: Table, data: Data, dirs: set<uint32>, heads: set<uint32>, c: uint32, h: uint32)
    requires Adoptable(t, data, dirs, heads, c) && h in heads
    ensures Held(t, data, dirs + {c}, h)
  {
    hide SoundDirs, SoundFiles, WellFormed, DirSlots, HasDir, HasFile, FirstCluster, FileHead;
    assert h in heads + {c} && c in heads + {c} && h != c;
    assert Held(t, data, dirs, h);
    assert Disjoint(ChainOf(t, h), ChainOf(t, c)) && Disjoint(ChainOf(t, c), ChainOf(t, h));
    forall d, i: nat | d in dirs + {c} && FileAt(t, data, d, i) ensures d in dirs {
      AdoptFile(t, data, dirs, heads, c, d, i);
    }
  }

  /** A chain held by nobody else becomes a directory. */
  lemma AdoptDir(t: Table, data: Data, dirs: set<uint32>, heads: set<uint32>, c: uint32)
    requires Adoptable(t, data, dirs, heads, c)
    ensures Sound(t, data, dirs + {c}, heads)
  {
    AdoptDirs(t, data, dirs, heads, c);
    AdoptFiles(t, data, dirs, heads, c);
    AdoptableHeads(t, data, dirs, heads, c);
    hide Adoptable, SoundDirs, SoundFiles, Held;
    forall h | h in heads ensures Held(t, data, dirs + {c}, h) {
      AdoptHeld(t, data, dirs, heads, c, h);
    }
  }

  lemma AdoptableHeads(t: Table, data: Data, dirs: set<uint32>, heads: set<uint32>, c: uint32)
    requires Adoptable(t, data, dirs, heads, c)
    ensures |t| == |data| <= BAD_CLUSTER
    ensures forall g, h | g in heads && h in heads && g != h :: Disjoint(ChainOf(t, g), ChainOf(t, h))
  {
    hide SoundDirs, SoundFiles, Held;
  }

  /** A new directory holds no file and leads only to itself and its parent. */
  lemma NewDirLeads(b: nat, c: uint32, parent: uint32, i: nat)
    requires b >= 2 * SLOT_SIZE && b % SLOT_SIZE == 0 && i < |ClusterSlots(NewDirBytes(b, c, parent))|
    ensures var s := ClusterSlots(NewDirBytes(b, c, parent))[i];
      !HasFile(s) && (HasDir(s) ==> FirstCluster(s) == c || FirstCluster(s) == parent)
  {
    hide DotSlot, NewDirBytes, ClusterSlots, WellFormed, Find;
    NewDirSlots(b, c, parent);
    DotSlotFields(1, c);
    DotSlotFields(2, parent);
  }

  /** The fresh cluster filled as a new directory below `parent` joins the tree. */
  lemma FreshDir(t: Table, data: Data, t1: Table, data1: Data, dirs: set<uint32>, heads: set<uint32>,
                 b: nat, c: uint32, parent: uint32)
    requires Sound(t, data, dirs, heads) && b >= 2 * SLOT_SIZE && b % SLOT_SIZE == 0 && parent in dirs
    requires FreshCluster(t, data, t1, data1, c, NewDirBytes(b, c, parent))
    ensures Sound(t1, data1, dirs + {c}, heads) && c !in dirs
    ensures forall d | d in dirs :: ChainOf(t1, d) == ChainOf(t, d) && SlotsAt(t1, data1, d) == SlotsAt(t, data, d)
  {
    hide Sound, WellFormed, DirSlots, ClusterSlots, Find, DotSlot, NewDirBytes, HasFile, HasDir, FirstCluster, FileAt,
         FileHead;
    FreshChain(t, data, t1, data1, c, NewDirBytes(b, c, parent));
    FreshHeld(t, data, t1, data1, dirs, heads, c, NewDirBytes(b, c, parent));
    NewDirSlots(b, c, parent);
    forall i | 0 <= i < |SlotsAt(t1, data1, c)|
      ensures var s := SlotsAt(t1, data1, c)[i];
        !HasFile(s) && (HasDir(s) ==> FirstCluster(s) in dirs + {c})
    {
      NewDirLeads(b, c, parent, i);
    }
    AdoptDir(t1, data1, dirs, heads, c);
  }

  // ----- The buffer of `fat32_create_dir`

  /** Fills the zeroed slot at `at`. */
  method PutDot(buffer: array<uint8>, at: nat, dots: nat, c: uint32)
    requires at + SLOT_SIZE <= buffer.Length && dots <= 2
    requires buffer[at..at + SLOT_SIZE] == Repeat(0, SLOT_SIZE)
    modifies buffer
    ensures buffer[..] == Put(old(buffer[..]), at, DotSlot(dots, c))
  {
    hide Put, DotSlot, Repeat;
    ghost var was, blank := buffer[..], Repeat(0, SLOT_SIZE);
    BlankSlot(was, at);
    Store(buffer, at, DotsName(dots));
    PutTwiceOver(was, at, blank, DotsName(dots), 0);
    ghost var s1 := Put(blank, 0, DotsName(dots));
    Store(buffer, at + 11, [ATTR_DIRECTORY]);
    PutTwiceOver(was, at, s1, [ATTR_DIRECTORY], 11);
    ghost var s2 := Put(s1, 11, [ATTR_DIRECTORY]);
    var high, low := HalfBytes(c / 0x1_0000), HalfBytes(c % 0x1_0000);
    Store(buffer, at + 20, high);
    PutTwiceOver(was, at, s2, high, 20);
    Store(buffer, at + 26, low);
    PutTwiceOver(was, at, Put(s2, 20, high), low, 26);
    DotAsPuts(dots, c);
  }

  lemma BlankSlot(b: seq<uint8>, at: nat)
    requires at + SLOT_SIZE <= |b| && b[at..at + SLOT_SIZE] == Repeat(0, SLOT_SIZE)
    ensures Put(b, at, Repeat(0, SLOT_SIZE)) == b
  {}

  lemma DotAsPuts(dots: nat, c: uint32)
    requires dots <= 2
    ensures Put(Put(Put(Put(Repeat(0, SLOT_SIZE), 0, DotsName(dots)), 11, [ATTR_DIRECTORY]),
                    20, HalfBytes(c / 0x1_0000)), 26, HalfBytes(c % 0x1_0000))
         == DotSlot(dots, c)
  {}

  /** The first `b` bytes of the buffer become a new directory. */
  method FillDots(buffer: array<uint8>, b: nat, c: uint32, parent: uint32)
    requires 2 * SLOT_SIZE <= b <= buffer.Length
    modifies buffer
    ensures buffer[..b] == NewDirBytes(b, c, parent)
  {
    hide DotSlot, Put, Repeat, NewDirBytes;
    ghost var was := buffer[..];
    Memset(buffer, 0, 0, b);
    DotsAsPuts(was, b, c, parent);
    assert buffer[..][0..SLOT_SIZE] == buffer[0..SLOT_SIZE];
    PutDot(buffer, 0, 1, c);
    assert buffer[..][SLOT_SIZE..2 * SLOT_SIZE] == buffer[SLOT_SIZE..2 * SLOT_SIZE];
    PutDot(buffer, SLOT_SIZE, 2, parent);
    assert buffer[..][..b] == buffer[..b];
  }

  lemma DotsAsPuts(was: seq<uint8>, b: nat, c: uint32, parent: uint32)
    requires 2 * SLOT_SIZE <= b <= |was|
    ensures var blank := Put(was, 0, Repeat(0, b)); var first := Put(blank, 0, DotSlot(1, c));
      && blank[0..SLOT_SIZE] == Repeat(0, SLOT_SIZE)
      && first[SLOT_SIZE..2 * SLOT_SIZE] == Repeat(0, SLOT_SIZE)
      && Put(first, SLOT_SIZE, DotSlot(2, parent))[..b] == NewDirBytes(b, c, parent)
  {
    hide DotSlot;
  }

  // ----- The whole operation

  /**
   * The directory at `d` has a new entry for the directory `c`, whose cluster was the least free
   * one and holds "." and "..". No other cluster or FAT entry changed.
   */
  ghost predicate MadeDir(b: nat, t: Table, data: Data, t': Table, data': Data, d: uint32, name: seq<uint8>,
      c: uint32) {
    var j := FindFree(SlotsAt(t, data, d));
    && |t| <= BAD_CLUSTER && c == LeastFree(t) < |t| && t' == t[c := EOC] && j >= 0
    && SlotsAt(t', data', d) == SlotsAt(t, data, d)[j := MakeSlot(name, ATTR_DIRECTORY, c, 0)]
    && SlotsAt(t', data', c) == ClusterSlots(NewDirBytes(b, c, d))
    && |data'| == |data|
    && forall e | 0 <= e < |data| && e !in DirChain(t, d) && e != c :: data'[e] == data[e]
  }

  /** Storing the entry after the fresh cluster completes the new directory. */
  lemma MadeDirIs(t: Table, data: Data, t1: Table, data1: Data, data2: Data, dirs: set<uint32>, heads: set<uint32>,
                  b: nat, c: uint32, d: uint32, name: seq<uint8>)
    requires Sound(t, data, dirs, heads) && b >= 2 * SLOT_SIZE && b % SLOT_SIZE == 0 && d in dirs && c == LeastFree(t)
    requires FreshCluster(t, data, t1, data1, c, NewDirBytes(b, c, d))
    requires FindFree(SlotsAt(t, data, d)) >= 0 && |SlotsAt(t1, data1, d)| == |SlotsAt(t, data, d)|
    requires OneSlotChanged(t1, data1, data2, d, FindFree(SlotsAt(t, data, d)), MakeSlot(name, ATTR_DIRECTORY, c, 0))
    ensures MadeDir(b, t, data, t1, data2, d, name, c)
  {
    hide Sound, WellFormed, DirSlots, ClusterSlots, FindFree, DotSlot, NewDirBytes, FreeFrom, MakeSlot;
    FreshChain(t, data, t1, data1, c, NewDirBytes(b, c, d));
    FreshDir(t, data, t1, data1, dirs, heads, b, c, d);
    FreshApart(t1, data1, data2, dirs, heads, c, d);
    assert SlotsAt(t1, data2, c) == SlotsAt(t1, data1, c) by {
      DirSlotsFrame(data1, data2, ChainOf(t1, c));
    }
  }

  lemma FreshApart(t: Table, data: Data, data': Data, dirs: set<uint32>, heads: set<uint32>, c: uint32, d: uint32)
    requires Sound(t, data, dirs + {c}, heads) && d in dirs && c !in dirs && ChainOf(t, c) == [c]
    ensures c !in ChainOf(t, d) && DirChain(t, d) == ChainOf(t, d)
  {
    assert d in dirs + {c} && c in dirs + {c};
    assert Disjoint(ChainOf(t, c), ChainOf(t, d));
    assert c in ChainOf(t, c);
  }
}
