/** `fat32_read_dir`: listing a directory with its long names. */
module Listings {
  import opened Bytes
  import opened Chains
  import opened Contents
  import opened Directories
  import opened Fat
  import opened Geometry
  import opened Image
  import opened LongNames
  import opened Memory
  import opened ShortNames
  import opened Slots

  /** One of the three loops of `extract_lfn_chars`. */
  method ExtractPart(s: Slot, o: nat, n: nat, dest: array<uint8>, pos: nat) returns (end: nat)
    requires o + 2 * n <= SLOT_SIZE && pos + |Part(s, o, n)| <= dest.Length
    modifies dest
    ensures end == pos + |Part(s, o, n)| && dest[..] == Put(old(dest[..]), pos, Part(s, o, n))
  {
    hide Half, Put, Part, Extracting;
    ghost var was, all := dest[..], Part(s, o, n);
    end := pos;
    var i: nat := 0;
    ExtractStart(was, pos, all);
    while i < n && Half(s, o + 2 * i) != 0xFFFF && Half(s, o + 2 * i) != 0
      invariant i <= n && end == pos + i && dest.Length == |was|
      invariant Extracting(dest[..], end, Part(s, o + 2 * i, n - i), was, pos, all)
      decreases n - i
    {
      var c: uint8 := Half(s, o + 2 * i) % 0x100;
      PartStep(s, o + 2 * i, n - i);
      ExtractStep(dest[..], end, c, Part(s, o + 2 * i + 2, n - i - 1), was, pos, all);
      dest[end] := c;
      end, i := end + 1, i + 1;
    }
    PartStep(s, o + 2 * i, n - i);
    ExtractEnd(dest[..], end, was, pos, all);
  }

  /** With `rest` put at `end`, the buffer is the old one with all of `w` put at `pos`. */
  ghost predicate Extracting(b: seq<uint8>, end: nat, rest: seq<uint8>, was: seq<uint8>, pos: nat, w: seq<uint8>) {
    && |b| == |was| && end + |rest| == pos + |w| <= |b|
    && Put(b, end, rest) == Put(was, pos, w)
  }

  lemma ExtractStart(was: seq<uint8>, pos: nat, w: seq<uint8>)
    requires pos + |w| <= |was|
    ensures Extracting(was, pos, w, was, pos, w)
  {}

  lemma ExtractStep(b: seq<uint8>, end: nat, c: uint8, rest: seq<uint8>, was: seq<uint8>, pos: nat, w: seq<uint8>)
    requires Extracting(b, end, [c] + rest, was, pos, w)
    ensures end < |b| && Extracting(b[end := c], end + 1, rest, was, pos, w)
  {
    hide Put;
    PutHead(b, end, c, rest);
  }

  lemma ExtractEnd(b: seq<uint8>, end: nat, was: seq<uint8>, pos: nat, w: seq<uint8>)
    requires Extracting(b, end, [], was, pos, w)
    ensures end == pos + |w| <= |was| && b == Put(was, pos, w)
  {
    hide Put;
    PutNone(b, end);
  }

  /** A loop's characters are the first unit's low byte and the rest, or none. */
  lemma PartStep(s: Slot, o: nat, n: nat)
    requires o + 2 * n <= SLOT_SIZE
    ensures n == 0 || Half(s, o) == 0xFFFF || Half(s, o) == 0 ==> Part(s, o, n) == []
    ensures n > 0 && Half(s, o) != 0xFFFF && Half(s, o) != 0 ==>
              Part(s, o, n) == [Half(s, o) % 0x100] + Part(s, o + 2, n - 1)
  {
    hide Half;
  }

  lemma PutHead(b: seq<uint8>, at: nat, c: uint8, w: seq<uint8>)
    requires at + 1 + |w| <= |b|
    ensures Put(b, at, [c] + w) == Put(b[at := c], at + 1, w)
  {}

  lemma PutNone(b: seq<uint8>, at: nat)
    requires at <= |b|
    ensures Put(b, at, []) == b
  {}

  /** `extract_lfn_chars`. */
  method ExtractChars(s: Slot, dest: array<uint8>, pos: nat)
    requires pos + |Chars(s)| <= dest.Length
    modifies dest
    ensures dest[..] == Put(old(dest[..]), pos, Chars(s))
  {
    hide Part, Put;
    PutThree(dest[..], pos, Part(s, 1, 5), Part(s, 14, 6), Part(s, 28, 2));
    var p1 := ExtractPart(s, 1, 5, dest, pos);
    var p2 := ExtractPart(s, 14, 6, dest, p1);
    var _ := ExtractPart(s, 28, 2, dest, p2);
  }

  lemma PutThree(b: seq<uint8>, at: nat, u: seq<uint8>, v: seq<uint8>, w: seq<uint8>)
    requires at + |u| + |v| + |w| <= |b|
    ensures Put(Put(Put(b, at, u), at + |u|, v), at + |u| + |v|, w) == Put(b, at, u + v + w)
  {
    hide Put;
    PutAdjacent(b, at, u, v);
    PutAdjacent(b, at, u + v, w);
  }

  /** The long-name slots of a directory stay inside the buffer they are collected in. */
  ghost predicate LongNamesFit(slots: seq<Slot>) {
    forall i | 0 <= i < |slots| && IsLfn(slots[i]) :: InBuffer(slots[i])
  }

  /** The branch of a listing for a long-name slot. */
  method CollectSlot(s: Slot, lfn: array<uint8>, has: bool) returns (has': bool)
    requires lfn.Length == LFN_BUFFER && InBuffer(s)
    modifies lfn
    ensures Lfn(lfn[..], has') == Collect(Lfn(old(lfn[..]), has), s)
  {
    hide Put, Chars;
    has' := has;
    if IsLast(s) {
      Memset(lfn, 0, 0, LFN_BUFFER);
      PutAll(old(lfn[..]), Repeat(0, LFN_BUFFER));
      has' := true;
    }
    if has' {
      ExtractChars(s, lfn, Base(s));
    }
  }

  lemma PutAll(b: seq<uint8>, w: seq<uint8>)
    requires |w| == |b|
    ensures Put(b, 0, w) == w
  {}

  /** The name copied into a listed entry. */
  method ListedName(s: Slot, lfn: array<uint8>, has: bool) returns (info: Info)
    requires lfn.Length == LFN_BUFFER
    ensures info == Listed(Lfn(lfn[..], has), s)
  {
    info := InfoOf(s);
    if has {
      info := info.(name := CString(lfn[..MAX_PATH - 1]));
      assert lfn[..MAX_PATH - 1] == Take(lfn[..], MAX_PATH - 1);
    }
  }

  /** One slot of a listing that is not an end mark. */
  method ListSlot(s: Slot, lfn: array<uint8>, has: bool, entries: seq<Info>, max: nat, ghost rest: seq<Slot>)
    returns (has': bool, entries': seq<Info>)
    requires lfn.Length == LFN_BUFFER && |entries| < max && !IsEnd(s) && (IsLfn(s) ==> InBuffer(s))
    modifies lfn
    ensures |entries'| <= max
    ensures entries + List([s] + rest, Lfn(old(lfn[..]), has), max - |entries|)
         == entries' + List(rest, Lfn(lfn[..], has'), max - |entries'|)
  {
    hide Collect, Listed, InBuffer;
    has', entries' := has, entries;
    assert ([s] + rest)[0] == s && ([s] + rest)[1..] == rest;
    if IsFree(s) {
    } else if IsLfn(s) {
      has' := CollectSlot(s, lfn, has);
    } else if IsVolume(s) {
      has' := false;
    } else {
      var info := ListedName(s, lfn, has);
      Associative(entries, [info], List(rest, Lfn(lfn[..], false), max - |entries| - 1));
      has', entries' := false, entries + [info];
    }
  }

  /** The loop over the slots of the loaded cluster; `done` at an end mark. */
  method ListBuffer(dir: Directory, lfn: array<uint8>, has: bool, entries: seq<Info>, max: nat, ghost rest: seq<Slot>)
    returns (done: bool, has': bool, entries': seq<Info>)
    requires dir.Valid() && lfn.Length == LFN_BUFFER && lfn != dir.buffer && lfn != dir.vol.fatBuffer
        && |entries| <= max
    requires LongNamesFit(ClusterSlots(dir.buffer[..dir.vol.geo.bytesPerCluster]))
    modifies lfn
    ensures dir.Valid() && |entries'| <= max
    ensures entries + List(ClusterSlots(dir.buffer[..dir.vol.geo.bytesPerCluster]) + rest, Lfn(old(lfn[..]), has),
        max - |entries|)
         == if done then entries' else entries' + List(rest, Lfn(lfn[..], has'), max - |entries'|)
  {
    hide Consistent, IsTableOf, Geometry.WellFormed, InBuffer, List, LongNamesFit, ClusterSlots;
    dir.vol.Facts();
    ghost var slots := ClusterSlots(dir.buffer[..dir.vol.geo.bytesPerCluster]);
    ghost var all := entries + List(slots + rest, Lfn(lfn[..], has), max - |entries|);
    has', entries' := has, entries;
    var entriesPerCluster := dir.vol.geo.bytesPerCluster / SLOT_SIZE;
    var i := 0;
    dir.SlotsLoaded();
    while i < entriesPerCluster && |entries'| < max
      invariant 0 <= i <= entriesPerCluster == |slots| && |entries'| <= max && dir.Valid()
      invariant all == entries' + List(slots[i..] + rest, Lfn(lfn[..], has'), max - |entries'|)
    {
      dir.LoadedAt(i);
      var slot := dir.Loaded(i);
      FitsAt(slots, i);
      Rest(slots, rest, i, Lfn(lfn[..], has'), max - |entries'|);
      if IsEnd(slot) {
        return true, has', entries';
      }
      has', entries' := ListSlot(slot, lfn, has', entries', max, slots[i + 1..] + rest);
      i := i + 1;
    }
    done := false;
    assert i == |slots| ==> slots[i..] + rest == rest;
    NoRoom(slots[i..] + rest, rest, Lfn(lfn[..], has'), max - |entries'|);
  }

  lemma FitsAt(slots: seq<Slot>, i: nat)
    requires LongNamesFit(slots) && i < |slots|
    ensures IsLfn(slots[i]) ==> InBuffer(slots[i])
  {}

  lemma Rest(slots: seq<Slot>, rest: seq<Slot>, i: nat, st: Lfn, max: nat)
    requires i < |slots|
    ensures slots[i..] + rest == [slots[i]] + (slots[i + 1..] + rest)
    ensures IsEnd(slots[i]) ==> List(slots[i..] + rest, st, max) == []
  {}

  lemma NoRoom(a: seq<Slot>, b: seq<Slot>, st: Lfn, max: nat)
    ensures max == 0 ==> List(a, st, max) == List(b, st, max)
  {}

  /** The part of a listing that one cluster of the directory contributes. */
  method ListCluster(dir: Directory, c: uint32, lfn: array<uint8>, has: bool, entries: seq<Info>, max: nat,
      ghost ch: Chain, ghost k: nat)
    returns (done: bool, has': bool, entries': seq<Info>, next: uint32)
    requires dir.Valid() && dir.vol.dev.reliable && dir.vol.geo.IsCluster(c) && k < |ch| && c == ch[k]
    requires lfn.Length == LFN_BUFFER && lfn != dir.buffer && lfn != dir.vol.fatBuffer && |entries| <= max
    requires LongNamesFit(DirSlots(dir.vol.data, ch))
    modifies dir.vol.Footprint(), dir.buffer, lfn
    ensures dir.Valid() && dir.vol.table == old(dir.vol.table) && dir.vol.data == old(dir.vol.data) && |entries'| <= max
    ensures !done ==> c < |dir.vol.table| && next == dir.vol.table[c]
    ensures entries + List(DirSlots(dir.vol.data, ch[k..]), Lfn(old(lfn[..]), has), max - |entries|)
         == if done then entries' else entries' + List(DirSlots(dir.vol.data, ch[k + 1..]), Lfn(lfn[..], has'),
             max - |entries'|)
  {
    hide Consistent, IsTableOf, Geometry.WellFormed, DirSlots, ClusterSlots, List, LongNamesFit;
    dir.vol.Facts();
    DirSlotsSplit(dir.vol.data, ch, k);
    FitsHere(DirSlots(dir.vol.data, ch[..k]), ClusterSlots(dir.vol.data[c]), DirSlots(dir.vol.data, ch[k + 1..]));
    var _ := dir.vol.ReadCluster(c, dir.buffer);
    done, has', entries' := ListBuffer(dir, lfn, has, entries, max, DirSlots(dir.vol.data, ch[k + 1..]));
    next := EOC;
    if !done {
      next := dir.vol.GetEntry(c);
    }
  }

  /** `fat32_read_dir`: the first `max` entries of a directory, under their long names where they have one. */
  method ReadDir(dir: Directory, cluster: uint32, max: nat) returns (ok: bool, entries: seq<Info>)
    requires dir.Valid() && dir.vol.dev.reliable && IsDir(dir.vol.table, cluster)
    requires LongNamesFit(SlotsAt(dir.vol.table, dir.vol.data, cluster))
    modifies dir.vol.Footprint(), dir.buffer
    ensures dir.Valid() && dir.vol.table == old(dir.vol.table) && dir.vol.data == old(dir.vol.data)
    ensures ok && entries == List(SlotsAt(dir.vol.table, dir.vol.data, cluster), Lfn([], false), max)
  {
    hide Consistent, IsTableOf, Geometry.WellFormed, IsChain, DirSlots, ClusterSlots, List, LongNamesFit,
         Directory.Valid;
    TableFits(dir);
    ghost var ch, data := DirChain(dir.vol.table, cluster), dir.vol.data;
    ghost var slots := DirSlots(data, ch);
    var lfn, has := new uint8[LFN_BUFFER], false;
    entries := [];
    BufferIrrelevant(slots, Lfn([], false), Lfn(lfn[..], false), max);
    var current := cluster;
    ghost var k := 0;
    assert ch[0..] == ch;
    NoSlots(data, Lfn(lfn[..], false), max);
    while current >= 2
      invariant dir.Valid() && dir.vol.table == old(dir.vol.table) && dir.vol.data == data && fresh(lfn)
      invariant |entries| <= max && k <= |ch| && (current >= 2 ==> k < |ch| && current == ch[k])
      invariant current < 2 ==> k == |ch|
      invariant List(slots, Lfn([], false), max)
          == entries + List(DirSlots(data, ch[k..]), Lfn(lfn[..], has), max - |entries|)
      decreases |ch| - k
    {
      ChainStep(dir.vol.table, ch, k);
      var done, next;
      done, has, entries, next := ListCluster(dir, current, lfn, has, entries, max, ch, k);
      if done {
        return true, entries;
      }
      k := k + 1;
      if IsEoc(next) {
        break;
      }
      current := next;
    }
    assert k == |ch| ==> ch[k..] == [];
    NoSlots(data, Lfn(lfn[..], has), max - |entries|);
    ok := true;
  }

  /** Clusters of the table are clusters of the volume. */
  lemma TableFits(dir: Directory)
    requires dir.Valid()
    ensures dir.vol.Valid() && |dir.vol.table| == dir.vol.geo.Clusters()
  {
    hide Consistent, IsTableOf, Geometry.WellFormed;
    dir.vol.Facts();
  }

  lemma NoSlots(data: Data, st: Lfn, max: nat)
    ensures List(DirSlots(data, []), st, max) == []
  {}

  lemma FitsHere(a: seq<Slot>, b: seq<Slot>, c: seq<Slot>)
    requires LongNamesFit(a + (b + c))
    ensures LongNamesFit(b)
  {
    hide IsLfn, InBuffer;
    forall i | 0 <= i < |b| && IsLfn(b[i]) ensures InBuffer(b[i]) {
      assert (a + (b + c))[|a| + i] == b[i];
    }
  }
}
