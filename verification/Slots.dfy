/** Directory slots as values, and the finite map they stand for. */
module Slots {
  import opened Bytes
  import opened Chains
  import opened Contents
  import opened Memory
  import opened ShortNames

  const SLOT_SIZE := 32
  const ENTRY_END: uint8 := 0x00
  const ENTRY_FREE: uint8 := 0xE5
  const ATTR_LFN: uint8 := 0x0F
  const ATTR_DIRECTORY: uint8 := 0x10
  const ATTR_ARCHIVE: uint8 := 0x20
  const MAX_PATH := 256

  type Slot = s: seq<uint8> | |s| == SLOT_SIZE witness seq(SLOT_SIZE, _ => 0)

  // ----- Fields of `fat32_dir_entry_t`

  predicate IsEnd(s: Slot) { s[0] == ENTRY_END }

  predicate IsFree(s: Slot) { s[0] == ENTRY_FREE }

  function Attributes(s: Slot): uint8 { s[11] }

  predicate IsLfn(s: Slot) { Attributes(s) == ATTR_LFN }

  predicate IsVolume(s: Slot) { Attributes(s) / 8 % 2 == 1 }

  function FirstCluster(s: Slot): uint32 {
    Half(s, 20) * 0x1_0000 + Half(s, 26)
  }

  function Size(s: Slot): uint32 { Word(s, 28) }

  /** A C string: the bytes before the first NUL. */
  function CString(s: seq<uint8>): (r: seq<uint8>)
    ensures r <= s && 0 !in r
  {
    if s == [] || s[0] == 0 then [] else [s[0]] + CString(s[1..])
  }

  /** The printed name of a slot, and its upper-case form, by which the driver looks it up. */
  function Name(s: Slot): seq<uint8> { CString(Decode(s[..SHORT_LENGTH])) }

  function Key(s: Slot): seq<uint8> { UpperAll(Name(s)) }

  /** What a lookup reports. */
  datatype Info = Info(name: seq<uint8>, attributes: uint8, firstCluster: uint32, size: uint32)

  function InfoOf(s: Slot): Info {
    Info(Name(s), Attributes(s), FirstCluster(s), Size(s))
  }

  predicate IsDirectory(i: Info) { i.attributes / 0x10 % 2 == 1 }

  /** Kinds and fields of a slot as the on-disk format has them, attributes bit by bit. */
  lemma SlotFormat(s: Slot)
    ensures (IsEnd(s) <==> s[0] == 0) && (IsFree(s) <==> s[0] == 0xE5)
    ensures IsLfn(s) <==> s[11] == 0x0F
    ensures IsVolume(s) <==> (s[11] as bv8) & 0x08 != 0
    ensures IsDirectory(InfoOf(s)) <==> (s[11] as bv8) & 0x10 != 0
    ensures InfoOf(s).attributes == s[11]
    ensures InfoOf(s).firstCluster
         == s[26] as int + 0x100 * (s[27] as int) + 0x1_0000 * (s[20] as int) + 0x100_0000 * (s[21] as int)
    ensures InfoOf(s).size
         == s[28] as int + 0x100 * (s[29] as int) + 0x1_0000 * (s[30] as int) + 0x100_0000 * (s[31] as int)
  {}

  // ----- Slots of a directory

  /** The slots in one cluster. */
  function ClusterSlots(b: seq<uint8>): (r: seq<Slot>)
    ensures |r| == |b| / SLOT_SIZE
    ensures forall i | 0 <= i < |r| :: r[i] == b[i * SLOT_SIZE..i * SLOT_SIZE + SLOT_SIZE]
  {
    seq(|b| / SLOT_SIZE, i requires 0 <= i < |b| / SLOT_SIZE => b[i * SLOT_SIZE..i * SLOT_SIZE + SLOT_SIZE])
  }

  /** The slots of a directory, cluster after cluster. */
  ghost function DirSlots(data: Data, ch: Chain): (r: seq<Slot>)
    decreases |ch|
  {
    if ch == [] then []
    else (if ch[0] < |data| then ClusterSlots(data[ch[0]]) else []) + DirSlots(data, ch[1..])
  }

  /**
   * Which slots a scan compares with a name: a lookup passes over free, long-name and volume
   * slots, a deletion or an update over free and long-name slots only.
   */
  predicate Compared(s: Slot, skipVolumes: bool) {
    !IsFree(s) && !IsLfn(s) && !(skipVolumes && IsVolume(s))
  }

  predicate Hits(s: Slot, key: seq<uint8>, skipVolumes: bool) {
    Compared(s, skipVolumes) && Key(s) == key
  }

  /** The first slot before any end mark that a scan for `key` hits, or -1. */
  ghost function Find(slots: seq<Slot>, key: seq<uint8>, skipVolumes: bool): (r: int)
    ensures -1 <= r < |slots|
    ensures r >= 0 ==> Hits(slots[r], key, skipVolumes) && !IsEnd(slots[r])
    ensures r >= 0 ==> forall i | 0 <= i < r :: !IsEnd(slots[i]) && !Hits(slots[i], key, skipVolumes)
    decreases |slots|
  {
    if slots == [] || IsEnd(slots[0]) then -1
    else if Hits(slots[0], key, skipVolumes) then 0
    else
      var r := Find(slots[1..], key, skipVolumes);
      if r < 0 then -1 else r + 1
  }

  /** Slot `i` is before any end mark, no free, long-name or skipped volume slot, and carries the name up to case. */
  ghost predicate Named(slots: seq<Slot>, i: int, name: seq<uint8>, skipVolumes: bool) {
    && 0 <= i < |slots| && (forall j | 0 <= j <= i :: slots[j][0] != 0)
    && slots[i][0] != 0xE5 && slots[i][11] != 0x0F && (skipVolumes ==> slots[i][11] / 8 % 2 == 0)
    && SameName(Name(slots[i]), name)
  }

  ghost predicate FirstNamed(slots: seq<Slot>, i: int, name: seq<uint8>, skipVolumes: bool) {
    Named(slots, i, name, skipVolumes) && forall j | 0 <= j < i :: !Named(slots, j, name, skipVolumes)
  }

  /** What a lookup of a name reports: the first slot that carries it, if there is one. */
  ghost predicate Reports(slots: seq<Slot>, name: seq<uint8>, found: bool, info: Info) {
    && (found <==> exists i :: Named(slots, i, name, true))
    && (found ==> exists i :: FirstNamed(slots, i, name, true) && info == InfoOf(slots[i]))
  }

  /** A scan finds the first slot that carries the name, in whatever letters, and fails if none does. */
  lemma FoundIsNamed(slots: seq<Slot>, name: seq<uint8>, skipVolumes: bool, i: nat)
    ensures Find(slots, UpperAll(name), skipVolumes) == i
       <==> FirstNamed(slots, i, name, skipVolumes)
    ensures Find(slots, UpperAll(name), skipVolumes) < 0 <==> forall j :: !Named(slots, j, name, skipVolumes)
  {
    hide Find, Name, UpperAll, SameName;
    var r := Find(slots, UpperAll(name), skipVolumes);
    forall j | 0 <= j < |slots| ensures Hits(slots[j], UpperAll(name), skipVolumes)
      <==> Compared(slots[j], skipVolumes) && SameName(Name(slots[j]), name)
    {
      UpperExact(Name(slots[j]), name);
    }
    if r < 0 {
      FindMissesNone(slots, UpperAll(name), skipVolumes);
    } else {
      assert Named(slots, r, name, skipVolumes);
    }
  }

  /** Names that differ in case alone are the same to every scan of every directory. */
  lemma CaseBlind(slots: seq<Slot>, a: seq<uint8>, b: seq<uint8>, skipVolumes: bool)
    requires SameName(a, b)
    ensures Find(slots, UpperAll(a), skipVolumes) == Find(slots, UpperAll(b), skipVolumes)
  {
    UpperExact(a, b);
  }

  lemma {:induction false} FindMissesNone(slots: seq<Slot>, key: seq<uint8>, skipVolumes: bool)
    requires Find(slots, key, skipVolumes) < 0
    ensures forall i | 0 <= i < |slots| && Hits(slots[i], key, skipVolumes) ::
              exists j :: 0 <= j <= i && IsEnd(slots[j])
    decreases |slots|
  {
    hide Hits, IsEnd;
    if slots != [] && !IsEnd(slots[0]) {
      FindMissesNone(slots[1..], key, skipVolumes);
      forall i | 0 <= i < |slots| && Hits(slots[i], key, skipVolumes)
        ensures exists j :: 0 <= j <= i && IsEnd(slots[j])
      {
        assert slots[1..][i - 1] == slots[i];
        var j :| 0 <= j <= i - 1 && IsEnd(slots[1..][j]);
        assert IsEnd(slots[j + 1]);
      }
    }
  }

  /** The first slot that is free or an end mark, or -1. */
  ghost function FindFree(slots: seq<Slot>): (r: int)
    ensures -1 <= r < |slots|
    ensures r >= 0 ==> IsEnd(slots[r]) || IsFree(slots[r])
    ensures r >= 0 ==> forall i | 0 <= i < r :: !IsEnd(slots[i]) && !IsFree(slots[i])
    decreases |slots|
  {
    if slots == [] then -1
    else if IsEnd(slots[0]) || IsFree(slots[0]) then 0
    else
      var r := FindFree(slots[1..]);
      if r < 0 then -1 else r + 1
  }

  /** A printed name never has more than 12 bytes. */
  lemma KeyShort(s: Slot)
    ensures |Key(s)| <= 12
  {}

  /** Cutting a name to 63 bytes does not change what a lookup finds. */
  lemma {:induction false} FindTake(slots: seq<Slot>, name: seq<uint8>, skipVolumes: bool)
    ensures Find(slots, UpperAll(Take(name, 63)), skipVolumes) == Find(slots, UpperAll(name), skipVolumes)
    decreases |slots|
  {
    if slots != [] {
      KeyShort(slots[0]);
      FindTake(slots[1..], name, skipVolumes);
    }
  }

  /** Reusing a free slot or an end mark for another name does not move what a lookup finds. */
  lemma {:induction false} FindAfterInsert(slots: seq<Slot>, j: nat, s: Slot, key: seq<uint8>, skipVolumes: bool)
    requires j < |slots| && (IsEnd(slots[j]) || IsFree(slots[j]))
    requires !IsEnd(s) && !Hits(s, key, skipVolumes) && Find(slots, key, skipVolumes) >= 0
    ensures Find(slots[j := s], key, skipVolumes) == Find(slots, key, skipVolumes) != j
    decreases |slots|
  {
    if !Hits(slots[0], key, skipVolumes) {
      if j == 0 {
        assert slots[0 := s][1..] == slots[1..];
      } else {
        assert slots[j := s][1..] == slots[1..][j - 1 := s];
        FindAfterInsert(slots[1..], j - 1, s, key, skipVolumes);
      }
    }
  }

  // ----- Slots the driver writes

  /** The slot `fat32_create_entry` stores. */
  function MakeSlot(name: seq<uint8>, attributes: uint8, firstCluster: uint32, size: uint32): Slot {
    var head := Encode(name) + [attributes, 0, 0];
    var dates := HalfBytes(0) + HalfBytes(0x4E21) + HalfBytes(0x4E21);
    var high := HalfBytes(firstCluster / 0x1_0000);
    var modified := HalfBytes(0) + HalfBytes(0x4E21);
    var low := HalfBytes(firstCluster % 0x1_0000);
    assert |head| == 14 && |dates| == 6 && |modified| == 4;
    head + dates + high + modified + low + WordBytes(size)
  }

  /** A slot with its size and first cluster replaced, as `fat32_update_entry` does. */
  function UpdateSlot(s: Slot, size: uint32, firstCluster: uint32): Slot {
    Put(Put(Put(s, 28, WordBytes(size)), 20, HalfBytes(firstCluster / 0x1_0000)), 26,
        HalfBytes(firstCluster % 0x1_0000))
  }

  function DeleteSlot(s: Slot): Slot { s[0 := ENTRY_FREE] }

  /** A cluster number survives its two 16-bit halves. */
  lemma UpdateSlotFields(s: Slot, size: uint32, firstCluster: uint32)
    ensures var s' := UpdateSlot(s, size, firstCluster);
      && FirstCluster(s') == firstCluster && Size(s') == size
      && s'[..SHORT_LENGTH + 1] == s[..SHORT_LENGTH + 1]
  {
    var h, l, w := HalfBytes(firstCluster / 0x1_0000), HalfBytes(firstCluster % 0x1_0000), WordBytes(size);
    var s' := UpdateSlot(s, size, firstCluster);
    assert s'[20] == h[0] && s'[21] == h[1] && s'[26] == l[0] && s'[27] == l[1];
    assert s'[28] == w[0] && s'[29] == w[1] && s'[30] == w[2] && s'[31] == w[3];
  }

  /** Filling a zeroed slot field by field. */
  lemma MakeSlotAsPuts(name: seq<uint8>, attributes: uint8, firstCluster: uint32, size: uint32)
    ensures var s0 := Put(Repeat(0, SLOT_SIZE), 0, Encode(name));
      var s1 := Put(s0, 11, [attributes]);
      var s2 := Put(Put(s1, 20, HalfBytes(firstCluster / 0x1_0000)), 26, HalfBytes(firstCluster % 0x1_0000));
      var s3 := Put(s2, 28, WordBytes(size));
      Put(Put(Put(s3, 16, HalfBytes(0x4E21)), 24, HalfBytes(0x4E21)), 18, HalfBytes(0x4E21))
      == MakeSlot(name, attributes, firstCluster, size)
  {
    hide Encode, HalfBytes, WordBytes;
    SlotAsPuts(Encode(name), attributes, HalfBytes(firstCluster / 0x1_0000), HalfBytes(firstCluster % 0x1_0000),
        WordBytes(size),
               HalfBytes(0), HalfBytes(0x4E21));
    HalfZero();
  }

  lemma HalfZero()
    ensures HalfBytes(0) == [0, 0]
  {}

  lemma SlotAsPuts(n: ShortName, a: uint8, h: seq<uint8>, l: seq<uint8>, w: seq<uint8>, z: seq<uint8>, date: seq<uint8>)
    requires |h| == |l| == |date| == 2 && |w| == 4 && z == [0, 0]
    ensures var s0 := Put(Put(Repeat(0, SLOT_SIZE), 0, n), 11, [a]);
      var s1 := Put(Put(Put(s0, 20, h), 26, l), 28, w);
      Put(Put(Put(s1, 16, date), 24, date), 18, date)
      == (n + [a, 0, 0]) + (z + date + date) + h + (z + date) + l + w
  {
    hide Put;
    var s0 := Put(Put(Repeat(0, SLOT_SIZE), 0, n), 11, [a]);
    var s1 := Put(Put(Put(s0, 20, h), 26, l), 28, w);
    var s := Put(Put(Put(s1, 16, date), 24, date), 18, date);
    var parts := (n + [a, 0, 0]) + (z + date + date) + h + (z + date) + l + w;
    forall k | 0 <= k < SLOT_SIZE ensures s[k] == parts[k] {
      assert s0[k] == if k < 11 then n[k] else if k == 11 then a else 0;
      assert s1[k] == if 20 <= k < 22 then h[k - 20] else if 26 <= k < 28 then l[k - 26]
                      else if 28 <= k then w[k - 28] else s0[k];
    }
  }

  /** The bytes of a new file's slot after its name: archive, no cluster, no bytes, the driver's fixed dates. */
  lemma NewFileBytes(base: seq<uint8>, ext: seq<uint8>)
    requires '.' as int !in ext
    ensures var s := MakeSlot(base + ['.' as int] + ext, ATTR_ARCHIVE, 0, 0);
      && Holds(s[..8], 8, base) && Holds(s[8..11], 3, ext)
      && s[11..] == [0x20, 0, 0, 0, 0, 0x21, 0x4E, 0x21, 0x4E, 0, 0, 0, 0, 0x21, 0x4E, 0, 0, 0, 0, 0, 0]
  {
    hide Encode, HalfBytes, WordBytes;
    var name := base + ['.' as int] + ext;
    EncodeBytes(base, ext);
    NewFileParts();
    var s := MakeSlot(name, ATTR_ARCHIVE, 0, 0);
    assert s[..8] == Encode(name)[..8] && s[8..11] == Encode(name)[8..];
  }

  lemma NewFileParts()
    ensures WordBytes(0) == [0, 0, 0, 0] && HalfBytes(0) == [0, 0] && HalfBytes(0x4E21) == [0x21, 0x4E]
  {}

  lemma MakeSlotFields(name: seq<uint8>, attributes: uint8, firstCluster: uint32, size: uint32)
    ensures var s := MakeSlot(name, attributes, firstCluster, size);
      && s[..SHORT_LENGTH] == Encode(name) && Attributes(s) == attributes
      && FirstCluster(s) == firstCluster && Size(s) == size
  {
    var h, l, w := HalfBytes(firstCluster / 0x1_0000), HalfBytes(firstCluster % 0x1_0000), WordBytes(size);
    var s := MakeSlot(name, attributes, firstCluster, size);
    assert s[20] == h[0] && s[21] == h[1] && s[26] == l[0] && s[27] == l[1];
    assert s[28] == w[0] && s[29] == w[1] && s[30] == w[2] && s[31] == w[3];
  }

  // ----- Scanning cluster by cluster

  /** How the scan of one cluster ends: at a slot, at an end mark, or with the next cluster. */
  datatype Outcome = Hit(index: nat) | Stop | Continue {
    /** The same outcome seen from `n` slots earlier. */
    function Shift(n: nat): Outcome {
      if Hit? then Hit(index + n) else this
    }
  }

  ghost function Scan(slots: seq<Slot>, key: seq<uint8>, skipVolumes: bool): (o: Outcome)
    ensures o.Hit? ==> o.index < |slots|
    decreases |slots|
  {
    if slots == [] then Continue
    else if IsEnd(slots[0]) then Stop
    else if Hits(slots[0], key, skipVolumes) then Hit(0)
    else Scan(slots[1..], key, skipVolumes).Shift(1)
  }

  ghost function ScanFree(slots: seq<Slot>): (o: Outcome)
    ensures o.Hit? ==> o.index < |slots|
    ensures !o.Stop?
    decreases |slots|
  {
    if slots == [] then Continue
    else if IsEnd(slots[0]) || IsFree(slots[0]) then Hit(0)
    else ScanFree(slots[1..]).Shift(1)
  }

  /** The position a cluster scan stands for, given what the rest of the directory yields. */
  function Combine(o: Outcome, n: nat, rest: int): int {
    match o
    case Hit(i) => i
    case Stop => -1
    case Continue => if rest < 0 then -1 else rest + n
  }

  lemma {:induction false} FindConcat(a: seq<Slot>, b: seq<Slot>, key: seq<uint8>, skipVolumes: bool)
    ensures Find(a + b, key, skipVolumes) == Combine(Scan(a, key, skipVolumes), |a|, Find(b, key, skipVolumes))
    decreases |a|
  {
    if a == [] {
      assert a + b == b;
    } else {
      assert (a + b)[0] == a[0] && (a + b)[1..] == a[1..] + b;
      FindConcat(a[1..], b, key, skipVolumes);
    }
  }

  lemma {:induction false} FindFreeConcat(a: seq<Slot>, b: seq<Slot>)
    ensures FindFree(a + b) == Combine(ScanFree(a), |a|, FindFree(b))
    decreases |a|
  {
    if a == [] {
      assert a + b == b;
    } else {
      assert (a + b)[0] == a[0] && (a + b)[1..] == a[1..] + b;
      FindFreeConcat(a[1..], b);
    }
  }

  lemma {:induction false} DirSlotsConcat(data: Data, a: Chain, c: Chain)
    ensures DirSlots(data, a + c) == DirSlots(data, a) + DirSlots(data, c)
    decreases |a|
  {
    hide ClusterSlots;
    if a == [] {
      assert a + c == c;
    } else {
      DirSlotsConcat(data, a[1..], c);
      var head := if a[0] < |data| then ClusterSlots(data[a[0]]) else [];
      assert (a + c)[0] == a[0] && (a + c)[1..] == a[1..] + c;
      Associative(head, DirSlots(data, a[1..]), DirSlots(data, c));
    }
  }

  /** Clusters outside the chain do not matter. */
  lemma {:induction false} DirSlotsFrame(data: Data, data': Data, ch: Chain)
    requires |data'| == |data| && forall c | c in ch && c < |data| :: data'[c] == data[c]
    ensures DirSlots(data', ch) == DirSlots(data, ch)
    decreases |ch|
  {
    if ch != [] {
      DirSlotsFrame(data, data', ch[1..]);
    }
  }

  /** A directory around the cluster at position `k`. */
  lemma DirSlotsSplit(data: Data, ch: Chain, k: nat)
    requires k < |ch| && ch[k] < |data|
    ensures DirSlots(data, ch) == DirSlots(data, ch[..k]) + (ClusterSlots(data[ch[k]]) + DirSlots(data, ch[k + 1..]))
    ensures DirSlots(data, ch[k..]) == ClusterSlots(data[ch[k]]) + DirSlots(data, ch[k + 1..])
  {
    assert ch == ch[..k] + ch[k..];
    DirSlotsConcat(data, ch[..k], ch[k..]);
    assert ch[k..][1..] == ch[k + 1..];
  }

  /** Storing inside one slot of a cluster changes that slot only. */
  lemma ClusterSlotsPut(b: seq<uint8>, i: nat, off: nat, w: seq<uint8>)
    requires (i + 1) * SLOT_SIZE <= |b| && off + |w| <= SLOT_SIZE
    ensures i < |ClusterSlots(b)|
    ensures ClusterSlots(Put(b, i * SLOT_SIZE + off, w)) == ClusterSlots(b)[i := Put(ClusterSlots(b)[i], off, w)]
  {
    var b' := Put(b, i * SLOT_SIZE + off, w);
    forall j | 0 <= j < |ClusterSlots(b)|
      ensures ClusterSlots(b')[j] == if j == i then Put(ClusterSlots(b)[i], off, w) else ClusterSlots(b)[j]
    {
      SlotOfPut(b, i, off, w, j);
    }
  }

  lemma SlotOfPut(b: seq<uint8>, i: nat, off: nat, w: seq<uint8>, j: nat)
    requires (i + 1) * SLOT_SIZE <= |b| && off + |w| <= SLOT_SIZE && (j + 1) * SLOT_SIZE <= |b|
    ensures var b' := Put(b, i * SLOT_SIZE + off, w);
      var s := b[j * SLOT_SIZE..(j + 1) * SLOT_SIZE];
      b'[j * SLOT_SIZE..(j + 1) * SLOT_SIZE] == if j == i then Put(s, off, w) else s
  {}

  /** Replacing slot `i` of the cluster at position `k` replaces one slot of the directory. */
  lemma DirSlotsUpdate(data: Data, ch: Chain, k: nat, b: seq<uint8>, i: nat, s: Slot)
    requires k < |ch| && ch[k] < |data| && Distinct(ch)
    requires i < |ClusterSlots(data[ch[k]])| && ClusterSlots(b) == ClusterSlots(data[ch[k]])[i := s]
    ensures |DirSlots(data, ch[..k])| + i < |DirSlots(data, ch)|
    ensures DirSlots(data, ch)[|DirSlots(data, ch[..k])| + i] == ClusterSlots(data[ch[k]])[i]
    ensures DirSlots(data[ch[k] := b], ch) == DirSlots(data, ch)[|DirSlots(data, ch[..k])| + i := s]
  {
    hide DirSlots, ClusterSlots;
    DirSlotsSplit(data, ch, k);
    DirSlotsSplit(data[ch[k] := b], ch, k);
    DirSlotsFrame(data, data[ch[k] := b], ch[..k]);
    DirSlotsFrame(data, data[ch[k] := b], ch[k + 1..]);
  }

  // ----- Walking a directory

  /** A scan that came to position `k` of the chain has not decided yet: the rest of the chain will. */
  ghost predicate Reached(data: Data, ch: Chain, k: nat, key: seq<uint8>, skipVolumes: bool) {
    && k < |ch|
    && Find(DirSlots(data, ch), key, skipVolumes)
       == Combine(Continue, |DirSlots(data, ch[..k])|, Find(DirSlots(data, ch[k..]), key, skipVolumes))
  }

  lemma ReachedStart(data: Data, ch: Chain, key: seq<uint8>, skipVolumes: bool)
    requires ch != []
    ensures Reached(data, ch, 0, key, skipVolumes)
  {
    assert ch[0..] == ch && ch[..0] == [];
  }

  lemma DirSlotsPrefix(data: Data, ch: Chain, k: nat)
    requires k < |ch| && ch[k] < |data|
    ensures |DirSlots(data, ch[..k + 1])| == |DirSlots(data, ch[..k])| + |ClusterSlots(data[ch[k]])|
  {
    hide DirSlots, ClusterSlots;
    assert ch[..k + 1] == ch[..k] + [ch[k]];
    DirSlotsConcat(data, ch[..k], [ch[k]]);
    DirSlotsOne(data, ch[k]);
  }

  /** What scanning the cluster at position `k` decides. */
  lemma ReachedStep(data: Data, ch: Chain, k: nat, key: seq<uint8>, skipVolumes: bool)
    requires Reached(data, ch, k, key, skipVolumes) && ch[k] < |data|
    ensures var r, o := Find(DirSlots(data, ch), key, skipVolumes), Scan(ClusterSlots(data[ch[k]]), key, skipVolumes);
      match o
      case Hit(i) =>
        && r == |DirSlots(data, ch[..k])| + i
        && DirSlots(data, ch)[r] == ClusterSlots(data[ch[k]])[i]
      case Stop => r == -1
      case Continue => if k + 1 < |ch| then Reached(data, ch, k + 1, key, skipVolumes) else r == -1
  {
    hide DirSlots, ClusterSlots, Scan, Find;
    var here, rest := ClusterSlots(data[ch[k]]), DirSlots(data, ch[k + 1..]);
    DirSlotsSplit(data, ch, k);
    FindConcat(here, rest, key, skipVolumes);
    if k + 1 < |ch| {
      DirSlotsPrefix(data, ch, k);
    } else {
      assert ch[k + 1..] == [];
      DirSlotsNone(data, key, skipVolumes);
    }
  }

  lemma DirSlotsOne(data: Data, c: uint32)
    requires c < |data|
    ensures DirSlots(data, [c]) == ClusterSlots(data[c])
  {
    assert [c][1..] == [];
  }

  lemma DirSlotsNone(data: Data, key: seq<uint8>, skipVolumes: bool)
    ensures DirSlots(data, []) == [] && Find([], key, skipVolumes) == -1 && FindFree([]) == -1
  {}

  ghost predicate FreeReached(data: Data, ch: Chain, k: nat) {
    && k < |ch|
    && FindFree(DirSlots(data, ch)) == Combine(Continue, |DirSlots(data, ch[..k])|, FindFree(DirSlots(data, ch[k..])))
  }

  lemma FreeReachedStart(data: Data, ch: Chain)
    requires ch != []
    ensures FreeReached(data, ch, 0)
  {
    assert ch[0..] == ch && ch[..0] == [];
  }

  lemma FreeReachedStep(data: Data, ch: Chain, k: nat)
    requires FreeReached(data, ch, k) && ch[k] < |data|
    ensures var r, o := FindFree(DirSlots(data, ch)), ScanFree(ClusterSlots(data[ch[k]]));
      match o
      case Hit(i) =>
        && r == |DirSlots(data, ch[..k])| + i
        && DirSlots(data, ch)[r] == ClusterSlots(data[ch[k]])[i]
      case Stop => true
      case Continue => if k + 1 < |ch| then FreeReached(data, ch, k + 1) else r == -1
  {
    hide DirSlots, ClusterSlots, ScanFree, FindFree;
    var here, rest := ClusterSlots(data[ch[k]]), DirSlots(data, ch[k + 1..]);
    DirSlotsSplit(data, ch, k);
    FindFreeConcat(here, rest);
    if k + 1 < |ch| {
      DirSlotsPrefix(data, ch, k);
    } else {
      assert ch[k + 1..] == [];
      DirSlotsNone(data, [], false);
    }
  }
}
