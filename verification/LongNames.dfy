/** Long file names: how they lie in directory slots and how a listing puts them back together. */
module LongNames {
  import opened Bytes
  import opened DirMaps
  import opened Memory
  import opened ShortNames
  import opened Slots
  import opened Tokens

  const LFN_CHARS := 13
  const LFN_BUFFER := 256
  const LAST_SLOT: uint8 := 0x40

  /** What `fat32_read_dir` carries from slot to slot. */
  datatype Lfn = Lfn(buffer: seq<uint8>, has: bool)

  // ----- Reading a long-name slot

  /** The low bytes of up to `n` units from offset `o` on, up to the first terminator or filler. */
  function Part(s: Slot, o: nat, n: nat): (r: seq<uint8>)
    requires o + 2 * n <= SLOT_SIZE
    ensures |r| <= n
    decreases n
  {
    if n == 0 || Half(s, o) == 0xFFFF || Half(s, o) == 0 then []
    else [Half(s, o) % 0x100] + Part(s, o + 2, n - 1)
  }

  /** What `extract_lfn_chars` takes from a slot: each of its three loops stops on its own. */
  function Chars(s: Slot): (r: seq<uint8>)
    ensures |r| <= LFN_CHARS
  {
    Part(s, 1, 5) + Part(s, 14, 6) + Part(s, 28, 2)
  }

  /** Unit `i` from offset `o` on is a terminator or filler. */
  ghost predicate Stops(s: Slot, o: nat, i: nat)
    requires o + 2 * i + 2 <= SLOT_SIZE
  {
    Half(s, o + 2 * i) == 0 || Half(s, o + 2 * i) == 0xFFFF
  }

  /** The part of `n` units at offset `o` ends after `i` of them. */
  ghost predicate PartEnds(s: Slot, o: nat, n: nat, i: nat)
    requires o + 2 * n <= SLOT_SIZE
  {
    i <= n && (forall j | 0 <= j < i :: !Stops(s, o, j)) && (i < n ==> Stops(s, o, i))
  }

  /** The low bytes of `n` units. */
  function LowBytes(s: Slot, o: nat, n: nat): seq<uint8>
    requires o + 2 * n <= SLOT_SIZE
  {
    seq(n, i requires 0 <= i < n => s[o + 2 * i])
  }

  /** The characters are the low bytes of the units up to where each of the three parts ends on its own. */
  lemma CharsFormat(s: Slot, i: nat, j: nat, k: nat)
    requires PartEnds(s, 1, 5, i) && PartEnds(s, 14, 6, j) && PartEnds(s, 28, 2, k)
    ensures Chars(s) == LowBytes(s, 1, i) + LowBytes(s, 14, j) + LowBytes(s, 28, k)
  {
    hide Part, PartEnds, LowBytes;
    PartFormat(s, 1, 5, i);
    PartFormat(s, 14, 6, j);
    PartFormat(s, 28, 2, k);
  }

  lemma LowByte(s: Slot, o: nat)
    requires o + 2 <= SLOT_SIZE
    ensures Half(s, o) % 0x100 == s[o]
  {}

  lemma PartStep(s: Slot, o: nat, n: nat)
    requires o + 2 * n <= SLOT_SIZE
    ensures Part(s, o, n) == if n == 0 || Half(s, o) == 0xFFFF || Half(s, o) == 0 then []
                             else [Half(s, o) % 0x100] + Part(s, o + 2, n - 1)
  {
    hide Half;
  }

  lemma LowStep(s: Slot, o: nat, n: nat)
    requires 0 < n && o + 2 * n <= SLOT_SIZE
    ensures LowBytes(s, o, n) == [s[o]] + LowBytes(s, o + 2, n - 1)
  {}

  lemma EndsStep(s: Slot, o: nat, n: nat, i: nat)
    requires 0 < n && o + 2 * n <= SLOT_SIZE && PartEnds(s, o, n, i)
    ensures i == 0 <==> Half(s, o) == 0 || Half(s, o) == 0xFFFF
    ensures i > 0 ==> PartEnds(s, o + 2, n - 1, i - 1)
  {
    hide Half;
    assert Stops(s, o, 0) <==> Half(s, o) == 0 || Half(s, o) == 0xFFFF;
    var rest := o + 2;
    if i > 0 {
      forall j | 0 <= j < i - 1 ensures !Stops(s, rest, j) {
        assert Stops(s, rest, j) <==> Stops(s, o, j + 1);
      }
      assert i < n ==> (Stops(s, rest, i - 1) <==> Stops(s, o, i));
    }
  }

  lemma {:induction false} PartFormat(s: Slot, o: nat, n: nat, i: nat)
    requires o + 2 * n <= SLOT_SIZE && PartEnds(s, o, n, i)
    ensures i <= n && Part(s, o, n) == LowBytes(s, o, i)
    decreases n
  {
    hide Half, Part, Stops;
    PartStep(s, o, n);
    if n > 0 {
      EndsStep(s, o, n, i);
      LowByte(s, o);
      if i > 0 {
        LowStep(s, o, i);
        PartFormat(s, o + 2, n - 1, i - 1);
      }
    }
  }

  function Order(s: Slot): nat { s[0] as int % 0x40 }

  predicate IsLast(s: Slot) { s[0] as int / 0x40 % 2 == 1 }

  /** Where the slot's characters go. */
  function Base(s: Slot): int { (Order(s) - 1) * LFN_CHARS }

  /** The first byte: six bits of order, from 1, for thirteen characters each, and a mark on the first slot stored. */
  lemma OrderFormat(s: Slot)
    ensures Base(s) == (s[0] as int % 64 - 1) * 13
    ensures IsLast(s) <==> (s[0] as bv8) & 0x40 != 0
  {}

  /** The characters of a long-name slot stay inside the 256-byte buffer. */
  predicate InBuffer(s: Slot) {
    Order(s) >= 1 && Base(s) + |Chars(s)| <= LFN_BUFFER
  }

  function Collect(st: Lfn, s: Slot): (st': Lfn)
    ensures |st.buffer| == LFN_BUFFER ==> |st'.buffer| == LFN_BUFFER
  {
    var st1 := if IsLast(s) then Lfn(Repeat(0, LFN_BUFFER), true) else st;
    if st1.has && InBuffer(s)
        && |st1.buffer| == LFN_BUFFER then st1.(buffer := Put(st1.buffer, Base(s), Chars(s))) else st1
  }

  /** The listed entry of a slot: its long name, cut to 255 bytes, when one was collected. */
  function Listed(st: Lfn, s: Slot): Info {
    if st.has then InfoOf(s).(name := CString(Take(st.buffer, MAX_PATH - 1))) else InfoOf(s)
  }

  /** The first `max` entries of the slots. */
  ghost function List(slots: seq<Slot>, st: Lfn, max: nat): (r: seq<Info>)
    ensures |r| <= max
    decreases |slots|
  {
    if slots == [] || max == 0 || IsEnd(slots[0]) then []
    else if IsFree(slots[0]) then List(slots[1..], st, max)
    else if IsLfn(slots[0]) then List(slots[1..], Collect(st, slots[0]), max)
    else if IsVolume(slots[0]) then List(slots[1..], st.(has := false), max)
    else [Listed(st, slots[0])] + List(slots[1..], st.(has := false), max - 1)
  }

  /** The collected bytes matter only while a long name is being put together. */
  lemma {:induction false} BufferIrrelevant(slots: seq<Slot>, a: Lfn, b: Lfn, max: nat)
    requires !a.has && !b.has
    ensures List(slots, a, max) == List(slots, b, max)
    decreases |slots|
  {
    hide Listed;
    if slots != [] && max > 0 && !IsEnd(slots[0]) {
      if IsFree(slots[0]) || IsVolume(slots[0]) {
        BufferIrrelevant(slots[1..], a, b, max);
      } else if IsLfn(slots[0]) {
        if !IsLast(slots[0]) {
          BufferIrrelevant(slots[1..], a, b, max);
        }
      } else {
        ListedShort(a, slots[0]);
        ListedShort(b, slots[0]);
        BufferIrrelevant(slots[1..], a, b, max - 1);
      }
    }
  }

  lemma ListedShort(st: Lfn, s: Slot)
    requires !st.has
    ensures Listed(st, s) == InfoOf(s)
  {}

  // ----- Writing a long name

  /** Unit `i` of a slot that holds the characters `c`. */
  function Unit(c: seq<uint8>, i: nat): uint16 {
    if i < |c| then c[i] else if i == |c| then 0 else 0xFFFF
  }

  function LfnByte(order: uint8, checksum: uint8, c: seq<uint8>, k: nat): uint8 {
    if k == 0 then order
    else if k < 11 then Byte(Unit(c, (k - 1) / 2), (k - 1) % 2)
    else if k == 11 then ATTR_LFN
    else if k == 13 then checksum
    else if 14 <= k < 26 then Byte(Unit(c, 5 + (k - 14) / 2), (k - 14) % 2)
    else if 28 <= k < 32 then Byte(Unit(c, 11 + (k - 28) / 2), (k - 28) % 2)
    else 0
  }

  function Byte(u: uint16, i: nat): uint8 {
    if i == 0 then u % 0x100 else u / 0x100
  }

  /** The slot of section "FAT Long Directory Entries" that holds the characters `c`. */
  function LfnSlot(order: uint8, checksum: uint8, c: seq<uint8>): Slot {
    seq(SLOT_SIZE, k requires 0 <= k < SLOT_SIZE => LfnByte(order, checksum, c, k))
  }

  /** The number of slots a long name takes. */
  function SlotCount(name: seq<uint8>): nat {
    (|name| + LFN_CHARS - 1) / LFN_CHARS
  }

  /** The characters of slot number `k`, counted from 1. */
  function Chunk(name: seq<uint8>, k: nat): (c: seq<uint8>)
    ensures |c| <= LFN_CHARS
  {
    if k == 0 || (k - 1) * LFN_CHARS >= |name| then []
    else if k * LFN_CHARS <= |name| then name[(k - 1) * LFN_CHARS..k * LFN_CHARS]
    else name[(k - 1) * LFN_CHARS..]
  }

  /** Slots `k` down to 1 of a name, without the mark on the last one. */
  function TailSlots(name: seq<uint8>, checksum: uint8, k: nat): (slots: seq<Slot>)
    requires k <= 20
    ensures |slots| == k
  {
    if k == 0 then [] else [LfnSlot(k, checksum, Chunk(name, k))] + TailSlots(name, checksum, k - 1)
  }

  /** The slots that stand before the short entry of a file with this long name. */
  function LongSlots(name: seq<uint8>, checksum: uint8): seq<Slot>
    requires 1 <= |name| <= 255
  {
    var n := SlotCount(name);
    [LfnSlot(LAST_SLOT + n, checksum, Chunk(name, n))] + TailSlots(name, checksum, n - 1)
  }

  // ----- What a slot gives back

  lemma {:induction false} PartIs(s: Slot, o: nat, n: nat, c: seq<uint8>, from: nat)
    requires o + 2 * n <= SLOT_SIZE && 0 !in c
    requires forall i | 0 <= i < n :: Half(s, o + 2 * i) == Unit(c, from + i)
    ensures Part(s, o, n) == if from >= |c| then [] else if from + n <= |c| then c[from..from + n] else c[from..]
    decreases n
  {
    hide Half, Unit, Part;
    PartStep(s, o, n);
    if n > 0 {
      assert Half(s, o + 2 * 0) == Unit(c, from + 0);
      UnitOf(c, from);
      if from < |c| {
        forall i | 0 <= i < n - 1 ensures Half(s, o + 2 + 2 * i) == Unit(c, from + 1 + i) {
          assert Half(s, o + 2 * (i + 1)) == Unit(c, from + (i + 1));
        }
        PartIs(s, o + 2, n - 1, c, from + 1);
      }
    }
  }

  lemma UnitOf(c: seq<uint8>, i: nat)
    requires 0 !in c
    ensures i < |c| ==> Unit(c, i) == c[i] != 0
    ensures i == |c| ==> Unit(c, i) == 0
    ensures i > |c| ==> Unit(c, i) == 0xFFFF
  {
    assert i < |c| ==> c[i] in c;
  }

  /** Which unit lies at offset `o`. */
  ghost predicate UnitAt(o: nat, i: nat) {
    (i < 5 && o == 1 + 2 * i) || (5 <= i < 11 && o == 4 + 2 * i) || (11 <= i < 13 && o == 6 + 2 * i)
  }

  lemma SlotUnit(order: uint8, checksum: uint8, c: seq<uint8>, o: nat, i: nat)
    requires UnitAt(o, i)
    ensures Half(LfnSlot(order, checksum, c), o) == Unit(c, i)
  {
    hide Unit, Byte;
    var s := LfnSlot(order, checksum, c);
    assert s[o] == LfnByte(order, checksum, c, o) == Byte(Unit(c, i), 0);
    assert s[o + 1] == LfnByte(order, checksum, c, o + 1) == Byte(Unit(c, i), 1);
    UnitBytes(Unit(c, i));
  }

  /** The characters put into a slot are the ones taken out of it. */
  lemma SlotChars(order: uint8, checksum: uint8, c: seq<uint8>)
    requires |c| <= LFN_CHARS && 0 !in c
    ensures Chars(LfnSlot(order, checksum, c)) == c
  {
    hide Part, LfnSlot, Half, Unit;
    var s := LfnSlot(order, checksum, c);
    forall i | 0 <= i < 5 ensures Half(s, 1 + 2 * i) == Unit(c, 0 + i) {
      SlotUnit(order, checksum, c, 1 + 2 * i, i);
    }
    forall i | 0 <= i < 6 ensures Half(s, 14 + 2 * i) == Unit(c, 5 + i) {
      SlotUnit(order, checksum, c, 14 + 2 * i, 5 + i);
    }
    forall i | 0 <= i < 2 ensures Half(s, 28 + 2 * i) == Unit(c, 11 + i) {
      SlotUnit(order, checksum, c, 28 + 2 * i, 11 + i);
    }
    PartIs(s, 1, 5, c, 0);
    PartIs(s, 14, 6, c, 5);
    PartIs(s, 28, 2, c, 11);
  }

  lemma UnitBytes(u: uint16)
    ensures Byte(u, 0) as int + 0x100 * (Byte(u, 1) as int) == u
  {}

  // ----- Putting the name together

  /** The buffer once the characters from `from` on are in place. */
  ghost function Filled(name: seq<uint8>, from: nat): (b: seq<uint8>)
    requires from <= |name| <= 255
    ensures |b| == LFN_BUFFER
  {
    Repeat(0, from) + name[from..] + Repeat(0, LFN_BUFFER - |name|)
  }

  ghost function Start(name: seq<uint8>, k: nat): nat {
    if k * LFN_CHARS <= |name| then k * LFN_CHARS else |name|
  }

  lemma FilledStep(name: seq<uint8>, k: nat)
    requires 1 <= k <= 20 && (k - 1) * LFN_CHARS < |name| <= 255
    ensures (k - 1) * LFN_CHARS + |Chunk(name, k)| <= LFN_BUFFER
    ensures Put(Filled(name, Start(name, k)), (k - 1) * LFN_CHARS, Chunk(name, k)) == Filled(name, (k - 1) * LFN_CHARS)
  {}

  lemma ChunkIn(name: seq<uint8>, k: nat)
    requires 0 !in name
    ensures 0 !in Chunk(name, k)
  {}

  /** Collecting slot `k` of a name. */
  lemma CollectStep(name: seq<uint8>, checksum: uint8, k: nat, order: uint8, st: Lfn)
    requires 0 !in name && 1 <= k <= 20 && (k - 1) * LFN_CHARS < |name| <= 255
    requires order == k + LAST_SLOT || (order == k && st == Lfn(Filled(name, Start(name, k)), true))
    requires order == k + LAST_SLOT ==> |name| <= k * LFN_CHARS
    ensures var s := LfnSlot(order, checksum, Chunk(name, k));
      && IsLfn(s) && !IsEnd(s) && !IsFree(s)
      && Collect(st, s) == Lfn(Filled(name, (k - 1) * LFN_CHARS), true)
  {
    hide Chars, LfnSlot, Filled, Put, Chunk, Start;
    var s := LfnSlot(order, checksum, Chunk(name, k));
    SlotHead(order, checksum, Chunk(name, k));
    ChunkIn(name, k);
    SlotChars(order, checksum, Chunk(name, k));
    FilledStep(name, k);
    OrderIs(order, k);
    if order == k + LAST_SLOT {
      NothingFilled(name);
      LastStart(name, k);
    }
  }

  lemma SlotHead(order: uint8, checksum: uint8, c: seq<uint8>)
    ensures LfnSlot(order, checksum, c)[0] == order && LfnSlot(order, checksum, c)[11] == ATTR_LFN
  {}

  lemma OrderIs(order: uint8, k: nat)
    requires 1 <= k <= 20 && (order == k || order == k + LAST_SLOT)
    ensures order as int % 0x40 == k && (order as int / 0x40 % 2 == 1 <==> order == k + LAST_SLOT)
        && order != ENTRY_FREE
  {}

  lemma LastStart(name: seq<uint8>, k: nat)
    requires |name| <= k * LFN_CHARS
    ensures Start(name, k) == |name|
  {}

  lemma NothingFilled(name: seq<uint8>)
    requires |name| <= 255
    ensures Filled(name, |name|) == Repeat(0, LFN_BUFFER)
  {}

  lemma {:induction false} ListTail(name: seq<uint8>, checksum: uint8, k: nat, rest: seq<Slot>, max: nat)
    requires 0 !in name && k <= 20 && k * LFN_CHARS <= |name| <= 255 && max > 0
    ensures List(TailSlots(name, checksum, k) + rest, Lfn(Filled(name, k * LFN_CHARS), true), max)
         == List(rest, Lfn(Filled(name, 0), true), max)
    decreases k
  {
    hide Filled, Collect, LfnSlot, Chunk;
    if k == 0 {
      assert TailSlots(name, checksum, 0) + rest == rest;
    } else {
      var s := LfnSlot(k, checksum, Chunk(name, k));
      var all := TailSlots(name, checksum, k) + rest;
      assert all[0] == s && all[1..] == TailSlots(name, checksum, k - 1) + rest;
      CollectStep(name, checksum, k, k, Lfn(Filled(name, k * LFN_CHARS), true));
      ListTail(name, checksum, k - 1, rest, max);
    }
  }

  /**
   * Long-name reassembly: whatever was collected before, the slots of a name of 1 to 255 nonzero
   * bytes followed by a live entry list that entry under exactly that name.
   */
  lemma LongNameListed(name: seq<uint8>, checksum: uint8, s: Slot, rest: seq<Slot>, st: Lfn, max: nat)
    requires 1 <= |name| <= 255 && 0 !in name && Live(s) && max > 0
    ensures List(LongSlots(name, checksum) + ([s] + rest), st, max)
         == [InfoOf(s).(name := name)] + List(rest, Lfn([], false), max - 1)
  {
    hide Filled, Collect, LfnSlot, Chunk, TailSlots;
    var n := SlotCount(name);
    var first := LfnSlot(LAST_SLOT + n, checksum, Chunk(name, n));
    var all := LongSlots(name, checksum) + ([s] + rest);
    assert all[0] == first && all[1..] == TailSlots(name, checksum, n - 1) + ([s] + rest);
    CollectStep(name, checksum, n, LAST_SLOT + n, st);
    ListTail(name, checksum, n - 1, [s] + rest, max);
    NameFilled(name);
    assert ([s] + rest)[1..] == rest;
    BufferIrrelevant(rest, Lfn(Filled(name, 0), false), Lfn([], false), max - 1);
  }

  lemma NameFilled(name: seq<uint8>)
    requires |name| <= 255 && 0 !in name
    ensures CString(Take(Filled(name, 0), MAX_PATH - 1)) == name
  {
    var b := Take(Filled(name, 0), MAX_PATH - 1);
    assert b[..|name|] == name;
    if |name| < 255 {
      CStringPrefix(b, |name|);
    } else {
      assert b == name;
      CStringWhole(name);
    }
  }

  // ----- Anywhere in a directory

  /** What is carried past a slot that is not an end mark, and what the slot lists. */
  function Next(st: Lfn, s: Slot): Lfn {
    if IsFree(s) then st else if IsLfn(s) then Collect(st, s) else st.(has := false)
  }

  function Shown(st: Lfn, s: Slot): (r: seq<Info>)
    ensures |r| <= 1
  {
    if Compared(s, true) then [Listed(st, s)] else []
  }

  lemma ListStep(slots: seq<Slot>, st: Lfn, max: nat)
    requires slots != [] && !IsEnd(slots[0]) && max > 0
    ensures List(slots, st, max)
         == Shown(st, slots[0]) + List(slots[1..], Next(st, slots[0]), max - |Shown(st, slots[0])|)
  {
    hide Collect, Listed;
    var rest := List(slots[1..], Next(st, slots[0]), max);
    assert [] + rest == rest;
  }

  /** What has been collected after all of the slots. */
  ghost function After(slots: seq<Slot>, st: Lfn): Lfn
    decreases |slots|
  {
    if slots == [] then st else After(slots[1..], Next(st, slots[0]))
  }

  /** Listing goes on behind slots without an end mark. */
  lemma {:induction false} ListConcat(a: seq<Slot>, b: seq<Slot>, st: Lfn, max: nat)
    requires forall i | 0 <= i < |a| :: !IsEnd(a[i])
    ensures List(a + b, st, max) == List(a, st, max) + List(b, After(a, st), max - |List(a, st, max)|)
    decreases |a|
  {
    hide Next, Shown, List, IsEnd;
    if a == [] {
      assert a + b == b;
      ListNone(st, max);
    } else if max > 0 {
      assert (a + b)[0] == a[0] && (a + b)[1..] == a[1..] + b;
      ListStep(a, st, max);
      ListStep(a + b, st, max);
      var st', max' := Next(st, a[0]), max - |Shown(st, a[0])|;
      ListConcat(a[1..], b, st', max');
      Associative(Shown(st, a[0]), List(a[1..], st', max'), List(b, After(a, st), max' - |List(a[1..], st', max')|));
    }
  }

  lemma ListNone(st: Lfn, max: nat)
    ensures List([], st, max) == []
  {}

  /** Wherever a long name and its entry stand in a directory, the listing shows that entry under exactly that name. */
  lemma LongNameAnywhere(before: seq<Slot>, name: seq<uint8>, checksum: uint8, s: Slot, rest: seq<Slot>, st: Lfn,
      max: nat)
    requires forall i | 0 <= i < |before| :: !IsEnd(before[i])
    requires 1 <= |name| <= 255 && 0 !in name && Live(s) && |List(before, st, max)| < max
    ensures var r := List(before + (LongSlots(name, checksum) + ([s] + rest)), st, max);
      var n := |List(before, st, max)|;
      && n < |r| && r[..n] == List(before, st, max) && r[n] == InfoOf(s).(name := name)
      && r[n + 1..] == List(rest, Lfn([], false), max - n - 1)
  {
    hide List, LongSlots, After, InfoOf;
    ListConcat(before, LongSlots(name, checksum) + ([s] + rest), st, max);
    LongNameListed(name, checksum, s, rest, After(before, st), max - |List(before, st, max)|);
  }

  /** A slot that was freed is as good as none, also between a long name and its entry. */
  lemma FreedIgnored(a: seq<Slot>, s: Slot, b: seq<Slot>, st: Lfn, max: nat)
    requires s[0] == 0xE5 && forall i | 0 <= i < |a| :: !IsEnd(a[i])
    ensures List(a + ([s] + b), st, max) == List(a + b, st, max)
  {
    hide After, Collect, Listed;
    ListConcat(a, [s] + b, st, max);
    ListConcat(a, b, st, max);
    assert ([s] + b)[0] == s && ([s] + b)[1..] == b;
  }

  /** A volume label is not listed, and what was collected of a long name before it is dropped. */
  lemma LabelForgets(s: Slot, rest: seq<Slot>, st: Lfn, max: nat)
    requires s[0] != 0 && s[0] != 0xE5 && s[11] != 0x0F && (s[11] as bv8) & 0x08 != 0
    ensures List([s] + rest, st, max) == List(rest, Lfn([], false), max)
  {
    hide Collect, Listed;
    SlotFormat(s);
    assert ([s] + rest)[0] == s && ([s] + rest)[1..] == rest;
    BufferIrrelevant(rest, st.(has := false), Lfn([], false), max);
  }

  // ----- A listing and the map of its directory

  /** The live slots before any end mark, in order. */
  ghost function LiveSlots(slots: seq<Slot>): (r: seq<Slot>)
    ensures forall i | 0 <= i < |r| :: Live(r[i])
    decreases |slots|
  {
    if slots == [] || IsEnd(slots[0]) then []
    else if Live(slots[0]) then [slots[0]] + LiveSlots(slots[1..])
    else LiveSlots(slots[1..])
  }

  /** The two entries differ at most in the name. */
  predicate SameButName(a: Info, b: Info) {
    a.attributes == b.attributes && a.firstCluster == b.firstCluster && a.size == b.size
  }

  /** Whatever long names there are, a listing is the live slots in order, cut to the maximum. */
  lemma {:induction false} ListIsLive(slots: seq<Slot>, st: Lfn, max: nat)
    ensures var r, live := List(slots, st, max), LiveSlots(slots);
      && |r| == (if |live| <= max then |live| else max)
      && forall i | 0 <= i < |r| :: SameButName(r[i], InfoOf(live[i]))
    decreases |slots|
  {
    hide Collect, CString, InfoOf;
    if slots != [] && max > 0 && !IsEnd(slots[0]) {
      if IsFree(slots[0]) {
        ListIsLive(slots[1..], st, max);
      } else if IsLfn(slots[0]) {
        ListIsLive(slots[1..], Collect(st, slots[0]), max);
      } else if IsVolume(slots[0]) {
        ListIsLive(slots[1..], st.(has := false), max);
      } else {
        ListIsLive(slots[1..], st.(has := false), max - 1);
      }
    }
  }

  /** With unique names the live slots are as many as there are names. */
  lemma {:induction false} LiveSlotsCount(slots: seq<Slot>)
    requires WellFormed(slots)
    ensures |LiveSlots(slots)| == |Keys(slots)|
    decreases |slots|
  {
    hide Live, Key, IsEnd;
    if slots == [] || IsEnd(slots[0]) {
      LiveNotEnd(slots);
      assert Keys(slots) == {};
    } else {
      TailWellFormed(slots);
      LiveSlotsCount(slots[1..]);
      KeysStep(slots);
    }
  }

  lemma {:induction false} LiveSlotFrom(slots: seq<Slot>, i: nat) returns (j: nat)
    requires i < |LiveSlots(slots)|
    ensures j < |slots| && slots[j] == LiveSlots(slots)[i]
    decreases |slots|
  {
    hide Live;
    if Live(slots[0]) && i == 0 {
      j := 0;
    } else {
      j := LiveSlotFrom(slots[1..], if Live(slots[0]) then i - 1 else i);
      j := j + 1;
    }
  }

  lemma {:induction false} LiveSlotOf(slots: seq<Slot>, j: nat) returns (i: nat)
    requires EndClosed(slots) && j < |slots| && Live(slots[j])
    ensures i < |LiveSlots(slots)| && LiveSlots(slots)[i] == slots[j]
    decreases |slots|
  {
    LiveNotEnd(slots);
    hide Live, IsEnd;
    if j == 0 {
      i := 0;
    } else {
      assert !IsEnd(slots[0]);
      i := LiveSlotOf(slots[1..], j - 1);
      i := if Live(slots[0]) then i + 1 else i;
    }
  }

  lemma LiveNotEnd(slots: seq<Slot>)
    ensures forall i | 0 <= i < |slots| && IsEnd(slots[i]) :: !Live(slots[i])
  {}

  lemma TailWellFormed(slots: seq<Slot>)
    requires WellFormed(slots) && slots != []
    ensures WellFormed(slots[1..])
  {
    hide Live, Key, IsEnd;
  }

  /** The first slot adds its name, which no other has. */
  lemma KeysStep(slots: seq<Slot>)
    requires WellFormed(slots) && slots != []
    ensures Keys(slots) == (if Live(slots[0]) then {Key(slots[0])} else {}) + Keys(slots[1..])
    ensures Live(slots[0]) ==> Key(slots[0]) !in Keys(slots[1..])
  {
    hide Live, Key, IsEnd;
    forall i | 0 <= i < |slots| && Live(slots[i])
      ensures Key(slots[i]) in (if Live(slots[0]) then {Key(slots[0])} else {}) + Keys(slots[1..])
    {
      if i > 0 {
        assert slots[1..][i - 1] == slots[i];
      }
    }
    forall i | 0 <= i < |slots[1..]| && Live(slots[1..][i]) ensures Key(slots[1..][i]) in Keys(slots) {
      assert slots[1..][i] == slots[i + 1];
    }
  }

  /**
   * A listing with room for everything has one entry for every name of the directory's map and
   * reports its attributes, first cluster and size.
   */
  lemma ListIsMap(slots: seq<Slot>, st: Lfn, max: nat)
    requires WellFormed(slots) && |DirMap(slots)| <= max
    ensures var r, live := List(slots, st, max), LiveSlots(slots);
      && |r| == |live| == |DirMap(slots)|
      && (forall k | k in DirMap(slots) :: exists i :: 0 <= i < |live| && Key(live[i]) == k)
      && forall i | 0 <= i < |live| :: Key(live[i]) in DirMap(slots) && SameButName(r[i], DirMap(slots)[Key(live[i])])
  {
    hide Live, Key, IsEnd, InfoOf, List, LiveSlots;
    var live := LiveSlots(slots);
    LiveSlotsCount(slots);
    assert DirMap(slots).Keys == Keys(slots);
    ListIsLive(slots, st, max);
    forall i | 0 <= i < |live| ensures Key(live[i]) in DirMap(slots) && DirMap(slots)[Key(live[i])] == InfoOf(live[i]) {
      var j := LiveSlotFrom(slots, i);
      FindLive(slots, j);
    }
    forall k | k in DirMap(slots) ensures exists i :: 0 <= i < |live| && Key(live[i]) == k {
      var j := KeyHasSlot(slots, k);
      var i := LiveSlotOf(slots, j);
    }
  }

  /** Without long-name slots the listing gives the entries of the map themselves. */
  lemma {:induction false} ListShort(slots: seq<Slot>, st: Lfn, max: nat)
    requires !st.has && forall i | 0 <= i < |slots| :: !IsLfn(slots[i])
    ensures var r, live := List(slots, st, max), LiveSlots(slots);
      && |r| == (if |live| <= max then |live| else max)
      && forall i | 0 <= i < |r| :: r[i] == InfoOf(live[i])
    decreases |slots|
  {
    hide Collect, InfoOf;
    if slots != [] && max > 0 && !IsEnd(slots[0]) {
      assert !IsLfn(slots[0]);
      ListShort(slots[1..], st, if Live(slots[0]) then max - 1 else max);
    }
  }
}
