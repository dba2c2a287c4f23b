/** A directory's slots refine a finite map from upper-case names to entries. */
module DirMaps {
  import opened Bytes
  import opened ShortNames
  import opened Slots

  /** After an end mark there are only end marks. */
  ghost predicate EndClosed(slots: seq<Slot>) {
    forall i, j | 0 <= i < j < |slots| :: IsEnd(slots[i]) ==> IsEnd(slots[j])
  }

  /** A slot that lookups consider. */
  predicate Live(s: Slot) { !IsEnd(s) && Compared(s, true) }

  ghost predicate UniqueKeys(slots: seq<Slot>) {
    forall i, j | 0 <= i < j < |slots| && Live(slots[i]) && Live(slots[j]) :: Key(slots[i]) != Key(slots[j])
  }

  ghost predicate WellFormed(slots: seq<Slot>) {
    EndClosed(slots) && UniqueKeys(slots)
  }

  ghost function Keys(slots: seq<Slot>): set<seq<uint8>> {
    set i | 0 <= i < |slots| && Live(slots[i]) :: Key(slots[i])
  }

  /** Some live slot of a name. */
  ghost function Holder(slots: seq<Slot>, key: seq<uint8>): (i: nat)
    requires key in Keys(slots)
    ensures i < |slots| && Live(slots[i]) && Key(slots[i]) == key
  {
    var i: nat :| i < |slots| && Live(slots[i]) && Key(slots[i]) == key;
    i
  }

  /** The map a directory stands for: every name of a live slot, with what such a slot says. */
  ghost function DirMap(slots: seq<Slot>): map<seq<uint8>, Info> {
    map k | k in Keys(slots) :: InfoOf(slots[Holder(slots, k)])
  }

  /** A scan misses nothing before the end marks. */
  lemma {:induction false} FindComplete(slots: seq<Slot>, key: seq<uint8>, skipVolumes: bool, i: nat)
    requires EndClosed(slots) && i < |slots| && !IsEnd(slots[i]) && Hits(slots[i], key, skipVolumes)
    ensures 0 <= Find(slots, key, skipVolumes) <= i
    decreases |slots|
  {
    if i > 0 {
      assert !IsEnd(slots[0]);
      FindComplete(slots[1..], key, skipVolumes, i - 1);
    }
  }

  /** With unique names a lookup finds the only slot of that name. */
  lemma FindLive(slots: seq<Slot>, i: nat)
    requires WellFormed(slots) && i < |slots| && Live(slots[i])
    ensures Find(slots, Key(slots[i]), true) == i
    ensures Key(slots[i]) in DirMap(slots) && DirMap(slots)[Key(slots[i])] == InfoOf(slots[i])
  {
    hide Key, Live, InfoOf;
    LiveHits(slots[i]);
    FindComplete(slots, Key(slots[i]), true, i);
    var r := Find(slots, Key(slots[i]), true);
    HitLives(slots[r], Key(slots[i]));
    assert Key(slots[i]) in Keys(slots);
  }

  /** Live slots are the ones a lookup can hit, under their keys. */
  lemma LiveHits(s: Slot)
    ensures Live(s) ==> !IsEnd(s) && Hits(s, Key(s), true)
  {}

  lemma HitLives(s: Slot, key: seq<uint8>)
    ensures !IsEnd(s) && Hits(s, key, true) ==> Live(s) && Key(s) == key
  {}

  /** A lookup succeeds exactly on the names of the map, and reports the entry stored there. */
  lemma {:induction false} LookupIsMap(slots: seq<Slot>, key: seq<uint8>)
    requires WellFormed(slots)
    ensures Find(slots, key, true) >= 0 <==> key in DirMap(slots)
    ensures key in DirMap(slots) ==> DirMap(slots)[key] == InfoOf(slots[Find(slots, key, true)])
  {
    hide Key, InfoOf;
    var r := Find(slots, key, true);
    if r >= 0 {
      FindLive(slots, r);
    }
    if key in DirMap(slots) {
      FindLive(slots, Holder(slots, key));
    }
  }

  /** What holds of every key and every live slot determines the map. */
  lemma MapFromSlots(slots: seq<Slot>, m: map<seq<uint8>, Info>)
    requires WellFormed(slots)
    requires forall i | 0 <= i < |slots| && Live(slots[i]) :: Key(slots[i]) in m && m[Key(slots[i])] == InfoOf(slots[i])
    requires forall k | k in m :: exists i :: 0 <= i < |slots| && Live(slots[i]) && Key(slots[i]) == k
    ensures DirMap(slots) == m
  {}

  /** The slot behind every key of the map. */
  lemma KeyHasSlot(slots: seq<Slot>, key: seq<uint8>) returns (i: nat)
    requires key in DirMap(slots)
    ensures i < |slots| && Live(slots[i]) && Key(slots[i]) == key
  {
    i := Holder(slots, key);
  }

  // ----- Deletion

  /**
   * Deletion and update scan volume labels too: they reach a lookup's slot exactly when the
   * first slot of that name is not a volume label.
   */
  lemma {:induction false} ScansAgree(slots: seq<Slot>, key: seq<uint8>)
    ensures Find(slots, key, false) == Find(slots, key, true)
       <==> !(Find(slots, key, false) >= 0 && IsVolume(slots[Find(slots, key, false)]))
    decreases |slots|
  {
    if slots != [] && !IsEnd(slots[0]) && !Hits(slots[0], key, false) {
      ScansAgree(slots[1..], key);
    } else if slots != [] && !IsEnd(slots[0]) && IsVolume(slots[0]) {
      assert Find(slots, key, true) != 0;
    }
  }

  // ----- Changing one slot

  /** Slot `i` may become `s`: no end mark before it, and no other live slot has the name of `s`. */
  ghost predicate Settable(slots: seq<Slot>, i: nat, s: Slot) {
    && WellFormed(slots) && i < |slots| && !IsEnd(s)
    && (forall j | 0 <= j < i :: !IsEnd(slots[j]))
    && (Live(s) ==> forall j | 0 <= j < |slots| && j != i && Live(slots[j]) :: Key(slots[j]) != Key(s))
  }

  /** The map without the entry of slot `i`. */
  ghost function Without(slots: seq<Slot>, i: nat): map<seq<uint8>, Info>
    requires i < |slots|
  {
    if Live(slots[i]) then DirMap(slots) - {Key(slots[i])} else DirMap(slots)
  }

  ghost function MapWith(m: map<seq<uint8>, Info>, s: Slot): map<seq<uint8>, Info> {
    if Live(s) then m[Key(s) := InfoOf(s)] else m
  }

  lemma SetKeeps(slots: seq<Slot>, i: nat, s: Slot)
    requires Settable(slots, i, s)
    ensures WellFormed(slots[i := s])
  {
    hide Live, Key, IsEnd;
  }

  /** Every other live slot keeps its entry. */
  lemma OtherEntry(slots: seq<Slot>, i: nat, s: Slot, j: nat)
    requires Settable(slots, i, s) && j < |slots| && j != i && Live(slots[j])
    ensures Key(slots[j]) in MapWith(Without(slots, i), s)
    ensures MapWith(Without(slots, i), s)[Key(slots[j])] == InfoOf(slots[j])
  {
    hide Live, Key, IsEnd, InfoOf, DirMap;
    FindLive(slots, j);
    if Live(slots[i]) {
      FindLive(slots, i);
    }
  }

  /** Setting a slot takes its old entry out of the map and puts the new one in. */
  lemma SetSlot(slots: seq<Slot>, i: nat, s: Slot)
    requires Settable(slots, i, s)
    ensures WellFormed(slots[i := s])
    ensures DirMap(slots[i := s]) == MapWith(Without(slots, i), s)
  {
    hide Live, Key, InfoOf, DirMap, Without, WellFormed, IsEnd;
    var slots', m := slots[i := s], MapWith(Without(slots, i), s);
    SetKeeps(slots, i, s);
    forall j | 0 <= j < |slots'| && Live(slots'[j])
      ensures Key(slots'[j]) in m && m[Key(slots'[j])] == InfoOf(slots'[j])
    {
      if j != i {
        OtherEntry(slots, i, s, j);
      }
    }
    forall k | k in m ensures exists j :: 0 <= j < |slots'| && Live(slots'[j]) && Key(slots'[j]) == k {
      if Live(s) && k == Key(s) {
        assert slots'[i] == s;
      } else {
        var j := KeyHasOtherSlot(slots, i, k);
        assert slots'[j] == slots[j];
      }
    }
    MapFromSlots(slots', m);
  }

  lemma KeyHasOtherSlot(slots: seq<Slot>, i: nat, key: seq<uint8>) returns (j: nat)
    requires i < |slots| && key in Without(slots, i)
    ensures j < |slots| && j != i && Live(slots[j]) && Key(slots[j]) == key
  {
    hide Live, Key, InfoOf, DirMap;
    j := KeyHasSlot(slots, key);
  }

  lemma DeleteIsRemove(slots: seq<Slot>, key: seq<uint8>)
    requires WellFormed(slots) && Find(slots, key, true) >= 0
    ensures var i := Find(slots, key, true);
      var slots' := slots[i := DeleteSlot(slots[i])];
      WellFormed(slots') && DirMap(slots') == DirMap(slots) - {key}
  {
    hide WellFormed, DirMap, Key;
    var i := Find(slots, key, true);
    SetSlot(slots, i, DeleteSlot(slots[i]));
  }

  lemma InsertIsUpdate(slots: seq<Slot>, s: Slot)
    requires WellFormed(slots) && FindFree(slots) >= 0
    requires Live(s) && Key(s) !in DirMap(slots)
    ensures var slots' := slots[FindFree(slots) := s];
      WellFormed(slots') && DirMap(slots') == DirMap(slots)[Key(s) := InfoOf(s)]
  {
    hide WellFormed, DirMap, Key, InfoOf;
    forall j | 0 <= j < |slots| && Live(slots[j]) ensures Key(slots[j]) != Key(s) {
      FindLive(slots, j);
    }
    SetSlot(slots, FindFree(slots), s);
  }

  /** A live slot may be inserted exactly when no entry has its name. */
  lemma InsertExact(slots: seq<Slot>, s: Slot)
    requires WellFormed(slots) && FindFree(slots) >= 0 && Live(s)
    ensures WellFormed(slots[FindFree(slots) := s]) <==> Key(s) !in DirMap(slots)
  {
    var j := FindFree(slots);
    if Key(s) in DirMap(slots) {
      hide Key;
      var i := KeyHasSlot(slots, Key(s));
      var slots' := slots[j := s];
      assert i != j && slots'[i] == slots[i] && slots'[j] == s;
    } else {
      InsertIsUpdate(slots, s);
    }
  }

  /** Replacing a live slot by another of the same name. */
  lemma ReplaceIsUpdate(slots: seq<Slot>, i: nat, s: Slot)
    requires WellFormed(slots) && i < |slots| && Live(slots[i]) && Live(s) && Key(s) == Key(slots[i])
    ensures WellFormed(slots[i := s]) && DirMap(slots[i := s]) == DirMap(slots)[Key(s) := InfoOf(s)]
  {
    hide DirMap, Key, InfoOf;
    SetSlot(slots, i, s);
  }

  // ----- Names

  /** A name that can be created and found again: it fits 8.3, holds no NUL and does not start like a free slot. */
  ghost predicate Storable(name: seq<uint8>) {
    Fits(name) && 0 !in name && (name != [] ==> name[0] != ENTRY_FREE)
  }

  lemma {:induction false} CStringWhole(s: seq<uint8>)
    requires 0 !in s
    ensures CString(s) == s
    decreases |s|
  {
    if s != [] {
      CStringWhole(s[1..]);
    }
  }

  /** The slot made for a storable name is live and answers to that name in upper case. */
  lemma MadeSlotLive(name: seq<uint8>, attributes: uint8, firstCluster: uint32, size: uint32)
    requires Storable(name) && attributes != ATTR_LFN && attributes / 8 % 2 == 0
    ensures var s := MakeSlot(name, attributes, firstCluster, size);
      && Live(s) && Key(s) == UpperAll(name) && Name(s) == UpperAll(name)
      && InfoOf(s) == Info(UpperAll(name), attributes, firstCluster, size)
  {
    var s := MakeSlot(name, attributes, firstCluster, size);
    MakeSlotFields(name, attributes, firstCluster, size);
    CodecExact(name);
    assert 0 !in UpperAll(name);
    CStringWhole(UpperAll(name));
    UpperIdempotent(name);
    FirstByte(name);
    assert s[0] == s[..SHORT_LENGTH][0];
  }

  lemma UpperIdempotent(s: seq<uint8>)
    ensures UpperAll(UpperAll(s)) == UpperAll(s)
  {}

  lemma FirstByte(name: seq<uint8>)
    ensures Encode(name)[0] == if name == [] || LastDot(name) == 0 then SPACE else Upper(name[0])
  {}

  ghost predicate PlainUpper(s: seq<uint8>) {
    forall i | 0 <= i < |s| :: s[i] != 0 && Upper(s[i]) == s[i]
  }

  lemma PlainParts(a: seq<uint8>, b: seq<uint8>)
    ensures PlainUpper(a) && b <= a ==> PlainUpper(b)
    ensures PlainUpper(a) && PlainUpper(b) ==> PlainUpper(a + b)
    ensures PlainUpper(a) ==> 0 !in a && UpperAll(a) == a
  {}

  lemma EncodedPlain(name: seq<uint8>)
    requires 0 !in name
    ensures PlainUpper(Encode(name)[..NAME_LENGTH]) && PlainUpper(Encode(name)[NAME_LENGTH..])
  {
    hide Encode, Field, Upper;
    EncodeParts(name);
    var d := LastDot(name);
    var base, ext := if d >= 0 then name[..d] else name, if d >= 0 then name[d + 1..] else [];
    assert base <= name && forall i | 0 <= i < |ext| :: ext[i] in name;
    FieldPlain(base, NAME_LENGTH);
    FieldPlain(ext, EXT_LENGTH);
  }

  lemma FieldPlain(s: seq<uint8>, n: nat)
    requires 0 !in s
    ensures PlainUpper(Field(s, n))
  {
    forall i | 0 <= i < |Field(s, n)| ensures Field(s, n)[i] != 0 && Upper(Field(s, n)[i]) == Field(s, n)[i] {
      if i < |s| {
        assert s[i] in s;
      }
    }
  }

  /** What is stored for a name prints in upper case and without NULs. */
  lemma DecodedUpper(name: seq<uint8>)
    requires 0 !in name
    ensures CString(Decode(Encode(name))) == Decode(Encode(name)) == UpperAll(Decode(Encode(name)))
  {
    hide Trim, Encode, PlainUpper, UpperAll;
    var n := Encode(name);
    var a, b := Trim(n[..NAME_LENGTH]), Trim(n[NAME_LENGTH..]);
    EncodedPlain(name);
    PlainParts(n[..NAME_LENGTH], a);
    PlainParts(n[NAME_LENGTH..], b);
    DotPlain();
    PlainParts([DOT], b);
    PlainParts(a, [DOT] + b);
    PlainParts(Decode(n), []);
    assert a + [] == a;
    CStringWhole(Decode(n));
  }

  lemma DotPlain()
    ensures PlainUpper([DOT])
  {}

  /** The key of a new entry is the name as it was stored. */
  lemma MadeKey(name: seq<uint8>, attributes: uint8, firstCluster: uint32, size: uint32)
    requires 0 !in name
    ensures Key(MakeSlot(name, attributes, firstCluster, size)) == Decode(Encode(name))
  {
    hide MakeSlot, Decode, Encode, UpperAll, CString;
    MakeSlotFields(name, attributes, firstCluster, size);
    DecodedUpper(name);
  }

  /** The slot made for a name is live unless its first byte marks it as free. */
  lemma MadeLive(name: seq<uint8>, attributes: uint8, firstCluster: uint32, size: uint32)
    requires 0 !in name && attributes != ATTR_LFN && attributes / 8 % 2 == 0
    ensures var s := MakeSlot(name, attributes, firstCluster, size);
      !IsEnd(s) && (Live(s) <==> (name != [] ==> name[0] != ENTRY_FREE))
  {
    var s := MakeSlot(name, attributes, firstCluster, size);
    MakeSlotFields(name, attributes, firstCluster, size);
    FirstByte(name);
    assert s[0] == s[..SHORT_LENGTH][0];
    hide MakeSlot, Encode;
  }

  /** The entry made for `name` would be live under a name that an entry of the directory already has. */
  ghost predicate Shadowed(slots: seq<Slot>, name: seq<uint8>) {
    (name != [] ==> name[0] != ENTRY_FREE) && Decode(Encode(name)) in DirMap(slots)
  }

  /** Creating an entry under any name keeps the names of the directory unique exactly when it shadows none. */
  lemma CreatedExact(slots: seq<Slot>, name: seq<uint8>, attributes: uint8, firstCluster: uint32, size: uint32)
    requires WellFormed(slots) && FindFree(slots) >= 0
    requires 0 !in name && attributes != ATTR_LFN && attributes / 8 % 2 == 0
    ensures var s := MakeSlot(name, attributes, firstCluster, size);
      var slots' := slots[FindFree(slots) := s];
      && (WellFormed(slots') <==> !Shadowed(slots, name))
      && (WellFormed(slots') ==> DirMap(slots') == MapWith(DirMap(slots), s))
  {
    hide WellFormed, DirMap, Key, InfoOf, MakeSlot, Encode, Decode;
    var s := MakeSlot(name, attributes, firstCluster, size);
    MadeLive(name, attributes, firstCluster, size);
    MadeKey(name, attributes, firstCluster, size);
    if Live(s) {
      InsertExact(slots, s);
      if Key(s) !in DirMap(slots) {
        InsertIsUpdate(slots, s);
      }
    } else {
      SetSlot(slots, FindFree(slots), s);
    }
  }

  /** A storable name that no lookup finds shadows nothing. */
  lemma StorableUnshadowed(slots: seq<Slot>, name: seq<uint8>)
    requires WellFormed(slots) && Storable(name)
    ensures Shadowed(slots, name) <==> Find(slots, UpperAll(name), true) >= 0
  {
    hide WellFormed, DirMap, Encode, Decode, UpperAll;
    CodecExact(name);
    LookupIsMap(slots, UpperAll(name));
  }

  /** A new entry answers to the name it was created under exactly when that name is storable. */
  lemma CreatedAnswers(name: seq<uint8>, attributes: uint8, firstCluster: uint32, size: uint32)
    requires 0 !in name && attributes != ATTR_LFN && attributes / 8 % 2 == 0
    ensures Hits(MakeSlot(name, attributes, firstCluster, size), UpperAll(name), true) <==> Storable(name)
  {
    hide MakeSlot, Decode, Encode, UpperAll;
    CodecExact(name);
    MadeKey(name, attributes, firstCluster, size);
    MadeLive(name, attributes, firstCluster, size);
  }

  /** Names without a dot that agree on their first eight bytes are stored under one key, no longer one's own. */
  lemma TruncationCollides(a: seq<uint8>, b: seq<uint8>, attributes: uint8, firstCluster: uint32, size: uint32)
    requires 0 !in a && DOT !in a && 0 !in b && DOT !in b
    requires |a| > NAME_LENGTH && |b| > NAME_LENGTH && a[..NAME_LENGTH] == b[..NAME_LENGTH]
    ensures Key(MakeSlot(a, attributes, firstCluster, size)) == Key(MakeSlot(b, attributes, firstCluster, size))
    ensures Key(MakeSlot(a, attributes, firstCluster, size)) != UpperAll(a)
  {
    MadeKey(a, attributes, firstCluster, size);
    MadeKey(b, attributes, firstCluster, size);
    hide MakeSlot, Decode, UpperAll, Key;
    NoDotEncodes(a);
    NoDotEncodes(b);
    CodecExact(a);
  }

  lemma NoDotEncodes(s: seq<uint8>)
    requires DOT !in s && |s| > NAME_LENGTH
    ensures Encode(s) == UpperAll(s[..NAME_LENGTH]) + Spaces(EXT_LENGTH) && !Fits(s)
  {
    assert LastDot(s) == -1 by {
      assert forall i | 0 <= i < |s| :: s[i] in s;
    }
    assert Field(s, NAME_LENGTH) == UpperAll(s[..NAME_LENGTH]);
  }
}
