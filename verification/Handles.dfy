/** Open files of a volume in order: how a handle stays tied to its directory entry. */
module Handles {
  import opened Bytes
  import opened Chains
  import opened Contents
  import opened DirMaps
  import opened Directories
  import opened Files
  import opened Renames
  import opened ShortNames
  import opened Slots
  import opened Soundness

  /** The handle `fat32_open` makes for an entry of the directory at `d`. */
  function OpenedOn(d: uint32, name: seq<uint8>, i: Info): Handle {
    Handle(true, false, i.firstCluster, i.firstCluster, 0, i.size, i.size, i.attributes, d, Take(name, 63))
  }

  /** The handle stands at the start of the unchanged file that the entry says. */
  ghost predicate OpensFile(h: Handle, d: uint32, name: seq<uint8>, i: Info) {
    && h.inUse && !h.dirty && h.position == 0
    && h.firstCluster == h.currentCluster == i.firstCluster && h.size == h.originalSize == i.size
    && h.attributes == i.attributes && h.parentCluster == d
    && h.filename <= name && |h.filename| == if |name| <= 63 then |name| else 63
  }

  lemma OpenedOpens(d: uint32, name: seq<uint8>, i: Info)
    ensures OpensFile(OpenedOn(d, name, i), d, name, i)
  {}

  /** The chain, if any, that a handle with this first cluster holds. */
  function Heads(first: uint32): set<uint32> {
    if first == 0 then {} else {first}
  }

  /** Where the handle's name is found in its directory. */
  ghost function SlotOf(t: Table, data: Data, h: Handle): int {
    Find(SlotsAt(t, data, h.parentCluster), UpperAll(h.filename), true)
  }

  /** No file slot but the one at `(d, i)` starts at `c`. */
  ghost predicate OnlyAt(t: Table, data: Data, dirs: set<uint32>, c: uint32, d: uint32, i: int) {
    forall e, j: nat | e in dirs && FileAt(t, data, e, j) && (e, j) != (d, i) :: FileHead(t, data, e, j) != c
  }

  /**
   * The handle's name still leads to its own entry, which knows either no cluster yet or the
   * handle's chain, and no other entry knows that chain.
   */
  ghost predicate Linked(t: Table, data: Data, dirs: set<uint32>, heads: set<uint32>, h: Handle) {
    var slots, i := SlotsAt(t, data, h.parentCluster), SlotOf(t, data, h);
    && h.parentCluster in dirs && 0 <= i < |slots| && |h.filename| < MAX_PATH
    && !HasDir(slots[i]) && Find(slots, UpperAll(h.filename), false) == i
    && (FirstCluster(slots[i]) == 0 || FirstCluster(slots[i]) == h.firstCluster)
    && (h.firstCluster != 0 ==> h.firstCluster in heads && OnlyAt(t, data, dirs, h.firstCluster, h.parentCluster, i))
  }

  /** Opening ties the handle to the entry, unless a volume label hides the entry. */
  lemma OpenLinks(t: Table, data: Data, dirs: set<uint32>, heads: set<uint32>, d: uint32, name: seq<uint8>, i: nat)
    requires Sound(t, data, dirs, heads) && d in dirs
    requires i < |SlotsAt(t, data, d)| && Answers(SlotsAt(t, data, d), name, i) && !HasDir(SlotsAt(t, data, d)[i])
    ensures var h := OpenedOn(d, name, InfoOf(SlotsAt(t, data, d)[i]));
      SlotOf(t, data, h) == i && Linked(t, data, dirs, heads + Heads(h.firstCluster), h)
  {
    hide DirSlots, WellFormed, Find, Key;
    var slots := SlotsAt(t, data, d);
    FindTake(slots, name, true);
    FindTake(slots, name, false);
    var c := FirstCluster(slots[i]);
    if c != 0 {
      forall e, j: nat | e in dirs && FileAt(t, data, e, j) && (e, j) != (d, i) ensures FileHead(t, data, e, j) != c {
        FilesApart(t, data, dirs, heads, d, i, e, j);
      }
    }
  }

  /** A write leaves every directory as it was and hands the chain's head to the handle. */
  lemma WroteDirs(b: nat, t: Table, data: Data, h: Handle, t': Table, data': Data, h': Handle,
                  input: seq<uint8>, ch: Chain, k: nat, r: nat, m: nat, dirs: set<uint32>, heads: set<uint32>)
    requires Wrote(b, t, data, h, t', data', h', input, ch, k, r, m) && Sound(t, data, dirs, heads)
    requires if h.firstCluster == 0 then LeastFree(t) != 0
             else h.firstCluster in heads && IsChain(t, ch) && ch[0] == h.firstCluster
    ensures Sound(t', data', dirs, heads + {h'.firstCluster})
    ensures h'.firstCluster == (if h.firstCluster == 0 then LeastFree(t) else h.firstCluster)
    ensures h.firstCluster == 0 ==> 2 <= LeastFree(t) < |t| && t[LeastFree(t)] == FREE_CLUSTER
    ensures ChainOf(t', h'.firstCluster) == FinalChain(t, h.firstCluster, ch, m)
    ensures forall d | d in dirs :: SlotsAt(t', data', d) == SlotsAt(t, data, d)
  {
    hide Sound, IsChain, FreeFrom, FinalTable, FinalChain, Written, Content, DirSlots;
    var q := Offset(b, StartBlock(h.firstCluster, k), h.position);
    SoundSize(t, data, dirs, heads);
    WriteKeeps(t, data, t', data', dirs, heads, h.firstCluster, ch, m, q, input[..r]);
    WriteRegrows(t, data, t', data', h.firstCluster, ch, m, q, input[..r]);
    WriteKeepsDirs(t, data, t', data', dirs, heads, h.firstCluster, ch, FinalChain(t, h.firstCluster, ch, m));
    if h.firstCluster == 0 {
      StartsChain(t);
    }
  }

  /** A write leaves the chain and the bytes of every other file as they were. */
  lemma WroteFrames(b: nat, t: Table, data: Data, h: Handle, t': Table, data': Data, h': Handle,
                    input: seq<uint8>, ch: Chain, k: nat, r: nat, m: nat, dirs: set<uint32>, heads: set<uint32>,
                    d: uint32, i: nat)
    requires Wrote(b, t, data, h, t', data', h', input, ch, k, r, m) && Sound(t, data, dirs, heads)
    requires if h.firstCluster == 0 then LeastFree(t) != 0
             else h.firstCluster in heads && IsChain(t, ch) && ch[0] == h.firstCluster
    requires d in dirs && FileAt(t, data, d, i) && FileHead(t, data, d, i) != h.firstCluster
    ensures var c := FileHead(t, data, d, i);
      ChainOf(t', c) == ChainOf(t, c) && Content(data', ChainOf(t, c)) == Content(data, ChainOf(t, c))
  {
    hide SoundDirs, SoundFiles, IsChain, FreeFrom, FinalTable, FinalChain, Written, Content, DirSlots, FileAt, FileHead;
    var c, q := FileHead(t, data, d, i), Offset(b, StartBlock(h.firstCluster, k), h.position);
    SoundSize(t, data, dirs, heads);
    WriteRegrows(t, data, t', data', h.firstCluster, ch, m, q, input[..r]);
    FileIsHeld(t, data, dirs, heads, d, i);
    var mine := if h.firstCluster == 0 then [] else ch;
    if h.firstCluster != 0 {
      ChainOfIs(t, ch);
      DisjointSym(ChainOf(t, h.firstCluster), ChainOf(t, c));
    }
    OtherKept(t, data, t', data', mine, FinalChain(t, h.firstCluster, ch, m), c);
  }

  lemma WriteKeepsDirs(t: Table, data: Data, t': Table, data': Data, dirs: set<uint32>, heads: set<uint32>,
                       first: uint32, ch: Chain, ch': Chain)
    requires Sound(t, data, dirs, heads) && Regrown(t, data, t', data', if first == 0 then [] else ch, ch')
    requires first != 0 ==> first in heads && IsChain(t, ch) && ch[0] == first
    ensures forall d | d in dirs :: SlotsAt(t', data', d) == SlotsAt(t, data, d)
  {
    hide IsChain, DirSlots, WellFormed, SoundFiles;
    if first != 0 {
      ChainOfIs(t, ch);
    }
    DirsKept(t, data, t', data', if first == 0 then [] else ch, ch', dirs);
  }

  /** Writing through a tied handle keeps it tied. */
  lemma WriteLinks(b: nat, t: Table, data: Data, h: Handle, t': Table, data': Data, h': Handle,
                   input: seq<uint8>, ch: Chain, k: nat, r: nat, m: nat, dirs: set<uint32>, heads: set<uint32>)
    requires Wrote(b, t, data, h, t', data', h', input, ch, k, r, m) && Sound(t, data, dirs, heads)
    requires if h.firstCluster == 0 then LeastFree(t) != 0
             else h.firstCluster in heads && IsChain(t, ch) && ch[0] == h.firstCluster
    requires Linked(t, data, dirs, heads, h)
    ensures Linked(t', data', dirs, heads + {h'.firstCluster}, h') && SlotOf(t', data', h') == SlotOf(t, data, h)
  {
    hide Wrote, Linked, Sound, IsChain, FreeFrom;
    WroteDirs(b, t, data, h, t', data', h', input, ch, k, r, m, dirs, heads);
    WroteSameEntry(b, t, data, h, t', data', h', input, ch, k, r, m);
    SameSlotsLinked(t, data, t', data', dirs, heads, h, h');
  }

  /** A write keeps the volume in order, and a tied handle tied. */
  lemma WroteKeeps(b: nat, t: Table, data: Data, h: Handle, t': Table, data': Data, h': Handle,
                   input: seq<uint8>, ch: Chain, k: nat, r: nat, m: nat, dirs: set<uint32>, heads: set<uint32>)
    requires Wrote(b, t, data, h, t', data', h', input, ch, k, r, m) && Sound(t, data, dirs, heads)
    requires if h.firstCluster == 0 then LeastFree(t) != 0
             else h.firstCluster in heads && IsChain(t, ch) && ch[0] == h.firstCluster
    ensures Sound(t', data', dirs, heads + {h'.firstCluster})
    ensures Linked(t, data, dirs, heads, h) ==> Linked(t', data', dirs, heads + {h'.firstCluster}, h')
  {
    hide Wrote, Linked, Sound, IsChain, FreeFrom;
    WroteDirs(b, t, data, h, t', data', h', input, ch, k, r, m, dirs, heads);
    if Linked(t, data, dirs, heads, h) {
      WriteLinks(b, t, data, h, t', data', h', input, ch, k, r, m, dirs, heads);
    }
  }

  lemma SameSlotsLinked(t: Table, data: Data, t': Table, data': Data, dirs: set<uint32>, heads: set<uint32>, h: Handle,
      h': Handle)
    requires Sound(t, data, dirs, heads) && Linked(t, data, dirs, heads, h)
    requires forall d | d in dirs :: SlotsAt(t', data', d) == SlotsAt(t, data, d)
    requires h'.parentCluster == h.parentCluster && h'.filename == h.filename && h'.firstCluster != 0
    requires h.firstCluster != 0 ==> h'.firstCluster == h.firstCluster
    requires h.firstCluster == 0 ==> h'.firstCluster < |t| && t[h'.firstCluster] == FREE_CLUSTER
    ensures Linked(t', data', dirs, heads + {h'.firstCluster}, h') && SlotOf(t', data', h') == SlotOf(t, data, h)
  {
    hide DirSlots, Find, HasDir, SoundDirs, HasFile;
    forall e, j: nat | e in dirs && FileAt(t', data', e, j)
      ensures FileAt(t, data, e, j) && FileHead(t', data', e, j) == FileHead(t, data, e, j)
      ensures h.firstCluster == 0 ==> FileHead(t, data, e, j) != h'.firstCluster
    {
      HeadUsed(t, FileHead(t, data, e, j));
    }
  }

  lemma WroteSameEntry(b: nat, t: Table, data: Data, h: Handle, t': Table, data': Data, h': Handle,
                       input: seq<uint8>, ch: Chain, k: nat, r: nat, m: nat)
    requires Wrote(b, t, data, h, t', data', h', input, ch, k, r, m)
    ensures h'.parentCluster == h.parentCluster && h'.filename == h.filename && h'.inUse == h.inUse
  {}

  // ----- Closing

  /** The volume after the directory update of a close. */
  ghost predicate Recorded(t: Table, data: Data, data': Data, h: Handle) {
    if !h.dirty then data' == data
    else
      var i := SlotOf(t, data, h);
      0 <= i < |SlotsAt(t, data, h.parentCluster)|
      && OneSlotChanged(t, data, data', h.parentCluster, i,
          UpdateSlot(SlotsAt(t, data, h.parentCluster)[i], h.size, h.firstCluster))
  }

  /** The updated slot keeps its name and its kind. */
  lemma UpdatedSlot(s: Slot, size: uint32, first: uint32)
    ensures var s' := UpdateSlot(s, size, first);
      && Live(s') == Live(s) && Key(s') == Key(s) && HasDir(s') == HasDir(s)
      && IsEnd(s') == IsEnd(s) && Compared(s', true) == Compared(s, true) && Compared(s', false) == Compared(s, false)
      && InfoOf(s') == InfoOf(s).(firstCluster := first, size := size)
      && HasFile(s') == (Live(s) && !HasDir(s) && first != 0)
  {
    UpdateSlotFields(s, size, first);
    var s' := UpdateSlot(s, size, first);
    hide UpdateSlot;
    assert s'[..SHORT_LENGTH] == s'[..SHORT_LENGTH + 1][..SHORT_LENGTH];
    assert s[..SHORT_LENGTH] == s[..SHORT_LENGTH + 1][..SHORT_LENGTH];
    assert s'[0] == s'[..SHORT_LENGTH + 1][0] && s'[11] == s'[..SHORT_LENGTH + 1][11];
  }

  /** Recording size and first cluster of a tied handle keeps the volume in order. */
  lemma RecordKeeps(t: Table, data: Data, data': Data, dirs: set<uint32>, heads: set<uint32>, h: Handle)
    requires Sound(t, data, dirs, heads) && Linked(t, data, dirs, heads, h) && Recorded(t, data, data', h)
    ensures Sound(t, data', dirs, heads - Heads(h.firstCluster))
    ensures h.dirty ==>
              var slots, i := SlotsAt(t, data, h.parentCluster), SlotOf(t, data, h);
              var slots' := SlotsAt(t, data', h.parentCluster);
              && slots' == slots[i := UpdateSlot(slots[i], h.size, h.firstCluster)]
              && DirMap(slots')
                 == DirMap(slots)[UpperAll(h.filename) :=
                      InfoOf(slots[i]).(firstCluster := h.firstCluster, size := h.size)]
  {
    hide Find, DirSlots, WellFormed, DirMap, SoundDirs, SoundFiles, Key, InfoOf, UpdateSlot;
    if h.dirty {
      var slots, i := SlotsAt(t, data, h.parentCluster), SlotOf(t, data, h);
      var s := UpdateSlot(slots[i], h.size, h.firstCluster);
      UpdatedSlot(slots[i], h.size, h.firstCluster);
      UpdateSlotFields(slots[i], h.size, h.firstCluster);
      WellFormedAt(t, data, dirs, h.parentCluster);
      ReplaceIsUpdate(slots, i, s);
      if h.firstCluster != 0 {
        BindKeeps(t, data, data', dirs, heads, h.parentCluster, i, s);
      } else {
        PlainSlotKeeps(t, data, data', dirs, heads, h.parentCluster, i, s);
      }
    }
    DropHead(t, data', dirs, heads, Heads(h.firstCluster));
  }

  lemma DropHead(t: Table, data: Data, dirs: set<uint32>, heads: set<uint32>, gone: set<uint32>)
    requires Sound(t, data, dirs, heads)
    ensures Sound(t, data, dirs, heads - gone)
  {
    hide SoundDirs, SoundFiles, Held;
  }

  lemma LinkedDir(t: Table, data: Data, dirs: set<uint32>, heads: set<uint32>, h: Handle)
    requires Sound(t, data, dirs, heads) && Linked(t, data, dirs, heads, h)
    ensures IsDir(t, h.parentCluster) && |h.filename| < MAX_PATH
  {}

  /** What the update of a tied handle's entry did. */
  lemma RecordedIs(t: Table, data: Data, data': Data, dirs: set<uint32>, heads: set<uint32>, h: Handle)
    requires Sound(t, data, dirs, heads) && (h.dirty ==> Linked(t, data, dirs, heads, h))
    requires var slots := SlotsAt(t, data, h.parentCluster);
      var r := Find(slots, UpperAll(h.filename), false);
      if h.dirty && r >= 0 then OneSlotChanged(t, data, data', h.parentCluster, r,
          UpdateSlot(slots[r], h.size, h.firstCluster))
      else data' == data
    ensures Recorded(t, data, data', h) && Sound(t, data', dirs, heads - Heads(h.firstCluster))
  {
    hide Sound, Find, DirSlots, OneSlotChanged, UpdateSlot;
    if h.dirty {
      RecordKeeps(t, data, data', dirs, heads, h);
    } else {
      DropHead(t, data, dirs, heads, Heads(h.firstCluster));
    }
  }
}
