/** What sequences of writes through one handle add up to. */
module WriteLaws {
  import opened Arithmetic
  import opened Bytes
  import opened Chains
  import opened Contents
  import opened Fat
  import opened FileLaws
  import opened Files
  import opened Geometry
  import opened Image
  import opened Ledger
  import opened Memory
  import opened Soundness

  /**
   * A handle between writes: its position, the index of the block its cursor is on, how many writes
   * ended exactly on a block boundary, and the part of the file's stream that is known.
   */
  datatype Writer = Writer(position: nat, block: nat, lag: nat, stream: seq<uint8>)

  /** `s` with `w` stored at offset `q`, longer than before where `w` reaches past the end. */
  function Overlay(s: seq<uint8>, q: int, w: seq<uint8>): (r: seq<uint8>)
    ensures 0 <= q <= |s| ==> |r| == Max(|s|, q + |w|) && r[q..q + |w|] == w
  {
    if q < 0 || q > |s| then s
    else if q + |w| <= |s| then Put(s, q, w)
    else s[..q] + w
  }

  /** What the contract of `Files.FileTable.Write` says the acceptance of some bytes does to the handle. */
  ghost function AfterWrite(w: Writer, b: nat, bytes: seq<uint8>): Writer {
    if bytes == [] then w
    else
      var q, p := Offset(b, w.block, w.position), w.position + |bytes|;
      Writer(p, LastBlock(b, q + |bytes|), w.lag + (if BlockOf(b, p) * b == p then 1 else 0),
             Overlay(w.stream, q, bytes))
  }

  /** A handle after the given bytes were accepted. */
  ghost function AfterWrites(start: Writer, b: nat, ws: seq<seq<uint8>>): Writer {
    if ws == [] then start
    else AfterWrite(AfterWrites(start, b, ws[..|ws| - 1]), b, ws[|ws| - 1])
  }

  function Concat(ws: seq<seq<uint8>>): seq<uint8> {
    if ws == [] then [] else Concat(ws[..|ws| - 1]) + ws[|ws| - 1]
  }

  /** The cursor is `lag` blocks behind the position, and the known stream reaches up to it. */
  ghost predicate Behind(w: Writer, b: nat) {
    && w.lag <= BlockOf(b, w.position) && w.block == BlockOf(b, w.position) - w.lag
    && w.position - w.lag * b <= |w.stream|
  }

  lemma WriteOffset(w: Writer, b: nat)
    requires b > 0 && Behind(w, b)
    ensures Offset(b, w.block, w.position) == w.position - w.lag * b >= 0
  {
    OffsetLags(Reader(w.position, w.block, w.lag, []), b);
    MulMono(w.lag, BlockOf(b, w.position), b);
    QuotientFits(w.position, b);
  }

  /** Bytes land as many blocks before the position as there were writes that ended on a boundary. */
  lemma WriteLands(w: Writer, b: nat, bytes: seq<uint8>)
    requires b > 0 && Behind(w, b) && bytes != []
    ensures var q, w' := w.position - w.lag * b, AfterWrite(w, b, bytes);
      && 0 <= q && q + |bytes| <= |w'.stream| && w'.stream[q..q + |bytes|] == bytes
      && w'.stream == Overlay(w.stream, q, bytes) && w'.position == w.position + |bytes|
  {
    hide Offset, LastBlock, BlockOf, Overlay;
    WriteOffset(w, b);
    StreamAfter(w, b, bytes);
  }

  lemma StreamAfter(w: Writer, b: nat, bytes: seq<uint8>)
    requires b > 0 && Behind(w, b)
    ensures AfterWrite(w, b, bytes).stream
         == if bytes == [] then w.stream else Overlay(w.stream, w.position - w.lag * b, bytes)
  {
    hide Offset, LastBlock, BlockOf, Overlay;
    WriteOffset(w, b);
  }

  /** One write moves the cursor with the position, except that ending on a boundary leaves it one block behind. */
  lemma WriteKeepsLag(w: Writer, b: nat, bytes: seq<uint8>)
    requires b > 0 && Behind(w, b)
    ensures Behind(AfterWrite(w, b, bytes), b)
  {
    hide Offset, LastBlock, BlockOf, Overlay;
    if bytes != [] {
      WriteOffset(w, b);
      LastBlockLags(b, w.position, w.lag, w.position + |bytes|);
      OneMore(w.lag, b);
    }
  }

  /** The cursor law for runs of writes. */
  lemma {:induction false} WriteLaw(start: Writer, b: nat, ws: seq<seq<uint8>>)
    requires b > 0 && Behind(start, b)
    ensures Behind(AfterWrites(start, b, ws), b)
    ensures AfterWrites(start, b, ws).position == start.position + |Concat(ws)|
    ensures AfterWrites(start, b, ws).lag >= start.lag
    decreases |ws|
  {
    hide AfterWrite, Behind;
    if ws != [] {
      WriteLaw(start, b, ws[..|ws| - 1]);
      WriteKeepsLag(AfterWrites(start, b, ws[..|ws| - 1]), b, ws[|ws| - 1]);
      WriteMoves(AfterWrites(start, b, ws[..|ws| - 1]), b, ws[|ws| - 1]);
    }
  }

  lemma WriteMoves(w: Writer, b: nat, bytes: seq<uint8>)
    ensures AfterWrite(w, b, bytes).position == w.position + |bytes|
    ensures AfterWrite(w, b, bytes).lag >= w.lag
  {}

  // ----- When a run of writes appends

  /** No bytes are accepted after a write that ended on a boundary. */
  ghost predicate InStep(start: Writer, b: nat, ws: seq<seq<uint8>>) {
    forall i | 0 <= i < |ws| && ws[i] != [] :: AfterWrites(start, b, ws[..i]).lag == 0
  }

  lemma InStepBefore(start: Writer, b: nat, ws: seq<seq<uint8>>)
    requires ws != []
    ensures InStep(start, b, ws) <==>
            && InStep(start, b, ws[..|ws| - 1])
            && (ws[|ws| - 1] == [] || AfterWrites(start, b, ws[..|ws| - 1]).lag == 0)
  {
    hide AfterWrites;
    var before := ws[..|ws| - 1];
    forall i | 0 <= i < |before| ensures before[..i] == ws[..i] && before[i] == ws[i] {}
  }

  /** Without lag a write is put where the last one ended. */
  lemma OverlayMore(s: seq<uint8>, p: nat, u: seq<uint8>, w: seq<uint8>)
    requires p <= |s|
    ensures Overlay(Overlay(s, p, u), p + |u|, w) == Overlay(s, p, u + w)
  {
    hide Overlay;
    var s1 := Overlay(s, p, u);
    var x, y := Overlay(s1, p + |u|, w), Overlay(s, p, u + w);
    OverlayLength(s, p, u);
    OverlayLength(s1, p + |u|, w);
    OverlayLength(s, p, u + w);
    forall k | 0 <= k < |x| ensures x[k] == y[k] {
      OverlayAt(s1, p + |u|, w, k);
      OverlayAt(s, p, u + w, k);
      if k < |s1| {
        OverlayAt(s, p, u, k);
      }
    }
  }

  lemma OverlayLength(s: seq<uint8>, q: nat, w: seq<uint8>)
    requires q <= |s|
    ensures |Overlay(s, q, w)| == Max(|s|, q + |w|)
  {}

  lemma OverlayAt(s: seq<uint8>, q: nat, w: seq<uint8>, k: nat)
    requires q <= |s| && k < |Overlay(s, q, w)|
    ensures Overlay(s, q, w)[k] == if q <= k < q + |w| then w[k - q] else if k < |s| then s[k] else 0
  {}

  lemma OverlayNothing(s: seq<uint8>, p: nat)
    ensures p <= |s| ==> Overlay(s, p, []) == s
  {}

  /** In step, the bytes of all writes lie one behind the other from the start on. */
  lemma {:induction false} WritesAppend(start: Writer, b: nat, ws: seq<seq<uint8>>)
    requires b > 0 && Behind(start, b) && start.lag == 0 && InStep(start, b, ws)
    ensures AfterWrites(start, b, ws).stream == Overlay(start.stream, start.position, Concat(ws))
    decreases |ws|
  {
    hide AfterWrite, Behind, Overlay, InStep;
    StartReached(start, b);
    if ws == [] {
      OverlayNothing(start.stream, start.position);
    } else {
      var before, last := ws[..|ws| - 1], ws[|ws| - 1];
      InStepBefore(start, b, ws);
      WritesAppend(start, b, before);
      WriteLaw(start, b, before);
      OverlayMore(start.stream, start.position, Concat(before), last);
      StreamAfter(AfterWrites(start, b, before), b, last);
      assert last == [] ==> Concat(before) + last == Concat(before);
    }
  }

  lemma StartReached(start: Writer, b: nat)
    requires Behind(start, b) && start.lag == 0
    ensures start.position <= |start.stream|
  {}

  /** From offset `p` on the stream is what it was, and it got no longer than `p`, if it got longer at all. */
  ghost predicate KeptFrom(was: seq<uint8>, s: seq<uint8>, p: int) {
    && 0 <= p && |was| <= |s| && (|s| <= |was| || |s| <= p)
    && forall x | p <= x < |was| :: s[x] == was[x]
  }

  lemma OverlayKeeps(was: seq<uint8>, s: seq<uint8>, p: int, q: nat, w: seq<uint8>, p': int)
    requires KeptFrom(was, s, p) && p <= p' && q <= |s| && q + |w| <= p'
    ensures KeptFrom(was, Overlay(s, q, w), p')
  {}

  /**
   * No write reaches past the position, and once bytes were accepted behind time, the last byte before
   * the position is none of theirs.
   */
  lemma {:induction false} WritesStayBehind(start: Writer, b: nat, ws: seq<seq<uint8>>)
    requires b > 0 && Behind(start, b) && start.lag == 0
    ensures KeptFrom(start.stream, AfterWrites(start, b, ws).stream, AfterWrites(start, b, ws).position)
    ensures !InStep(start, b, ws) ==>
              KeptFrom(start.stream, AfterWrites(start, b, ws).stream, AfterWrites(start, b, ws).position - 1)
    decreases |ws|
  {
    hide AfterWrite, Behind, Overlay, InStep, KeptFrom;
    if ws == [] {
      KeptSame(start.stream, start.position);
      NothingInStep(start, b);
    } else {
      var before, last := ws[..|ws| - 1], ws[|ws| - 1];
      var w := AfterWrites(start, b, before);
      WritesStayBehind(start, b, before);
      WriteLaw(start, b, before);
      InStepBefore(start, b, ws);
      LagFromStart(start, b, before);
      StreamAfter(w, b, last);
      WriteMoves(w, b, last);
      if last != [] {
        var q := w.position - w.lag * b;
        BehindReaches(w, b);
        OverlayKeeps(start.stream, w.stream, w.position, q, last, w.position + |last|);
        if w.lag > 0 {
          OverlayKeeps(start.stream, w.stream, w.position, q, last, w.position + |last| - 1);
        }
      }
    }
  }

  lemma BehindReaches(w: Writer, b: nat)
    requires b > 0 && Behind(w, b)
    ensures 0 <= w.position - w.lag * b <= |w.stream| && 0 <= w.lag * b && (w.lag > 0 ==> w.lag * b >= b)
  {
    WriteOffset(w, b);
    MulMono(0, w.lag, b);
    if w.lag > 0 {
      MulMono(1, w.lag, b);
    }
  }

  lemma KeptSame(s: seq<uint8>, p: nat)
    ensures KeptFrom(s, s, p)
  {}

  lemma NothingInStep(start: Writer, b: nat)
    ensures InStep(start, b, [])
  {}

  /** Without lag at the end no write was behind time. */
  lemma {:induction false} LagFromStart(start: Writer, b: nat, ws: seq<seq<uint8>>)
    ensures AfterWrites(start, b, ws).lag == 0 ==> InStep(start, b, ws)
    decreases |ws|
  {
    hide AfterWrite, InStep;
    if ws == [] {
      NothingInStep(start, b);
    } else {
      LagFromStart(start, b, ws[..|ws| - 1]);
      InStepBefore(start, b, ws);
      WriteMoves(AfterWrites(start, b, ws[..|ws| - 1]), b, ws[|ws| - 1]);
    }
  }

  /**
   * The append law: a run of writes from the end of the stream leaves the stream followed by all the
   * bytes exactly when nothing is accepted after a write that ended on a block boundary.
   */
  lemma AppendExact(start: Writer, b: nat, ws: seq<seq<uint8>>)
    requires b > 0 && Behind(start, b) && start.lag == 0 && start.position == |start.stream|
    ensures AfterWrites(start, b, ws).stream == start.stream + Concat(ws) <==> InStep(start, b, ws)
  {
    hide AfterWrite, AfterWrites, Behind, InStep;
    WriteLaw(start, b, ws);
    if InStep(start, b, ws) {
      WritesAppend(start, b, ws);
      assert Concat(ws) == [] ==> start.stream + Concat(ws) == start.stream;
    } else {
      WritesStayBehind(start, b, ws);
      SomeBytes(start, b, ws);
    }
  }

  lemma {:induction false} SomeBytes(start: Writer, b: nat, ws: seq<seq<uint8>>)
    requires !InStep(start, b, ws)
    ensures Concat(ws) != []
    decreases |ws|
  {
    hide InStep;
    if ws == [] {
      NothingInStep(start, b);
    } else {
      InStepBefore(start, b, ws);
      if ws[|ws| - 1] == [] {
        SomeBytes(start, b, ws[..|ws| - 1]);
      }
    }
  }

  // ----- For all contents

  ghost predicate SameLengths(a: seq<seq<uint8>>, c: seq<seq<uint8>>) {
    |a| == |c| && forall i | 0 <= i < |a| :: |a[i]| == |c[i]|
  }

  /** The lengths of the writes decide everything but the bytes. */
  lemma {:induction false} LengthsDecide(start: Writer, b: nat, a: seq<seq<uint8>>, c: seq<seq<uint8>>)
    requires SameLengths(a, c)
    ensures var w, w' := AfterWrites(start, b, a), AfterWrites(start, b, c);
      w.position == w'.position && w.block == w'.block && w.lag == w'.lag
    ensures |Concat(a)| == |Concat(c)| && (InStep(start, b, a) <==> InStep(start, b, c))
    decreases |a|
  {
    hide InStep, Offset, LastBlock, BlockOf, Overlay;
    if a != [] {
      LengthsDecide(start, b, a[..|a| - 1], c[..|c| - 1]);
      InStepBefore(start, b, a);
      InStepBefore(start, b, c);
      assert |a[|a| - 1]| == |c[|c| - 1]|;
    } else {
      NothingInStep(start, b);
    }
  }

  /** The same writes with one byte everywhere. */
  function Constants(ws: seq<seq<uint8>>, c: uint8): (r: seq<seq<uint8>>)
    ensures SameLengths(ws, r)
    ensures forall i | 0 <= i < |Concat(r)| :: Concat(r)[i] == c
  {
    if ws == [] then []
    else
      var r := Constants(ws[..|ws| - 1], c) + [Repeat(c, |ws[|ws| - 1]|)];
      assert r[..|r| - 1] == Constants(ws[..|ws| - 1], c);
      r
  }

  /** The last byte of a run that was behind time is missing for some contents. */
  lemma LastByteMissing(start: Writer, b: nat, ws: seq<seq<uint8>>, c: uint8)
    requires b > 0 && Behind(start, b) && start.lag == 0 && !InStep(start, b, ws)
    requires var p := AfterWrites(start, b, ws).position; 0 < p <= |start.stream| ==> start.stream[p - 1] != c
    requires forall i | 0 <= i < |Concat(ws)| :: Concat(ws)[i] == c
    ensures AfterWrites(start, b, ws).stream != Overlay(start.stream, start.position, Concat(ws))
  {
    hide AfterWrite, AfterWrites, Behind, InStep, Overlay;
    StartReached(start, b);
    WriteLaw(start, b, ws);
    WritesStayBehind(start, b, ws);
    SomeBytes(start, b, ws);
    var s, w, q := start.stream, Concat(ws), start.position;
    var r := Overlay(s, q, w);
    assert r[q..q + |w|][|w| - 1] == r[q + |w| - 1];
  }

  /**
   * From any place inside the file: writes of these lengths leave all their bytes in order, whatever
   * the bytes are, exactly when nothing is accepted after a write that ended on a block boundary.
   */
  lemma OverwriteExact(start: Writer, b: nat, ws: seq<seq<uint8>>)
    requires b > 0 && Behind(start, b) && start.lag == 0
    ensures (forall us | SameLengths(ws, us) ::
               AfterWrites(start, b, us).stream == Overlay(start.stream, start.position, Concat(us)))
       <==> InStep(start, b, ws)
  {
    hide AfterWrite, AfterWrites, Behind, InStep, Overlay, Concat;
    if InStep(start, b, ws) {
      forall us | SameLengths(ws, us)
        ensures AfterWrites(start, b, us).stream == Overlay(start.stream, start.position, Concat(us))
      {
        LengthsDecide(start, b, ws, us);
        WritesAppend(start, b, us);
      }
    } else {
      var p := AfterWrites(start, b, ws).position;
      var c: uint8 := if 0 < p <= |start.stream| && start.stream[p - 1] == 0 then 1 else 0;
      var us := Constants(ws, c);
      LengthsDecide(start, b, ws, us);
      LastByteMissing(start, b, us, c);
    }
  }

  // ----- The driver's writes

  /**
   * The handle is where the abstract writer says, and the file's stream starts with what is known of it.
   * The chain has no cluster behind that.
   */
  ghost predicate Writes(b: nat, t: Table, data: Data, h: Handle, ch: Chain, w: Writer) {
    && b > 0 && Behind(w, b) && h.inUse && h.position == w.position && |t| == |data| <= BAD_CLUSTER
    && w.stream <= Content(data, StartChain(t, h.firstCluster, ch))
    && if h.firstCluster == 0 then w.block == 0
       else
         && IsChain(t, ch) && h.firstCluster == ch[0] && w.block < |ch| && h.currentCluster == ch[w.block]
         && |ch| * b < |w.stream| + b
  }

  lemma ContentPrefix(data: Data, a: Chain, c: Chain)
    requires a <= c
    ensures Content(data, a) <= Content(data, c)
  {
    hide Content;
    ContentConcat(data, a, c[|a|..]);
    assert a + c[|a|..] == c;
  }

  lemma OverlayPrefix(s: seq<uint8>, c: seq<uint8>, q: nat, w: seq<uint8>)
    requires s <= c && q <= |s| && q + |w| <= |c|
    ensures Overlay(s, q, w) <= Put(c, q, w)
  {}

  /** A chain that ends with the block of the last byte has no cluster behind it. */
  lemma LastBlockEnds(b: nat, end: nat, n: nat)
    requires b > 0 && 0 < end && n == LastBlock(b, end) + 1
    ensures n * b < end + b
  {
    QuotientFits(end - 1, b);
    OneMore((end - 1) / b, b);
  }

  /** The handle and its chain after `bytes` were written at stream offset `q`. */
  ghost predicate WroteOn(b: nat, t': Table, data: Data, data': Data, h': Handle, ch0: Chain, ch': Chain, q: int,
      bytes: seq<uint8>)
  {
    && 0 <= q && bytes != [] && ch0 <= ch' && IsChain(t', ch') && |data'| == |data|
    && Written(data, data', ch', q, bytes) && h'.firstCluster == ch'[0]
    && LastBlock(b, q + |bytes|) < |ch'| && h'.currentCluster == ch'[LastBlock(b, q + |bytes|)]
    && (|ch'| > |ch0| ==> LastBlock(b, q + |bytes|) == |ch'| - 1)
  }

  /** What the chain of a write looks like from its start. */
  lemma WroteChain(b: nat, t: Table, data: Data, h: Handle, t': Table, data': Data, h': Handle,
                   input: seq<uint8>, ch: Chain, w: Writer, r: nat, m: nat)
    requires Writes(b, t, data, h, ch, w) && (h.firstCluster == 0 ==> LeastFree(t) != 0)
    requires Wrote(b, t, data, h, t', data', h', input, ch, w.block, r, m)
    ensures |t'| == |t| && 0 < r <= |input|
    ensures WroteOn(b, t', data, data', h', StartChain(t, h.firstCluster, ch), FinalChain(t, h.firstCluster, ch, m),
                    w.position - w.lag * b, input[..r])
  {
    hide Content, Written, LastBlock, FreeFrom, Grown, IsChain, Regrown, Offset, BlockOf, FinalChain;
    WriteOffset(w, b);
    var q := Offset(b, StartBlock(h.firstCluster, w.block), h.position);
    WriteRegrows(t, data, t', data', h.firstCluster, ch, m, q, input[..r]);
    WrittenSize(data, data', FinalChain(t, h.firstCluster, ch, m), q, input[..r]);
    RegrownSize(t, data, t', data', if h.firstCluster == 0 then [] else ch, FinalChain(t, h.firstCluster, ch, m));
  }

  lemma WrittenSize(data: Data, data': Data, ch: Chain, q: nat, w: seq<uint8>)
    requires Written(data, data', ch, q, w)
    ensures |data'| == |data|
  {}

  lemma RegrownSize(t: Table, data: Data, t': Table, data': Data, ch: Chain, ch': Chain)
    requires Regrown(t, data, t', data', ch, ch')
    ensures |t'| == |t|
  {}

  /** One write of the driver is one step of the abstract writer. */
  lemma WroteStep(b: nat, t: Table, data: Data, h: Handle, t': Table, data': Data, h': Handle,
                  input: seq<uint8>, ch: Chain, w: Writer, r: nat, m: nat)
    requires Writes(b, t, data, h, ch, w) && (h.firstCluster == 0 ==> LeastFree(t) != 0)
    requires Wrote(b, t, data, h, t', data', h', input, ch, w.block, r, m)
    ensures r <= |input|
    ensures Writes(b, t', data', h', FinalChain(t, h.firstCluster, ch, m), AfterWrite(w, b, input[..r]))
  {
    hide Content, Written, LastBlock, FreeFrom, Grown, IsChain, Offset, BlockOf, FinalChain, Overlay, Put;
    var ch', ch0, q := FinalChain(t, h.firstCluster, ch, m), StartChain(t, h.firstCluster, ch), w.position - w.lag * b;
    WroteChain(b, t, data, h, t', data', h', input, ch, w, r, m);
    WriteOffset(w, b);
    WriteKeepsLag(w, b, input[..r]);
    ContentPrefix(data, ch0, ch');
    WrittenOverlay(data, data', ch', w.stream, q, input[..r]);
    ChainFacts(t', ch');
    LastBlockEnds(b, q + r, LastBlock(b, q + r) + 1);
    if h.firstCluster == 0 {
      OneMore(1, b);
    }
  }

  lemma WrittenOverlay(data: Data, data': Data, ch: Chain, s: seq<uint8>, q: nat, w: seq<uint8>)
    requires Written(data, data', ch, q, w) && s <= Content(data, ch) && q <= |s|
    ensures Overlay(s, q, w) <= Content(data', ch)
    ensures |Overlay(s, q, w)| == Max(|s|, q + |w|)
  {
    hide Content, Put, Overlay;
    OverlayPrefix(s, Content(data, ch), q, w);
    OverlayLength(s, q, w);
  }

  lemma WritesFacts(b: nat, t: Table, data: Data, h: Handle, ch: Chain, w: Writer)
    requires Writes(b, t, data, h, ch, w)
    ensures h.position == w.position && |t| <= BAD_CLUSTER && AfterWrite(w, b, []) == w
    ensures h.firstCluster == 0 ==> w.block == 0
    ensures h.firstCluster != 0 ==>
              IsChain(t, ch) && h.firstCluster == ch[0] && w.block < |ch| && h.currentCluster == ch[w.block]
  {}

  /** On a full table growth does nothing. */
  lemma {:induction false} GrownFull(t: Table, ch: Chain, m: nat)
    requires |t| <= BAD_CLUSTER && LeastFree(t) == 0
    ensures Grown(t, ch, m) == (t, ch)
  {
    hide FreeFrom;
    if m > 0 {
      GrownFull(t, ch, m - 1);
    }
  }

  /** What a write says of free clusters and of the size. */
  lemma WroteShort(b: nat, t: Table, data: Data, h: Handle, t': Table, data': Data, h': Handle,
                   input: seq<uint8>, ch: Chain, k: nat, r: nat, m: nat)
    requires |t| <= BAD_CLUSTER && Wrote(b, t, data, h, t', data', h', input, ch, k, r, m)
    requires h.firstCluster == 0 ==> LeastFree(t) != 0
    ensures |t'| <= BAD_CLUSTER && 0 < r <= |input|
    ensures r < |input| ==> LeastFree(t') == 0
    ensures r < |input| ==>
              Offset(b, StartBlock(h.firstCluster, k), h.position) + r
              == |Content(data', FinalChain(t, h.firstCluster, ch, m))|
    ensures h'.firstCluster != 0
    ensures LeastFree(t) == 0 ==> LeastFree(t') == 0
    ensures h'.size == Max(h.size, h'.position) && h'.position == h.position + r
  {
    hide Content, Written, LastBlock, FreeFrom, Grown, Offset;
    ChainFacts(t', FinalChain(t, h.firstCluster, ch, m));
    if LeastFree(t) == 0 {
      GrownFull(t, ch, m);
    }
  }

  /** The accepted part of one write, which is short only when no cluster is left. */
  method WriteOne(ft: FileTable, fd: int, bytes: seq<uint8>, ghost ch: Chain, ghost w: Writer)
    returns (done: seq<uint8>, ghost ch': Chain)
    requires ft.Valid() && ft.vol.dev.reliable && ft.IsOpen(fd)
    requires Writes(ft.vol.geo.bytesPerCluster, ft.vol.table, ft.vol.data, ft.files[fd].State(), ch, w)
    requires w.position + |bytes| < TWO_TO_THE_32
    modifies ft.vol.Footprint(), ft.buffer, ft.Slot(fd)
    ensures ft.Valid() && ft.IsOpen(fd) && done <= bytes
    ensures Writes(ft.vol.geo.bytesPerCluster, ft.vol.table, ft.vol.data, ft.files[fd].State(), ch',
                   AfterWrite(w, ft.vol.geo.bytesPerCluster, done))
    ensures done != bytes ==> LeastFree(ft.vol.table) == 0
    ensures done != bytes && (old(ft.files[fd].firstCluster) != 0 || LeastFree(old(ft.vol.table)) != 0) ==>
              && done != []
              && Offset(ft.vol.geo.bytesPerCluster, w.block, w.position) + |done| == |Content(ft.vol.data, ch')|
    ensures bytes != [] && (old(ft.files[fd].firstCluster) != 0 || LeastFree(old(ft.vol.table)) != 0) ==>
              done != [] && ft.files[fd].firstCluster != 0
    ensures LeastFree(old(ft.vol.table)) == 0 ==> LeastFree(ft.vol.table) == 0
    ensures ft.files[fd].size
         == if done == [] then old(ft.files[fd].size) else Max(old(ft.files[fd].size), ft.files[fd].position)
  {
    hide Consistent, IsTableOf, Geometry.WellFormed, Content, DistinctFiles, FreeFrom, Wrote, Writes, AfterWrite,
         IsChain, FinalTable;
    ft.vol.Facts();
    ghost var b, t, data, h := ft.vol.geo.bytesPerCluster, ft.vol.table, ft.vol.data, ft.files[fd].State();
    WritesFacts(b, t, data, h, ch, w);
    var n: uint32 := |bytes|;
    var input := new uint8[|bytes|](i requires 0 <= i < |bytes| => bytes[i]);
    assert input[..] == bytes;
    var r;
    ghost var m;
    r, m := ft.Write(fd, input, n, ch, w.block);
    if r <= 0 {
      done, ch' := [], ch;
    } else {
      assert input[..n] == bytes;
      done, ch' := bytes[..r], FinalChain(t, h.firstCluster, ch, m);
      WroteStep(b, t, data, h, ft.vol.table, ft.vol.data, ft.files[fd].State(), bytes, ch, w, r, m);
      WroteShort(b, t, data, h, ft.vol.table, ft.vol.data, ft.files[fd].State(), bytes, ch, w.block, r, m);
    }
  }

  /** The driver's handle follows the abstract writer through any run of writes. */
  method WriteRun(ft: FileTable, fd: int, ws: seq<seq<uint8>>, ghost ch: Chain, ghost start: Writer)
    returns (done: seq<seq<uint8>>, ghost ch': Chain)
    requires ft.Valid() && ft.vol.dev.reliable && ft.IsOpen(fd)
    requires Writes(ft.vol.geo.bytesPerCluster, ft.vol.table, ft.vol.data, ft.files[fd].State(), ch, start)
    requires start.position + |Concat(ws)| < TWO_TO_THE_32
    modifies ft.vol.Footprint(), ft.buffer, ft.Slot(fd)
    ensures ft.Valid() && ft.IsOpen(fd)
    ensures |done| == |ws| && forall i | 0 <= i < |ws| :: done[i] <= ws[i]
    ensures Writes(ft.vol.geo.bytesPerCluster, ft.vol.table, ft.vol.data, ft.files[fd].State(), ch',
                   AfterWrites(start, ft.vol.geo.bytesPerCluster, done))
    ensures done != ws ==> LeastFree(ft.vol.table) == 0
    ensures ft.files[fd].size
         == if Concat(done) == [] then old(ft.files[fd].size) else Max(old(ft.files[fd].size), ft.files[fd].position)
  {
    hide Consistent, IsTableOf, Geometry.WellFormed, DistinctFiles, FreeFrom, Writes, AfterWrite, AfterWrites, Concat,
         Behind;
    ghost var b := ft.vol.geo.bytesPerCluster;
    done, ch' := [], ch;
    var i := 0;
    RunStart(start, b, ws);
    ft.vol.Facts();
    WritesBehind(b, ft.vol.table, ft.vol.data, ft.files[fd].State(), ch, start);
    while i < |ws|
      invariant 0 <= i <= |ws| && |done| == i && ft.Valid() && ft.IsOpen(fd) && |ft.vol.table| <= BAD_CLUSTER
      invariant forall k | 0 <= k < i :: done[k] <= ws[k]
      invariant |Concat(done)| <= |Concat(ws[..i])|
      invariant Writes(b, ft.vol.table, ft.vol.data, ft.files[fd].State(), ch', AfterWrites(start, b, done))
      invariant done != ws[..i] ==> LeastFree(ft.vol.table) == 0
      invariant ft.files[fd].size
             == if Concat(done) == [] then old(ft.files[fd].size)
                else Max(old(ft.files[fd].size), ft.files[fd].position)
    {
      ghost var w := AfterWrites(start, b, done);
      ConcatPart(ws, i);
      WriteLaw(start, b, done);
      WritesBehind(b, ft.vol.table, ft.vol.data, ft.files[fd].State(), ch', w);
      var more;
      more, ch' := WriteOne(ft, fd, ws[i], ch', w);
      RunStep(start, b, done, more);
      WritesBehind(b, ft.vol.table, ft.vol.data, ft.files[fd].State(), ch', AfterWrite(w, b, more));
      WriteMoves(w, b, more);
      assert ws[..i + 1] == ws[..i] + [ws[i]];
      done := done + [more];
      i := i + 1;
    }
    assert ws[..|ws|] == ws;
  }

  lemma RunStart(start: Writer, b: nat, ws: seq<seq<uint8>>)
    ensures AfterWrites(start, b, []) == start && Concat([]) == [] && ws[..0] == []
  {}

  lemma RunStep(start: Writer, b: nat, done: seq<seq<uint8>>, more: seq<uint8>)
    ensures AfterWrites(start, b, done + [more]) == AfterWrite(AfterWrites(start, b, done), b, more)
    ensures Concat(done + [more]) == Concat(done) + more
  {
    hide AfterWrite;
    assert (done + [more])[..|done|] == done;
  }

  lemma WritesBehind(b: nat, t: Table, data: Data, h: Handle, ch: Chain, w: Writer)
    requires Writes(b, t, data, h, ch, w)
    ensures b > 0 && Behind(w, b) && h.position == w.position && |t| <= BAD_CLUSTER
  {}

  lemma {:induction false} ConcatPart(ws: seq<seq<uint8>>, i: nat)
    requires i < |ws|
    ensures |Concat(ws[..i])| + |ws[i]| == |Concat(ws[..i + 1])| <= |Concat(ws)|
    decreases |ws|
  {
    assert ws[..i + 1][..i] == ws[..i];
    if i + 1 < |ws| {
      ConcatPart(ws[..|ws| - 1], i);
      assert ws[..|ws| - 1][..i + 1] == ws[..i + 1] && ws[..|ws| - 1][..i] == ws[..i];
    } else {
      assert ws[..i + 1] == ws;
    }
  }

  // ----- What is left of a run

  lemma Multiples(b: nat, n: nat, k: nat)
    requires b > 0 && n * b < k * b + b
    ensures n * b <= k * b
  {
    if n > k {
      MulMono(k + 1, n, b);
      OneMore(k, b);
    }
  }

  /** A run in step that ended with lag ended on a boundary. */
  lemma {:induction false} LagOnBoundary(start: Writer, b: nat, ws: seq<seq<uint8>>)
    requires b > 0 && Behind(start, b) && start.lag == 0 && InStep(start, b, ws)
    requires AfterWrites(start, b, ws).lag > 0
    ensures var p := AfterWrites(start, b, ws).position; BlockOf(b, p) * b == p
    decreases |ws|
  {
    hide Behind, InStep, Offset, LastBlock, BlockOf, Overlay;
    if ws != [] {
      InStepBefore(start, b, ws);
      if ws[|ws| - 1] == [] {
        LagOnBoundary(start, b, ws[..|ws| - 1]);
      }
    }
  }

  /** No chain of blocks for the stream reaches up to `p`. */
  ghost predicate FallsShort(s: seq<uint8>, b: nat, p: nat) {
    forall n: nat | n * b < |s| + b :: n * b < p
  }

  lemma ShortOnBoundary(s: seq<uint8>, b: nat, k: nat, p: nat)
    requires b > 0 && |s| <= k * b < p
    ensures FallsShort(s, b, p)
  {
    forall n: nat | n * b < |s| + b ensures n * b < p {
      Multiples(b, n, k);
    }
  }

  lemma ShortGrows(s: seq<uint8>, b: nat, p: nat, q: nat, w: seq<uint8>, p': nat)
    requires q <= |s| && q + |w| + b <= p' && p <= p' && FallsShort(s, b, p)
    ensures FallsShort(Overlay(s, q, w), b, p')
  {
    hide Overlay;
    OverlayLength(s, q, w);
    forall n: nat | n * b < |Overlay(s, q, w)| + b ensures n * b < p' {}
  }

  /** Appending that gets behind time leaves fewer blocks than the position asks for. */
  lemma {:induction false} BehindIsShort(start: Writer, b: nat, ws: seq<seq<uint8>>)
    requires b > 0 && Behind(start, b) && start.lag == 0 && start.position == |start.stream|
    requires !InStep(start, b, ws)
    ensures FallsShort(AfterWrites(start, b, ws).stream, b, AfterWrites(start, b, ws).position)
    decreases |ws|
  {
    hide AfterWrite, Behind, Overlay, InStep, FallsShort;
    if ws == [] {
      NothingInStep(start, b);
    } else {
      var before, last := ws[..|ws| - 1], ws[|ws| - 1];
      var w := AfterWrites(start, b, before);
      InStepBefore(start, b, ws);
      WriteLaw(start, b, before);
      WriteMoves(w, b, last);
      StreamAfter(w, b, last);
      BehindReaches(w, b);
      LagFromStart(start, b, before);
      if last == [] {
        BehindIsShort(start, b, before);
      } else {
        var q, p' := w.position - w.lag * b, w.position + |last|;
        if InStep(start, b, before) {
          LagOnBoundary(start, b, before);
          AppendExact(start, b, before);
          ShortOnBoundary(w.stream, b, BlockOf(b, w.position), p');
          ShortGrows(w.stream, b, p', q, last, p');
        } else {
          BehindIsShort(start, b, before);
          ShortGrows(w.stream, b, w.position, q, last, p');
        }
      }
    }
  }

  /**
   * The append law on the volume: after a run of writes from the end of the stream the chain holds as
   * many bytes as the position says exactly when the run was in step, and then it holds the old stream
   * followed by all the bytes.
   */
  lemma AppendedContent(b: nat, t: Table, data: Data, h: Handle, ch: Chain, start: Writer, ws: seq<seq<uint8>>)
    requires Behind(start, b) && start.lag == 0 && start.position == |start.stream|
    requires h.firstCluster != 0 && Writes(b, t, data, h, ch, AfterWrites(start, b, ws)) && Blocks(data, ch, b)
    ensures h.position <= |Content(data, ch)| <==> InStep(start, b, ws)
    ensures InStep(start, b, ws) ==> Content(data, ch)[..h.position] == start.stream + Concat(ws)
  {
    hide AfterWrites, Behind, InStep, Content, IsChain, Blocks;
    ContentLength(data, ch, b);
    WriteLaw(start, b, ws);
    AppendExact(start, b, ws);
    if !InStep(start, b, ws) {
      BehindIsShort(start, b, ws);
    }
  }

  /** Two writes of one cluster each to an empty file leave one cluster, the second, and a size of two. */
  method TwoClusters(ft: FileTable, fd: int, one: seq<uint8>, two: seq<uint8>)
    requires ft.Valid() && ft.vol.dev.reliable && ft.IsOpen(fd) && LeastFree(ft.vol.table) != 0
    requires ft.files[fd].firstCluster == 0 && ft.files[fd].position == ft.files[fd].size == 0
    requires |one| == |two| == ft.vol.geo.bytesPerCluster
    modifies ft.vol.Footprint(), ft.buffer, ft.Slot(fd)
    ensures ft.Valid() && ft.IsOpen(fd) && ft.files[fd].size == 2 * ft.vol.geo.bytesPerCluster
    ensures var c := ft.files[fd].firstCluster;
      IsChain(ft.vol.table, [c]) && Content(ft.vol.data, [c]) == two
  {
    hide Consistent, IsTableOf, Geometry.WellFormed, DistinctFiles, FreeFrom, Writes, AfterWrite, Content, IsChain,
         Offset, BlockOf, LastBlock, Behind;
    ft.vol.Facts();
    ghost var b := ft.vol.geo.bytesPerCluster;
    ghost var w, w1 := Writer(0, 0, 0, []), Writer(b, 0, 1, one);
    EmptyWrites(b, ft.vol.table, ft.vol.data, ft.files[fd].State());
    FirstBlock(b, one);
    var done;
    ghost var ch;
    done, ch := WriteOne(ft, fd, one, [], w);
    HoldsBlock(ft, ft.files[fd].State(), ch, AfterWrite(w, b, done));
    assert done == one;
    WritesFacts(b, ft.vol.table, ft.vol.data, ft.files[fd].State(), ch, w1);
    done, ch := WriteOne(ft, fd, two, ch, w1);
    HoldsBlock(ft, ft.files[fd].State(), ch, AfterWrite(w1, b, done));
    assert done == two;
    SecondBlock(b, one, two, ft.vol.table, ft.vol.data, ft.files[fd].State(), ch);
  }

  lemma EmptyWrites(b: nat, t: Table, data: Data, h: Handle)
    requires b > 0 && h.inUse && h.position == 0 && h.firstCluster == 0 && |t| == |data| <= BAD_CLUSTER
    ensures Writes(b, t, data, h, [], Writer(0, 0, 0, []))
  {}

  lemma HoldsBlock(ft: FileTable, h: Handle, ch: Chain, w: Writer)
    requires ft.Valid() && h.firstCluster != 0
    requires Writes(ft.vol.geo.bytesPerCluster, ft.vol.table, ft.vol.data, h, ch, w)
    ensures var b := ft.vol.geo.bytesPerCluster;
      |Content(ft.vol.data, ch)| == |ch| * b >= b && Blocks(ft.vol.data, ch, b)
  {
    hide Consistent, IsTableOf, Geometry.WellFormed, DistinctFiles, Content;
    ft.ChainBlocks(ch);
    MulMono(1, |ch|, ft.vol.geo.bytesPerCluster);
  }

  lemma FirstBlock(b: nat, bytes: seq<uint8>)
    requires b > 0 && |bytes| == b
    ensures Offset(b, 0, 0) == 0
    ensures AfterWrite(Writer(0, 0, 0, []), b, bytes) == Writer(b, 0, 1, bytes)
    ensures Offset(b, 0, b) == 0
  {
    DivModUnique(b, b, 1, 0);
    LastBlockIs(b, b, 0);
  }

  lemma SecondBlock(b: nat, one: seq<uint8>, two: seq<uint8>, t: Table, data: Data, h: Handle, ch: Chain)
    requires b > 0 && |one| == |two| == b && h.firstCluster != 0 && |Content(data, ch)| == |ch| * b
    requires Writes(b, t, data, h, ch, AfterWrite(Writer(b, 0, 1, one), b, two))
    ensures h.position == 2 * b && ch == [h.firstCluster] && IsChain(t, ch) && Content(data, ch) == two
  {
    hide Content, IsChain, LastBlock;
    DivModUnique(b, b, 1, 0);
    assert Overlay(one, 0, two) == two;
    OneMore(1, b);
    Multiples(b, |ch|, 1);
    if |ch| > 1 {
      MulMono(2, |ch|, b);
    }
  }

  // ----- Seeking before writing

  /** A seek inside the chain puts the writer in step with all of the file's stream known. */
  lemma SoughtWrites(b: nat, t: Table, data: Data, h: Handle, ch: Chain)
    requires b > 0 && h.inUse && |t| == |data| && IsChain(t, ch) && h.firstCluster == ch[0] && Blocks(data, ch, b)
    requires BlockOf(b, h.position) < |ch| && h.currentCluster == SeekTo(t, ch[0], BlockOf(b, h.position))
    ensures var start := Writer(h.position, BlockOf(b, h.position), 0, Content(data, ch));
      Writes(b, t, data, h, ch, start) && start.lag == 0
  {
    hide Content, IsChain, SeekTo;
    ChainFacts(t, ch);
    ContentLength(data, ch, b);
    SeekInside(t, ch, BlockOf(b, h.position));
    QuotientFits(h.position, b);
    MulMono(BlockOf(b, h.position) + 1, |ch|, b);
    OneMore(BlockOf(b, h.position), b);
  }

  /** In an empty file the cursor of the first write is on block 0, wherever the position is. */
  lemma FarWrites(b: nat, t: Table, data: Data, h: Handle)
    requires b > 0 && h.inUse && h.firstCluster == 0 && |t| == |data| <= BAD_CLUSTER
    requires LeastFree(t) != 0 && |data[LeastFree(t)]| == b
    ensures Writes(b, t, data, h, [], Writer(h.position, 0, BlockOf(b, h.position), data[LeastFree(t)]))
  {
    hide FreeFrom;
    var c := LeastFree(t);
    assert Content(data, [c]) == data[c] + Content(data, []) == data[c];
    QuotientFits(h.position, b);
  }

  /** What a first write far behind the start of an empty file leaves. */
  lemma FarExact(b: nat, t: Table, data: Data, h: Handle, ch: Chain, p: nat, s: seq<uint8>, bytes: seq<uint8>)
    requires b > 0 && |s| == b && bytes != [] && h.firstCluster != 0 && Blocks(data, ch, b)
    requires Writes(b, t, data, h, ch, AfterWrite(Writer(p, 0, BlockOf(b, p), s), b, bytes))
    requires Behind(Writer(p, 0, BlockOf(b, p), s), b)
    ensures p % b + |bytes| <= |Content(data, ch)| && Content(data, ch)[p % b..p % b + |bytes|] == bytes
    ensures p + |bytes| <= |Content(data, ch)| <==> p < b
  {
    hide Content, IsChain, Behind, Offset, LastBlock, Overlay;
    var start := Writer(p, 0, BlockOf(b, p), s);
    var w := AfterWrite(start, b, bytes);
    WriteOffset(start, b);
    WriteLands(start, b, bytes);
    FarOffset(b, p);
    ContentLength(data, ch, b);
    OverlayLength(s, p % b, bytes);
    PrefixSlice(w.stream, Content(data, ch), p % b, bytes);
    OneMore(1, b);
    if |bytes| + p % b <= b {
      Multiples(b, |ch|, 1);
    }
  }

  lemma PrefixSlice(s: seq<uint8>, c: seq<uint8>, q: nat, w: seq<uint8>)
    requires s <= c && q + |w| <= |s| && s[q..q + |w|] == w
    ensures q + |w| <= |c| && c[q..q + |w|] == w
  {
    assert c[..|s|] == s;
    assert c[q..q + |w|] == s[q..q + |w|];
  }

  /**
   * seek(p), write on an empty file: the bytes land at `p % B` in the first cluster. The file then has
   * as many bytes as its size says exactly when `p` is inside the first cluster.
   */
  method WriteFar(ft: FileTable, fd: int, p: uint32, bytes: seq<uint8>) returns (done: seq<uint8>, ghost ch: Chain)
    requires ft.Valid() && ft.vol.dev.reliable && ft.IsOpen(fd) && LeastFree(ft.vol.table) != 0
    requires ft.files[fd].firstCluster == 0 && bytes != [] && p + |bytes| < TWO_TO_THE_32
    modifies ft.vol.Footprint(), ft.buffer, ft.Slot(fd)
    ensures ft.Valid() && ft.IsOpen(fd) && done != [] && done <= bytes
    ensures ft.files[fd].position == p + |done| <= ft.files[fd].size
    ensures IsChain(ft.vol.table, ch) && ch[0] == ft.files[fd].firstCluster
    ensures var b, s := ft.vol.geo.bytesPerCluster, Content(ft.vol.data, ch);
      && b > 0 && p % b + |done| <= |s| && s[p % b..p % b + |done|] == done
      && (p + |done| <= |s| <==> p < b)
  {
    hide Consistent, IsTableOf, Geometry.WellFormed, DistinctFiles, FreeFrom, Writes, AfterWrite, Content, IsChain,
         Offset, BlockOf, LastBlock, Behind, SeekTo;
    var _ := ft.Seek(fd, p);
    ft.vol.Facts();
    ghost var b, c := ft.vol.geo.bytesPerCluster, LeastFree(ft.vol.table);
    ghost var s, w := ft.vol.data[c], Writer(p, 0, BlockOf(b, p), ft.vol.data[c]);
    FarWrites(b, ft.vol.table, ft.vol.data, ft.files[fd].State());
    WritesBehind(b, ft.vol.table, ft.vol.data, ft.files[fd].State(), [], w);
    done, ch := WriteOne(ft, fd, bytes, [], w);
    HoldsBlock(ft, ft.files[fd].State(), ch, AfterWrite(w, b, done));
    WritesFacts(b, ft.vol.table, ft.vol.data, ft.files[fd].State(), ch, AfterWrite(w, b, done));
    WriteMoves(w, b, done);
    FarExact(b, ft.vol.table, ft.vol.data, ft.files[fd].State(), ch, p, s, done);
  }
}
