/** bsg_async_fifo: two Gray pointers crossing in opposite directions around a
    dual-ported memory, each side deciding only from what it can see. */
module AsyncFifo {
  import opened Powers
  import opened GrayCode
  import opened AsyncPointer
  import opened Wrappers

  /** Every register of the FIFO, and the history of what went in and out. */
  datatype State<T> = State(
    mem: seq<T>, wr: Pointer, rd: Pointer,
    enqueued: seq<T>, dequeued: seq<T>)

  /** lg is the parameter lg_size_p; the memory powers up with arbitrary contents. */
  predicate IsReset<T(==)>(s: State<T>, lg: nat) {
    && |s.mem| == Pow2(lg)
    && s.wr == ResetPointer(lg + 1) && s.rd == ResetPointer(lg + 1)
    && s.enqueued == [] && s.dequeued == []
  }

  predicate WellSized<T>(s: State<T>, lg: nat) {
    && |s.mem| == Pow2(lg)
    && |s.wr.bin| == |s.rd.bin| == lg + 1
    && |s.wr.launch| == |s.rd.launch| == lg + 1
    && |s.wr.sync2| == |s.rd.sync2| == lg + 1
  }

  /** w_full_o */
  predicate Full<T>(s: State<T>, lg: nat)
    requires lg >= 1 && WellSized(s, lg)
  {
    s.wr.launch == FlipTopTwo(s.rd.sync2)
  }

  /** r_valid_o */
  predicate Valid<T>(s: State<T>) {
    s.rd.launch != s.wr.sync2
  }

  function Address(bin: Bits, lg: nat): (a: nat)
    requires |bin| == lg + 1
    ensures a < Pow2(lg)
  {
    Value(bin[..lg])
  }

  /** r_data_o */
  function ReadData<T>(s: State<T>, lg: nat): T
    requires WellSized(s, lg)
  {
    s.mem[Address(s.rd.bin, lg)]
  }

  /** Clock edges with the requests present at them. When both clocks tick together,
      either synchroniser may capture any per-bit mix of the other side's launch. */
  datatype Event<T> =
    | WriteClock(enq: Option<T>)
    | ReadClock(deq: bool)
    | BothClocks(enq: Option<T>, deq: bool, wrSample: Bits, rdSample: Bits)

  function Enq<T>(e: Event<T>): Option<T> {
    if e.ReadClock? then None else e.enq
  }

  predicate Deq<T>(e: Event<T>) {
    !e.WriteClock? && e.deq
  }

  /** The caller's obligations (never enqueue when full, never dequeue when not valid)
      and the limits of what a flop can capture. */
  predicate Legal<T>(s: State<T>, lg: nat, e: Event<T>)
    requires lg >= 1 && WellSized(s, lg)
  {
    && (Enq(e).Some? ==> !Full(s, lg))
    && (Deq(e) ==> Valid(s))
    && Possible(s.wr, WriterEdge(e))
    && Possible(s.rd, ReaderEdge(e))
  }

  /** What the event does to the write pointer ... */
  function WriterEdge<T>(e: Event<T>): Edge {
    match e
    case WriteClock(enq) => Launch(enq.Some?)
    case ReadClock(_) => Sync
    case BothClocks(enq, _, wrSample, _) => Coincident(enq.Some?, wrSample)
  }

  /** ... and to the read pointer, whose watching side is the write clock. */
  function ReaderEdge<T>(e: Event<T>): Edge {
    match e
    case WriteClock(_) => Sync
    case ReadClock(deq) => Launch(deq)
    case BothClocks(_, deq, _, rdSample) => Coincident(deq, rdSample)
  }

  function Next<T>(s: State<T>, lg: nat, e: Event<T>): State<T>
    requires lg >= 1 && WellSized(s, lg)
  {
    State(
      if Enq(e).Some? then s.mem[Address(s.wr.bin, lg) := Enq(e).value] else s.mem,
      Step(s.wr, WriterEdge(e)),
      Step(s.rd, ReaderEdge(e)),
      if Enq(e).Some? then s.enqueued + [Enq(e).value] else s.enqueued,
      if Deq(e) then s.dequeued + [ReadData(s, lg)] else s.dequeued)
  }

  /** The inductive invariant, in terms of the counts behind the two pointers. */
  predicate Inv<T(==)>(s: State<T>, lg: nat, cw: Counts, cr: Counts) {
    && |s.mem| == Pow2(lg)
    && Tracks(s.wr, lg + 1, cw) && Tracks(s.rd, lg + 1, cr)
    && cw.sent == |s.enqueued| && cr.sent == |s.dequeued|
    && cr.sent <= cw.sync2
    && cw.sent <= cr.sync2 + Pow2(lg)
    && s.dequeued == s.enqueued[..cr.sent]
    && Holds(s.mem, s.enqueued, cr.sent, cw.sent)
  }

  /** The circular memory holds words lo .. hi of the input stream. */
  predicate Holds<T(==)>(mem: seq<T>, words: seq<T>, lo: nat, hi: nat)
    requires |mem| > 0 && hi <= |words|
  {
    forall i :: lo <= i < hi ==> mem[i % |mem|] == words[i]
  }

  /** Appending one word stores it in a slot whose word has already been read. */
  lemma HoldsAppend<T>(mem: seq<T>, words: seq<T>, lo: nat, x: T, slot: nat)
    requires |mem| > 0 && Holds(mem, words, lo, |words|) && |words| < lo + |mem|
    requires slot == |words| % |mem|
    ensures Holds(mem[slot := x], words + [x], lo, |words| + 1)
  {
    var m := mem[slot := x];
    forall i | lo <= i < |words| + 1 ensures m[i % |m|] == (words + [x])[i] {
      if i < |words| && i % |mem| == slot {
        CloseAndCongruent(i, |words|, |mem|);
      }
    }
  }

  lemma HoldsDrop<T>(mem: seq<T>, words: seq<T>, lo: nat, lo': nat)
    requires |mem| > 0 && lo <= lo' && Holds(mem, words, lo, |words|)
    ensures Holds(mem, words, lo', |words|)
  {
  }

  lemma AddressOf(n: nat, lg: nat)
    ensures Address(ToBits(n, lg + 1), lg) == n % Pow2(lg)
  {
    ToBitsSlice(n, lg + 1, lg);
    ValueToBits(n, lg);
  }

  /** The two flags mean exactly what their Gray comparisons were designed to mean:
      full when the writer is a whole memory ahead of the read count it can see,
      valid when the reader is behind the write count it can see. */
  lemma FlagsExact<T>(s: State<T>, lg: nat, cw: Counts, cr: Counts)
    requires lg >= 1 && Inv(s, lg, cw, cr)
    ensures Full(s, lg) <==> cw.sent == cr.sync2 + Pow2(lg)
    ensures Valid(s) <==> cr.sent < cw.sync2
  {
    hide GrayOf, FlipTopTwo, ToBits;
    GrayHalfTurn(cr.sync2, lg + 1);
    GrayEqualClose(cw.sent, cr.sync2 + Pow2(lg), lg + 1);
    GrayEqualClose(cr.sent, cw.sync2, lg + 1);
  }

  lemma ResetInv<T>(s: State<T>, lg: nat)
    requires IsReset(s, lg)
    ensures Inv(s, lg, Counts(0, 0, 0), Counts(0, 0, 0))
  {
    ResetTracks(lg + 1);
  }

  /** The word offered while valid is the oldest one not yet dequeued. */
  lemma ReadsOldest<T>(s: State<T>, lg: nat, cw: Counts, cr: Counts)
    requires lg >= 1 && Inv(s, lg, cw, cr) && Valid(s)
    ensures |s.dequeued| < |s.enqueued| && ReadData(s, lg) == s.enqueued[|s.dequeued|]
  {
    FlagsExact(s, lg, cw, cr);
    AddressOf(cr.sent, lg);
  }

  /** What legality buys in terms of counts: room for an enqueue, a word for a dequeue. */
  lemma LegalMeans<T>(s: State<T>, lg: nat, cw: Counts, cr: Counts, e: Event<T>)
    requires lg >= 1 && Inv(s, lg, cw, cr) && Legal(s, lg, e)
    ensures Enq(e).Some? ==> cw.sent < cr.sync2 + Pow2(lg)
    ensures Deq(e) ==> cr.sent < cw.sync2 && ReadData(s, lg) == s.enqueued[cr.sent]
    ensures Address(s.wr.bin, lg) == cw.sent % Pow2(lg)
    ensures Possible(s.wr, WriterEdge(e)) && Possible(s.rd, ReaderEdge(e))
    ensures WellSized(s, lg) && (e.BothClocks? ==> |e.wrSample| == |e.rdSample| == lg + 1)
    ensures cw.sync2 <= cw.sync1 <= cw.sent && cr.sync2 <= cr.sync1 <= cr.sent <= cw.sent
    ensures cw.sent == |s.enqueued| && cr.sent == |s.dequeued|
  {
    hide GrayOf, FlipTopTwo, ToBits, Address, ReadData, Possible, Holds;
    FlagsExact(s, lg, cw, cr);
    AddressOf(cw.sent, lg);
    SampleWidths(s, lg, e);
    if Deq(e) {
      ReadsOldest(s, lg, cw, cr);
    }
  }

  lemma SampleWidths<T>(s: State<T>, lg: nat, e: Event<T>)
    requires lg >= 1 && WellSized(s, lg) && Legal(s, lg, e)
    ensures e.BothClocks? ==> |e.wrSample| == |e.rdSample| == lg + 1
  {
    hide Full, Valid, FlipTopTwo, Gray;
  }

  /** The memory and the two histories under one enqueue and one dequeue. */
  lemma HistoryStep<T>(mem: seq<T>, ins: seq<T>, outs: seq<T>, enq: Option<T>, deq: bool, slot: nat, data: T)
    requires |mem| > 0 && outs <= ins && Holds(mem, ins, |outs|, |ins|)
    requires enq.Some? ==> |ins| < |outs| + |mem| && slot == |ins| % |mem|
    requires deq ==> |outs| < |ins| && data == ins[|outs|]
    ensures var ins' := if enq.Some? then ins + [enq.value] else ins;
            var outs' := if deq then outs + [data] else outs;
            && outs' == ins'[..|outs'|]
            && Holds(if enq.Some? then mem[slot := enq.value] else mem, ins', |outs'|, |ins'|)
  {
    hide Holds;
    if deq {
      assert ins[..|outs|] + [ins[|outs|]] == ins[..|outs| + 1];
    }
    var lo := |outs| + (if deq then 1 else 0);
    if enq.Some? {
      HoldsAppend(mem, ins, |outs|, enq.value, slot);
      HoldsDrop(mem[slot := enq.value], ins + [enq.value], |outs|, lo);
    } else {
      HoldsDrop(mem, ins, |outs|, lo);
    }
  }

  /** Every legal event keeps the invariant and moves both pairs of counts along. */
  lemma StepInv<T>(s: State<T>, lg: nat, cw: Counts, cr: Counts, e: Event<T>) returns (cw': Counts, cr': Counts)
    requires lg >= 1 && Inv(s, lg, cw, cr) && Legal(s, lg, e)
    ensures Inv(Next(s, lg, e), lg, cw', cr')
    ensures Follows(cw, WriterEdge(e), cw') && Follows(cr, ReaderEdge(e), cr')
  {
    hide Tracks, Legal, Full, Valid, Holds, Possible, Step, Pow2, Address, ReadData;
    LegalMeans(s, lg, cw, cr, e);
    HistoryStep(s.mem, s.enqueued, s.dequeued, Enq(e), Deq(e), Address(s.wr.bin, lg), ReadData(s, lg));
    cw' := StepTracks(s.wr, lg + 1, cw, WriterEdge(e));
    cr' := StepTracks(s.rd, lg + 1, cr, ReaderEdge(e));
  }

  function Run<T>(s: State<T>, lg: nat, es: seq<Event<T>>): State<T>
    requires lg >= 1 && LegalRun(s, lg, es)
    decreases es
  {
    if es == [] then s else Run(Next(s, lg, es[0]), lg, es[1..])
  }

  predicate LegalRun<T>(s: State<T>, lg: nat, es: seq<Event<T>>)
    requires lg >= 1
    decreases es
  {
    es == [] || (WellSized(s, lg) && Legal(s, lg, es[0]) && LegalRun(Next(s, lg, es[0]), lg, es[1..]))
  }

  function WriterEdges<T>(es: seq<Event<T>>): (r: seq<Edge>)
    ensures |r| == |es|
  {
    seq(|es|, i requires 0 <= i < |es| => WriterEdge(es[i]))
  }

  function ReaderEdges<T>(es: seq<Event<T>>): (r: seq<Edge>)
    ensures |r| == |es|
  {
    seq(|es|, i requires 0 <= i < |es| => ReaderEdge(es[i]))
  }

  lemma EdgesUnfold<T>(es: seq<Event<T>>)
    ensures es == [] ==> SyncEdges(WriterEdges(es)) == SyncEdges(ReaderEdges(es)) == 0
    ensures es != [] ==>
              && SyncEdges(WriterEdges(es)) == (if WriterEdge(es[0]).Launch? then 0 else 1) + SyncEdges(WriterEdges(es[1..]))
              && SyncEdges(ReaderEdges(es)) == (if ReaderEdge(es[0]).Launch? then 0 else 1) + SyncEdges(ReaderEdges(es[1..]))
  {
    if es != [] {
      assert WriterEdges(es)[1..] == WriterEdges(es[1..]);
      assert ReaderEdges(es)[1..] == ReaderEdges(es[1..]);
    }
  }

  lemma CountsOrdered<T>(s: State<T>, lg: nat, cw: Counts, cr: Counts)
    requires Inv(s, lg, cw, cr)
    ensures cw.sync2 <= cw.sync1 <= cw.sent && cr.sync2 <= cr.sync1 <= cr.sent
  {
    hide ToBits, GrayOf, Holds, Pow2;
  }

  lemma {:induction false} RunInv<T>(s: State<T>, lg: nat, cw: Counts, cr: Counts, es: seq<Event<T>>)
    returns (cw': Counts, cr': Counts)
    requires lg >= 1 && Inv(s, lg, cw, cr) && LegalRun(s, lg, es)
    ensures Inv(Run(s, lg, es), lg, cw', cr')
    ensures SyncEdges(WriterEdges(es)) >= 1 ==> cw'.sync1 >= cw.sent && cw'.sync2 >= cw.sync1
    ensures SyncEdges(WriterEdges(es)) >= 2 ==> cw'.sync2 >= cw.sent
    ensures SyncEdges(ReaderEdges(es)) >= 1 ==> cr'.sync1 >= cr.sent && cr'.sync2 >= cr.sync1
    ensures SyncEdges(ReaderEdges(es)) >= 2 ==> cr'.sync2 >= cr.sent
    ensures cw.sync1 <= cw'.sync1 && cw.sync2 <= cw'.sync2 && cr.sync1 <= cr'.sync1 && cr.sync2 <= cr'.sync2
    ensures cw.sent <= cw'.sent && cr.sent <= cr'.sent
    decreases es
  {
    hide Inv, Legal, Next, WellSized, WriterEdges, ReaderEdges;
    EdgesUnfold(es);
    CountsOrdered(s, lg, cw, cr);
    if es == [] {
      cw', cr' := cw, cr;
    } else {
      var dw, dr := StepInv(s, lg, cw, cr, es[0]);
      cw', cr' := RunInv(Next(s, lg, es[0]), lg, dw, dr, es[1..]);
    }
  }

  /** Safety over every interleaving of the two clocks and every metastable outcome:
      words come out in the order they went in, never more than 2^lg are inside,
      and the offered word is the next one. */
  lemma FifoSafe<T>(s: State<T>, lg: nat, es: seq<Event<T>>)
    requires lg >= 1 && IsReset(s, lg) && LegalRun(s, lg, es)
    ensures var f := Run(s, lg, es);
            && f.dequeued <= f.enqueued
            && |f.enqueued| - |f.dequeued| <= Pow2(lg)
            && WellSized(f, lg)
            && (|f.enqueued| - |f.dequeued| == Pow2(lg) ==> Full(f, lg))
            && (|f.enqueued| == |f.dequeued| ==> !Valid(f))
            && (Valid(f) ==> |f.dequeued| < |f.enqueued| && ReadData(f, lg) == f.enqueued[|f.dequeued|])
  {
    hide GrayOf, FlipTopTwo, ToBits, Value;
    ResetInv(s, lg);
    var cw, cr := RunInv(s, lg, Counts(0, 0, 0), Counts(0, 0, 0), es);
    var f := Run(s, lg, es);
    FlagsExact(f, lg, cw, cr);
    if Valid(f) {
      ReadsOldest(f, lg, cw, cr);
    }
  }

  predicate NoEnqueue<T>(es: seq<Event<T>>) {
    forall i :: 0 <= i < |es| ==> Enq(es[i]).None?
  }

  predicate NoDequeue<T>(es: seq<Event<T>>) {
    forall i :: 0 <= i < |es| ==> !Deq(es[i])
  }

  lemma {:induction false} RunHistory<T>(s: State<T>, lg: nat, es: seq<Event<T>>)
    requires lg >= 1 && LegalRun(s, lg, es)
    ensures NoEnqueue(es) ==> Run(s, lg, es).enqueued == s.enqueued
    ensures NoDequeue(es) ==> Run(s, lg, es).dequeued == s.dequeued
    decreases es
  {
    if es != [] {
      RunHistory(Next(s, lg, es[0]), lg, es[1..]);
    }
  }

  lemma {:induction false} RunAppend<T>(s: State<T>, lg: nat, a: seq<Event<T>>, b: seq<Event<T>>)
    requires lg >= 1 && LegalRun(s, lg, a + b)
    ensures LegalRun(s, lg, a) && LegalRun(Run(s, lg, a), lg, b)
    ensures Run(s, lg, a + b) == Run(Run(s, lg, a), lg, b)
    decreases a
  {
    if a == [] {
      assert a + b == b;
    } else {
      assert (a + b)[1..] == a[1..] + b;
      RunAppend(Next(s, lg, a[0]), lg, a[1..], b);
    }
  }

  /** After the writer stops, two read clocks make the valid flag exact: it is raised
      precisely while a word remains. After the reader stops, two write clocks make
      the full flag exact. */
  lemma FlagsSettle<T>(s: State<T>, lg: nat, before: seq<Event<T>>, quiet: seq<Event<T>>)
    requires lg >= 1 && IsReset(s, lg) && LegalRun(s, lg, before + quiet)
    ensures WellSized(Run(s, lg, before + quiet), lg)
    ensures var f := Run(s, lg, before + quiet);
            NoEnqueue(quiet) && SyncEdges(WriterEdges(quiet)) >= 2 ==>
              (Valid(f) <==> |f.dequeued| < |f.enqueued|)
    ensures var f := Run(s, lg, before + quiet);
            NoDequeue(quiet) && SyncEdges(ReaderEdges(quiet)) >= 2 ==>
              (Full(f, lg) <==> |f.enqueued| - |f.dequeued| == Pow2(lg))
  {
    hide Full, Valid, WriterEdges, ReaderEdges, LegalRun, Run, Legal, Next, IsReset;
    ResetInv(s, lg);
    RunAppend(s, lg, before, quiet);
    var m := Run(s, lg, before);
    var cw, cr := RunInv(s, lg, Counts(0, 0, 0), Counts(0, 0, 0), before);
    var cw', cr' := RunInv(m, lg, cw, cr, quiet);
    RunHistory(m, lg, quiet);
    FlagsExact(Run(m, lg, quiet), lg, cw', cr');
  }

  lemma RunPrepend<T>(s: State<T>, lg: nat, e: Event<T>, es: seq<Event<T>>)
    requires lg >= 1 && WellSized(s, lg) && Legal(s, lg, e) && LegalRun(Next(s, lg, e), lg, es)
    ensures LegalRun(s, lg, [e] + es) && Run(s, lg, [e] + es) == Run(Next(s, lg, e), lg, es)
  {
    hide Legal, Next;
    assert ([e] + es)[1..] == es;
  }

  function Drain<T>(k: nat): (es: seq<Event<T>>) {
    if k == 0 then [] else [ReadClock(true)] + Drain(k - 1)
  }

  lemma DrainStep<T>(s: State<T>, lg: nat, cw: Counts, cr: Counts) returns (dw: Counts, dr: Counts)
    requires lg >= 1 && Inv(s, lg, cw, cr) && cw.sync2 == cw.sync1 == cw.sent
    requires |s.dequeued| < |s.enqueued|
    ensures WellSized(s, lg) && Legal(s, lg, ReadClock(true))
    ensures var t := Next(s, lg, ReadClock(true));
            && Inv(t, lg, dw, dr) && dw.sync2 == dw.sync1 == dw.sent
            && t.enqueued == s.enqueued && |t.dequeued| == |s.dequeued| + 1
  {
    hide GrayOf, FlipTopTwo, ToBits, Value;
    FlagsExact(s, lg, cw, cr);
    dw, dr := StepInv(s, lg, cw, cr, ReadClock(true));
  }

  lemma EmptyDeliveredAll<T>(s: State<T>, lg: nat, cw: Counts, cr: Counts)
    requires Inv(s, lg, cw, cr) && |s.enqueued| == |s.dequeued|
    ensures s.dequeued == s.enqueued
  {
    hide GrayOf, ToBits;
  }

  lemma {:induction false} DrainFrom<T>(s: State<T>, lg: nat, cw: Counts, cr: Counts, k: nat)
    requires lg >= 1 && Inv(s, lg, cw, cr) && cw.sync2 == cw.sync1 == cw.sent
    requires k == |s.enqueued| - |s.dequeued|
    ensures LegalRun(s, lg, Drain(k)) && Run(s, lg, Drain(k)).dequeued == s.enqueued
    decreases k
  {
    hide Inv, Legal, Next, WellSized;
    if k == 0 {
      EmptyDeliveredAll(s, lg, cw, cr);
      assert Drain<T>(k) == [];
    } else {
      var dw, dr := DrainStep(s, lg, cw, cr);
      DrainFrom(Next(s, lg, ReadClock(true)), lg, dw, dr, k - 1);
      RunPrepend(s, lg, ReadClock(true), Drain(k - 1));
    }
  }

  /** From s, dequeuing at every read clock is legal and delivers all that was enqueued. */
  predicate DrainsCompletely<T(==)>(s: State<T>, lg: nat)
    requires lg >= 1
  {
    && |s.dequeued| <= |s.enqueued|
    && var es := Drain(|s.enqueued| - |s.dequeued|);
    LegalRun(s, lg, es) && Run(s, lg, es).dequeued == s.enqueued
  }

  function IdleReads<T>(): seq<Event<T>> {
    [ReadClock(false), ReadClock(false)]
  }

  /** A read clock edge without a dequeue only watches. */
  lemma IdleRead<T>(s: State<T>, lg: nat, cw: Counts, cr: Counts) returns (dw: Counts, dr: Counts)
    requires lg >= 1 && Inv(s, lg, cw, cr)
    ensures WellSized(s, lg) && Legal(s, lg, ReadClock(false))
    ensures var t := Next(s, lg, ReadClock(false));
            && Inv(t, lg, dw, dr) && t.enqueued == s.enqueued && t.dequeued == s.dequeued
            && dw.sync2 == cw.sync1 && dw.sync1 == cw.sent == dw.sent
  {
    hide GrayOf, FlipTopTwo, ToBits, Value, Pow2, Holds, ReadData, Address;
    dw, dr := StepInv(s, lg, cw, cr, ReadClock(false));
  }

  lemma RunNil<T>(s: State<T>, lg: nat)
    requires lg >= 1
    ensures LegalRun(s, lg, []) && Run(s, lg, []) == s
  {
  }

  lemma Delivered<T>(s: State<T>, lg: nat, cw: Counts, cr: Counts)
    requires Inv(s, lg, cw, cr)
    ensures |s.dequeued| <= |s.enqueued|
  {
    hide ToBits, GrayOf;
  }

  lemma TwoIdleClocks<T>(m: State<T>, lg: nat, cw: Counts, cr: Counts)
    requires lg >= 1 && Inv(m, lg, cw, cr)
    ensures LegalRun(m, lg, IdleReads())
    ensures Run(m, lg, IdleReads()).enqueued == m.enqueued
    ensures DrainsCompletely(Run(m, lg, IdleReads()), lg)
  {
    hide Inv, Legal, Next, WellSized, LegalRun, Run, Drain;
    var idle: Event<T> := ReadClock(false);
    var cw1, cr1 := IdleRead(m, lg, cw, cr);
    var n := Next(m, lg, idle);
    var cw2, cr2 := IdleRead(n, lg, cw1, cr1);
    var f := Next(n, lg, idle);
    RunNil(f, lg);
    RunPrepend(n, lg, idle, []);
    assert [idle] + [] == [idle] && [idle] + [idle] == IdleReads<T>();
    RunPrepend(m, lg, idle, [idle]);
    Delivered(f, lg, cw2, cr2);
    DrainFrom(f, lg, cw2, cr2, |f.enqueued| - |f.dequeued|);
  }

  lemma {:induction false} LegalAppend<T>(s: State<T>, lg: nat, a: seq<Event<T>>, b: seq<Event<T>>)
    requires lg >= 1 && LegalRun(s, lg, a) && LegalRun(Run(s, lg, a), lg, b)
    ensures LegalRun(s, lg, a + b)
    decreases a
  {
    hide Legal, Next;
    if a == [] {
      assert a + b == b;
    } else {
      assert (a + b)[0] == a[0] && (a + b)[1..] == a[1..] + b;
      LegalAppend(Next(s, lg, a[0]), lg, a[1..], b);
    }
  }

  /** Nothing is stranded: whatever happened before, two idle read clocks followed by one
      dequeue per remaining word are all legal and deliver everything ever enqueued. */
  lemma EverythingDrains<T>(s: State<T>, lg: nat, es: seq<Event<T>>)
    requires lg >= 1 && IsReset(s, lg) && LegalRun(s, lg, es)
    ensures LegalRun(s, lg, es + IdleReads())
    ensures Run(s, lg, es + IdleReads()).enqueued == Run(s, lg, es).enqueued
    ensures DrainsCompletely(Run(s, lg, es + IdleReads()), lg)
  {
    hide GrayOf, FlipTopTwo, ToBits, Value, Inv, Step, Legal, IdleReads, DrainsCompletely;
    ResetInv(s, lg);
    var cw, cr := RunInv(s, lg, Counts(0, 0, 0), Counts(0, 0, 0), es);
    TwoIdleClocks(Run(s, lg, es), lg, cw, cr);
    LegalAppend(s, lg, es, IdleReads());
    RunAppend(s, lg, es, IdleReads());
  }

  lemma ReadLegal<T>(s: State<T>, lg: nat, cw: Counts, cr: Counts, deq: bool)
    requires lg >= 1 && Inv(s, lg, cw, cr)
    ensures WellSized(s, lg) && (Legal(s, lg, ReadClock(deq)) <==> (deq ==> Valid(s)))
  {
    hide Holds, Valid, ToBits, GrayOf;
  }

  lemma WriteLegal<T>(s: State<T>, lg: nat, cw: Counts, cr: Counts, enq: Option<T>)
    requires lg >= 1 && Inv(s, lg, cw, cr)
    ensures WellSized(s, lg) && (Legal(s, lg, WriteClock(enq)) <==> (enq.Some? ==> !Full(s, lg)))
  {
    hide Holds, Full, ToBits, GrayOf;
  }

  /** The module itself: a memory and two pointers updated in place. */
  class Fifo<T> {
    const lg: nat
    const mem: array<T>
    const wr: PtrGray
    const rd: PtrGray
    ghost var enqueued: seq<T>
    ghost var dequeued: seq<T>
    ghost var writeCounts: Counts
    ghost var readCounts: Counts

    ghost function Snapshot(): State<T>
      reads this, mem, wr, wr.flops, rd, rd.flops
    {
      State(mem[..], wr.Registers(), rd.Registers(), enqueued, dequeued)
    }

    ghost predicate Invariant()
      reads this, mem, wr, wr.flops, rd, rd.flops
    {
      && lg >= 1 && wr.width == rd.width == lg + 1 && wr != rd && wr.flops != rd.flops
      && wr.Valid() && rd.Valid()
      && Inv(Snapshot(), lg, writeCounts, readCounts)
    }

    constructor (lg: nat, mem: array<T>)
      requires lg >= 1 && mem.Length == Pow2(lg)
      ensures Invariant() && this.lg == lg && this.mem == mem
      ensures enqueued == [] && dequeued == []
      ensures fresh(wr) && fresh(wr.flops) && fresh(rd) && fresh(rd.flops)
    {
      this.lg, this.mem := lg, mem;
      wr := new PtrGray(lg + 1);
      rd := new PtrGray(lg + 1);
      enqueued, dequeued := [], [];
      writeCounts, readCounts := Counts(0, 0, 0), Counts(0, 0, 0);
      new;
      ResetInv(Snapshot(), lg);
    }

    predicate IsFull()
      requires Invariant()
      reads this, mem, wr, wr.flops, rd, rd.flops
      ensures IsFull() <==> Full(Snapshot(), lg)
    {
      wr.flops.launch == FlipTopTwo(rd.flops.sync2)
    }

    predicate IsValid()
      requires Invariant()
      reads this, mem, wr, wr.flops, rd, rd.flops
      ensures IsValid() <==> Valid(Snapshot())
      ensures IsValid() ==> |dequeued| < |enqueued|
    {
      assert Valid(Snapshot()) ==> |dequeued| < |enqueued| by {
        FlagsExact(Snapshot(), lg, writeCounts, readCounts);
      }
      rd.flops.launch != wr.flops.sync2
    }

    /** The memory's write port. */
    method Store(enq: Option<T>)
      requires Invariant()
      modifies mem, this`enqueued
      ensures mem[..] == if enq.Some? then old(mem[..])[old(Address(wr.ptr, lg)) := enq.value] else old(mem[..])
      ensures enqueued == old(enqueued) + (if enq.Some? then [enq.value] else [])
    {
      hide Tracks, Holds, Value;
      if enq.Some? {
        mem[Address(wr.ptr, lg)] := enq.value;
        enqueued := enqueued + [enq.value];
      }
    }

    /** Write clock alone: an accepted word joins the queue. */
    method WriteEdge(enq: Option<T>)
      requires Invariant() && (enq.Some? ==> !IsFull())
      modifies this, mem, wr, wr.flops`launch, rd.flops`sync1, rd.flops`sync2
      ensures Invariant() && Snapshot() == Next(old(Snapshot()), lg, WriteClock(enq))
      ensures enqueued == old(enqueued) + (if enq.Some? then [enq.value] else [])
      ensures dequeued == old(dequeued)
    {
      hide Inv, Legal, Holds, LaunchEdge, SyncEdge, Value, Pow2, Full, WellSized;
      ghost var s := Snapshot();
      WriteLegal(s, lg, writeCounts, readCounts, enq);
      LegalMeans(s, lg, writeCounts, readCounts, WriteClock(enq));
      ghost var cw, cr := StepInv(s, lg, writeCounts, readCounts, WriteClock(enq));
      Store(enq);
      wr.LaunchClock(enq.Some?);
      rd.SyncClock(rd.flops.launch);
      writeCounts, readCounts := cw, cr;
      assert Snapshot() == Next(s, lg, WriteClock(enq));
    }

    /** Read clock alone: a dequeue takes the oldest word. */
    method ReadEdge(deq: bool) returns (data: Option<T>)
      requires Invariant() && (deq ==> IsValid())
      modifies this, rd, rd.flops`launch, wr.flops`sync1, wr.flops`sync2
      ensures Invariant() && Snapshot() == Next(old(Snapshot()), lg, ReadClock(deq))
      ensures data == if deq then Some(old(enqueued)[|old(dequeued)|]) else None
      ensures dequeued == old(dequeued) + (if deq then [data.value] else [])
      ensures enqueued == old(enqueued)
    {
      hide Inv, Legal, Holds, LaunchEdge, SyncEdge, Value, Pow2, Valid;
      ghost var s := Snapshot();
      ReadLegal(s, lg, writeCounts, readCounts, deq);
      LegalMeans(s, lg, writeCounts, readCounts, ReadClock(deq));
      ghost var cw, cr := StepInv(s, lg, writeCounts, readCounts, ReadClock(deq));
      data := None;
      if deq {
        data := Some(mem[Address(rd.ptr, lg)]);
        dequeued := dequeued + [data.value];
      }
      rd.LaunchClock(deq);
      wr.SyncClock(wr.flops.launch);
      writeCounts, readCounts := cw, cr;
      assert Snapshot() == Next(s, lg, ReadClock(deq));
    }

    /** Both clocks together, with whatever the two synchronisers happen to capture. */
    method BothEdges(enq: Option<T>, deq: bool, wrSample: Bits, rdSample: Bits) returns (data: Option<T>)
      requires Invariant() && Legal(Snapshot(), lg, BothClocks(enq, deq, wrSample, rdSample))
      modifies this, mem, wr, wr.flops, rd, rd.flops
      ensures Invariant() && Snapshot() == Next(old(Snapshot()), lg, BothClocks(enq, deq, wrSample, rdSample))
      ensures deq ==> |old(dequeued)| < |old(enqueued)|
      ensures data == if deq then Some(old(enqueued)[|old(dequeued)|]) else None
      ensures enqueued == old(enqueued) + (if enq.Some? then [enq.value] else [])
      ensures dequeued == old(dequeued) + (if deq then [data.value] else [])
    {
      hide Inv, Legal, Holds, LaunchEdge, SyncEdge, Value, Pow2;
      ghost var s := Snapshot();
      ghost var e := BothClocks(enq, deq, wrSample, rdSample);
      LegalMeans(s, lg, writeCounts, readCounts, e);
      ghost var cw, cr := StepInv(s, lg, writeCounts, readCounts, e);
      data := if deq then Some(mem[Address(rd.ptr, lg)]) else None;
      Store(enq);
      dequeued := if deq then dequeued + [data.value] else dequeued;
      wr.BothClocks(enq.Some?, wrSample);
      rd.BothClocks(deq, rdSample);
      writeCounts, readCounts := cw, cr;
      assert Snapshot() == Next(s, lg, e);
    }
  }
}
