/** bsg_cache_dma: moves one cache block, a beat at a time, between the data memory and the two
    FIFOs that face the memory side. The miss unit commands it; the data memory is part of the state. */
module CacheDma {
  import opened Wrappers

  type Word = int
  type Beat = seq<Word>

  /** beats: burst_len_lp; words: burst_size_in_words_lp; tracking: word_tracking_p. */
  datatype Config = Config(beats: nat, words: nat, sets: nat, ways: nat, tracking: bool)

  predicate ValidConfig(g: Config) {
    g.beats >= 1 && g.words >= 1 && g.sets >= 1 && g.ways >= 1
  }

  /** A word of the data memory, and the bit that tracks it within its set. */
  datatype Loc = Loc(set_: nat, way: nat, beat: nat, word: nat)
  datatype Bit = Bit(way: nat, beat: nat, word: nat)

  /** dma_addr_i by its fields: tag, set, and the offset as beat and word within the beat. */
  datatype Addr = Addr(tag: nat, set_: nat, beat: nat, word: nat)

  datatype Cmd = Nop | SendFillAddr | SendEvictAddr | GetFillData | SendEvictData
  datatype Fsm = IDLE | GET_FILL_DATA | SEND_EVICT_DATA

  /** mem and latch: the data memory and the row it last read, by way. received and consumed are the
      histories of the in FIFO's input and output, emitted and sent of the out FIFO's. */
  datatype State = State(
    fsm: Fsm, counter: nat, snoop: Word, track: set<Bit>,
    mem: map<Loc, Word>, latch: seq<Beat>, inFifo: seq<Beat>, outFifo: seq<Beat>,
    received: seq<Beat>, consumed: seq<Beat>, emitted: seq<Beat>, sent: seq<Beat>)

  /** trackMem is the track memory's output when track_data_we_i is set. */
  datatype Input = Input(
    cmd: Cmd, way: nat, addr: Addr, trackMiss: bool, trackMem: Option<set<Bit>>,
    pktYumi: bool, dataIn: Option<Beat>, outYumi: bool)

  predicate Legal(g: Config, s: State, i: Input) {
    && i.way < g.ways && i.addr.set_ < g.sets && i.addr.beat < g.beats && i.addr.word < g.words
    && (i.dataIn.Some? ==> |i.dataIn.value| == g.words)
    && (i.outYumi ==> s.outFifo != [])
  }

  // ----- memories and FIFOs --------------------------------------------------

  function Read(mem: map<Loc, Word>, l: Loc): Word {
    if l in mem then mem[l] else 0
  }

  function ReadBeat(g: Config, mem: map<Loc, Word>, set_: nat, way: nat, beat: nat): (b: Beat)
    ensures |b| == g.words
  {
    seq(g.words, w requires 0 <= w < g.words => Read(mem, Loc(set_, way, beat, w)))
  }

  function ReadRow(g: Config, mem: map<Loc, Word>, set_: nat, beat: nat): (row: seq<Beat>)
    ensures |row| == g.ways
  {
    seq(g.ways, way requires 0 <= way < g.ways => ReadBeat(g, mem, set_, way, beat))
  }

  /** The mux over the ways. */
  function Pick(row: seq<Beat>, way: nat): Beat {
    if way < |row| then row[way] else []
  }

  /** A masked write of one beat. */
  function WriteBeat(g: Config, mem: map<Loc, Word>, set_: nat, way: nat, beat: nat, data: Beat, keep: set<Bit>)
    : map<Loc, Word>
  {
    mem + map w | 0 <= w < g.words && w < |data| && Bit(way, beat, w) !in keep :: Loc(set_, way, beat, w) := data[w]
  }

  function InDepth(g: Config): nat {
    if g.beats < 2 then 2 else g.beats
  }

  predicate OutReady(outFifo: seq<Beat>) {
    |outFifo| < 2
  }

  predicate InReady(g: Config, inFifo: seq<Beat>) {
    |inFifo| < InDepth(g)
  }

  /** A FIFO's cycle, and what it gives out. */
  function Shift(fifo: seq<Beat>, pop: bool, push: seq<Beat>): seq<Beat> {
    (if pop && fifo != [] then fifo[1..] else fifo) + push
  }

  function Popped(fifo: seq<Beat>, pop: bool): seq<Beat> {
    if pop && fifo != [] then [fifo[0]] else []
  }

  lemma ShiftConserves(before: seq<Beat>, out: seq<Beat>, fifo: seq<Beat>, pop: bool, push: seq<Beat>)
    requires before == out + fifo
    ensures before + push == out + Popped(fifo, pop) + Shift(fifo, pop, push)
    ensures |Shift(fifo, pop, push)| == |fifo| - |Popped(fifo, pop)| + |push|
  {
    assert pop && fifo != [] ==> fifo == [fifo[0]] + fifo[1..];
  }

  // ----- control ---------------------------------------------------------------

  datatype Control = Control(
    done: bool, pktV: bool, pktWrite: bool, memV: bool, memW: bool, inYumi: bool, outV: bool,
    clear: bool, up: bool, evict: bool, next: Fsm)

  const QUIET := Control(false, false, false, false, false, false, false, false, false, false, IDLE)

  /** Some word of the beat is tracked, so that it is worth reading. */
  predicate AnyTracked(g: Config, track: set<Bit>, way: nat, beat: nat) {
    exists w :: 0 <= w < g.words && Bit(way, beat, w) in track
  }

  predicate WorthReading(g: Config, s: State, i: Input) {
    g.tracking ==> AnyTracked(g, s.track, i.way, s.counter)
  }

  function Decide(g: Config, s: State, i: Input): Control {
    match s.fsm
    case IDLE =>
      (match i.cmd
       case SendFillAddr => QUIET.(pktV := true, done := i.pktYumi)
       case SendEvictAddr => QUIET.(pktV := true, pktWrite := true, done := i.pktYumi)
       case GetFillData => QUIET.(clear := true, next := GET_FILL_DATA)
       case SendEvictData =>
         QUIET.(clear := true, up := true, memV := WorthReading(g, s, i), next := SEND_EVICT_DATA)
       case Nop => QUIET)
    case GET_FILL_DATA =>
      var v, last := s.inFifo != [], s.counter == g.beats - 1;
      QUIET.(memV := v, memW := v, inYumi := v, up := v && !last, clear := v && last, done := v && last,
             next := if v && last then IDLE else GET_FILL_DATA)
    case SEND_EVICT_DATA =>
      var r, last := OutReady(s.outFifo), s.counter == g.beats;
      QUIET.(outV := true, up := r && !last, clear := r && last, done := r && last, evict := true,
             memV := r && !last && WorthReading(g, s, i),
             next := if r && last then IDLE else SEND_EVICT_DATA)
  }

  /** Clearing and counting up together leaves one. */
  function NextCounter(c: Control, counter: nat): nat {
    if c.clear then if c.up then 1 else 0 else if c.up then counter + 1 else counter
  }

  /** The words a fill leaves alone. */
  function Kept(g: Config, s: State, i: Input): set<Bit> {
    if g.tracking && i.trackMiss then s.track else {}
  }

  predicate SnoopHit(s: State, i: Input) {
    s.fsm.GET_FILL_DATA? && s.inFifo != [] && s.counter == i.addr.beat
  }

  /** The beats that enter the in FIFO and the out FIFO in this cycle. */
  function Arriving(g: Config, s: State, i: Input): seq<Beat> {
    if i.dataIn.Some? && InReady(g, s.inFifo) then [i.dataIn.value] else []
  }

  function Emitting(g: Config, s: State, i: Input): seq<Beat> {
    if Decide(g, s, i).outV && OutReady(s.outFifo) then [Pick(s.latch, i.way)] else []
  }

  function NextSnoop(s: State, i: Input): Word {
    if SnoopHit(s, i) && i.addr.word < |s.inFifo[0]| then s.inFifo[0][i.addr.word] else s.snoop
  }

  function NextMem(g: Config, s: State, i: Input): map<Loc, Word> {
    var c := Decide(g, s, i);
    if c.memV && c.memW && s.inFifo != [] then
      WriteBeat(g, s.mem, i.addr.set_, i.way, s.counter, s.inFifo[0], Kept(g, s, i))
    else s.mem
  }

  function NextLatch(g: Config, s: State, i: Input): seq<Beat> {
    var c := Decide(g, s, i);
    if c.memV && !c.memW then ReadRow(g, s.mem, i.addr.set_, s.counter) else s.latch
  }

  function Next(g: Config, s: State, i: Input): State {
    var c := Decide(g, s, i);
    State(
      c.next, NextCounter(c, s.counter), NextSnoop(s, i),
      if i.trackMem.Some? then i.trackMem.value else s.track,
      NextMem(g, s, i), NextLatch(g, s, i),
      Shift(s.inFifo, c.inYumi, Arriving(g, s, i)), Shift(s.outFifo, i.outYumi, Emitting(g, s, i)),
      s.received + Arriving(g, s, i), s.consumed + Popped(s.inFifo, c.inYumi),
      s.emitted + Emitting(g, s, i), s.sent + Popped(s.outFifo, i.outYumi))
  }

  /** The in FIFO takes a beat whenever it holds less than a block, and at least two. */
  lemma BlockFits(g: Config, s: State, i: Input)
    requires i.dataIn.Some?
    ensures Next(g, s, i).received == s.received + (if |s.inFifo| < g.beats || |s.inFifo| < 2 then [i.dataIn.value] else [])
  {
    hide Decide, NextSnoop, NextMem, NextLatch, Emitting, Shift;
  }

  // ----- what every cycle keeps --------------------------------------------------

  /** Each state's range of the counter: zero when idle, so that an eviction reads beat 0 first. */
  predicate CounterInv(g: Config, s: State) {
    match s.fsm
    case IDLE => s.counter == 0
    case GET_FILL_DATA => s.counter < g.beats
    case SEND_EVICT_DATA => 1 <= s.counter <= g.beats
  }

  /** The FIFOs hold what went in and has not come out. */
  predicate FifoInv(g: Config, s: State) {
    && |s.outFifo| <= 2 && s.emitted == s.sent + s.outFifo
    && |s.inFifo| <= InDepth(g) && s.received == s.consumed + s.inFifo
    && forall k :: 0 <= k < |s.received| ==> |s.received[k]| == g.words
  }

  lemma StepCounter(g: Config, s: State, i: Input)
    requires ValidConfig(g) && CounterInv(g, s)
    ensures CounterInv(g, Next(g, s, i))
  {
    hide WriteBeat, ReadRow, Pick, WorthReading, Kept;
  }

  lemma StepFifos(g: Config, s: State, i: Input)
    requires FifoInv(g, s) && Legal(g, s, i)
    ensures FifoInv(g, Next(g, s, i))
  {
    hide Decide, NextCounter, NextSnoop, NextMem, NextLatch, Shift, Popped, Pick, InDepth;
    var c := Decide(g, s, i);
    ShiftConserves(s.received, s.consumed, s.inFifo, c.inYumi, Arriving(g, s, i));
    ShiftConserves(s.emitted, s.sent, s.outFifo, i.outYumi, Emitting(g, s, i));
  }

  /** An address command offers one packet, a write for an eviction, until it is taken, and moves no
      data; a packet is offered at no other time. */
  lemma AddressCommands(g: Config, s: State, i: Input)
    ensures Decide(g, s, i).pktV <==> s.fsm.IDLE? && (i.cmd.SendFillAddr? || i.cmd.SendEvictAddr?)
    ensures Decide(g, s, i).pktV ==>
              && (Decide(g, s, i).pktWrite <==> i.cmd.SendEvictAddr?) && (Decide(g, s, i).done <==> i.pktYumi)
              && Next(g, s, i).fsm.IDLE? && Next(g, s, i).counter == s.counter
              && Next(g, s, i).mem == s.mem && Next(g, s, i).latch == s.latch
              && Next(g, s, i).emitted == s.emitted && Next(g, s, i).consumed == s.consumed
  {
  }

  // ----- eviction -------------------------------------------------------------------

  /** What the miss unit holds still while one command is carried out; nor are the tracking bits
      reloaded, or the data memory used by anybody else. */
  datatype Op = Op(way: nat, addr: Addr, trackMiss: bool)

  predicate Steady(i: Input, op: Op) {
    i.way == op.way && i.addr == op.addr && i.trackMiss == op.trackMiss && i.trackMem.None?
  }

  /** Beat j as evicted: the block's own beat wherever any of its words is tracked. */
  predicate BeatRight(g: Config, s: State, op: Op, j: nat, b: Beat) {
    (g.tracking ==> AnyTracked(g, s.track, op.way, j)) ==> b == ReadBeat(g, s.mem, op.addr.set_, op.way, j)
  }

  /** bs are the first beats of the block, in order. */
  predicate BlockRight(g: Config, s: State, op: Op, bs: seq<Beat>) {
    forall j :: 0 <= j < |bs| ==> BeatRight(g, s, op, j, bs[j])
  }

  /** start is how many beats had been emitted before this eviction. counter - 1 beats of the block
      have been emitted since, in order, and the next one is at the memory's output. */
  predicate Evicting(g: Config, s: State, op: Op, start: nat) {
    && s.fsm.SEND_EVICT_DATA? && 1 <= s.counter <= g.beats
    && |s.emitted| == start + (s.counter - 1)
    && BlockRight(g, s, op, s.emitted[start..])
    && BeatRight(g, s, op, s.counter - 1, Pick(s.latch, op.way))
  }

  predicate Evicted(g: Config, s: State, op: Op, start: nat) {
    && s.fsm.IDLE? && s.counter == 0 && |s.emitted| == start + g.beats
    && BlockRight(g, s, op, s.emitted[start..])
  }

  lemma RowPicks(g: Config, mem: map<Loc, Word>, set_: nat, way: nat, beat: nat)
    requires way < g.ways
    ensures Pick(ReadRow(g, mem, set_, beat), way) == ReadBeat(g, mem, set_, way, beat)
  {
  }

  lemma EvictStarts(g: Config, s: State, i: Input, op: Op)
    requires ValidConfig(g) && Legal(g, s, i) && Steady(i, op)
    requires s.fsm.IDLE? && s.counter == 0 && i.cmd.SendEvictData?
    ensures Evicting(g, Next(g, s, i), op, |s.emitted|)
    ensures Next(g, s, i).mem == s.mem && Next(g, s, i).track == s.track && !Decide(g, s, i).done
  {
    hide WriteBeat, ReadRow, ReadBeat, AnyTracked, Pick, Kept;
    RowPicks(g, s.mem, op.addr.set_, op.way, 0);
  }

  /** One cycle of an eviction: it emits a beat exactly when the out FIFO has room, is done exactly
      with the last one, and changes neither memory nor tracking. */
  lemma EvictStep(g: Config, s: State, i: Input, op: Op, start: nat)
    requires Legal(g, s, i) && Steady(i, op) && Evicting(g, s, op, start)
    ensures Decide(g, s, i).done <==> OutReady(s.outFifo) && s.counter == g.beats
    ensures if Decide(g, s, i).done then Evicted(g, Next(g, s, i), op, start)
            else Evicting(g, Next(g, s, i), op, start)
    ensures |Next(g, s, i).emitted| == |s.emitted| + (if OutReady(s.outFifo) then 1 else 0)
    ensures s.emitted <= Next(g, s, i).emitted
    ensures Next(g, s, i).mem == s.mem && Next(g, s, i).track == s.track
  {
    hide WriteBeat, ReadRow, ReadBeat, AnyTracked, Pick, Kept, BeatRight;
    var s' := Next(g, s, i);
    if OutReady(s.outFifo) && s.counter < g.beats {
      NextBeatRight(g, s, i, op);
    }
    SameBlock(g, s, s', op, s.counter - 1, Pick(s.latch, op.way));
    forall j | 0 <= j < |s.emitted| - start ensures BeatRight(g, s', op, j, s.emitted[start..][j]) {
      SameBlock(g, s, s', op, j, s.emitted[start..][j]);
    }
    assert s'.emitted[start..] == s.emitted[start..] + if OutReady(s.outFifo) then [Pick(s.latch, op.way)] else [];
  }

  lemma SameBlock(g: Config, s: State, s': State, op: Op, j: nat, b: Beat)
    requires s'.mem == s.mem && s'.track == s.track
    ensures BeatRight(g, s', op, j, b) <==> BeatRight(g, s, op, j, b)
  {
  }

  lemma NextBeatRight(g: Config, s: State, i: Input, op: Op)
    requires Legal(g, s, i) && Steady(i, op)
    requires s.fsm.SEND_EVICT_DATA? && OutReady(s.outFifo) && s.counter < g.beats
    ensures BeatRight(g, Next(g, s, i), op, s.counter, Pick(Next(g, s, i).latch, op.way))
  {
    hide WriteBeat, ReadRow, ReadBeat, AnyTracked, Pick, Kept;
    RowPicks(g, s.mem, op.addr.set_, op.way, s.counter);
  }

  /** The cycles that follow a command, up to its done: whether it came, and the state then. */
  function Serve(g: Config, s: State, ins: seq<Input>): (State, bool)
    decreases ins
  {
    if ins == [] then (s, false)
    else if Decide(g, s, ins[0]).done then (Next(g, s, ins[0]), true)
    else Serve(g, Next(g, s, ins[0]), ins[1..])
  }

  predicate SteadyRun(g: Config, s: State, ins: seq<Input>, op: Op)
    decreases ins
  {
    ins == [] || (Legal(g, s, ins[0]) && Steady(ins[0], op)
                 && (Decide(g, s, ins[0]).done || SteadyRun(g, Next(g, s, ins[0]), ins[1..], op)))
  }

  /** Cycles of the run in which the out FIFO had room. */
  function Room(g: Config, s: State, ins: seq<Input>): nat
    decreases ins
  {
    if ins == [] then 0
    else (if OutReady(s.outFifo) then 1 else 0)
         + if Decide(g, s, ins[0]).done then 0 else Room(g, Next(g, s, ins[0]), ins[1..])
  }

  lemma {:induction false} EvictRun(g: Config, s: State, ins: seq<Input>, op: Op, start: nat)
    requires SteadyRun(g, s, ins, op) && Evicting(g, s, op, start)
    ensures var (e, done) := Serve(g, s, ins);
            && (if done then Evicted(g, e, op, start) else Evicting(g, e, op, start))
            && e.mem == s.mem && e.track == s.track && s.emitted <= e.emitted
            && |e.emitted| == |s.emitted| + Room(g, s, ins)
    decreases ins
  {
    hide Next, Decide, Legal, Steady, Evicting, Evicted, OutReady;
    if ins != [] {
      EvictStep(g, s, ins[0], op, start);
      if !Decide(g, s, ins[0]).done {
        EvictRun(g, Next(g, s, ins[0]), ins[1..], op, start);
      }
    }
  }

  /** However the out FIFO stalls, an eviction is done in exactly the burst_len-th cycle in which
      there is room, and by then has emitted exactly burst_len beats, the block's in order, each
      right wherever one of its words is tracked. */
  lemma EvictionExact(g: Config, s: State, i: Input, ins: seq<Input>, op: Op)
    requires ValidConfig(g) && s.fsm.IDLE? && CounterInv(g, s) && i.cmd.SendEvictData?
    requires Legal(g, s, i) && Steady(i, op) && SteadyRun(g, Next(g, s, i), ins, op)
    ensures var (e, done) := Serve(g, Next(g, s, i), ins);
            && (done <==> Room(g, Next(g, s, i), ins) == g.beats)
            && (done ==> Evicted(g, e, op, |s.emitted|))
            && e.mem == s.mem && e.track == s.track && s.emitted <= e.emitted
  {
    hide Serve, SteadyRun, Room, BlockRight, BeatRight, Pick, Legal, Steady;
    EvictStarts(g, s, i, op);
    EvictRun(g, Next(g, s, i), ins, op, |s.emitted|);
    assert Next(g, s, i).emitted == s.emitted;
  }

  // ----- fill -------------------------------------------------------------------------

  function KeptBy(g: Config, s: State, op: Op): set<Bit> {
    if g.tracking && op.trackMiss then s.track else {}
  }

  /** mem is mem0 with the beats bs written over the chosen way's block, but for the kept words. */
  ghost predicate Wrote(g: Config, mem: map<Loc, Word>, mem0: map<Loc, Word>, op: Op, keep: set<Bit>, bs: seq<Beat>)
    requires forall k :: 0 <= k < |bs| ==> |bs[k]| == g.words
  {
    forall l ::
      Read(mem, l) ==
      if l.set_ == op.addr.set_ && l.way == op.way && l.beat < |bs| && l.word < g.words
         && Bit(l.way, l.beat, l.word) !in keep
      then bs[l.beat][l.word] else Read(mem0, l)
  }

  lemma WroteOneMore(g: Config, mem: map<Loc, Word>, mem0: map<Loc, Word>, op: Op, keep: set<Bit>, bs: seq<Beat>, b: Beat)
    requires (forall k :: 0 <= k < |bs| ==> |bs[k]| == g.words) && |b| == g.words
    requires Wrote(g, mem, mem0, op, keep, bs)
    ensures Wrote(g, WriteBeat(g, mem, op.addr.set_, op.way, |bs|, b, keep), mem0, op, keep, bs + [b])
  {
    var mem' := WriteBeat(g, mem, op.addr.set_, op.way, |bs|, b, keep);
    var all := bs + [b];
    forall l: Loc
      ensures Read(mem', l) ==
              if l.set_ == op.addr.set_ && l.way == op.way && l.beat < |all| && l.word < g.words
                 && Bit(l.way, l.beat, l.word) !in keep
              then all[l.beat][l.word] else Read(mem0, l)
    {
      assert Read(mem, l) == if l.set_ == op.addr.set_ && l.way == op.way && l.beat < |bs| && l.word < g.words
                                && Bit(l.way, l.beat, l.word) !in keep
                             then bs[l.beat][l.word] else Read(mem0, l);
    }
  }

  /** start is how many beats had been consumed before this fill. counter beats have been written
      since, and the requested word is snooped once its beat has passed. */
  ghost predicate Filling(g: Config, s: State, op: Op, start: nat, mem0: map<Loc, Word>) {
    && s.fsm.GET_FILL_DATA? && s.counter < g.beats && |s.consumed| == start + s.counter
    && FilledSoFar(g, s, op, start, mem0)
  }

  ghost predicate Filled(g: Config, s: State, op: Op, start: nat, mem0: map<Loc, Word>) {
    && s.fsm.IDLE? && s.counter == 0 && |s.consumed| == start + g.beats
    && FilledSoFar(g, s, op, start, mem0)
  }

  ghost predicate FilledSoFar(g: Config, s: State, op: Op, start: nat, mem0: map<Loc, Word>)
    requires start <= |s.consumed|
  {
    var bs := s.consumed[start..];
    && (forall k :: 0 <= k < |bs| ==> |bs[k]| == g.words)
    && Wrote(g, s.mem, mem0, op, KeptBy(g, s, op), bs)
    && (op.addr.beat < |bs| && op.addr.word < g.words ==> s.snoop == bs[op.addr.beat][op.addr.word])
  }

  lemma FillStarts(g: Config, s: State, i: Input, op: Op)
    requires ValidConfig(g) && Legal(g, s, i) && Steady(i, op)
    requires s.fsm.IDLE? && i.cmd.GetFillData?
    ensures Filling(g, Next(g, s, i), op, |s.consumed|, s.mem)
    ensures Next(g, s, i).track == s.track && !Decide(g, s, i).done
  {
    hide WriteBeat, ReadRow, Pick;
  }

  /** One cycle of a fill: a beat is written exactly when one has arrived, and it is done exactly
      with the last. */
  lemma FillStep(g: Config, s: State, i: Input, op: Op, start: nat, mem0: map<Loc, Word>)
    requires Legal(g, s, i) && Steady(i, op) && Filling(g, s, op, start, mem0) && FifoInv(g, s)
    ensures Decide(g, s, i).done <==> s.inFifo != [] && s.counter == g.beats - 1
    ensures if Decide(g, s, i).done then Filled(g, Next(g, s, i), op, start, mem0)
            else Filling(g, Next(g, s, i), op, start, mem0)
    ensures Next(g, s, i).track == s.track
  {
    hide WriteBeat, ReadRow, Pick, Wrote, InReady, OutReady, WorthReading, Shift, Emitting, Arriving, NextLatch;
    var s' := Next(g, s, i);
    var bs := s.consumed[start..];
    if s.inFifo != [] {
      var b := s.inFifo[0];
      assert s.received[|s.consumed|] == b;
      WroteOneMore(g, s.mem, mem0, op, KeptBy(g, s, op), bs, b);
      assert s'.consumed[start..] == bs + [b];
      assert s'.mem == WriteBeat(g, s.mem, op.addr.set_, op.way, |bs|, b, KeptBy(g, s, op));
      assert s'.snoop == if s.counter == op.addr.beat && op.addr.word < |b| then b[op.addr.word] else s.snoop;
    } else {
      assert s'.consumed == s.consumed && s'.mem == s.mem && s'.snoop == s.snoop;
    }
  }

  lemma {:induction false} FillRun(g: Config, s: State, ins: seq<Input>, op: Op, start: nat, mem0: map<Loc, Word>)
    requires SteadyRun(g, s, ins, op) && Filling(g, s, op, start, mem0) && FifoInv(g, s)
    ensures var (e, done) := Serve(g, s, ins);
            && (if done then Filled(g, e, op, start, mem0) else Filling(g, e, op, start, mem0))
            && e.track == s.track && FifoInv(g, e)
    decreases ins
  {
    hide Next, Decide, Legal, Steady, Filling, Filled, FifoInv;
    if ins != [] {
      FillStep(g, s, ins[0], op, start, mem0);
      StepFifos(g, s, ins[0]);
      if !Decide(g, s, ins[0]).done {
        FillRun(g, Next(g, s, ins[0]), ins[1..], op, start, mem0);
      }
    }
  }

  /** However beats arrive, a fill that is done has consumed exactly burst_len beats, the oldest
      received and not yet consumed; it wrote them over the chosen way's block and nothing else, on
      a track miss no tracked word; and the snoop word is the word requested. */
  lemma FillExact(g: Config, s: State, i: Input, ins: seq<Input>, op: Op)
    requires ValidConfig(g) && s.fsm.IDLE? && FifoInv(g, s) && i.cmd.GetFillData?
    requires Legal(g, s, i) && Steady(i, op) && SteadyRun(g, Next(g, s, i), ins, op)
    ensures var (e, done) := Serve(g, Next(g, s, i), ins);
            && (done ==> Filled(g, e, op, |s.consumed|, s.mem))
            && e.track == s.track && e.received == e.consumed + e.inFifo
  {
    hide Serve, SteadyRun, Next, Filled, Filling, Legal, Steady;
    FillStarts(g, s, i, op);
    StepFifos(g, s, i);
    FillRun(g, Next(g, s, i), ins, op, |s.consumed|, s.mem);
  }

  // ----- the block and its copy in memory --------------------------------------------------

  /** A bit of the packet's mask: the track bits, or all ones without tracking. */
  predicate MaskBit(g: Config, track: set<Bit>, way: nat, beat: nat, word: nat) {
    g.tracking ==> Bit(way, beat, word) in track
  }

  /** The block as a program sees it: tracked words in the cache, the others in memory. */
  function View(g: Config, s: State, op: Op, dram: seq<Beat>, beat: nat, word: nat): Word
    requires beat < |dram| && word < |dram[beat]|
  {
    if MaskBit(g, s.track, op.way, beat, word) then Read(s.mem, Loc(op.addr.set_, op.way, beat, word))
    else dram[beat][word]
  }

  predicate IsBlock(g: Config, dram: seq<Beat>) {
    |dram| == g.beats && forall k :: 0 <= k < |dram| ==> |dram[k]| == g.words
  }

  /** Memory after the evicted beats are written under the packet's mask. */
  function Merged(g: Config, s: State, op: Op, dram: seq<Beat>, bs: seq<Beat>, beat: nat, word: nat): Word
    requires beat < |dram| && word < |dram[beat]| && beat < |bs|
    requires MaskBit(g, s.track, op.way, beat, word) ==> word < |bs[beat]|
  {
    if MaskBit(g, s.track, op.way, beat, word) then bs[beat][word] else dram[beat][word]
  }

  /** Writing an eviction back leaves in memory what the program saw, stale words and all. */
  lemma EvictionMerges(g: Config, s: State, op: Op, start: nat, dram: seq<Beat>, beat: nat, word: nat)
    requires Evicted(g, s, op, start) && IsBlock(g, dram) && beat < g.beats && word < g.words
    ensures MaskBit(g, s.track, op.way, beat, word) ==> word < |s.emitted[start..][beat]|
    ensures Merged(g, s, op, dram, s.emitted[start..], beat, word) == View(g, s, op, dram, beat, word)
  {
    var b := s.emitted[start..][beat];
    assert BeatRight(g, s, op, beat, b);
  }

  /** A fill with the block from memory leaves in the cache what the program saw on a track miss,
      and memory's block otherwise; the snoop word is that view's word if it was not tracked. */
  lemma FillMerges(g: Config, s: State, e: State, op: Op, start: nat, dram: seq<Beat>, beat: nat, word: nat)
    requires Filled(g, e, op, start, s.mem) && e.track == s.track
    requires IsBlock(g, dram) && e.consumed[start..] == dram && beat < g.beats && word < g.words
    ensures Read(e.mem, Loc(op.addr.set_, op.way, beat, word)) ==
            if g.tracking && op.trackMiss then View(g, s, op, dram, beat, word) else dram[beat][word]
    ensures op.addr.beat == beat && op.addr.word == word ==> e.snoop == dram[beat][word]
    ensures op.addr.beat == beat && op.addr.word == word && !MaskBit(g, s.track, op.way, beat, word) ==>
              e.snoop == View(g, s, op, dram, beat, word)
  {
    assert Wrote(g, e.mem, s.mem, op, KeptBy(g, e, op), e.consumed[start..]);
  }

  /** Other sets and other ways keep their contents. */
  lemma FillConfined(g: Config, e: State, op: Op, start: nat, mem0: map<Loc, Word>, l: Loc)
    requires Filled(g, e, op, start, mem0) && (l.set_ != op.addr.set_ || l.way != op.way)
    ensures Read(e.mem, l) == Read(mem0, l)
  {
    var bs := e.consumed[start..];
    assert Wrote(g, e.mem, mem0, op, KeptBy(g, e, op), bs);
  }

  /** A block filled on a tag miss and then evicted whole goes back as it came. */
  lemma FillEvictRoundTrip(
      g: Config, f: State, e: State, fillOp: Op, evictOp: Op, fillStart: nat, evictStart: nat, mem0: map<Loc, Word>)
    requires ValidConfig(g) && Filled(g, f, fillOp, fillStart, mem0) && !fillOp.trackMiss
    requires Evicted(g, e, evictOp, evictStart) && e.mem == f.mem
    requires evictOp.way == fillOp.way && evictOp.addr.set_ == fillOp.addr.set_
    requires forall b, w :: 0 <= b < g.beats && 0 <= w < g.words ==> Bit(evictOp.way, b, w) in e.track
    ensures e.emitted[evictStart..] == f.consumed[fillStart..]
  {
    var bs, out := f.consumed[fillStart..], e.emitted[evictStart..];
    forall j | 0 <= j < g.beats ensures out[j] == bs[j] {
      assert BeatRight(g, e, evictOp, j, out[j]);
      assert Bit(evictOp.way, j, 0) in e.track;
      var b := ReadBeat(g, e.mem, evictOp.addr.set_, evictOp.way, j);
      forall w | 0 <= w < g.words ensures b[w] == bs[j][w] {
        assert b[w] == Read(f.mem, Loc(fillOp.addr.set_, fillOp.way, j, w));
      }
      assert b == bs[j];
    }
  }

  // ----- the registers -------------------------------------------------------------------------

  class DmaEngine {
    const g: Config
    var fsm: Fsm
    var counter: nat
    var snoop: Word
    var track: set<Bit>
    var mem: map<Loc, Word>
    var latch: seq<Beat>
    var inFifo: seq<Beat>
    var outFifo: seq<Beat>
    ghost var received: seq<Beat>
    ghost var consumed: seq<Beat>
    ghost var emitted: seq<Beat>
    ghost var sent: seq<Beat>

    ghost function Snapshot(): State
      reads this
    {
      State(fsm, counter, snoop, track, mem, latch, inFifo, outFifo, received, consumed, emitted, sent)
    }

    ghost predicate Valid()
      reads this
    {
      ValidConfig(g) && CounterInv(g, Snapshot()) && FifoInv(g, Snapshot())
    }

    /** The state after reset; the registers that reset leaves alone have any value. */
    constructor (g: Config, mem: map<Loc, Word>, track: set<Bit>, latch: seq<Beat>, snoop: Word)
      requires ValidConfig(g)
      ensures Valid() && this.g == g && fsm == IDLE && emitted == consumed == []
    {
      this.g, this.mem, this.track, this.latch, this.snoop := g, mem, track, latch, snoop;
      fsm, counter, inFifo, outFifo := IDLE, 0, [], [];
      received, consumed, emitted, sent := [], [], [], [];
    }

    /** The combinational case statement. */
    method Control(i: Input) returns (c: Control)
      requires Valid()
      ensures c == Decide(g, Snapshot(), i)
    {
      hide FifoInv, CounterInv;
      c := QUIET;
      var picked := exists w :: 0 <= w < g.words && Bit(i.way, counter, w) in track;
      var worth := !g.tracking || picked;
      if fsm == IDLE {
        match i.cmd {
          case SendFillAddr =>
            c := c.(pktV := true, done := i.pktYumi);
          case SendEvictAddr =>
            c := c.(pktV := true, pktWrite := true, done := i.pktYumi);
          case GetFillData =>
            c := c.(clear := true, next := GET_FILL_DATA);
          case SendEvictData =>
            c := c.(clear := true, up := true, memV := worth, next := SEND_EVICT_DATA);
          case Nop =>
        }
      } else if fsm == GET_FILL_DATA {
        var v, last := inFifo != [], counter == g.beats - 1;
        c := c.(memV := v, memW := v, inYumi := v, up := v && !last, clear := v && last, done := v && last,
                next := if v && last then IDLE else GET_FILL_DATA);
      } else {
        var r, last := |outFifo| < 2, counter == g.beats;
        c := c.(outV := true, up := r && !last, clear := r && last, done := r && last, evict := true,
                memV := r && !last && worth, next := if r && last then IDLE else SEND_EVICT_DATA);
      }
    }

    method ClockSnoop(i: Input)
      modifies this`snoop
      ensures snoop == NextSnoop(old(Snapshot()), i)
    {
      if fsm == GET_FILL_DATA && inFifo != [] && counter == i.addr.beat && i.addr.word < |inFifo[0]| {
        snoop := inFifo[0][i.addr.word];
      }
    }

    /** The data memory: a masked write, or a read that stays at the output until the next. */
    method AccessMemory(c: Control, i: Input)
      modifies this`mem, this`latch
      ensures mem == if c.memV && c.memW && inFifo != [] then
                       WriteBeat(g, old(mem), i.addr.set_, i.way, counter, inFifo[0],
                                 if g.tracking && i.trackMiss then track else {})
                     else old(mem)
      ensures latch == if c.memV && !c.memW then ReadRow(g, old(mem), i.addr.set_, counter) else old(latch)
    {
      hide WriteBeat, ReadRow;
      if c.memV && c.memW && inFifo != [] {
        mem := WriteBeat(g, mem, i.addr.set_, i.way, counter, inFifo[0], if g.tracking && i.trackMiss then track else {});
      } else if c.memV && !c.memW {
        latch := ReadRow(g, mem, i.addr.set_, counter);
      }
    }

    method ClockInFifo(yumi: bool, dataIn: Option<Beat>)
      modifies this`inFifo, this`received, this`consumed
      ensures var push := if dataIn.Some? && InReady(g, old(inFifo)) then [dataIn.value] else [];
              && inFifo == Shift(old(inFifo), yumi, push)
              && received == old(received) + push
              && consumed == old(consumed) + Popped(old(inFifo), yumi)
    {
      var take := dataIn.Some? && |inFifo| < InDepth(g);
      if yumi && inFifo != [] {
        consumed := consumed + [inFifo[0]];
        inFifo := inFifo[1..];
      }
      if take {
        received := received + [dataIn.value];
        inFifo := inFifo + [dataIn.value];
      }
    }

    method ClockOutFifo(v: bool, out: Beat, yumi: bool)
      modifies this`outFifo, this`emitted, this`sent
      ensures var push := if v && OutReady(old(outFifo)) then [out] else [];
              && outFifo == Shift(old(outFifo), yumi, push)
              && emitted == old(emitted) + push
              && sent == old(sent) + Popped(old(outFifo), yumi)
    {
      var enq := v && |outFifo| < 2;
      if yumi && outFifo != [] {
        sent := sent + [outFifo[0]];
        outFifo := outFifo[1..];
      }
      if enq {
        emitted := emitted + [out];
        outFifo := outFifo + [out];
      }
    }

    method ClockFifos(c: Control, i: Input, out: Beat)
      modifies this`inFifo, this`outFifo, this`received, this`consumed, this`emitted, this`sent
      ensures var push := if i.dataIn.Some? && InReady(g, old(inFifo)) then [i.dataIn.value] else [];
              && inFifo == Shift(old(inFifo), c.inYumi, push)
              && received == old(received) + push
              && consumed == old(consumed) + Popped(old(inFifo), c.inYumi)
      ensures var push := if c.outV && OutReady(old(outFifo)) then [out] else [];
              && outFifo == Shift(old(outFifo), i.outYumi, push)
              && emitted == old(emitted) + push
              && sent == old(sent) + Popped(old(outFifo), i.outYumi)
    {
      hide InReady, OutReady, Shift, Popped;
      ClockInFifo(c.inYumi, i.dataIn);
      ClockOutFifo(c.outV, out, i.outYumi);
    }

    /** The registers around the memories: all of them take what the old state says. */
    method ClockMemories(c: Control, i: Input)
      modifies this`snoop, this`mem, this`latch, this`track
      ensures snoop == NextSnoop(old(Snapshot()), i)
      ensures mem == if c.memV && c.memW && inFifo != [] then
                       WriteBeat(g, old(mem), i.addr.set_, i.way, counter, inFifo[0],
                                 if g.tracking && i.trackMiss then old(track) else {})
                     else old(mem)
      ensures latch == if c.memV && !c.memW then ReadRow(g, old(mem), i.addr.set_, counter) else old(latch)
      ensures track == if i.trackMem.Some? then i.trackMem.value else old(track)
    {
      hide WriteBeat, ReadRow, NextSnoop;
      ClockSnoop(i);
      AccessMemory(c, i);
      if i.trackMem.Some? {
        track := i.trackMem.value;
      }
    }

    /** One clock edge, with the control outputs of the cycle before it. */
    method Clock(i: Input) returns (c: Control)
      requires Valid() && Legal(g, Snapshot(), i)
      modifies this
      ensures Valid() && c == Decide(g, old(Snapshot()), i)
      ensures Snapshot() == Next(g, old(Snapshot()), i)
    {
      hide FifoInv, CounterInv, Legal, Decide, Pick, WriteBeat, ReadRow, Next, OutReady, InReady, NextCounter,
        NextSnoop, NextMem, NextLatch, Shift, Popped, Arriving, Emitting;
      ghost var s := Snapshot();
      StepCounter(g, s, i);
      StepFifos(g, s, i);
      c := Control(i);
      var out := Pick(latch, i.way);
      ClockMemories(c, i);
      ClockFifos(c, i, out);
      counter := NextCounter(c, counter);
      fsm := c.next;
      NextIs(g, s, i, Snapshot());
    }
  }

  lemma NextIs(g: Config, s: State, i: Input, s': State)
    requires var c := Decide(g, s, i);
             && s'.fsm == c.next && s'.counter == NextCounter(c, s.counter) && s'.snoop == NextSnoop(s, i)
             && s'.mem == (if c.memV && c.memW && s.inFifo != [] then
                             WriteBeat(g, s.mem, i.addr.set_, i.way, s.counter, s.inFifo[0],
                                       if g.tracking && i.trackMiss then s.track else {})
                           else s.mem)
             && s'.latch == (if c.memV && !c.memW then ReadRow(g, s.mem, i.addr.set_, s.counter) else s.latch)
    requires s'.track == if i.trackMem.Some? then i.trackMem.value else s.track
    requires var push := if i.dataIn.Some? && InReady(g, s.inFifo) then [i.dataIn.value] else [];
             && s'.inFifo == Shift(s.inFifo, Decide(g, s, i).inYumi, push)
             && s'.received == s.received + push
             && s'.consumed == s.consumed + Popped(s.inFifo, Decide(g, s, i).inYumi)
    requires var push := if Decide(g, s, i).outV && OutReady(s.outFifo) then [Pick(s.latch, i.way)] else [];
             && s'.outFifo == Shift(s.outFifo, i.outYumi, push)
             && s'.emitted == s.emitted + push
             && s'.sent == s.sent + Popped(s.outFifo, i.outYumi)
    ensures s' == Next(g, s, i)
  {
    hide Decide, WriteBeat, ReadRow, Pick, OutReady, InReady, NextCounter, NextSnoop, Shift, Popped;
  }
}
