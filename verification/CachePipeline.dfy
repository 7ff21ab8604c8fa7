/** bsg_cache's control: a packet waits in the tag-lookup stage (TL), then in the tag-verify stage
    (TV), and retires when its result is taken; stores leave TV through a store buffer and, when
    they write a whole word, a track buffer. The miss unit and the DMA engine are inputs. */
module CachePipeline {
  import opened Wrappers
  import opened CacheBufferQueue

  /** What the control logic needs to know of an opcode and its mask. */
  datatype Kind = Load | FullStore | PartialStore | Atomic | TagStore | Other

  /** body stands for address, data and mask. */
  datatype Packet = Packet(kind: Kind, body: int)

  predicate ReadsData(k: Kind) { k.Load? || k.Atomic? }

  predicate ReadsTrack(k: Kind) { k.Load? || k.Atomic? || k.PartialStore? }

  /** Goes to the store buffer when it retires. */
  predicate Stores(k: Kind) { k.FullStore? || k.PartialStore? || k.Atomic? }

  /** Goes to the track buffer when it retires. */
  predicate Tracks(k: Kind) { k.FullStore? }

  /** accepted and retired are the history of both ends; stored and tracked of what the two
      buffers have written to memory. */
  datatype State = State(
    tl: Option<Packet>, tv: Option<Packet>,
    sbuf: Queue<Packet>, tbuf: Queue<Packet>,
    accepted: seq<Packet>, retired: seq<Packet>, stored: seq<Packet>, tracked: seq<Packet>)

  predicate IsReset(s: State) {
    && s.tl.None? && s.tv.None? && s.sbuf.num == 0 && s.tbuf.num == 0
    && s.accepted == s.retired == s.stored == s.tracked == []
  }

  /** One clock cycle's inputs: the waiting packet, the taker, and the outputs of the miss unit
      (miss_v, miss_done, its tag and track memory requests, recover) and of the DMA engine. */
  datatype Cycle = Cycle(
    packet: Option<Packet>, yumi: bool,
    miss: bool, done: bool, missTag: bool, missTrack: bool, recover: bool,
    dmaData: bool, dmaEvict: bool)

  predicate Busy(c: Cycle) {
    c.missTag || c.missTrack || c.recover || c.dmaData || c.dmaEvict
  }

  /** A miss belongs to a packet in TV that is not a tag store; once the miss unit is done, and
      while nothing misses, it and the DMA engine leave the memories alone. */
  predicate Env(s: State, c: Cycle) {
    && (c.miss ==> s.tv.Some? && !s.tv.value.kind.TagStore?)
    && (!c.miss || c.done ==> !Busy(c))
  }

  // ----- control signals -----------------------------------------------------

  /** v_o */
  predicate VOut(s: State, c: Cycle) {
    s.tv.Some? && (c.miss ==> c.done)
  }

  /** v_o & yumi_i */
  predicate Retires(s: State, c: Cycle) {
    VOut(s, c) && c.yumi
  }

  predicate VWe(s: State, c: Cycle) {
    s.tv.Some? ==> Retires(s, c)
  }

  /** sbuf_v_li */
  predicate SbufIn(s: State, c: Cycle) {
    Retires(s, c) && Stores(s.tv.value.kind)
  }

  /** tbuf_v_li */
  predicate TbufIn(s: State, c: Cycle) {
    Retires(s, c) && Tracks(s.tv.value.kind)
  }

  predicate SbufHazard(s: State, c: Cycle) {
    Full(s.sbuf) && SbufIn(s, c) && c.packet.Some? && ReadsData(c.packet.value.kind)
  }

  predicate TagStoreWaits(c: Cycle) {
    c.packet.Some? && c.packet.value.kind.TagStore?
  }

  predicate TlReady(s: State, c: Cycle) {
    (c.miss ==> !TagStoreWaits(c) && !Busy(c)) && !SbufHazard(s, c)
  }

  predicate TlWe(s: State, c: Cycle) {
    TlReady(s, c) && (s.tl.Some? ==> VWe(s, c))
  }

  /** yumi_o */
  predicate Accepts(s: State, c: Cycle) {
    c.packet.Some? && TlWe(s, c)
  }

  /** What TV inserts into either buffer: the packet in TV (any value when there is none). */
  function Entry(s: State): Packet {
    if s.tv.Some? then s.tv.value else Packet(Other, 0)
  }

  predicate SbufYumi(s: State, c: Cycle) {
    && OutValid(s.sbuf, SbufIn(s, c))
    && !(Accepts(s, c) && ReadsData(c.packet.value.kind))
    && !c.dmaData
    && !(s.tl.Some? && ReadsData(s.tl.value.kind) && !VWe(s, c) && !c.miss)
  }

  predicate TbufYumi(s: State, c: Cycle) {
    && OutValid(s.tbuf, TbufIn(s, c))
    && !(Accepts(s, c) && ReadsTrack(c.packet.value.kind))
    && !c.missTrack
    && !(s.tl.Some? && ReadsTrack(s.tl.value.kind) && !VWe(s, c) && !c.miss)
  }

  function NextTl(s: State, c: Cycle): Option<Packet> {
    if TlWe(s, c) then c.packet else if SbufHazard(s, c) then None else s.tl
  }

  function NextTv(s: State, c: Cycle): Option<Packet> {
    if VWe(s, c) then s.tl else s.tv
  }

  function NextState(s: State, c: Cycle): State {
    State(
      NextTl(s, c), NextTv(s, c),
      Next(s.sbuf, SbufIn(s, c), Entry(s), SbufYumi(s, c)),
      Next(s.tbuf, TbufIn(s, c), Entry(s), TbufYumi(s, c)),
      if Accepts(s, c) then s.accepted + [c.packet.value] else s.accepted,
      if Retires(s, c) then s.retired + [s.tv.value] else s.retired,
      if SbufYumi(s, c) then s.stored + [DataOut(s.sbuf, Entry(s))] else s.stored,
      if TbufYumi(s, c) then s.tracked + [DataOut(s.tbuf, Entry(s))] else s.tracked)
  }

  // ----- every packet once, in order ------------------------------------------

  function Held(p: Option<Packet>): seq<Packet> {
    if p.Some? then [p.value] else []
  }

  /** Everything that has retired or is on its way, oldest first. */
  function Pipe(s: State): seq<Packet> {
    s.retired + Held(s.tv) + Held(s.tl)
  }

  /** A tag store waits in the cycle in which a miss completes and TL is occupied. */
  predicate Duplicates(s: State, c: Cycle) {
    c.miss && Retires(s, c) && s.tl.Some? && TagStoreWaits(c)
  }

  /** tl_we withheld without clearing v_tl_r: the packet in TL moves to TV and also stays. In no
      other cycle is a packet lost, repeated or reordered. */
  lemma StepPipe(s: State, c: Cycle)
    requires Env(s, c)
    ensures Pipe(NextState(s, c)) ==
            Pipe(s) + (if Duplicates(s, c) then [s.tl.value] else [])
            + (if Accepts(s, c) then [c.packet.value] else [])
    ensures Duplicates(s, c) ==> !Accepts(s, c)
  {
    hide Next, DataOut;
  }

  function After(s: State, cs: seq<Cycle>): State
    decreases cs
  {
    if cs == [] then s else After(NextState(s, cs[0]), cs[1..])
  }

  predicate EnvRun(s: State, cs: seq<Cycle>)
    decreases cs
  {
    cs == [] || (Env(s, cs[0]) && EnvRun(NextState(s, cs[0]), cs[1..]))
  }

  function DuplicateCount(s: State, cs: seq<Cycle>): nat
    decreases cs
  {
    if cs == [] then 0
    else (if Duplicates(s, cs[0]) then 1 else 0) + DuplicateCount(NextState(s, cs[0]), cs[1..])
  }

  /** As far as the pipeline is concerned, every accepted packet retires once and in order. */
  predicate InOrder(s: State) {
    Pipe(s) == s.accepted
  }

  /** Each duplicating cycle makes one packet too many; without one, order is exact. */
  lemma {:induction false} RunPipe(s: State, cs: seq<Cycle>, extra: nat)
    requires EnvRun(s, cs) && |Pipe(s)| == |s.accepted| + extra
    ensures |Pipe(After(s, cs))| == |After(s, cs).accepted| + extra + DuplicateCount(s, cs)
    ensures InOrder(s) && DuplicateCount(s, cs) == 0 ==> InOrder(After(s, cs))
    decreases cs
  {
    hide Pipe, Env, Accepts, Duplicates;
    if cs != [] {
      StepPipe(s, cs[0]);
      RunPipe(NextState(s, cs[0]), cs[1..], extra + if Duplicates(s, cs[0]) then 1 else 0);
    }
  }

  /** Over any run from reset, every accepted packet passes TL, then TV, then retires exactly once
      and in order, if and only if no tag store ever waits in a miss-completing cycle while TL is
      occupied. */
  lemma ExactlyOnceIff(s: State, cs: seq<Cycle>)
    requires IsReset(s) && EnvRun(s, cs)
    ensures InOrder(After(s, cs)) <==> DuplicateCount(s, cs) == 0
  {
    hide After, EnvRun, DuplicateCount;
    RunPipe(s, cs, 0);
  }

  function Idle(packet: Option<Packet>): Cycle {
    Cycle(packet, true, false, false, false, false, false, false, false)
  }

  function Missing(packet: Option<Packet>, done: bool): Cycle {
    Cycle(packet, true, true, done, false, false, !done, false, false)
  }

  lemma RunCons(s: State, c: Cycle, cs: seq<Cycle>)
    ensures EnvRun(s, [c] + cs) <==> Env(s, c) && EnvRun(NextState(s, c), cs)
    ensures After(s, [c] + cs) == After(NextState(s, c), cs)
  {
    hide Env, NextState;
    assert ([c] + cs)[1..] == cs;
  }

  /** What a step does to the stages, in one line each. */
  predicate Stages(s: State, tl: Option<Packet>, tv: Option<Packet>, accepted: seq<Packet>, retired: seq<Packet>) {
    s.tl == tl && s.tv == tv && s.accepted == accepted && s.retired == retired
  }

  const LOAD := Packet(Load, 1)
  const STORE := Packet(FullStore, 2)
  const TAG := Packet(TagStore, 3)

  lemma FillStages(s: State)
    requires IsReset(s)
    ensures Env(s, Idle(Some(LOAD)))
    ensures var s1 := NextState(s, Idle(Some(LOAD)));
            && Env(s1, Idle(Some(STORE)))
            && Stages(NextState(s1, Idle(Some(STORE))), Some(STORE), Some(LOAD), [LOAD, STORE], [])
  {
    hide Next, DataOut;
  }

  lemma MissStages(s: State)
    requires Stages(s, Some(STORE), Some(LOAD), [LOAD, STORE], [])
    ensures Env(s, Missing(Some(TAG), false))
    ensures var s1 := NextState(s, Missing(Some(TAG), false));
            && Env(s1, Missing(Some(TAG), true))
            && Stages(NextState(s1, Missing(Some(TAG), true)), Some(STORE), Some(STORE), [LOAD, STORE], [LOAD])
  {
    hide Next, DataOut;
  }

  lemma DrainStages(s: State)
    requires Stages(s, Some(STORE), Some(STORE), [LOAD, STORE], [LOAD])
    ensures Env(s, Idle(Some(TAG)))
    ensures var s1 := NextState(s, Idle(Some(TAG)));
            var s2 := NextState(s1, Idle(None));
            && Env(s1, Idle(None)) && Env(s2, Idle(None))
            && Stages(NextState(s2, Idle(None)), None, None, [LOAD, STORE, TAG], [LOAD, STORE, STORE, TAG])
  {
    hide Next, DataOut;
    var s1 := NextState(s, Idle(Some(TAG)));
    assert Stages(s1, Some(TAG), Some(STORE), [LOAD, STORE, TAG], [LOAD, STORE]);
    var s2 := NextState(s1, Idle(None));
    assert Stages(s2, None, Some(TAG), [LOAD, STORE, TAG], [LOAD, STORE, STORE]);
  }

  /** The input that shows it: a load misses with a store behind it in TL, and a tag store arrives
      before the miss is done. The store then retires twice. */
  lemma StoreRetiresTwice(s: State) returns (cs: seq<Cycle>)
    requires IsReset(s)
    ensures EnvRun(s, cs)
    ensures After(s, cs).accepted == [LOAD, STORE, TAG]
    ensures After(s, cs).retired == [LOAD, STORE, STORE, TAG]
  {
    hide Env, NextState, After, EnvRun, Idle, Missing, LOAD, STORE, TAG;
    FillStages(s);
    var s1 := NextState(s, Idle(Some(LOAD)));
    var s2 := NextState(s1, Idle(Some(STORE)));
    MissStages(s2);
    var s3 := NextState(s2, Missing(Some(TAG), false));
    var s4 := NextState(s3, Missing(Some(TAG), true));
    DrainStages(s4);
    var s5 := NextState(s4, Idle(Some(TAG)));
    var s6 := NextState(s5, Idle(None));
    var s7 := NextState(s6, Idle(None));
    RunNil(s7);
    cs := [];
    RunCons(s6, Idle(None), cs);
    cs := [Idle(None)] + cs;
    RunCons(s5, Idle(None), cs);
    cs := [Idle(None)] + cs;
    RunCons(s4, Idle(Some(TAG)), cs);
    cs := [Idle(Some(TAG))] + cs;
    RunCons(s3, Missing(Some(TAG), true), cs);
    cs := [Missing(Some(TAG), true)] + cs;
    RunCons(s2, Missing(Some(TAG), false), cs);
    cs := [Missing(Some(TAG), false)] + cs;
    RunCons(s1, Idle(Some(STORE)), cs);
    cs := [Idle(Some(STORE))] + cs;
    RunCons(s, Idle(Some(LOAD)), cs);
    cs := [Idle(Some(LOAD))] + cs;
  }

  lemma RunNil(s: State)
    ensures EnvRun(s, []) && After(s, []) == s
  {
  }

  // ----- the two buffers ------------------------------------------------------

  function Filter(p: Kind -> bool, ps: seq<Packet>): seq<Packet> {
    if ps == [] then []
    else Filter(p, ps[..|ps| - 1]) + if p(ps[|ps| - 1].kind) then [ps[|ps| - 1]] else []
  }

  /** The packets that change memory, in order: stores of either kind, and atomics. */
  function Writers(ps: seq<Packet>): seq<Packet> {
    if ps == [] then [] else
      var last := ps[|ps| - 1];
      Writers(ps[..|ps| - 1]) +
      match last.kind
      case FullStore => [last]
      case PartialStore => [last]
      case Atomic => [last]
      case Load => []
      case TagStore => []
      case Other => []
  }

  /** The stores of whole words, in order. */
  function WholeStores(ps: seq<Packet>): seq<Packet> {
    if ps == [] then [] else
      var last := ps[|ps| - 1];
      WholeStores(ps[..|ps| - 1]) + if last.kind == FullStore then [last] else []
  }

  lemma FilterWriters(ps: seq<Packet>)
    ensures Filter(Stores, ps) == Writers(ps) && Filter(Tracks, ps) == WholeStores(ps)
  {
  }

  /** Writers, counted: each store and atomic as often as it occurs, nothing else. */
  lemma {:induction false} WritersOnce(ps: seq<Packet>, p: Packet)
    ensures multiset(Writers(ps))[p] ==
            if p.kind in {FullStore, PartialStore, Atomic} then multiset(ps)[p] else 0
    ensures multiset(WholeStores(ps))[p] == if p.kind == FullStore then multiset(ps)[p] else 0
  {
    if ps != [] {
      hide Writers, WholeStores;
      var init, last := ps[..|ps| - 1], ps[|ps| - 1];
      assert ps == init + [last];
      WritersOnce(init, p);
      WritersMore(ps);
      assert multiset(ps) == multiset(init) + multiset{last};
    }
  }

  lemma WritersMore(ps: seq<Packet>)
    requires ps != []
    ensures var init, last := ps[..|ps| - 1], ps[|ps| - 1];
            && Writers(ps) == Writers(init) + (if last.kind in {FullStore, PartialStore, Atomic} then [last] else [])
            && WholeStores(ps) == WholeStores(init) + (if last.kind == FullStore then [last] else [])
  {
  }

  /** Retired stores, in order, are the buffer's entries behind what it has already written. */
  predicate SbufInv(s: State) {
    s.sbuf.num <= 2 && s.stored + Contents(s.sbuf) == Filter(Stores, s.retired)
  }

  /** A store that retires into a full buffer while a load waits pushes its head entry out:
      the hazard keeps the load away from the data memory. */
  lemma SbufHasRoom(s: State, c: Cycle)
    requires Env(s, c)
    ensures !(Full(s.sbuf) && SbufIn(s, c) && !SbufYumi(s, c))
  {
  }

  /** One cycle of either buffer: what it has written and what it holds grow by what enters it. */
  lemma BufferStep(before: seq<Packet>, q: Queue<Packet>, v: bool, x: Packet, yumi: bool)
    requires q.num <= 2 && (yumi ==> OutValid(q, v)) && !(Full(q) && v && !yumi)
    ensures Next(q, v, x, yumi).num <= 2
    ensures (if yumi then before + [DataOut(q, x)] else before) + Contents(Next(q, v, x, yumi))
         == (if v then before + Contents(q) + [x] else before + Contents(q))
  {
    hide Next, DataOut, OutValid, Contents, Full;
    AdvanceConserves(Run(q, before + Contents(q), before), Transfer(v, x, yumi));
  }

  lemma FilterMore(p: Kind -> bool, ps: seq<Packet>, x: Packet)
    ensures Filter(p, ps + [x]) == if p(x.kind) then Filter(p, ps) + [x] else Filter(p, ps)
  {
    assert (ps + [x])[..|ps + [x]| - 1] == ps;
  }

  /** The parts of a step that concern one buffer. */
  lemma SbufFields(s: State, c: Cycle)
    ensures var s' := NextState(s, c);
            && s'.sbuf == Next(s.sbuf, SbufIn(s, c), Entry(s), SbufYumi(s, c))
            && s'.stored == (if SbufYumi(s, c) then s.stored + [DataOut(s.sbuf, Entry(s))] else s.stored)
            && s'.retired == (if Retires(s, c) then s.retired + [Entry(s)] else s.retired)
            && (SbufIn(s, c) <==> Retires(s, c) && Stores(Entry(s).kind))
            && (SbufYumi(s, c) ==> OutValid(s.sbuf, SbufIn(s, c)))
  {
    hide Next, DataOut, SbufHazard, Accepts, VWe, OutValid;
  }

  lemma TbufFields(s: State, c: Cycle)
    ensures var s' := NextState(s, c);
            && s'.tbuf == Next(s.tbuf, TbufIn(s, c), Entry(s), TbufYumi(s, c))
            && s'.tracked == (if TbufYumi(s, c) then s.tracked + [DataOut(s.tbuf, Entry(s))] else s.tracked)
            && s'.retired == (if Retires(s, c) then s.retired + [Entry(s)] else s.retired)
            && (TbufIn(s, c) <==> Retires(s, c) && Tracks(Entry(s).kind))
            && (TbufYumi(s, c) ==> OutValid(s.tbuf, TbufIn(s, c)))
  {
    hide Next, DataOut, SbufHazard, Accepts, VWe, OutValid;
  }

  lemma StepSbuf(s: State, c: Cycle)
    requires Env(s, c) && SbufInv(s)
    ensures SbufInv(NextState(s, c))
  {
    hide Next, NextState, DataOut, Env, SbufIn, SbufYumi, Retires, OutValid, Contents, Full, Entry, Filter;
    SbufHasRoom(s, c);
    SbufFields(s, c);
    BufferStep(s.stored, s.sbuf, SbufIn(s, c), Entry(s), SbufYumi(s, c));
    FilterMore(Stores, s.retired, Entry(s));
  }

  function Count(p: Kind -> bool, o: Option<Packet>): nat {
    if o.Some? && p(o.value.kind) then 1 else 0
  }

  /** The track buffer has no hazard of its own: entries and the whole-word stores still in the
      pipeline never number more than two, because such a store reads no track memory and so
      drains an entry in the cycle it enters. */
  predicate TbufInv(s: State) {
    && s.tbuf.num <= 2
    && s.tbuf.num + Count(Tracks, s.tl) + Count(Tracks, s.tv) <= 2
    && s.tracked + Contents(s.tbuf) == Filter(Tracks, s.retired)
  }

  lemma TbufRoom(s: State, c: Cycle)
    requires Env(s, c) && s.tbuf.num + Count(Tracks, s.tl) + Count(Tracks, s.tv) <= 2
    ensures !(Full(s.tbuf) && TbufIn(s, c) && !TbufYumi(s, c))
    ensures var s' := NextState(s, c);
            s'.tbuf.num + Count(Tracks, s'.tl) + Count(Tracks, s'.tv) <= 2
  {
    hide Enable0, Enable1, DataOut;
  }

  lemma StepTbuf(s: State, c: Cycle)
    requires Env(s, c) && TbufInv(s)
    ensures TbufInv(NextState(s, c))
  {
    hide Next, NextState, DataOut, Env, TbufIn, TbufYumi, Retires, OutValid, Contents, Full, Entry, Filter, Count;
    TbufRoom(s, c);
    TbufFields(s, c);
    BufferStep(s.tracked, s.tbuf, TbufIn(s, c), Entry(s), TbufYumi(s, c));
    FilterMore(Tracks, s.retired, Entry(s));
  }

  lemma {:induction false} RunBuffers(s: State, cs: seq<Cycle>)
    requires EnvRun(s, cs) && SbufInv(s) && TbufInv(s)
    ensures SbufInv(After(s, cs)) && TbufInv(After(s, cs))
    decreases cs
  {
    hide SbufInv, TbufInv, Env, NextState;
    if cs != [] {
      StepSbuf(s, cs[0]);
      StepTbuf(s, cs[0]);
      RunBuffers(NextState(s, cs[0]), cs[1..]);
    }
  }

  /** In every run neither buffer ever holds a third entry, and each writes the retired packets meant
      for it in the order they retired: the store buffer every store and atomic as often as it
      retired, the track buffer every store of a whole word, and neither anything else. */
  lemma BuffersSafe(s: State, cs: seq<Cycle>, p: Packet)
    requires IsReset(s) && EnvRun(s, cs)
    ensures var e := After(s, cs);
            var written, marked := e.stored + Contents(e.sbuf), e.tracked + Contents(e.tbuf);
            && e.sbuf.num <= 2 && written == Writers(e.retired)
            && e.tbuf.num <= 2 && marked == WholeStores(e.retired)
            && multiset(written)[p] ==
               (if p.kind in {FullStore, PartialStore, Atomic} then multiset(e.retired)[p] else 0)
            && multiset(marked)[p] == (if p.kind == FullStore then multiset(e.retired)[p] else 0)
  {
    hide After, EnvRun, Filter, Writers, WholeStores, Contents;
    ResetBuffers(s);
    RunBuffers(s, cs);
    FilterWriters(After(s, cs).retired);
    WritersOnce(After(s, cs).retired, p);
  }

  lemma ResetBuffers(s: State)
    requires IsReset(s)
    ensures SbufInv(s) && TbufInv(s)
  {
  }

  /** The store buffer writes in every cycle in which it has something to write, unless a load or
      atomic is being accepted, or waits in TL with nothing missing, or the DMA engine is at work; the
      track buffer likewise, for which stores of less than a word read as well. So neither waits
      for anything else. */
  lemma BuffersDrain(s: State, c: Cycle)
    ensures SbufYumi(s, c) <==>
            && OutValid(s.sbuf, SbufIn(s, c)) && !c.dmaData
            && (Accepts(s, c) ==> c.packet.value.kind !in {Load, Atomic})
            && (s.tl.Some? && s.tl.value.kind in {Load, Atomic} && !c.miss ==> s.tv.Some? ==> Retires(s, c))
    ensures TbufYumi(s, c) <==>
            && OutValid(s.tbuf, TbufIn(s, c)) && !c.missTrack
            && (Accepts(s, c) ==> c.packet.value.kind !in {Load, Atomic, PartialStore})
            && (s.tl.Some? && s.tl.value.kind in {Load, Atomic, PartialStore} && !c.miss ==> s.tv.Some? ==> Retires(s, c))
  {
    hide DataOut, Retires, TlWe, OutValid, SbufIn, TbufIn;
  }

  // ----- the registers ---------------------------------------------------------

  class Pipeline {
    var tl: Option<Packet>
    var tv: Option<Packet>
    const sbuf: BufferQueue<Packet>
    const tbuf: BufferQueue<Packet>
    ghost var accepted: seq<Packet>
    ghost var retired: seq<Packet>
    ghost var stored: seq<Packet>
    ghost var tracked: seq<Packet>

    ghost function Snapshot(): State
      reads this, sbuf, tbuf
    {
      State(tl, tv, sbuf.Registers(), tbuf.Registers(), accepted, retired, stored, tracked)
    }

    ghost predicate Invariant()
      reads this, sbuf, tbuf
    {
      sbuf != tbuf && SbufInv(Snapshot()) && TbufInv(Snapshot())
    }

    constructor (stale: Packet)
      ensures Invariant() && IsReset(Snapshot()) && fresh(sbuf) && fresh(tbuf)
    {
      tl, tv := None, None;
      sbuf := new BufferQueue(stale, stale);
      tbuf := new BufferQueue(stale, stale);
      accepted, retired, stored, tracked := [], [], [], [];
    }

    /** The combinational control. */
    method Control(c: Cycle) returns (g: Signals)
      requires Invariant()
      ensures g == SignalsOf(Snapshot(), c)
    {
      hide SbufInv, TbufInv, VOut, Retires, VWe, SbufHazard, TlWe, Accepts, SbufIn, TbufIn, SbufYumi, TbufYumi;
      g := StageControl(c);
      var sbufYumi := SbufControl(c, g.vWe, g.sbufIn, g.ready);
      var tbufYumi := TbufControl(c, g.vWe, g.tbufIn, g.ready);
      g := g.(sbufYumi := sbufYumi, tbufYumi := tbufYumi);
    }

    /** The part of it that concerns the stages. */
    method StageControl(c: Cycle) returns (g: Signals)
      requires sbuf != tbuf
      ensures g == SignalsOf(Snapshot(), c).(sbufYumi := false, tbufYumi := false) && (g.ready ==> c.packet.Some?)
    {
      hide SbufYumi, TbufYumi;
      var v := tv.Some? && (c.miss ==> c.done);
      var retires := v && c.yumi;
      var vWe := tv.Some? ==> retires;
      var entry := if tv.Some? then tv.value else Packet(Other, 0);
      var sbufIn, tbufIn := retires && Stores(entry.kind), retires && Tracks(entry.kind);
      var incoming := if c.packet.Some? then c.packet.value.kind else Other;
      var hazard := sbuf.num == 2 && sbufIn && ReadsData(incoming);
      var tlReady := (c.miss ==> !incoming.TagStore? && !Busy(c)) && !hazard;
      var tlWe := tlReady && (tl.Some? ==> vWe);
      g := Signals(v, retires, vWe, hazard, tlWe, c.packet.Some? && tlWe, sbufIn, tbufIn, false, false);
    }

    /** When the store buffer may write, and when the track buffer may. */
    method SbufControl(c: Cycle, vWe: bool, sbufIn: bool, ready: bool) returns (sbufYumi: bool)
      requires vWe == VWe(Snapshot(), c) && sbufIn == SbufIn(Snapshot(), c)
      requires ready == Accepts(Snapshot(), c) && (ready ==> c.packet.Some?)
      ensures sbufYumi == SbufYumi(Snapshot(), c)
    {
      hide VWe, SbufIn, Accepts, DataOut;
      var loads := ready && ReadsData(c.packet.value.kind);
      var waiting := tl.Some? && ReadsData(tl.value.kind) && !vWe && !c.miss;
      sbufYumi := (if sbuf.num == 0 then sbufIn else sbuf.num == 1 || sbuf.num == 2) && !loads && !c.dmaData && !waiting;
    }

    method TbufControl(c: Cycle, vWe: bool, tbufIn: bool, ready: bool) returns (tbufYumi: bool)
      requires vWe == VWe(Snapshot(), c) && tbufIn == TbufIn(Snapshot(), c)
      requires ready == Accepts(Snapshot(), c) && (ready ==> c.packet.Some?)
      ensures tbufYumi == TbufYumi(Snapshot(), c)
    {
      hide VWe, TbufIn, Accepts, DataOut;
      var loads := ready && ReadsTrack(c.packet.value.kind);
      var waiting := tl.Some? && ReadsTrack(tl.value.kind) && !vWe && !c.miss;
      tbufYumi := (if tbuf.num == 0 then tbufIn else tbuf.num == 1 || tbuf.num == 2) && !loads && !c.missTrack && !waiting;
    }

    method ClockBuffers(g: Signals, entry: Packet)
      requires sbuf != tbuf && sbuf.num <= 2 && tbuf.num <= 2
      requires g.sbufYumi ==> OutValid(sbuf.Registers(), g.sbufIn)
      requires g.tbufYumi ==> OutValid(tbuf.Registers(), g.tbufIn)
      requires !(Full(sbuf.Registers()) && g.sbufIn && !g.sbufYumi)
      requires !(Full(tbuf.Registers()) && g.tbufIn && !g.tbufYumi)
      modifies sbuf, tbuf, this`stored, this`tracked
      ensures sbuf.Registers() == Next(old(sbuf.Registers()), g.sbufIn, entry, g.sbufYumi)
      ensures tbuf.Registers() == Next(old(tbuf.Registers()), g.tbufIn, entry, g.tbufYumi)
      ensures stored == old(stored) + if g.sbufYumi then [DataOut(old(sbuf.Registers()), entry)] else []
      ensures tracked == old(tracked) + if g.tbufYumi then [DataOut(old(tbuf.Registers()), entry)] else []
    {
      hide Next, DataOut, OutValid, Offered, Full;
      var _, sbufOut := sbuf.Outputs(g.sbufIn, entry);
      var _, tbufOut := tbuf.Outputs(g.tbufIn, entry);
      stored := stored + if g.sbufYumi then [sbufOut] else [];
      tracked := tracked + if g.tbufYumi then [tbufOut] else [];
      sbuf.Clock(false, g.sbufIn, entry, g.sbufYumi);
      tbuf.Clock(false, g.tbufIn, entry, g.tbufYumi);
    }

    method ClockStages(g: Signals, c: Cycle)
      requires (g.ready ==> c.packet.Some?) && (g.retires ==> tv.Some?)
      modifies this`tl, this`tv, this`accepted, this`retired
      ensures tl == if g.tlWe then c.packet else if g.hazard then None else old(tl)
      ensures tv == if g.vWe then old(tl) else old(tv)
      ensures accepted == old(accepted) + if g.ready then [c.packet.value] else []
      ensures retired == old(retired) + if g.retires then [old(tv).value] else []
    {
      accepted := accepted + if g.ready then [c.packet.value] else [];
      retired := retired + if g.retires then [tv.value] else [];
      if g.vWe {
        tv := tl;
      }
      if g.tlWe {
        tl := c.packet;
      } else if g.hazard {
        tl := None;
      }
    }

    /** All registers take their next values. */
    method ClockState(g: Signals, c: Cycle)
      requires sbuf != tbuf && g == SignalsOf(Snapshot(), c) && BuffersReady(Snapshot(), c)
      modifies this`tl, this`tv, this`accepted, this`retired, this`stored, this`tracked, sbuf, tbuf
      ensures Snapshot() == NextState(old(Snapshot()), c)
    {
      hide Next, DataOut, OutValid, Full, NextState, SignalsOf, BuffersReady, Entry;
      ghost var s := Snapshot();
      SignalsUse(s, c, g);
      var entry := if tv.Some? then tv.value else Packet(Other, 0);
      ClockStages(g, c);
      ClockBuffers(g, entry);
      NextStateIs(s, c, g, Snapshot());
    }

    /** One clock edge; ready is yumi_o, v is v_o. */
    method Clock(c: Cycle) returns (v: bool, ready: bool)
      requires Invariant() && Env(Snapshot(), c)
      modifies this, sbuf, tbuf
      ensures Invariant() && Snapshot() == NextState(old(Snapshot()), c)
      ensures v == VOut(old(Snapshot()), c) && ready == Accepts(old(Snapshot()), c)
      ensures Pipe(Snapshot()) == old(Pipe(Snapshot()))
                                  + (if Duplicates(old(Snapshot()), c) then [old(tl).value] else [])
                                  + (if ready then [c.packet.value] else [])
    {
      hide Duplicates, SbufInv, TbufInv, Pipe, Env, NextState, SignalsOf, VOut, Accepts, BuffersReady;
      StepAll(Snapshot(), c);
      var g := Control(c);
      SignalsShow(Snapshot(), c);
      ClockState(g, c);
      v, ready := g.v, g.ready;
    }
  }

  lemma SignalsShow(s: State, c: Cycle)
    ensures SignalsOf(s, c).v == VOut(s, c) && SignalsOf(s, c).ready == Accepts(s, c)
  {
  }

  lemma StepAll(s: State, c: Cycle)
    requires Env(s, c) && SbufInv(s) && TbufInv(s)
    ensures BuffersReady(s, c)
    ensures SbufInv(NextState(s, c)) && TbufInv(NextState(s, c))
    ensures Accepts(s, c) ==> c.packet.Some?
    ensures Duplicates(s, c) ==> s.tl.Some?
    ensures Pipe(NextState(s, c)) == Pipe(s) + (if Duplicates(s, c) then [s.tl.value] else [])
                                     + (if Accepts(s, c) then [c.packet.value] else [])
  {
    hide NextState, Env, Pipe, Contents, Filter, Full, Count;
    SbufHasRoom(s, c);
    TbufRoom(s, c);
    StepPipe(s, c);
    StepSbuf(s, c);
    StepTbuf(s, c);
  }

  lemma NextStateIs(s: State, c: Cycle, g: Signals, s': State)
    requires g == SignalsOf(s, c) && (g.ready ==> c.packet.Some?) && (g.retires ==> s.tv.Some?)
    requires s'.tl == if g.tlWe then c.packet else if g.hazard then None else s.tl
    requires s'.tv == if g.vWe then s.tl else s.tv
    requires s'.sbuf == Next(s.sbuf, g.sbufIn, Entry(s), g.sbufYumi)
    requires s'.tbuf == Next(s.tbuf, g.tbufIn, Entry(s), g.tbufYumi)
    requires s'.accepted == s.accepted + if g.ready then [c.packet.value] else []
    requires s'.retired == s.retired + if g.retires then [s.tv.value] else []
    requires s'.stored == s.stored + if g.sbufYumi then [DataOut(s.sbuf, Entry(s))] else []
    requires s'.tracked == s.tracked + if g.tbufYumi then [DataOut(s.tbuf, Entry(s))] else []
    ensures s' == NextState(s, c)
  {
    hide Next, DataOut, Accepts, Retires, SbufYumi, TbufYumi, SbufIn, TbufIn, Entry, TlWe, SbufHazard, VWe;
  }

  /** The control signals of one cycle. */
  datatype Signals = Signals(
    v: bool, retires: bool, vWe: bool, hazard: bool, tlWe: bool, ready: bool,
    sbufIn: bool, tbufIn: bool, sbufYumi: bool, tbufYumi: bool)

  function SignalsOf(s: State, c: Cycle): Signals {
    Signals(VOut(s, c), Retires(s, c), VWe(s, c), SbufHazard(s, c), TlWe(s, c), Accepts(s, c),
            SbufIn(s, c), TbufIn(s, c), SbufYumi(s, c), TbufYumi(s, c))
  }

  lemma SignalsUse(s: State, c: Cycle, g: Signals)
    requires g == SignalsOf(s, c) && BuffersReady(s, c)
    ensures Entry(s) == if s.tv.Some? then s.tv.value else Packet(Other, 0)
    ensures (g.ready ==> c.packet.Some?) && (g.retires ==> s.tv.Some?)
    ensures (g.sbufYumi ==> OutValid(s.sbuf, g.sbufIn)) && (g.tbufYumi ==> OutValid(s.tbuf, g.tbufIn))
    ensures s.sbuf.num <= 2 && !(Full(s.sbuf) && g.sbufIn && !g.sbufYumi)
    ensures s.tbuf.num <= 2 && !(Full(s.tbuf) && g.tbufIn && !g.tbufYumi)
  {
  }

  /** Neither buffer is asked to take a third entry. */
  predicate BuffersReady(s: State, c: Cycle) {
    && s.sbuf.num <= 2 && s.tbuf.num <= 2
    && !(Full(s.sbuf) && SbufIn(s, c) && !SbufYumi(s, c))
    && !(Full(s.tbuf) && TbufIn(s, c) && !TbufYumi(s, c))
  }
}
