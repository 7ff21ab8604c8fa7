/** bsg_cache_miss, the pipeline control and the DMA engine wired together: the miss unit's state
    machine is what keeps the assumptions the other two are proved under. */
module CacheMiss {
  import opened Wrappers
  import opened CacheBufferQueue
  import P = CachePipeline
  import D = CacheDma

  datatype Fsm =
    | START | FLUSH_OP | LOCK_OP | SEND_EVICT_ADDR | SEND_FILL_ADDR | SEND_EVICT_DATA | GET_FILL_DATA
    | STORE_TAG_MISS | STORE_TAG_MISS_ALLOCATE | RECOVER | DONE

  /** The conditions the state machine branches on, which come from the opcode in TV and from the tag
      and stat memories: a flush or a lock operation, a whole-word store that misses, a dirty victim,
      and an eviction with no fill after it. */
  datatype Branch = Branch(flush: bool, lock: bool, storeTagMiss: bool, dirty: bool, noFill: bool)

  /** missing is miss_v for the packet now in TV, which does not change while the packet stays. */
  datatype State = State(pipe: P.State, missing: bool, fsm: Fsm, dma: D.State)

  /** dmaIn's command is replaced by the miss unit's; misses is whether the packet that enters TV, if
      one does, will miss. */
  datatype Input = Input(packet: Option<P.Packet>, yumi: bool, misses: bool, branch: Branch, dmaIn: D.Input)

  // ----- outputs ------------------------------------------------------------------

  function Command(fsm: Fsm): D.Cmd {
    match fsm
    case SEND_FILL_ADDR => D.SendFillAddr
    case SEND_EVICT_ADDR => D.SendEvictAddr
    case SEND_EVICT_DATA => D.SendEvictData
    case GET_FILL_DATA => D.GetFillData
    case _ => D.Nop
  }

  function DmaInput(s: State, i: Input): D.Input {
    i.dmaIn.(cmd := Command(s.fsm))
  }

  function DmaControl(g: D.Config, s: State, i: Input): D.Control {
    D.Decide(g, s.dma, DmaInput(s, i))
  }

  /** A miss is taken up once both buffers are empty. */
  predicate TakesUp(s: State) {
    s.fsm.START? && s.missing && s.pipe.sbuf.num == 0 && s.pipe.tbuf.num == 0
  }

  /** tag_mem_v_o */
  predicate TagV(g: D.Config, s: State, i: Input) {
    match s.fsm
    case FLUSH_OP => true
    case LOCK_OP => true
    case STORE_TAG_MISS_ALLOCATE => true
    case SEND_EVICT_DATA => DmaControl(g, s, i).done && i.branch.storeTagMiss
    case GET_FILL_DATA => DmaControl(g, s, i).done
    case _ => false
  }

  /** track_mem_v_o */
  predicate TrackV(g: D.Config, s: State, i: Input) {
    match s.fsm
    case START => g.tracking && TakesUp(s)
    case STORE_TAG_MISS_ALLOCATE => true
    case SEND_EVICT_DATA => DmaControl(g, s, i).done && i.branch.storeTagMiss
    case GET_FILL_DATA => g.tracking && DmaControl(g, s, i).done
    case _ => false
  }

  /** What the pipeline control sees in this cycle. */
  function PipeCycle(g: D.Config, s: State, i: Input): P.Cycle {
    P.Cycle(i.packet, i.yumi, s.missing, s.fsm.DONE?, TagV(g, s, i), TrackV(g, s, i), s.fsm.RECOVER?,
            DmaControl(g, s, i).memV, DmaControl(g, s, i).evict)
  }

  function NextFsm(g: D.Config, s: State, i: Input): Fsm {
    var b, dmaDone := i.branch, DmaControl(g, s, i).done;
    match s.fsm
    case START =>
      if !TakesUp(s) then START
      else if b.flush then FLUSH_OP
      else if b.lock then LOCK_OP
      else if b.storeTagMiss then STORE_TAG_MISS
      else SEND_FILL_ADDR
    case FLUSH_OP => if b.dirty then SEND_EVICT_ADDR else RECOVER
    case LOCK_OP => RECOVER
    case SEND_FILL_ADDR => if !dmaDone then SEND_FILL_ADDR else if b.dirty then SEND_EVICT_ADDR else GET_FILL_DATA
    case SEND_EVICT_ADDR => if dmaDone then SEND_EVICT_DATA else SEND_EVICT_ADDR
    case SEND_EVICT_DATA => if !dmaDone then SEND_EVICT_DATA else if b.noFill then RECOVER else GET_FILL_DATA
    case GET_FILL_DATA => if dmaDone then RECOVER else GET_FILL_DATA
    case STORE_TAG_MISS => if b.dirty then SEND_EVICT_ADDR else STORE_TAG_MISS_ALLOCATE
    case STORE_TAG_MISS_ALLOCATE => RECOVER
    case RECOVER => DONE
    case DONE => if P.Retires(s.pipe, PipeCycle(g, s, i)) then START else DONE
  }

  function Next(g: D.Config, s: State, i: Input): State {
    var c := PipeCycle(g, s, i);
    State(
      P.NextState(s.pipe, c),
      if P.VWe(s.pipe, c) then s.pipe.tl.Some? && !s.pipe.tl.value.kind.TagStore? && i.misses else s.missing,
      NextFsm(g, s, i),
      D.Next(g, s.dma, DmaInput(s, i)))
  }

  // ----- the invariant ------------------------------------------------------------------

  predicate IsReset(s: State) {
    P.IsReset(s.pipe) && !s.missing && s.fsm.START? && s.dma.fsm.IDLE? && s.dma.counter == 0
  }

  /** The DMA engine works only on the miss unit's command, the miss unit only on a miss, and from the
      moment it takes one up until the packet retires both buffers stay empty. */
  predicate Inv(g: D.Config, s: State) {
    && (s.missing ==> s.pipe.tv.Some? && !s.pipe.tv.value.kind.TagStore?)
    && (!s.fsm.START? ==> s.missing && s.pipe.sbuf.num == 0 && s.pipe.tbuf.num == 0)
    && (s.dma.fsm.GET_FILL_DATA? ==> s.fsm.GET_FILL_DATA?)
    && (s.dma.fsm.SEND_EVICT_DATA? ==> s.fsm.SEND_EVICT_DATA?)
    && D.CounterInv(g, s.dma)
  }

  /** The pipeline's assumption about its environment holds. */
  lemma EnvHolds(g: D.Config, s: State, i: Input)
    requires Inv(g, s)
    ensures P.Env(s.pipe, PipeCycle(g, s, i))
  {
  }

  lemma StepInv(g: D.Config, s: State, i: Input)
    requires D.ValidConfig(g) && Inv(g, s)
    ensures Inv(g, Next(g, s, i))
  {
    hide P.SbufHazard, P.Accepts, P.TlWe, P.NextTl, D.WriteBeat, D.ReadRow, D.Pick;
    D.StepCounter(g, s.dma, DmaInput(s, i));
  }

  // ----- runs ----------------------------------------------------------------------------

  function After(g: D.Config, s: State, ins: seq<Input>): State
    decreases ins
  {
    if ins == [] then s else After(g, Next(g, s, ins[0]), ins[1..])
  }

  /** The cycles the pipeline control goes through. */
  function Cycles(g: D.Config, s: State, ins: seq<Input>): seq<P.Cycle>
    decreases ins
  {
    if ins == [] then [] else [PipeCycle(g, s, ins[0])] + Cycles(g, Next(g, s, ins[0]), ins[1..])
  }

  lemma {:induction false} RunHolds(g: D.Config, s: State, ins: seq<Input>)
    requires D.ValidConfig(g) && Inv(g, s)
    ensures Inv(g, After(g, s, ins))
    ensures P.EnvRun(s.pipe, Cycles(g, s, ins))
    ensures After(g, s, ins).pipe == P.After(s.pipe, Cycles(g, s, ins))
    decreases ins
  {
    hide Inv, NextFsm, PipeCycle, P.NextState, P.Env, D.Next;
    if ins != [] {
      var c, rest := PipeCycle(g, s, ins[0]), Cycles(g, Next(g, s, ins[0]), ins[1..]);
      EnvHolds(g, s, ins[0]);
      StepInv(g, s, ins[0]);
      RunHolds(g, Next(g, s, ins[0]), ins[1..]);
      assert Cycles(g, s, ins)[0] == c && Cycles(g, s, ins)[1..] == rest;
    } else {
      P.RunNil(s.pipe);
    }
  }

  lemma ResetInv(g: D.Config, s: State)
    requires IsReset(s)
    ensures Inv(g, s)
  {
  }

  /** With the miss unit and the DMA engine in place nothing is left to assume: in every run from
      reset the buffers never overflow and write the retired stores in order, and every packet
      retires exactly once and in order if and only if no tag store waits in a miss-completing cycle
      with TL occupied. */
  lemma CacheExactlyOnceIff(g: D.Config, s: State, ins: seq<Input>)
    requires D.ValidConfig(g) && IsReset(s)
    ensures var e := After(g, s, ins).pipe;
            && (P.InOrder(e) <==> P.DuplicateCount(s.pipe, Cycles(g, s, ins)) == 0)
            && e.sbuf.num <= 2 && e.stored + Contents(e.sbuf) == P.Writers(e.retired)
            && e.tbuf.num <= 2 && e.tracked + Contents(e.tbuf) == P.WholeStores(e.retired)
  {
    hide After, Cycles, P.After, P.EnvRun, P.DuplicateCount, P.InOrder, Contents, P.Writers, P.WholeStores;
    ResetInv(g, s);
    RunHolds(g, s, ins);
    P.ExactlyOnceIff(s.pipe, Cycles(g, s, ins));
    P.BuffersSafe(s.pipe, Cycles(g, s, ins), P.Packet(P.Other, 0));
  }

  /** While the DMA engine moves a block nobody else touches the data memory: the store buffer writes
      nothing, and during an eviction, from its first read on, no packet is accepted to read. */
  lemma DmaUndisturbed(g: D.Config, s: State, i: Input)
    requires Inv(g, s) && !s.fsm.START? && !s.fsm.DONE?
    ensures !P.SbufYumi(s.pipe, PipeCycle(g, s, i))
    ensures s.dma.fsm.SEND_EVICT_DATA? || DmaControl(g, s, i).memV ==> !P.Accepts(s.pipe, PipeCycle(g, s, i))
  {
  }

  /** How far a miss still is from done, in states of the machine. */
  function Remaining(fsm: Fsm): nat {
    match fsm
    case START => 7
    case SEND_FILL_ADDR => 6
    case STORE_TAG_MISS => 6
    case FLUSH_OP => 6
    case LOCK_OP => 6
    case SEND_EVICT_ADDR => 5
    case SEND_EVICT_DATA => 4
    case GET_FILL_DATA => 3
    case STORE_TAG_MISS_ALLOCATE => 3
    case RECOVER => 2
    case DONE => 1
  }

  /** In every cycle a miss gets nearer to done, except while it waits for the DMA engine to finish a
      command or, done, for its result to be taken; and it is done only after a recovery. */
  lemma MissAdvances(g: D.Config, s: State, i: Input)
    requires !s.fsm.START? || TakesUp(s)
    ensures if s.fsm.DONE? then NextFsm(g, s, i) == if P.Retires(s.pipe, PipeCycle(g, s, i)) then START else DONE
            else if Command(s.fsm) != D.Nop && !DmaControl(g, s, i).done then NextFsm(g, s, i) == s.fsm
            else Remaining(NextFsm(g, s, i)) < Remaining(s.fsm)
    ensures NextFsm(g, s, i).DONE? ==> s.fsm.RECOVER? || s.fsm.DONE?
    ensures NextFsm(g, s, i).SEND_EVICT_DATA? ==> s.fsm.SEND_EVICT_DATA? || s.fsm.SEND_EVICT_ADDR?
  {
  }

  /** Cycles in which the miss unit does not wait for the DMA engine to finish a command. */
  function Moves(g: D.Config, s: State, ins: seq<Input>): nat
    decreases ins
  {
    if ins == [] then 0
    else (if Command(s.fsm) != D.Nop && !DmaControl(g, s, ins[0]).done then 0 else 1)
         + Moves(g, Next(g, s, ins[0]), ins[1..])
  }

  lemma {:induction false} RunFinishes(g: D.Config, s: State, ins: seq<Input>) returns (k: nat)
    requires (!s.fsm.START? || TakesUp(s)) && Moves(g, s, ins) >= Remaining(s.fsm) - 1
    ensures k <= |ins| && After(g, s, ins[..k]).fsm.DONE?
    decreases ins
  {
    hide Next, TakesUp, DmaControl;
    if s.fsm.DONE? {
      k := 0;
    } else {
      var s' := Next(g, s, ins[0]);
      MissAdvances(g, s, ins[0]);
      NextFsmIs(g, s, ins[0]);
      k := RunFinishes(g, s', ins[1..]);
      k := k + 1;
      assert ins[..k][0] == ins[0] && ins[..k][1..] == ins[1..][..k - 1];
    }
  }

  lemma NextFsmIs(g: D.Config, s: State, i: Input)
    ensures Next(g, s, i).fsm == NextFsm(g, s, i)
    ensures Next(g, s, i).fsm.START? ==> s.fsm.DONE? || (s.fsm.START? && !TakesUp(s))
  {
    hide D.Next, P.NextState;
  }

  /** A miss that is taken up is done after at most six cycles besides those in which it waits for the
      DMA engine to finish a command. */
  lemma {:induction false} MissFinishes(g: D.Config, s: State, ins: seq<Input>) returns (k: nat)
    requires TakesUp(s) && Moves(g, s, ins) >= 6
    ensures k <= |ins| && After(g, s, ins[..k]).fsm.DONE?
  {
    k := RunFinishes(g, s, ins);
  }

  /** What a miss still waits for before it is taken up: the entries of the fuller buffer, and the one
      packet that may still come in and hold them up for a cycle. */
  function Backlog(s: State): nat {
    (if s.pipe.sbuf.num > s.pipe.tbuf.num then s.pipe.sbuf.num else s.pipe.tbuf.num) + (if s.pipe.tl.None? then 1 else 0)
  }

  predicate Pending(g: D.Config, s: State) {
    Inv(g, s) && s.fsm.START? && s.missing && s.pipe.sbuf.num <= 2 && s.pipe.tbuf.num <= 2
  }

  /** Until it is taken up, nothing enters the buffers and in every cycle the backlog shrinks. */
  lemma BacklogShrinks(g: D.Config, s: State, i: Input)
    requires D.ValidConfig(g) && Pending(g, s) && !TakesUp(s)
    ensures Pending(g, Next(g, s, i)) && Backlog(Next(g, s, i)) < Backlog(s)
  {
    hide DataOut, Enable0, Enable1, D.Next, Inv;
    StepInv(g, s, i);
    PendingControl(g, s, i);
  }

  lemma PendingControl(g: D.Config, s: State, i: Input)
    requires Pending(g, s) && !TakesUp(s)
    ensures var c := PipeCycle(g, s, i);
            && !P.VWe(s.pipe, c) && !P.SbufIn(s.pipe, c) && !P.TbufIn(s.pipe, c) && !P.Retires(s.pipe, c)
            && (P.Accepts(s.pipe, c) ==> s.pipe.tl.None? && P.TlWe(s.pipe, c))
            && (P.TlWe(s.pipe, c) ==> s.pipe.tl.None?) && !P.SbufHazard(s.pipe, c)
            && (!P.Accepts(s.pipe, c) ==> (P.SbufYumi(s.pipe, c) <==> s.pipe.sbuf.num > 0))
            && (!P.Accepts(s.pipe, c) ==> (P.TbufYumi(s.pipe, c) <==> s.pipe.tbuf.num > 0))
            && (P.SbufYumi(s.pipe, c) ==> s.pipe.sbuf.num > 0) && (P.TbufYumi(s.pipe, c) ==> s.pipe.tbuf.num > 0)
  {
  }

  lemma {:induction false} BacklogClears(g: D.Config, s: State, ins: seq<Input>) returns (k: nat)
    requires D.ValidConfig(g) && Pending(g, s) && |ins| >= Backlog(s)
    ensures k <= Backlog(s) && TakesUp(After(g, s, ins[..k]))
    decreases Backlog(s)
  {
    hide Next, Inv;
    if TakesUp(s) {
      k := 0;
    } else {
      BacklogShrinks(g, s, ins[0]);
      k := BacklogClears(g, Next(g, s, ins[0]), ins[1..]);
      k := k + 1;
      assert ins[..k][0] == ins[0] && ins[..k][1..] == ins[1..][..k - 1];
    }
  }

  /** In any run from reset, a miss is taken up within three cycles of being found. */
  lemma {:induction false} MissTakenUp(g: D.Config, r: State, before: seq<Input>, ins: seq<Input>) returns (k: nat)
    requires D.ValidConfig(g) && IsReset(r) && |ins| >= 3
    requires After(g, r, before).fsm.START? && After(g, r, before).missing
    ensures k <= 3 && TakesUp(After(g, After(g, r, before), ins[..k]))
  {
    hide After, Inv, TakesUp, Cycles, P.DuplicateCount, P.InOrder, P.Writers, P.WholeStores;
    ResetInv(g, r);
    RunHolds(g, r, before);
    CacheExactlyOnceIff(g, r, before);
    k := BacklogClears(g, After(g, r, before), ins);
  }

  /** Nothing arbitrates the three single-ported memories, and nothing needs to: no two of the
      packet being accepted, the one in TL recovering, the miss unit or DMA engine, and a buffer
      ever use the same one in a cycle. */
  lemma MemoryPortsExclusive(g: D.Config, s: State, i: Input)
    requires Inv(g, s)
    ensures var c := PipeCycle(g, s, i);
            var accepts, recovers := P.Accepts(s.pipe, c), s.fsm.RECOVER? && s.pipe.tl.Some?;
            var tag, track, data := TagV(g, s, i), TrackV(g, s, i), DmaControl(g, s, i).memV;
            && (accepts ==> i.packet.Some? && !recovers && !data && !tag && !track)
            && (recovers ==> !data && !tag && !track)
            && (P.SbufYumi(s.pipe, c) ==>
                  !(accepts && i.packet.value.kind in {P.Load, P.Atomic}) && !recovers && !data)
            && (P.TbufYumi(s.pipe, c) ==>
                  !(accepts && i.packet.value.kind in {P.Load, P.Atomic, P.PartialStore}) && !recovers && !track)
  {
  }

  // ----- the duplicate, in the whole machine ---------------------------------------------

  const LOCK := P.Packet(P.Other, 1)

  function In(packet: Option<P.Packet>, misses: bool, d: D.Input): Input {
    Input(packet, true, misses, Branch(false, true, false, false, false), d)
  }

  predicate Stages(
      s: State, tl: Option<P.Packet>, tv: Option<P.Packet>, missing: bool, fsm: Fsm,
      accepted: seq<P.Packet>, retired: seq<P.Packet>)
  {
    && s.pipe.tl == tl && s.pipe.tv == tv && s.missing == missing && s.fsm == fsm && s.dma.fsm.IDLE?
    && s.pipe.accepted == accepted && s.pipe.retired == retired
    && (!s.fsm.DONE? && retired == [] ==> s.pipe.sbuf.num == 0 && s.pipe.tbuf.num == 0)
  }

  lemma LockEnters(g: D.Config, s: State, d: D.Input) returns (e: State)
    requires IsReset(s)
    ensures e == Next(g, Next(g, s, In(Some(LOCK), false, d)), In(Some(P.STORE), true, d))
    ensures Stages(e, Some(P.STORE), Some(LOCK), true, START, [LOCK, P.STORE], [])
  {
    hide DataOut, D.WriteBeat, D.ReadRow, D.Pick;
    var s1 := Next(g, s, In(Some(LOCK), false, d));
    assert Stages(s1, Some(LOCK), None, false, START, [LOCK], []);
    e := Next(g, s1, In(Some(P.STORE), true, d));
  }

  lemma LockWorks(g: D.Config, s: State, d: D.Input, fsm: Fsm) returns (e: State)
    requires Stages(s, Some(P.STORE), Some(LOCK), true, fsm, [LOCK, P.STORE], [])
    requires fsm.START? || fsm.LOCK_OP? || fsm.RECOVER?
    ensures e == Next(g, s, In(Some(P.TAG), false, d))
    ensures Stages(e, Some(P.STORE), Some(LOCK), true,
                   if fsm.START? then LOCK_OP else if fsm.LOCK_OP? then RECOVER else DONE, [LOCK, P.STORE], [])
  {
    hide DataOut, D.WriteBeat, D.ReadRow, D.Pick;
    e := Next(g, s, In(Some(P.TAG), false, d));
  }

  lemma LockDone(g: D.Config, s: State, d: D.Input) returns (e: State)
    requires Stages(s, Some(P.STORE), Some(LOCK), true, DONE, [LOCK, P.STORE], [])
    ensures e == Next(g, s, In(Some(P.TAG), false, d))
    ensures Stages(e, Some(P.STORE), Some(P.STORE), false, START, [LOCK, P.STORE], [LOCK])
  {
    hide DataOut, D.WriteBeat, D.ReadRow, D.Pick, CacheBufferQueue.Next;
    e := Next(g, s, In(Some(P.TAG), false, d));
  }

  lemma LockDrains(
      g: D.Config, s: State, d: D.Input, tl: Option<P.Packet>, tv: Option<P.Packet>, packet: Option<P.Packet>,
      accepted: seq<P.Packet>, retired: seq<P.Packet>) returns (e: State)
    requires Stages(s, tl, tv, false, START, accepted, retired) && tv.Some? && retired != []
    requires packet.Some? ==> !P.ReadsData(packet.value.kind)
    ensures e == Next(g, s, In(packet, false, d))
    ensures Stages(e, packet, tl, false, START,
                   accepted + (if packet.Some? then [packet.value] else []), retired + [tv.value])
  {
    hide DataOut, D.WriteBeat, D.ReadRow, D.Pick, CacheBufferQueue.Next;
    e := Next(g, s, In(packet, false, d));
  }

  lemma AfterCons(g: D.Config, s: State, i: Input, rest: seq<Input>)
    ensures After(g, s, [i] + rest) == After(g, Next(g, s, i), rest)
  {
    assert ([i] + rest)[1..] == rest;
  }

  lemma AfterNil(g: D.Config, s: State)
    ensures After(g, s, []) == s
  {
  }

  /** A lock operation that misses, a store behind it and a tag store behind that, with no stall
      anywhere: the store retires twice. */
  lemma StoreRetiresTwice(g: D.Config, s: State, d: D.Input) returns (ins: seq<Input>)
    requires IsReset(s)
    ensures After(g, s, ins).pipe.accepted == [LOCK, P.STORE, P.TAG]
    ensures After(g, s, ins).pipe.retired == [LOCK, P.STORE, P.STORE, P.TAG]
  {
    hide After, Next, In;
    var s2 := LockEnters(g, s, d);
    var s3 := LockWorks(g, s2, d, START);
    var s4 := LockWorks(g, s3, d, LOCK_OP);
    var s5 := LockWorks(g, s4, d, RECOVER);
    var s6 := LockDone(g, s5, d);
    var s7 := LockDrains(g, s6, d, Some(P.STORE), Some(P.STORE), Some(P.TAG), [LOCK, P.STORE], [LOCK]);
    var s8 := LockDrains(g, s7, d, Some(P.TAG), Some(P.STORE), None, [LOCK, P.STORE, P.TAG], [LOCK, P.STORE]);
    var s9 := LockDrains(g, s8, d, None, Some(P.TAG), None, [LOCK, P.STORE, P.TAG], [LOCK, P.STORE, P.STORE]);
    var none, tag := In(None, false, d), In(Some(P.TAG), false, d);
    var lock, store := In(Some(LOCK), false, d), In(Some(P.STORE), true, d);
    AfterNil(g, s9);
    ins := [];
    AfterCons(g, s8, none, ins);
    ins := [none] + ins;
    AfterCons(g, s7, none, ins);
    ins := [none] + ins;
    AfterCons(g, s6, tag, ins);
    ins := [tag] + ins;
    AfterCons(g, s5, tag, ins);
    ins := [tag] + ins;
    AfterCons(g, s4, tag, ins);
    ins := [tag] + ins;
    AfterCons(g, s3, tag, ins);
    ins := [tag] + ins;
    AfterCons(g, s2, tag, ins);
    ins := [tag] + ins;
    AfterCons(g, Next(g, s, lock), store, ins);
    ins := [store] + ins;
    AfterCons(g, s, lock, ins);
    ins := [lock] + ins;
  }
}
