/** bsg_timekeeper: simulation time moves to the next edge of any registered clock, and every clock
    with an edge then toggles. */
module Timekeeper {
  import opened Powers

  /** A clock generator by the number of its registration; its scope is outside this model. */
  type Id = nat

  /** cycle: cycle_time_p; next: the time of the next edge; clk: the level. */
  datatype Clock = Clock(cycle: int, next: int, clk: bool)

  /** C++ division of a cycle time, truncating towards zero. */
  function Half(cycle: int): int {
    if cycle >= 0 then cycle / 2 else -((-cycle) / 2)
  }

  /** Half is the cycle's half, or for an odd cycle that of its neighbour nearer to zero. */
  lemma HalfIs(cycle: int)
    ensures 2 * Half(cycle) == if cycle % 2 == 0 then cycle else if cycle > 0 then cycle - 1 else cycle + 1
  {
  }

  function Tock(c: Clock): Clock {
    Clock(c.cycle, c.next + Half(c.cycle), !c.clk)
  }

  type Clocks = map<Id, Clock>

  /** operator< reversed: the queue's top has the least next edge. */
  predicate IsTop(pq: Clocks, id: Id) {
    id in pq && forall o :: o in pq ==> pq[id].next <= pq[o].next
  }

  function Without(pq: Clocks, id: Id): Clocks {
    map o | o in pq && o != id :: pq[o]
  }

  lemma {:induction false} TopExists(pq: Clocks)
    requires pq != map[]
    ensures exists id :: IsTop(pq, id)
    decreases |pq|
  {
    var a :| a in pq;
    var rest := Without(pq, a);
    var id := a;
    if rest != map[] {
      assert rest.Keys == pq.Keys - {a};
      TopExists(rest);
      var b :| IsTop(rest, b);
      id := if pq[b].next < pq[a].next then b else a;
    }
    forall o | o in pq ensures pq[id].next <= pq[o].next {
      assert o == a || o in rest;
    }
    assert IsTop(pq, id);
  }

  /** The time of the next edge: the least of all. */
  ghost function NextTime(pq: Clocks): int
    requires pq != map[]
  {
    TopExists(pq);
    var id :| IsTop(pq, id);
    pq[id].next
  }

  lemma NextTimeIsLeast(pq: Clocks) returns (id: Id)
    requires pq != map[]
    ensures id in pq && pq[id].next == NextTime(pq)
    ensures forall o :: o in pq ==> NextTime(pq) <= pq[o].next
  {
    TopExists(pq);
    id :| IsTop(pq, id) && pq[id].next == NextTime(pq);
  }

  lemma TopTime(pq: Clocks, id: Id)
    requires IsTop(pq, id)
    ensures pq != map[] && NextTime(pq) == pq[id].next
  {
    var o := NextTimeIsLeast(pq);
  }

  /** Exactly the clocks with an edge at t toggle. */
  function Toggled(pq: Clocks, t: int): (r: Clocks)
    ensures r.Keys == pq.Keys
  {
    map id | id in pq :: if pq[id].next == t then Tock(pq[id]) else pq[id]
  }

  // ----- runs ------------------------------------------------------------------

  /** times: when next() has been called, in order; birth and toggles: when each clock was
      registered and how often it has toggled. */
  datatype State = State(cur: int, pq: Clocks, times: seq<int>, birth: map<Id, int>, toggles: map<Id, nat>)

  function Start(): State {
    State(0, map[], [], map[], map[])
  }

  /** Registering a clock, or a call of next(). */
  datatype Event = Register(id: Id, cycle: int) | Next

  /** Every registration is a new clock with a cycle of at least two; next() needs a clock. */
  predicate Legal(s: State, e: Event) {
    match e
    case Register(id, cycle) => id !in s.pq && cycle >= 2
    case Next => s.pq != map[]
  }

  ghost function Step(s: State, e: Event): State
    requires Legal(s, e)
    requires s.toggles.Keys == s.pq.Keys
  {
    match e
    case Register(id, cycle) =>
      State(s.cur, s.pq[id := Clock(cycle, s.cur + Half(cycle), false)], s.times,
            s.birth[id := s.cur], s.toggles[id := 0])
    case Next =>
      var t := NextTime(s.pq);
      State(t, Toggled(s.pq, t), s.times + [t], s.birth,
            map id | id in s.pq :: if s.pq[id].next == t then s.toggles[id] + 1 else s.toggles[id])
  }

  predicate Sized(s: State) {
    s.toggles.Keys == s.pq.Keys == s.birth.Keys
  }

  /** The time of the k-th edge of a clock. */
  function EdgeTime(birth: int, half: int, k: nat): int {
    birth + k * half
  }

  /** A clock's level and next edge as its toggle count determines them, and the next edge within
      the half period after the present. */
  predicate OnTime(c: Clock, birth: int, toggles: nat, cur: int) {
    var h := Half(c.cycle);
    && h >= 1
    && c.next == EdgeTime(birth, h, toggles + 1)
    && c.clk == (toggles % 2 == 1)
    && c.next - h <= cur < c.next
  }

  lemma BornOnTime(cycle: int, cur: int)
    requires cycle >= 2
    ensures OnTime(Clock(cycle, cur + Half(cycle), false), cur, 0, cur)
  {
  }

  lemma ToggleOnTime(c: Clock, birth: int, toggles: nat, cur: int)
    requires OnTime(c, birth, toggles, cur)
    ensures OnTime(Tock(c), birth, toggles + 1, c.next)
  {
    Distribute(toggles + 1, 1, Half(c.cycle));
  }

  lemma WaitOnTime(c: Clock, birth: int, toggles: nat, cur: int, t: int)
    requires OnTime(c, birth, toggles, cur) && cur <= t < c.next
    ensures OnTime(c, birth, toggles, t)
  {
  }

  predicate ClockInv(s: State, id: Id)
    requires Sized(s) && id in s.pq
  {
    OnTime(s.pq[id], s.birth[id], s.toggles[id], s.cur)
  }

  /** t is when clock id toggled for the k-th time. */
  predicate IsEdge(s: State, t: int, id: Id, k: nat)
    requires Sized(s)
  {
    id in s.pq && 1 <= k <= s.toggles[id] && t == EdgeTime(s.birth[id], Half(s.pq[id].cycle), k)
  }

  ghost predicate Inv(s: State) {
    && Sized(s)
    && (forall id :: id in s.pq ==> ClockInv(s, id))
    && (forall i, j :: 0 <= i < j < |s.times| ==> s.times[i] < s.times[j])
    && (forall i :: 0 <= i < |s.times| ==> s.times[i] <= s.cur)
    && (forall t, id, k :: IsEdge(s, t, id, k) ==> t in s.times)
    && (forall t :: t in s.times ==> exists id, k :: IsEdge(s, t, id, k))
  }

  lemma StartInv()
    ensures Inv(Start())
  {
  }

  lemma StepClock(s: State, e: Event, id: Id)
    requires Sized(s) && (forall o :: o in s.pq ==> ClockInv(s, o)) && Legal(s, e) && id in Step(s, e).pq
    ensures ClockInv(Step(s, e), id)
  {
    hide OnTime, EdgeTime, Half, Tock, Step, NextTime, Legal;
    StepPq(s, e, id);
    if id !in s.pq {
      BornOnTime(e.cycle, s.cur);
    } else if e.Next? {
      var t := NextTime(s.pq);
      assert ClockInv(s, id);
      StepForward(s);
      if s.pq[id].next == t {
        ToggleOnTime(s.pq[id], s.birth[id], s.toggles[id], s.cur);
      } else {
        WaitOnTime(s.pq[id], s.birth[id], s.toggles[id], s.cur, t);
      }
    }
  }

  lemma StepPq(s: State, e: Event, id: Id)
    requires Sized(s) && Legal(s, e) && id in Step(s, e).pq
    ensures Sized(Step(s, e))
    ensures e.Register? ==> Step(s, e).cur == s.cur
    ensures e.Next? ==> s.pq != map[] && Step(s, e).cur == NextTime(s.pq)
    ensures id in s.pq ==> Step(s, e).birth[id] == s.birth[id]
    ensures id in s.pq && e.Register? ==> Step(s, e).pq[id] == s.pq[id] && Step(s, e).toggles[id] == s.toggles[id]
    ensures id in s.pq && e.Next? && s.pq[id].next == NextTime(s.pq) ==>
              Step(s, e).pq[id] == Tock(s.pq[id]) && Step(s, e).toggles[id] == s.toggles[id] + 1
    ensures id in s.pq && e.Next? && s.pq[id].next != NextTime(s.pq) ==>
              Step(s, e).pq[id] == s.pq[id] && Step(s, e).toggles[id] == s.toggles[id] && NextTime(s.pq) < s.pq[id].next
    ensures id !in s.pq ==>
              && e.Register? && e.id == id && e.cycle >= 2
              && Step(s, e).pq[id] == Clock(e.cycle, s.cur + Half(e.cycle), false)
              && Step(s, e).birth[id] == s.cur && Step(s, e).toggles[id] == 0
  {
    hide Half, Tock, NextTime;
    if e.Next? {
      var top := NextTimeIsLeast(s.pq);
    }
  }

  lemma OnTimeNext(c: Clock, birth: int, toggles: nat, cur: int)
    requires OnTime(c, birth, toggles, cur)
    ensures c.next == EdgeTime(birth, Half(c.cycle), toggles + 1)
  {
  }

  /** Time strictly increases. */
  lemma StepForward(s: State)
    requires Sized(s) && (forall id :: id in s.pq ==> ClockInv(s, id)) && s.pq != map[]
    ensures s.cur < NextTime(s.pq)
  {
    var id := NextTimeIsLeast(s.pq);
    assert ClockInv(s, id);
  }

  lemma StepSized(s: State, e: Event)
    requires Sized(s) && Legal(s, e)
    ensures Sized(Step(s, e)) && s.pq.Keys <= Step(s, e).pq.Keys
    ensures forall id :: id in s.pq ==> Step(s, e).birth[id] == s.birth[id] && Step(s, e).pq[id].cycle == s.pq[id].cycle
    ensures forall id :: id in s.pq ==>
              Step(s, e).toggles[id] == s.toggles[id] + if e.Next? && s.pq[id].next == NextTime(s.pq) then 1 else 0
    ensures forall id :: id in Step(s, e).pq && id !in s.pq ==> Step(s, e).toggles[id] == 0
    ensures Step(s, e).cur == if e.Next? then NextTime(s.pq) else s.cur
    ensures Step(s, e).times == s.times + if e.Next? then [NextTime(s.pq)] else []
  {
    hide Half;
  }

  lemma EdgeListed(s: State, e: Event, t: int, id: Id, k: nat)
    requires Inv(s) && Legal(s, e) && Sized(Step(s, e)) && IsEdge(Step(s, e), t, id, k)
    ensures t in Step(s, e).times
  {
    hide Half, EdgeTime, Step;
    StepSized(s, e);
    if k <= s.toggles[id] {
      assert IsEdge(s, t, id, k);
    } else {
      assert ClockInv(s, id);
    }
  }

  lemma ListedEdge(s: State, e: Event, t: int) returns (id: Id, k: nat)
    requires Inv(s) && Legal(s, e) && Sized(Step(s, e)) && t in Step(s, e).times
    ensures IsEdge(Step(s, e), t, id, k)
  {
    hide Half, EdgeTime, Step, OnTime, NextTime;
    StepSized(s, e);
    if t in s.times {
      id, k :| IsEdge(s, t, id, k);
    } else {
      id := EdgeNow(s);
      k := s.toggles[id] + 1;
    }
  }

  /** The next edge is some clock's next toggle. */
  lemma EdgeNow(s: State) returns (id: Id)
    requires Sized(s) && (forall o :: o in s.pq ==> ClockInv(s, o)) && s.pq != map[]
    ensures id in s.pq && s.pq[id].next == NextTime(s.pq)
    ensures NextTime(s.pq) == EdgeTime(s.birth[id], Half(s.pq[id].cycle), s.toggles[id] + 1)
  {
    hide Half, EdgeTime, OnTime;
    id := NextTimeIsLeast(s.pq);
    assert ClockInv(s, id);
    OnTimeNext(s.pq[id], s.birth[id], s.toggles[id], s.cur);
  }

  lemma StepInv(s: State, e: Event)
    requires Inv(s) && Legal(s, e)
    ensures Inv(Step(s, e))
    ensures if e.Next? then s.cur < Step(s, e).cur else s.cur == Step(s, e).cur
  {
    hide ClockInv, IsEdge, Half, NextTime, Step;
    StepSized(s, e);
    var s' := Step(s, e);
    if e.Next? {
      StepForward(s);
    }
    forall id | id in s'.pq ensures ClockInv(s', id) {
      StepClock(s, e, id);
    }
    forall t, id, k | IsEdge(s', t, id, k) ensures t in s'.times {
      EdgeListed(s, e, t, id, k);
    }
    forall t | t in s'.times ensures exists id, k :: IsEdge(s', t, id, k) {
      var id, k := ListedEdge(s, e, t);
    }
  }

  ghost predicate LegalRun(s: State, es: seq<Event>)
    requires Sized(s)
    decreases es
  {
    es == [] || (Legal(s, es[0]) && (StepSized(s, es[0]); LegalRun(Step(s, es[0]), es[1..])))
  }

  ghost function After(s: State, es: seq<Event>): State
    requires Sized(s) && LegalRun(s, es)
    decreases es
  {
    if es == [] then s else StepSized(s, es[0]); After(Step(s, es[0]), es[1..])
  }

  lemma {:induction false} RunInv(s: State, es: seq<Event>)
    requires Inv(s) && LegalRun(s, es)
    ensures Inv(After(s, es)) && s.cur <= After(s, es).cur
    ensures s.pq.Keys <= After(s, es).pq.Keys && s.times <= After(s, es).times
    decreases es
  {
    hide Inv, Legal, Step;
    InvSized(s);
    if es != [] {
      StepInv(s, es[0]);
      StepSized(s, es[0]);
      RunInv(Step(s, es[0]), es[1..]);
    }
  }

  lemma InvSized(s: State)
    requires Inv(s)
    ensures Sized(s)
  {
  }

  /** t is when clock id toggles for the k-th time: k half cycles after its registration, an odd cycle
      counting as one less. */
  predicate EdgeAt(s: State, t: int, id: Id, k: nat)
    requires Sized(s)
  {
    && id in s.pq && 1 <= k <= s.toggles[id]
    && var c := s.pq[id].cycle; 2 * (t - s.birth[id]) == k * (if c % 2 == 0 then c else c - 1)
  }

  lemma EdgeIs(birth: int, cycle: int, k: nat, t: int)
    requires cycle >= 2
    ensures t == EdgeTime(birth, Half(cycle), k) <==> 2 * (t - birth) == k * (if cycle % 2 == 0 then cycle else cycle - 1)
  {
    var h := Half(cycle);
    HalfIs(cycle);
    assert 2 * (k * h) == k * (2 * h);
  }

  lemma ElapsedIs(elapsed: int, cycle: int)
    requires cycle >= 2 && elapsed >= 0
    ensures elapsed / Half(cycle) == 2 * elapsed / (if cycle % 2 == 0 then cycle else cycle - 1)
  {
    var h := Half(cycle);
    HalfIs(cycle);
    var q, r := elapsed / h, elapsed % h;
    assert 2 * elapsed == q * (2 * h) + 2 * r;
    DivModUnique(2 * elapsed, 2 * h, q, 2 * r);
  }

  /** Over any interleaving of registrations and next(): every clock has toggled once for each half
      cycle since its registration, its level and next edge are those its toggle count gives, the
      times of next() strictly increase, and they are exactly the times of the clocks' edges, so no
      edge is skipped and no time is visited without one. The half cycles are exact for an even
      cycle; for an odd one each is half a time unit short. */
  lemma EveryEdgeOnTime(es: seq<Event>)
    requires LegalRun(Start(), es)
    ensures var s := After(Start(), es);
            && Sized(s)
            && (forall id :: id in s.pq ==>
                  var c, elapsed, n := s.pq[id].cycle, s.cur - s.birth[id], s.toggles[id];
                  && c >= 2 && elapsed >= 0
                  && n == 2 * elapsed / (if c % 2 == 0 then c else c - 1)
                  && s.pq[id].clk == (n % 2 == 1)
                  && 2 * (s.pq[id].next - s.birth[id]) == (n + 1) * (if c % 2 == 0 then c else c - 1))
            && (forall i, j :: 0 <= i < j < |s.times| ==> s.times[i] < s.times[j])
            && (forall t :: t in s.times <==> exists id, k :: EdgeAt(s, t, id, k))
  {
    hide After, LegalRun, Half, EdgeTime, EdgeAt, IsEdge, OnTime;
    StartInv();
    RunInv(Start(), es);
    var s := After(Start(), es);
    forall id | id in s.pq
      ensures var c, elapsed, n := s.pq[id].cycle, s.cur - s.birth[id], s.toggles[id];
              && c >= 2 && elapsed >= 0
              && n == 2 * elapsed / (if c % 2 == 0 then c else c - 1)
              && s.pq[id].clk == (n % 2 == 1)
              && 2 * (s.pq[id].next - s.birth[id]) == (n + 1) * (if c % 2 == 0 then c else c - 1)
    {
      assert ClockInv(s, id);
      OnTimeIs(s.pq[id], s.birth[id], s.toggles[id], s.cur);
    }
    forall t, id, k ensures IsEdge(s, t, id, k) <==> EdgeAt(s, t, id, k) {
      SameEdge(s, t, id, k);
    }
  }

  lemma OnTimeIs(c: Clock, birth: int, toggles: nat, cur: int)
    requires OnTime(c, birth, toggles, cur)
    ensures c.cycle >= 2 && cur >= birth
    ensures toggles == 2 * (cur - birth) / (if c.cycle % 2 == 0 then c.cycle else c.cycle - 1)
    ensures c.clk == (toggles % 2 == 1)
    ensures 2 * (c.next - birth) == (toggles + 1) * (if c.cycle % 2 == 0 then c.cycle else c.cycle - 1)
  {
    hide Half;
    HalfIs(c.cycle);
    ElapsedToggles(c, birth, toggles, cur);
    Distribute(toggles, 1, Half(c.cycle));
    MulMonotone(0, toggles, Half(c.cycle));
    ElapsedIs(cur - birth, c.cycle);
    EdgeIs(birth, c.cycle, toggles + 1, c.next);
  }

  lemma SameEdge(s: State, t: int, id: Id, k: nat)
    requires Sized(s) && forall o :: o in s.pq ==> ClockInv(s, o)
    ensures IsEdge(s, t, id, k) <==> EdgeAt(s, t, id, k)
  {
    hide EdgeTime, Half;
    if id in s.pq {
      assert ClockInv(s, id);
      HalfIs(s.pq[id].cycle);
      EdgeIs(s.birth[id], s.pq[id].cycle, k, t);
    }
  }

  lemma ElapsedToggles(c: Clock, birth: int, toggles: nat, cur: int)
    requires OnTime(c, birth, toggles, cur)
    ensures toggles == (cur - birth) / Half(c.cycle)
  {
    var h := Half(c.cycle);
    Distribute(toggles, 1, h);
    DivModUnique(cur - birth, h, toggles, cur - birth - toggles * h);
  }

  /** With a cycle too short to halve, time stands still, and goes back with a negative one: next()
      moves it on if and only if the cycle is at least two. */
  lemma TimeAdvancesIff(cur: int, cycle: int, id: Id)
    ensures var pq: Clocks := map[id := Clock(cycle, cur + Half(cycle), false)];
            && id in pq && (NextTime(pq) > cur <==> cycle >= 2) && (NextTime(pq) == cur <==> -1 <= cycle <= 1)
            && (-1 <= cycle <= 1 ==> id in Toggled(pq, cur) && NextTime(Toggled(pq, cur)) == cur)
  {
    var pq: Clocks := map[id := Clock(cycle, cur + Half(cycle), false)];
    assert id in Toggled(pq, cur);
    TopTime(pq, id);
    TopTime(Toggled(pq, cur), id);
  }

  // ----- the class ----------------------------------------------------------------

  class BsgTimekeeper {
    var cur: int
    var pq: Clocks

    constructor ()
      ensures cur == Start().cur == 0 && pq == Start().pq == map[]
    {
      cur, pq := 0, map[];
    }

    method RegisterClock(id: Id, cycle: int) returns (size: nat)
      requires id !in pq
      modifies this
      ensures cur == old(cur) && pq == old(pq)[id := Clock(cycle, cur + Half(cycle), false)]
      ensures 2 * (pq[id].next - cur) == if cycle % 2 == 0 then cycle else if cycle > 0 then cycle - 1 else cycle + 1
      ensures size == |pq|
    {
      HalfIs(cycle);
      pq := pq[id := Clock(cycle, cur + Half(cycle), false)];
      size := |pq|;
    }

    /** pq.top(): which of several least clocks is not determined. */
    method Top() returns (id: Id)
      requires pq != map[]
      ensures IsTop(pq, id)
    {
      TopExists(pq);
      id :| id in pq && IsTop(pq, id);
    }

    /** Time moves to the least next edge of all, exactly the clocks with that edge toggle, and the
        collection is the same as before. */
    method NextEdge()
      requires pq != map[]
      modifies this
      ensures cur == NextTime(old(pq)) && pq == Toggled(old(pq), cur)
    {
      ghost var all := pq;
      var temp, nextTimeval := PopDue();
      cur := nextTimeval;
      while temp != []
        invariant cur == nextTimeval && Rebuilt(pq, temp) == Toggled(all, nextTimeval)
        decreases |temp|
      {
        pq := pq[temp[0].0 := temp[0].1];
        temp := temp[1..];
      }
    }

    /** The first loop: every clock due at the least next edge is popped and toggled. */
    method PopDue() returns (temp: seq<(Id, Clock)>, nextTimeval: int)
      requires pq != map[]
      modifies this`pq
      ensures nextTimeval == NextTime(old(pq))
      ensures Rebuilt(pq, temp) == Toggled(old(pq), nextTimeval)
    {
      hide NextTime, Without;
      ghost var all := pq;
      temp := [];
      var id := Top();
      nextTimeval := pq[id].next;
      TopTime(pq, id);
      var more := true;
      while more
        invariant more ==> IsTop(pq, id) && pq[id].next == nextTimeval
        invariant !more ==> forall o :: o in pq ==> nextTimeval < pq[o].next
        invariant forall o :: o in pq ==> o in all && pq[o] == all[o]
        invariant forall o :: o in all && o !in pq ==> all[o].next == nextTimeval
        invariant Rebuilt(pq, temp) == Halfway(all, pq)
        decreases |pq|, more
      {
        RebuiltPop(pq, temp, id);
        WithoutFacts(pq, id);
        HalfwayPop(all, pq, id);
        temp := temp + [(id, Tock(pq[id]))];
        pq := Without(pq, id);
        if pq == map[] {
          more := false;
        } else {
          id := Top();
          TopAfter(all, pq, id, nextTimeval);
          more := pq[id].next == nextTimeval;
        }
      }
      HalfwayDone(all, pq, nextTimeval);
    }
  }

  /** pq with the clocks of temp pushed back, one after the other. */
  function Rebuilt(pq: Clocks, temp: seq<(Id, Clock)>): Clocks
    decreases |temp|
  {
    if temp == [] then pq else Rebuilt(pq[temp[0].0 := temp[0].1], temp[1..])
  }

  /** The clocks missing from pq have toggled. */
  function Halfway(all: Clocks, pq: Clocks): Clocks {
    map id | id in all :: if id in pq then all[id] else Tock(all[id])
  }

  lemma WithoutFacts(pq: Clocks, id: Id)
    requires id in pq
    ensures Without(pq, id).Keys == pq.Keys - {id} && |Without(pq, id)| < |pq|
    ensures forall o :: o in pq && o != id ==> Without(pq, id)[o] == pq[o]
  {
    var rest := Without(pq, id);
    assert rest.Keys == pq.Keys - {id};
    assert |rest| == |rest.Keys| && |pq| == |pq.Keys|;
  }

  lemma {:induction false} RebuiltAppend(pq: Clocks, temp: seq<(Id, Clock)>, p: (Id, Clock))
    ensures Rebuilt(pq, temp + [p]) == Rebuilt(pq, temp)[p.0 := p.1]
    decreases |temp|
  {
    if temp == [] {
      assert temp + [p] == [p];
    } else {
      assert (temp + [p])[0] == temp[0] && (temp + [p])[1..] == temp[1..] + [p];
      RebuiltAppend(pq[temp[0].0 := temp[0].1], temp[1..], p);
    }
  }

  lemma {:induction false} RebuiltAgree(a: Clocks, b: Clocks, temp: seq<(Id, Clock)>, id: Id, c: Clock)
    requires a[id := c] == b[id := c]
    ensures Rebuilt(a, temp)[id := c] == Rebuilt(b, temp)[id := c]
    decreases |temp|
  {
    if temp != [] {
      var a', b' := a[temp[0].0 := temp[0].1], b[temp[0].0 := temp[0].1];
      assert a'[id := c] == b'[id := c] by {
        UpdateBoth(a, b, id, c, temp[0].0, temp[0].1);
      }
      RebuiltAgree(a', b', temp[1..], id, c);
    }
  }

  lemma UpdateBoth(a: Clocks, b: Clocks, id: Id, c: Clock, o: Id, d: Clock)
    requires a[id := c] == b[id := c]
    ensures a[o := d][id := c] == b[o := d][id := c]
  {
    var p, q := a[id := c], b[id := c];
    assert forall k :: k in a && k != id ==> k in p && p[k] == a[k];
    assert forall k :: k in b && k != id ==> k in q && q[k] == b[k];
    assert a[o := d][id := c].Keys == b[o := d][id := c].Keys by {
      assert p.Keys == a.Keys + {id} && q.Keys == b.Keys + {id};
      assert a[o := d][id := c].Keys == p.Keys + {o} && b[o := d][id := c].Keys == q.Keys + {o};
    }
  }

  /** Popping a clock now and pushing it back toggled later toggles it. */
  lemma RebuiltPop(pq: Clocks, temp: seq<(Id, Clock)>, id: Id)
    requires id in pq
    ensures Rebuilt(Without(pq, id), temp + [(id, Tock(pq[id]))]) == Rebuilt(pq, temp)[id := Tock(pq[id])]
  {
    var c := Tock(pq[id]);
    RebuiltAppend(Without(pq, id), temp, (id, c));
    assert Without(pq, id)[id := c] == pq[id := c];
    RebuiltAgree(Without(pq, id), pq, temp, id, c);
  }

  lemma HalfwayPop(all: Clocks, pq: Clocks, id: Id)
    requires id in pq && id in all
    ensures Halfway(all, Without(pq, id)) == Halfway(all, pq)[id := Tock(all[id])]
  {
  }

  /** The rest's top is due, or nothing is. */
  lemma TopAfter(all: Clocks, pq: Clocks, id: Id, t: int)
    requires all != map[] && t == NextTime(all) && IsTop(pq, id)
    requires forall o :: o in pq ==> o in all && pq[o] == all[o]
    ensures pq[id].next != t ==> forall o :: o in pq ==> t < pq[o].next
  {
    var o := NextTimeIsLeast(all);
  }

  lemma HalfwayDone(all: Clocks, pq: Clocks, t: int)
    requires forall o :: o in pq ==> o in all && pq[o] == all[o] && t < pq[o].next
    requires forall o :: o in all && o !in pq ==> all[o].next == t
    ensures Halfway(all, pq) == Toggled(all, t)
  {
  }
}
