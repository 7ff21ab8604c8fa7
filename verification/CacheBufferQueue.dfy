/** bsg_cache_buffer_queue: two registers that behave as a FIFO whose input is visible at the
    output in the same cycle when it is empty. */
module CacheBufferQueue {

  /** num: the two-bit num_els_r; el1 is the head, el0 the tail. */
  datatype Queue<T> = Queue(num: nat, el0: T, el1: T)

  /** What the queue holds, oldest first; the third code of num is an overflow and holds nothing. */
  function Contents<T>(q: Queue<T>): seq<T> {
    if q.num == 1 then [q.el1] else if q.num == 2 then [q.el1, q.el0] else []
  }

  predicate Full<T>(q: Queue<T>) {
    q.num == 2
  }

  /** v_o */
  predicate OutValid<T>(q: Queue<T>, v: bool) {
    if q.num == 0 then v else q.num == 1 || q.num == 2
  }

  /** data_o */
  function DataOut<T>(q: Queue<T>, data: T): T {
    if q.num == 1 || q.num == 2 then q.el1 else data
  }

  predicate Enable0<T>(q: Queue<T>, v: bool, yumi: bool) {
    if q.num == 1 then v && !yumi else q.num == 2 && v && yumi
  }

  predicate Enable1<T>(q: Queue<T>, v: bool, yumi: bool) {
    match q.num
    case 0 => v && !yumi
    case 1 => v && yumi
    case 2 => yumi
    case _ => false
  }

  function Bit(b: bool): nat {
    if b then 1 else 0
  }

  function Next<T>(q: Queue<T>, v: bool, data: T, yumi: bool): Queue<T> {
    Queue(
      (q.num + Bit(v) - Bit(OutValid(q, v) && yumi)) % 4,
      if Enable0(q, v, yumi) then data else q.el0,
      if Enable1(q, v, yumi) then if q.num == 2 then q.el0 else data else q.el1)
  }

  /** The input goes in behind what is held, and the output comes off the front of both. */
  function Offered<T>(q: Queue<T>, v: bool, data: T): seq<T> {
    Contents(q) + if v then [data] else []
  }

  /** One cycle of the queue is one cycle of an unbounded FIFO with bypass, unless a third element
      arrives while none leaves; exactly then the count runs into its unused code. */
  lemma RefinesFifo<T>(q: Queue<T>, v: bool, data: T, yumi: bool)
    requires q.num <= 2
    ensures OutValid(q, v) <==> Offered(q, v, data) != []
    ensures OutValid(q, v) ==> DataOut(q, data) == Offered(q, v, data)[0]
    ensures Next(q, v, data, yumi).num <= 2 <==> !(Full(q) && v && !yumi)
    ensures Next(q, v, data, yumi).num <= 2 && (yumi ==> OutValid(q, v)) ==>
              Contents(Next(q, v, data, yumi)) == Offered(q, v, data)[Bit(yumi)..]
  {
  }

  /** The history of a run: what was put in and what was taken out. */
  datatype Run<T> = Run(q: Queue<T>, put: seq<T>, taken: seq<T>)

  datatype Transfer<T> = Transfer(v: bool, data: T, yumi: bool)

  /** The users' obligations: take only what is offered, and never put a third element. */
  predicate Legal<T>(q: Queue<T>, c: Transfer<T>) {
    (c.yumi ==> OutValid(q, c.v)) && !(Full(q) && c.v && !c.yumi)
  }

  function Advance<T>(r: Run<T>, c: Transfer<T>): Run<T> {
    Run(Next(r.q, c.v, c.data, c.yumi),
        if c.v then r.put + [c.data] else r.put,
        if c.yumi then r.taken + [DataOut(r.q, c.data)] else r.taken)
  }

  predicate LegalRun<T>(r: Run<T>, cs: seq<Transfer<T>>)
    decreases cs
  {
    cs == [] || (Legal(r.q, cs[0]) && LegalRun(Advance(r, cs[0]), cs[1..]))
  }

  function AfterRun<T>(r: Run<T>, cs: seq<Transfer<T>>): Run<T>
    decreases cs
  {
    if cs == [] then r else AfterRun(Advance(r, cs[0]), cs[1..])
  }

  predicate Conserves<T(==)>(r: Run<T>) {
    r.q.num <= 2 && r.put == r.taken + Contents(r.q)
  }

  lemma AdvanceConserves<T>(r: Run<T>, c: Transfer<T>)
    requires Conserves(r) && Legal(r.q, c)
    ensures Conserves(Advance(r, c))
  {
    hide Next, OutValid, DataOut;
    RefinesFifo(r.q, c.v, c.data, c.yumi);
    var all := Offered(r.q, c.v, c.data);
    assert Advance(r, c).put == r.taken + all;
    if c.yumi {
      assert all == [all[0]] + all[1..];
    }
  }

  /** Over any run everything put in comes out once, in order, but for at most two held. */
  lemma {:induction false} RunConserves<T>(r: Run<T>, cs: seq<Transfer<T>>)
    requires Conserves(r) && LegalRun(r, cs)
    ensures Conserves(AfterRun(r, cs))
    decreases cs
  {
    hide Conserves, Legal, Advance;
    if cs != [] {
      AdvanceConserves(r, cs[0]);
      RunConserves(Advance(r, cs[0]), cs[1..]);
    }
  }

  class BufferQueue<T> {
    var num: nat
    var el0: T
    var el1: T

    ghost function Registers(): Queue<T>
      reads this
    {
      Queue(num, el0, el1)
    }

    /** The data registers power up with any contents; reset clears only the count. */
    constructor (el0: T, el1: T)
      ensures Contents(Registers()) == [] && num == 0
    {
      this.num, this.el0, this.el1 := 0, el0, el1;
    }

    method Outputs(v: bool, data: T) returns (vOut: bool, dataOut: T)
      requires num <= 2
      ensures vOut <==> Offered(Registers(), v, data) != []
      ensures vOut ==> dataOut == Offered(Registers(), v, data)[0]
      ensures vOut == OutValid(Registers(), v) && dataOut == DataOut(Registers(), data)
    {
      vOut, dataOut := v, data;
      if num == 1 || num == 2 {
        vOut, dataOut := true, el1;
      }
    }

    method Clock(reset: bool, v: bool, data: T, yumi: bool)
      requires num <= 2 && (yumi ==> OutValid(Registers(), v))
      requires !(Full(Registers()) && v && !yumi)
      modifies this
      ensures reset ==> Contents(Registers()) == []
      ensures !reset ==> Registers() == Next(old(Registers()), v, data, yumi)
      ensures !reset ==> Contents(Registers()) == old(Offered(Registers(), v, data)[Bit(yumi)..])
      ensures num <= 2
    {
      RefinesFifo(Registers(), v, data, yumi);
      var enable0, enable1 := Enable0(Queue(num, el0, el1), v, yumi), Enable1(Queue(num, el0, el1), v, yumi);
      var next := (num + Bit(v) - Bit((num > 0 || v) && yumi)) % 4;
      if enable1 {
        el1 := if num == 2 then el0 else data;
      }
      if enable0 {
        el0 := data;
      }
      num := if reset then 0 else next;
    }
  }
}
