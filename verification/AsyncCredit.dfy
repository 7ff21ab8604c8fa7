/** bsg_async_credit_counter: tokens arrive in one clock domain, credits are spent in
    another, and only a Gray-coded token count crosses between them. */
module AsyncCredit {
  import opened Powers
  import opened GrayCode
  import opened AsyncPointer

  /** max: max_tokens_p; width: bits of the token counter; lg: log2 of credits per token;
      full: start_full_p. */
  datatype Config = Config(max: nat, width: nat, lg: nat, full: bool)

  predicate ValidConfig(g: Config) {
    g.max < Pow2(g.width)
  }

  /** Tokens the spender may use before any arrive. */
  function InitialTokens(g: Config): nat {
    if g.full then g.max else 0
  }

  /** Registers of both domains; received and spent count what has happened since reset. */
  datatype State = State(tokens: Pointer, spentReg: Bits, received: nat, spent: nat)

  /** The reset value { -max, lg zeros }: minus the initial tokens modulo 2^width, then
      lg zero bits below it. */
  function ResetState(g: Config): State
    requires ValidConfig(g)
  {
    State(ResetPointer(g.width), ToBits(0, g.lg) + ToBits(MinusInitial(g), g.width), 0, 0)
  }

  function MinusInitial(g: Config): nat
    requires ValidConfig(g)
  {
    if InitialTokens(g) == 0 then 0 else Pow2(g.width) - InitialTokens(g)
  }

  /** r_credits_avail_o: any low bit of the spend counter set, or its high bits'
      Gray code different from the synchronised token count. */
  predicate Available(s: State, g: Config, infinite: bool)
    requires |s.spentReg| == g.lg + g.width
  {
    infinite || AnyBit(s.spentReg[..g.lg]) || Gray(s.spentReg[g.lg..]) != s.tokens.sync2
  }

  predicate AnyBit(b: Bits) {
    exists i :: 0 <= i < |b| && b[i]
  }

  /** Clock edges: a token may arrive with the receiving clock, a credit be spent with the other. */
  datatype Event =
    | ReceiveClock(token: bool)
    | SpendClock(spend: bool)
    | BothClocks(token: bool, spend: bool, sample: Bits)

  predicate Spends(e: Event) {
    !e.ReceiveClock? && e.spend
  }

  predicate Receives(e: Event) {
    !e.SpendClock? && e.token
  }

  function TokenEdge(e: Event): Edge {
    match e
    case ReceiveClock(token) => Launch(token)
    case SpendClock(_) => Sync
    case BothClocks(token, _, sample) => Coincident(token, sample)
  }

  function Next(s: State, e: Event): State {
    State(
      Step(s.tokens, TokenEdge(e)),
      if Spends(e) then Increment(s.spentReg) else s.spentReg,
      s.received + (if Receives(e) then 1 else 0),
      s.spent + (if Spends(e) then 1 else 0))
  }

  /** The spender spends only while credits are shown as available. */
  predicate Legal(s: State, g: Config, e: Event)
    requires |s.spentReg| == g.lg + g.width
  {
    (Spends(e) ==> Available(s, g, false)) && Possible(s.tokens, TokenEdge(e))
  }

  predicate LegalRun(s: State, g: Config, es: seq<Event>)
    decreases es
  {
    es == [] ||
    (|s.spentReg| == g.lg + g.width && Legal(s, g, es[0]) && LegalRun(Next(s, es[0]), g, es[1..]))
  }

  function Run(s: State, es: seq<Event>): State
    decreases es
  {
    if es == [] then s else Run(Next(s, es[0]), es[1..])
  }

  /** Credits the spender has not used, out of the tokens it can see. */
  function FreeCredits(g: Config, seen: nat, spent: nat): int {
    (InitialTokens(g) + seen) * Pow2(g.lg) - spent
  }

  /** The spend counter holds the spent credits minus the initial allowance, modulo its range:
      offset is a non-negative representative of that negative start. */
  function Offset(g: Config): nat
    requires ValidConfig(g)
  {
    MinusInitial(g) * Pow2(g.lg)
  }

  predicate Inv(s: State, g: Config, c: Counts)
    requires ValidConfig(g)
  {
    && Tracks(s.tokens, g.width, c)
    && c.sent == s.received
    && s.spentReg == ToBits(Offset(g) + s.spent, g.lg + g.width)
    && FreeCredits(g, c.sync2, s.spent) >= 0
  }

  /** Concatenating zeros below a register multiplies its value. */
  lemma {:induction false} ZerosBelow(n: nat, w: nat, k: nat)
    ensures ToBits(0, k) + ToBits(n, w) == ToBits(n * Pow2(k), k + w)
  {
    if k == 0 {
      assert ToBits(0, k) + ToBits(n, w) == ToBits(n, w);
    } else {
      ZerosBelow(n, w, k - 1);
      assert n * Pow2(k) == 2 * (n * Pow2(k - 1));
      assert ToBits(0, k) + ToBits(n, w) == [false] + (ToBits(0, k - 1) + ToBits(n, w));
    }
  }

  lemma {:induction false} AnyBitIsNonzero(n: nat, w: nat)
    ensures AnyBit(ToBits(n, w)) <==> n % Pow2(w) != 0
  {
    if w > 0 {
      AnyBitIsNonzero(n / 2, w - 1);
      Halve(n, Pow2(w - 1));
      var b := ToBits(n, w);
      assert b[0] == (n % 2 == 1) && b[1..] == ToBits(n / 2, w - 1);
      if i :| 0 <= i < w - 1 && b[1..][i] {
        assert b[i + 1];
      }
      if i :| 0 <= i < w && b[i] {
        assert i > 0 ==> b[1..][i - 1];
      }
    }
  }

  /** The low-bit shortcut and the Gray comparison of the high bits together compare the
      whole spend counter with the padded token count. */
  lemma ComparesWhole(n: nat, t: nat, lg: nat, w: nat)
    ensures n % Pow2(lg) == 0 && n / Pow2(lg) % Pow2(w) == t % Pow2(w)
       <==> n % Pow2(lg + w) == (t * Pow2(lg)) % Pow2(lg + w)
  {
    hide Pow2;
    Pow2Add(lg, w);
    ComparesDigits(n, n / Pow2(lg), n % Pow2(lg), t, Pow2(lg), Pow2(w), Pow2(lg + w));
  }

  lemma ComparesDigits(n: nat, q: nat, r: nat, t: nat, p: nat, m: nat, pm: nat)
    requires r < p && m > 0 && n == q * p + r && pm == p * m
    ensures pm > 0
    ensures r == 0 && q % m == t % m <==> n % pm == (t * p) % pm
  {
    Padded(q, r, p, m);
    Padded(t, 0, p, m);
    SameDigits(q % m, r, t % m, p);
  }

  lemma SameDigits(a: nat, r: nat, b: nat, p: nat)
    requires r < p
    ensures a * p + r == b * p <==> a == b && r == 0
  {
    if a * p + r == b * p {
      DivModUnique(b * p, p, a, r);
      DivModUnique(b * p, p, b, 0);
    }
  }

  /** (q p + r) mod (p m) in terms of q mod m. */
  lemma Padded(q: nat, r: nat, p: nat, m: nat)
    requires p > 0 && m > 0 && r < p
    ensures p * m > 0 && (q * p + r) % (p * m) == q % m * p + r
  {
    var k, j := q / m, q % m;
    assert q * p == k * (p * m) + j * p by {
      assert q == k * m + j;
      assert (k * m + j) * p == k * m * p + j * p;
    }
    assert 0 <= j * p + r < p * m by {
      assert j * p <= (m - 1) * p;
      assert (m - 1) * p == p * m - p;
    }
    DivModUnique(q * p + r, p * m, k, j * p + r);
  }

  /** The whole range of the spend counter is one full revolution of the token counter. */
  lemma OffsetFree(g: Config, seen: nat, spent: nat)
    requires ValidConfig(g)
    ensures var m := Pow2(g.lg + g.width);
            (Offset(g) + spent) % m == (seen * Pow2(g.lg)) % m <==> FreeCredits(g, seen, spent) % m == 0
  {
    hide Pow2;
    var p, m := Pow2(g.lg), Pow2(g.lg + g.width);
    var i: int := InitialTokens(g);
    Pow2Add(g.lg, g.width);
    var k := if i == 0 then 0 else 1;
    assert Offset(g) == k * m - i * p by {
      Distribute(Pow2(g.width), -i, p);
    }
    Distribute(i, seen, p);
    SumCongruent(Offset(g) + spent, FreeCredits(g, seen, spent), seen * p, k, m);
  }

  /** x + f = y + k m: then x and y agree modulo m exactly when f is a multiple of m. */
  lemma SumCongruent(x: int, f: int, y: int, k: int, m: int)
    requires m > 0 && x + f == y + k * m
    ensures x % m == y % m <==> f % m == 0
  {
    if f % m == 0 {
      MultipleShift(x, y, k - f / m, m) by {
        Distribute(k, -(f / m), m);
        assert f == f / m * m + f % m;
      }
    }
    if x % m == y % m {
      MultipleShift(f, 0, y / m - x / m + k, m) by {
        Distribute(y / m - x / m, k, m);
        Distribute(y / m, -(x / m), m);
        assert x == x / m * m + x % m && y == y / m * m + y % m;
      }
    }
  }

  lemma MultipleShift(a: int, b: int, q: int, m: int)
    requires m > 0 && a == b + q * m
    ensures a % m == b % m
  {
    ModShift(b, q, m);
  }

  /** Availability is false exactly when the credits the spender knows to be free are a
      multiple of the counter's range, despite wrap-around and the low-bit shortcut. */
  lemma AvailableExact(s: State, g: Config, c: Counts)
    requires ValidConfig(g) && Inv(s, g, c)
    ensures !Available(s, g, false) <==> FreeCredits(g, c.sync2, s.spent) % Pow2(g.lg + g.width) == 0
  {
    hide Gray, ToBits, AnyBit, FreeCredits, Offset, Pow2;
    var n := Offset(g) + s.spent;
    ToBitsSlice(n, g.lg + g.width, g.lg);
    AnyBitIsNonzero(n, g.lg);
    GrayEqual(n / Pow2(g.lg), c.sync2, g.width);
    ComparesWhole(n, c.sync2, g.lg, g.width);
    OffsetFree(g, c.sync2, s.spent);
  }

  lemma ResetInv(g: Config)
    requires ValidConfig(g)
    ensures Inv(ResetState(g), g, Counts(0, 0, 0))
  {
    hide ToBits, GrayOf;
    ResetTracks(g.width);
    ZerosBelow(MinusInitial(g), g.width, g.lg);
  }

  lemma TracksOrdered(p: Pointer, w: nat, c: Counts)
    requires Tracks(p, w, c)
    ensures c.sync2 <= c.sync1 <= c.sent
  {
    hide ToBits, GrayOf;
  }

  lemma StepInv(s: State, g: Config, c: Counts, e: Event) returns (c': Counts)
    requires ValidConfig(g) && Inv(s, g, c) && Legal(s, g, e)
    ensures Inv(Next(s, e), g, c') && Follows(c, TokenEdge(e), c')
  {
    hide ToBits, Tracks, Step, Possible, Available, Offset, Pow2;
    AvailableExact(s, g, c);
    TracksOrdered(s.tokens, g.width, c);
    IncrementCounts(Offset(g) + s.spent, g.lg + g.width);
    c' := StepTracks(s.tokens, g.width, c, TokenEdge(e));
    MoreSeenMoreFree(g, c.sync2, c'.sync2, s.spent);
  }

  lemma MoreSeenMoreFree(g: Config, a: nat, b: nat, spent: nat)
    requires a <= b
    ensures FreeCredits(g, a, spent) <= FreeCredits(g, b, spent)
    ensures FreeCredits(g, a, spent + 1) == FreeCredits(g, a, spent) - 1
    ensures FreeCredits(g, b, spent + 1) == FreeCredits(g, b, spent) - 1
  {
    assert (InitialTokens(g) + b) * Pow2(g.lg)
        == (InitialTokens(g) + a) * Pow2(g.lg) + (b - a) * Pow2(g.lg);
  }

  /** Clock edges of the spending domain. */
  function SpendEdges(es: seq<Event>): nat
    decreases es
  {
    if es == [] then 0 else (if es[0].ReceiveClock? then 0 else 1) + SpendEdges(es[1..])
  }

  predicate NoTokens(es: seq<Event>) {
    forall i :: 0 <= i < |es| ==> !Receives(es[i])
  }

  /** The invariant holds over every run, the counts seen only advance, and two edges of the spending
      domain bring them up to where the token count was. */
  lemma {:induction false} RunInv(s: State, g: Config, c: Counts, es: seq<Event>) returns (c': Counts)
    requires ValidConfig(g) && Inv(s, g, c) && LegalRun(s, g, es)
    ensures Inv(Run(s, es), g, c')
    ensures c.sync1 <= c'.sync1 && c.sync2 <= c'.sync2
    ensures SpendEdges(es) >= 1 ==> c'.sync1 >= c.sent && c'.sync2 >= c.sync1
    ensures SpendEdges(es) >= 2 ==> c'.sync2 >= c.sent
    ensures NoTokens(es) ==> c'.sent == c.sent
    decreases es
  {
    hide Legal, Tracks, Offset, FreeCredits, ToBits, Step;
    if es == [] {
      c' := c;
    } else {
      var d := StepInv(s, g, c, es[0]);
      TracksOrdered(s.tokens, g.width, c);
      c' := RunInv(Next(s, es[0]), g, d, es[1..]);
    }
  }

  /** Over every run that spends only when credits are shown, the credits spent never exceed
      the initial ones plus those of the tokens received, and once they are all spent the
      counter says so. */
  lemma NeverOverspends(g: Config, es: seq<Event>)
    requires ValidConfig(g) && LegalRun(ResetState(g), g, es)
    ensures var s := Run(ResetState(g), es);
            && s.spent <= ((if g.full then g.max else 0) + s.received) * Pow2(g.lg)
            && |s.spentReg| == g.lg + g.width
            && (s.spent == ((if g.full then g.max else 0) + s.received) * Pow2(g.lg) ==> !Available(s, g, false))
  {
    hide ToBits, GrayOf, LegalRun, Run, Available, Offset, Pow2;
    ResetInv(g);
    var c := RunInv(ResetState(g), g, Counts(0, 0, 0), es);
    var s := Run(ResetState(g), es);
    MoreSeenMoreFree(g, c.sync2, s.received, s.spent);
    AvailableExact(s, g, c);
    if s.spent == (InitialTokens(g) + s.received) * Pow2(g.lg) {
      assert FreeCredits(g, c.sync2, s.spent) == 0;
      assert 0 % Pow2(g.lg + g.width) == 0;
    }
  }

  /** With the receiver never over-returning beyond the range, the flag is exact:
      unavailable if and only if no credit the spender knows of is free. */
  lemma UnavailableMeansNone(s: State, g: Config, c: Counts)
    requires ValidConfig(g) && Inv(s, g, c) && FreeCredits(g, s.received, s.spent) < Pow2(g.lg + g.width)
    ensures !Available(s, g, false) <==> FreeCredits(g, c.sync2, s.spent) == 0
  {
    hide ToBits, GrayOf, Available, FreeCredits, Offset, Pow2;
    AvailableExact(s, g, c);
    MoreSeenMoreFree(g, c.sync2, s.received, s.spent);
    var m, f := Pow2(g.lg + g.width), FreeCredits(g, c.sync2, s.spent);
    if f % m == 0 {
      assert 0 % m == 0;
      CloseAndCongruent(f, 0, m);
    }
  }

  /** The same over whole runs, as long as no more credits are outstanding than the counter's range:
      the flag is low if and only if none is free of those tokens the spender has seen, which it has
      seen all of once no token has come for two of its clock edges. */
  lemma AvailabilitySettles(g: Config, before: seq<Event>, quiet: seq<Event>) returns (seen: nat)
    requires ValidConfig(g) && LegalRun(ResetState(g), g, before + quiet) && NoTokens(quiet)
    ensures var s := Run(ResetState(g), before + quiet);
            && seen <= s.received && (SpendEdges(quiet) >= 2 ==> seen == s.received)
            && |s.spentReg| == g.lg + g.width && FreeCredits(g, seen, s.spent) >= 0
            && (FreeCredits(g, s.received, s.spent) < Pow2(g.lg + g.width) ==>
                  (!Available(s, g, false) <==> FreeCredits(g, seen, s.spent) == 0))
  {
    hide ToBits, GrayOf, Available, FreeCredits, Offset, Pow2, LegalRun, Run, Legal, Next;
    ResetInv(g);
    RunAppend(ResetState(g), g, before, quiet);
    var m := Run(ResetState(g), before);
    var c := RunInv(ResetState(g), g, Counts(0, 0, 0), before);
    var c' := RunInv(m, g, c, quiet);
    var s := Run(m, quiet);
    TracksOrdered(s.tokens, g.width, c');
    seen := c'.sync2;
    if FreeCredits(g, s.received, s.spent) < Pow2(g.lg + g.width) {
      UnavailableMeansNone(s, g, c');
    }
  }

  lemma {:induction false} RunAppend(s: State, g: Config, a: seq<Event>, b: seq<Event>)
    requires LegalRun(s, g, a + b)
    ensures LegalRun(s, g, a) && LegalRun(Run(s, a), g, b) && Run(s, a + b) == Run(Run(s, a), b)
    decreases a
  {
    hide Legal, Next;
    if a == [] {
      assert a + b == b;
    } else {
      assert (a + b)[0] == a[0] && (a + b)[1..] == a[1..] + b;
      RunAppend(Next(s, a[0]), g, a[1..], b);
    }
  }

  /** A receiver that returns a token only for credits it has been sent never gets near the range. */
  lemma HonestReceiver(g: Config, received: nat, spent: nat)
    requires ValidConfig(g) && (InitialTokens(g) + received) * Pow2(g.lg) <= g.max * Pow2(g.lg) + spent
    ensures FreeCredits(g, received, spent) < Pow2(g.lg + g.width)
  {
    hide Pow2;
    Pow2Add(g.lg, g.width);
    MulMonotone(g.max + 1, Pow2(g.width), Pow2(g.lg));
    Distribute(g.max, 1, Pow2(g.lg));
  }

  /** n edges that each spend a credit. */
  function Spending(n: nat): seq<Event> {
    if n == 0 then [] else [SpendClock(true)] + Spending(n - 1)
  }

  lemma {:induction false} SpendRest(s: State, g: Config, c: Counts, n: nat)
    requires ValidConfig(g) && Inv(s, g, c) && c.sync2 == c.sent && c.sync1 == c.sent
    requires n == FreeCredits(g, s.received, s.spent) && n < Pow2(g.lg + g.width)
    ensures LegalRun(s, g, Spending(n))
    ensures var e := Run(s, Spending(n));
            e.received == s.received && e.spent == s.spent + n && |e.spentReg| == g.lg + g.width && !Available(e, g, false)
    decreases n
  {
    hide ToBits, GrayOf, Available, FreeCredits, Offset, Pow2, Tracks, Step;
    AvailableExact(s, g, c);
    UnavailableMeansNone(s, g, c);
    if n > 0 {
      var i := SpendClock(true);
      MoreSeenMoreFree(g, s.received, s.received, s.spent);
      var c' := StepInv(s, g, c, i);
      SpendRest(Next(s, i), g, c', n - 1);
      assert Spending(n)[0] == i && Spending(n)[1..] == Spending(n - 1);
    }
  }

  /** No credit is stranded: whatever happened before, two idle edges of the spending domain make
      every remaining credit visible; they can then all be spent, one an edge, and the flag goes low
      with the last. */
  lemma EveryCreditSpent(g: Config, before: seq<Event>)
    requires ValidConfig(g) && LegalRun(ResetState(g), g, before)
    requires var m := Run(ResetState(g), before); FreeCredits(g, m.received, m.spent) < Pow2(g.lg + g.width)
    ensures var m := Run(ResetState(g), before);
            && FreeCredits(g, m.received, m.spent) >= 0
            && var rest := [SpendClock(false), SpendClock(false)] + Spending(FreeCredits(g, m.received, m.spent));
               var e := Run(m, rest);
               && LegalRun(m, g, rest) && |e.spentReg| == g.lg + g.width && !Available(e, g, false)
               && e.spent == (InitialTokens(g) + e.received) * Pow2(g.lg) && e.received == m.received
  {
    hide ToBits, GrayOf, Available, FreeCredits, Offset, Pow2, Inv, Legal, Next, Spending;
    ResetInv(g);
    var m := Run(ResetState(g), before);
    var c := RunInv(ResetState(g), g, Counts(0, 0, 0), before);
    KnownFree(m, g, c);
    var n := FreeCredits(g, m.received, m.spent);
    var m1, c1 := IdleSpend(m, g, c);
    var m2, c2 := IdleSpend(m1, g, c1);
    SpendRest(m2, g, c2, n);
    RunPrepend(m1, g, SpendClock(false), Spending(n));
    RunPrepend(m, g, SpendClock(false), [SpendClock(false)] + Spending(n));
    assert [SpendClock(false), SpendClock(false)] + Spending(n) == [SpendClock(false)] + ([SpendClock(false)] + Spending(n));
    AllSpent(g, m.received, m.spent);
  }

  lemma AllSpent(g: Config, received: nat, spent: nat)
    ensures spent + FreeCredits(g, received, spent) == (InitialTokens(g) + received) * Pow2(g.lg)
  {
  }

  lemma KnownFree(s: State, g: Config, c: Counts)
    requires ValidConfig(g) && Inv(s, g, c)
    ensures c.sync2 <= s.received && FreeCredits(g, s.received, s.spent) >= 0 && c.sent == s.received
  {
    hide ToBits, FreeCredits, Offset, Pow2, Tracks;
    TracksOrdered(s.tokens, g.width, c);
    MoreSeenMoreFree(g, c.sync2, s.received, s.spent);
  }

  lemma IdleSpend(s: State, g: Config, c: Counts) returns (s': State, c': Counts)
    requires ValidConfig(g) && Inv(s, g, c)
    ensures s' == Next(s, SpendClock(false)) && |s.spentReg| == g.lg + g.width && Legal(s, g, SpendClock(false))
    ensures Inv(s', g, c') && c'.sync2 == c.sync1 && c'.sync1 == c.sent == c'.sent
    ensures s'.received == s.received && s'.spent == s.spent
  {
    hide ToBits, FreeCredits, Offset, Pow2, Tracks, Step, Available;
    s' := Next(s, SpendClock(false));
    c' := StepInv(s, g, c, SpendClock(false));
  }

  lemma RunPrepend(s: State, g: Config, e: Event, es: seq<Event>)
    requires |s.spentReg| == g.lg + g.width && Legal(s, g, e) && LegalRun(Next(s, e), g, es)
    ensures LegalRun(s, g, [e] + es) && Run(s, [e] + es) == Run(Next(s, e), es)
  {
    hide Legal, Next;
    assert ([e] + es)[0] == e && ([e] + es)[1..] == es;
  }

  /** bsg_async_credit_counter. */
  class CreditCounter {
    const config: Config
    const bapg: PtrGray
    var spentReg: Bits
    ghost var received: nat
    ghost var spent: nat
    ghost var counts: Counts

    ghost function Snapshot(): State
      reads this, bapg, bapg.flops
    {
      State(bapg.Registers(), spentReg, received, spent)
    }

    ghost predicate Invariant()
      reads this, bapg, bapg.flops
    {
      && ValidConfig(config) && bapg.width == config.width && bapg.Valid()
      && Inv(Snapshot(), config, counts)
    }

    constructor (config: Config)
      requires ValidConfig(config)
      ensures Invariant() && this.config == config && fresh(bapg) && fresh(bapg.flops)
      ensures received == spent == 0
    {
      this.config := config;
      bapg := new PtrGray(config.width);
      spentReg := ToBits(0, config.lg) + ToBits(MinusInitial(config), config.width);
      received, spent, counts := 0, 0, Counts(0, 0, 0);
      new;
      ResetInv(config);
    }

    predicate CreditsAvail(infinite: bool)
      requires Invariant()
      reads this, bapg, bapg.flops
      ensures CreditsAvail(infinite) <==> Available(Snapshot(), config, infinite)
      ensures !CreditsAvail(false) && FreeCredits(config, received, spent) < Pow2(config.lg + config.width)
        ==> FreeCredits(config, counts.sync2, spent) == 0
    {
      assert !Available(Snapshot(), config, false) && FreeCredits(config, received, spent) < Pow2(config.lg + config.width)
        ==> FreeCredits(config, counts.sync2, spent) == 0 by {
        if FreeCredits(config, received, spent) < Pow2(config.lg + config.width) {
          UnavailableMeansNone(Snapshot(), config, counts);
        }
      }
      var hi := spentReg[config.lg..];
      infinite || AnyBit(spentReg[..config.lg]) || Xor(ShiftRight(hi), hi) != bapg.flops.sync2
    }

    method ReceiveEdge(token: bool)
      requires Invariant()
      modifies this`received, this`counts, bapg, bapg.flops`launch
      ensures Invariant() && Snapshot() == Next(old(Snapshot()), ReceiveClock(token))
      ensures received == old(received) + (if token then 1 else 0)
    {
      hide Inv, LaunchEdge;
      ghost var c := StepInv(Snapshot(), config, counts, ReceiveClock(token));
      bapg.LaunchClock(token);
      received := received + (if token then 1 else 0);
      counts := c;
    }

    method SpendEdge(spend: bool)
      requires Invariant() && (spend ==> CreditsAvail(false))
      modifies this`spentReg, this`spent, this`counts, bapg.flops`sync1, bapg.flops`sync2
      ensures Invariant() && Snapshot() == Next(old(Snapshot()), SpendClock(spend))
      ensures spent == old(spent) + (if spend then 1 else 0)
      ensures spent <= (InitialTokens(config) + received) * Pow2(config.lg)
    {
      hide GrayOf, ToBits, Available, Pow2;
      ghost var c := StepInv(Snapshot(), config, counts, SpendClock(spend));
      spentReg := if spend then Increment(spentReg) else spentReg;
      bapg.SyncClock(bapg.flops.launch);
      spent := spent + (if spend then 1 else 0);
      counts := c;
      MoreSeenMoreFree(config, counts.sync2, received, spent);
    }

    /** Both clocks together, with whatever the synchroniser happens to capture. */
    method BothEdges(token: bool, spend: bool, sample: Bits)
      requires Invariant() && Legal(Snapshot(), config, BothClocks(token, spend, sample))
      modifies this`spentReg, this`received, this`spent, this`counts, bapg, bapg.flops
      ensures Invariant() && Snapshot() == Next(old(Snapshot()), BothClocks(token, spend, sample))
      ensures received == old(received) + (if token then 1 else 0) && spent == old(spent) + (if spend then 1 else 0)
      ensures spent <= (InitialTokens(config) + received) * Pow2(config.lg)
    {
      hide Inv, Legal, LaunchEdge, SyncEdge, FreeCredits, Pow2;
      ghost var s, e := Snapshot(), BothClocks(token, spend, sample);
      SampleWidth(s, config, counts, e);
      ghost var c := StepInv(s, config, counts, e);
      spentReg := if spend then Increment(spentReg) else spentReg;
      bapg.BothClocks(token, sample);
      received, spent := received + (if token then 1 else 0), spent + (if spend then 1 else 0);
      counts := c;
      assert Snapshot() == Next(s, e);
      WithinReceived(Snapshot(), config, counts);
    }
  }

  lemma SampleWidth(s: State, g: Config, c: Counts, e: Event)
    requires ValidConfig(g) && Inv(s, g, c) && Legal(s, g, e)
    ensures e.BothClocks? ==> |e.sample| == g.width
  {
    hide GrayOf, ToBits, FreeCredits, Offset, Available, Pow2;
  }

  lemma WithinReceived(s: State, g: Config, c: Counts)
    requires ValidConfig(g) && Inv(s, g, c)
    ensures s.spent <= (InitialTokens(g) + s.received) * Pow2(g.lg)
  {
    hide FreeCredits, Pow2, Inv;
    KnownFree(s, g, c);
    AllSpent(g, s.received, s.spent);
  }
}
