/** bsg_round_robin_arb: a generated casez table picks the first request after the last one
    granted, and a pointer remembers that one. */
module RoundRobinArb {
  import opened Powers
  import opened Wrappers

  // ----- cyclic order of the requesters --------------------------------------

  /** How many requesters stand between last and c, going round upwards from last. */
  function Dist(n: nat, last: nat, c: nat): nat
    requires last < n && c < n
  {
    if c > last then c - last - 1 else c + n - last - 1
  }

  /** The requester with d others between it and last. */
  function Nth(n: nat, last: nat, d: nat): nat
    requires last < n && d < n
  {
    if last + 1 + d < n then last + 1 + d else last + 1 + d - n
  }

  lemma NthDist(n: nat, last: nat, d: nat)
    requires last < n && d < n
    ensures Nth(n, last, d) < n && Dist(n, last, Nth(n, last, d)) == d
  {
  }

  lemma DistNth(n: nat, last: nat, c: nat)
    requires last < n && c < n
    ensures Dist(n, last, c) < n && Nth(n, last, Dist(n, last, c)) == c
  {
  }

  /** Requester t is the first one after last that asks; nobody asked means nobody is first. */
  predicate IsFirst(n: nat, last: nat, reqs: seq<bool>, t: nat)
    requires last < n && |reqs| == n
  {
    && t < n && reqs[t]
    && forall c :: 0 <= c < n && Dist(n, last, c) < Dist(n, last, t) ==> !reqs[c]
  }

  // ----- the generated table --------------------------------------------------

  /** Python's string[-c-1]: the character for requester c stands c places from the right. */
  function At(n: nat, c: nat): nat
    requires c < n
  {
    n - 1 - c
  }

  function ReqPattern(n: nat, last: nat, i: nat): (p: string)
    requires last < n && i <= n
    ensures |p| == n
  {
    seq(n, j requires 0 <= j < n =>
      if Dist(n, last, At(n, j)) == i then '1' else if Dist(n, last, At(n, j)) < i then '0' else '?')
  }

  function OneHot(n: nat, c: nat): (p: string)
    requires c < n
    ensures |p| == n
  {
    seq(n, j requires 0 <= j < n => if j == At(n, c) then '1' else '0')
  }

  function Fill(n: nat, ch: char): (p: string)
    ensures |p| == n
  {
    seq(n, _ => ch)
  }

  /** Python's % n on a value that just ran past the end. */
  lemma Wraps(a: nat, n: nat)
    requires a < n
    ensures (a + 1) % n == if a + 1 == n then 0 else a + 1
  {
    DivModUnique(a + 1, n, if a + 1 == n then 1 else 0, if a + 1 == n then 0 else a + 1);
  }

  /** calculate_grants: pattern i asks that requester i after last be set and the nearer ones clear. */
  method CalculateGrants(last: nat, n: nat) returns (result: seq<(string, string)>)
    requires last < n
    ensures |result| == n
    ensures forall i :: 0 <= i < n ==> result[i] == (ReqPattern(n, last, i), OneHot(n, Nth(n, last, i)))
  {
    hide ReqPattern, OneHot, Fill;
    result := [];
    var inp, grant := Fill(n, '?'), Fill(n, '0');
    NothingPassed(n, last);
    Wraps(last, n);
    var curr := (last + 1) % n;
    for i := 0 to n
      invariant |result| == i && curr == if i < n then Nth(n, last, i) else Nth(n, last, 0)
      invariant inp == Passed(n, last, i) && grant == Fill(n, '0')
      invariant forall k :: 0 <= k < i ==> result[k] == (ReqPattern(n, last, k), OneHot(n, Nth(n, last, k)))
    {
      PassOne(n, last, i);
      inp := inp[At(n, curr) := '1'];
      grant := grant[At(n, curr) := '1'];
      result := result + [(inp, grant)];
      inp := inp[At(n, curr) := '0'];
      grant := grant[At(n, curr) := '0'];
      Wraps(curr, n);
      curr := (curr + 1) % n;
    }
  }

  /** inp between passes: the i nearest requesters cleared, the others ?. */
  function Passed(n: nat, last: nat, i: nat): (p: string)
    requires last < n
    ensures |p| == n
  {
    seq(n, j requires 0 <= j < n => if Dist(n, last, At(n, j)) < i then '0' else '?')
  }

  lemma NothingPassed(n: nat, last: nat)
    requires last < n
    ensures Passed(n, last, 0) == Fill(n, '?')
  {
  }

  lemma PassOne(n: nat, last: nat, i: nat)
    requires last < n && i < n
    ensures Nth(n, last, i) < n
    ensures Passed(n, last, i)[At(n, Nth(n, last, i)) := '1'] == ReqPattern(n, last, i)
    ensures ReqPattern(n, last, i)[At(n, Nth(n, last, i)) := '0'] == Passed(n, last, i + 1)
    ensures Fill(n, '0')[At(n, Nth(n, last, i)) := '1'] == OneHot(n, Nth(n, last, i))
    ensures OneHot(n, Nth(n, last, i))[At(n, Nth(n, last, i)) := '0'] == Fill(n, '0')
  {
    var c := Nth(n, last, i);
    var p, r, q := Passed(n, last, i)[At(n, c) := '1'], ReqPattern(n, last, i), Passed(n, last, i + 1);
    forall j | 0 <= j < n ensures p[j] == r[j] && r[At(n, c) := '0'][j] == q[j] {
      NthDist(n, last, i);
      DistNth(n, last, At(n, j));
    }
    assert p == r && r[At(n, c) := '0'] == q;
  }

  /** One item of the case statement; last is absent where the item writes only ?. */
  datatype Row = Row(last: Option<nat>, reqs: string, grant: string, tag: nat)

  function Reverse(s: string): (r: string)
    ensures |r| == |s|
  {
    seq(|s|, j requires 0 <= j < |s| => s[|s| - 1 - j])
  }

  /** Python's index('1'). */
  method IndexOfOne(s: string) returns (k: nat)
    requires '1' in s
    ensures k < |s| && s[k] == '1' && '1' !in s[..k]
  {
    k := 0;
    while s[k] != '1'
      invariant k < |s| && '1' !in s[..k]
      decreases |s| - k
    {
      k := k + 1;
    }
  }

  function RowsFor(n: nat, last: nat): (rows: seq<Row>)
    requires last < n
    ensures |rows| == n
  {
    seq(n, i requires 0 <= i < n =>
      Row(Some(last), ReqPattern(n, last, i), OneHot(n, Nth(n, last, i)), Nth(n, last, i)))
  }

  function RowsUpTo(n: nat, k: nat): seq<Row>
    requires k <= n
  {
    if k == 0 then [] else RowsUpTo(n, k - 1) + RowsFor(n, k - 1)
  }

  function IdleRow(n: nat): Row {
    Row(None, Fill(n, '0'), Fill(n, '0'), 0)
  }

  function Table(n: nat): seq<Row> {
    [IdleRow(n)] + RowsUpTo(n, n)
  }

  lemma TagOf(n: nat, c: nat, tag: nat)
    requires c < n && tag < n
    ensures Reverse(OneHot(n, c))[tag] == '1' <==> tag == c
  {
    assert Reverse(OneHot(n, c))[tag] == OneHot(n, c)[At(n, tag)];
    OneHotSelects(n, c, tag);
  }

  lemma OneHotSelects(n: nat, t: nat, c: nat)
    requires t < n && c < n
    ensures OneHot(n, t)[At(n, c)] == '1' <==> c == t
    ensures Fill(n, '0')[At(n, c)] != '1'
  {
    var j := At(n, c);
    assert OneHot(n, t)[j] == if j == At(n, t) then '1' else '0';
  }

  /** The inner printing loop: the items for one value of last. */
  method EmitRows(n: nat, last: nat) returns (rows: seq<Row>)
    requires last < n
    ensures rows == RowsFor(n, last)
  {
    hide ReqPattern, OneHot, Nth, Reverse;
    var grants := CalculateGrants(last, n);
    rows := [];
    for i := 0 to n
      invariant |rows| == i && forall k :: 0 <= k < i ==> rows[k] == RowsFor(n, last)[k]
    {
      NthDist(n, last, i);
      TagOf(n, Nth(n, last, i), Nth(n, last, i));
      var tag := IndexOfOne(Reverse(grants[i].1));
      TagOf(n, Nth(n, last, i), tag);
      rows := rows + [Row(Some(last), grants[i].0, grants[i].1, tag)];
    }
  }

  /** The loops that print the case items. */
  method EmitTable(n: nat) returns (rows: seq<Row>)
    ensures rows == Table(n)
  {
    hide RowsFor;
    rows := [IdleRow(n)];
    for last := 0 to n
      invariant rows == [IdleRow(n)] + RowsUpTo(n, last)
    {
      var items := EmitRows(n, last);
      rows := rows + items;
    }
  }

  // ----- what the table selects ------------------------------------------------

  /** casez: ? matches anything. */
  predicate Matches(pattern: string, reqs: seq<bool>)
    requires |pattern| == |reqs|
  {
    forall c :: 0 <= c < |reqs| ==>
      pattern[At(|reqs|, c)] == '?' || pattern[At(|reqs|, c)] == if reqs[c] then '1' else '0'
  }

  predicate RowMatches(row: Row, last: nat, reqs: seq<bool>) {
    && (row.last.Some? ==> row.last.value == last)
    && |row.reqs| == |reqs| && Matches(row.reqs, reqs)
  }

  /** The rows that match, in order. */
  function Matching(rows: seq<Row>, last: nat, reqs: seq<bool>): seq<Row> {
    if rows == [] then []
    else (if RowMatches(rows[0], last, reqs) then [rows[0]] else []) + Matching(rows[1..], last, reqs)
  }

  lemma MatchingCons(x: Row, rest: seq<Row>, last: nat, reqs: seq<bool>)
    ensures Matching([x] + rest, last, reqs) == (if RowMatches(x, last, reqs) then [x] else []) + Matching(rest, last, reqs)
  {
    hide RowMatches;
    assert ([x] + rest)[1..] == rest;
  }

  lemma {:induction false} MatchingAppend(a: seq<Row>, b: seq<Row>, last: nat, reqs: seq<bool>)
    ensures Matching(a + b, last, reqs) == Matching(a, last, reqs) + Matching(b, last, reqs)
  {
    hide RowMatches, Matching;
    if a == [] {
      assert a + b == b;
      MatchingEmpty(last, reqs);
    } else {
      MatchingAppend(a[1..], b, last, reqs);
      assert a == [a[0]] + a[1..] && a + b == [a[0]] + (a[1..] + b);
      MatchingCons(a[0], a[1..], last, reqs);
      MatchingCons(a[0], a[1..] + b, last, reqs);
    }
  }

  lemma {:induction false} NoneMatching(rows: seq<Row>, last: nat, reqs: seq<bool>)
    requires forall row :: row in rows ==> !RowMatches(row, last, reqs)
    ensures Matching(rows, last, reqs) == []
  {
    hide RowMatches;
    if rows != [] {
      NoneMatching(rows[1..], last, reqs);
    }
  }

  lemma {:induction false} OneMatching(rows: seq<Row>, last: nat, reqs: seq<bool>, d: nat)
    requires d < |rows| && RowMatches(rows[d], last, reqs)
    requires forall i :: 0 <= i < |rows| && i != d ==> !RowMatches(rows[i], last, reqs)
    ensures Matching(rows, last, reqs) == [rows[d]]
  {
    hide RowMatches;
    var tail := rows[1..];
    assert forall i :: 0 <= i < |tail| ==> tail[i] == rows[i + 1];
    if d == 0 {
      NoneMatching(tail, last, reqs);
    } else {
      OneMatching(tail, last, reqs, d - 1);
    }
  }

  /** Pattern i matches exactly when requester i after last is the first one asking. */
  lemma PatternExact(n: nat, last: nat, i: nat, reqs: seq<bool>)
    requires last < n && i < n && |reqs| == n
    ensures Matches(ReqPattern(n, last, i), reqs) <==> IsFirst(n, last, reqs, Nth(n, last, i))
  {
    var p, t := ReqPattern(n, last, i), Nth(n, last, i);
    NthDist(n, last, i);
    forall c | 0 <= c < n
      ensures p[At(n, c)] == if c == t then '1' else if Dist(n, last, c) < i then '0' else '?'
    {
      DistNth(n, last, c);
    }
  }

  lemma FirstUnique(n: nat, last: nat, reqs: seq<bool>, t: nat, u: nat)
    requires last < n && |reqs| == n && IsFirst(n, last, reqs, t) && IsFirst(n, last, reqs, u)
    ensures t == u
  {
    DistNth(n, last, t);
    DistNth(n, last, u);
  }

  lemma {:induction false} FirstExists(n: nat, last: nat, reqs: seq<bool>, c: nat) returns (t: nat)
    requires last < n && |reqs| == n && c < n && reqs[c]
    ensures IsFirst(n, last, reqs, t)
    decreases Dist(n, last, c)
  {
    if IsFirst(n, last, reqs, c) {
      t := c;
    } else {
      var b :| 0 <= b < n && Dist(n, last, b) < Dist(n, last, c) && reqs[b];
      t := FirstExists(n, last, reqs, b);
    }
  }

  lemma MatchingFor(n: nat, k: nat, last: nat, reqs: seq<bool>, t: nat)
    requires k < n && last < n && |reqs| == n && t < n && IsFirst(n, last, reqs, t)
    ensures Matching(RowsFor(n, k), last, reqs) ==
            if k == last then [RowsFor(n, last)[Dist(n, last, t)]] else []
  {
    hide ReqPattern, Matches, IsFirst;
    var rows := RowsFor(n, k);
    if k == last {
      forall i | 0 <= i < n ensures RowMatches(rows[i], last, reqs) <==> i == Dist(n, last, t) {
        PatternExact(n, last, i, reqs);
        NthDist(n, last, i);
        DistNth(n, last, t);
        if IsFirst(n, last, reqs, Nth(n, last, i)) {
          FirstUnique(n, last, reqs, Nth(n, last, i), t);
        }
      }
      DistNth(n, last, t);
      OneMatching(rows, last, reqs, Dist(n, last, t));
    } else {
      NoneMatching(rows, last, reqs);
    }
  }

  lemma {:induction false} MatchingUpTo(n: nat, k: nat, last: nat, reqs: seq<bool>, t: nat)
    requires k <= n && last < n && |reqs| == n && t < n && IsFirst(n, last, reqs, t)
    ensures Dist(n, last, t) < n
    ensures Matching(RowsUpTo(n, k), last, reqs) ==
            if last < k then [RowsFor(n, last)[Dist(n, last, t)]] else []
  {
    hide RowsFor, IsFirst, Matching;
    DistNth(n, last, t);
    if k > 0 {
      MatchingUpTo(n, k - 1, last, reqs, t);
      MatchingAppend(RowsUpTo(n, k - 1), RowsFor(n, k - 1), last, reqs);
      MatchingFor(n, k - 1, last, reqs, t);
    } else {
      MatchingEmpty(last, reqs);
    }
  }

  lemma MatchingEmpty(last: nat, reqs: seq<bool>)
    ensures Matching([], last, reqs) == []
  {
  }

  lemma {:induction false} NoneUpTo(n: nat, k: nat, last: nat, reqs: seq<bool>)
    requires k <= n && last < n && |reqs| == n && true !in reqs
    ensures Matching(RowsUpTo(n, k), last, reqs) == []
  {
    hide ReqPattern, Matches;
    if k > 0 {
      NoneUpTo(n, k - 1, last, reqs);
      var rows := RowsFor(n, k - 1);
      forall row | row in rows ensures !RowMatches(row, last, reqs) {
        var i :| 0 <= i < n && rows[i] == row;
        PatternExact(n, k - 1, i, reqs);
      }
      NoneMatching(rows, last, reqs);
      MatchingAppend(RowsUpTo(n, k - 1), rows, last, reqs);
    }
  }

  lemma IdleRowExact(n: nat, last: nat, reqs: seq<bool>)
    requires last < n && |reqs| == n
    ensures RowMatches(IdleRow(n), last, reqs) <==> true !in reqs
  {
    var p := Fill(n, '0');
    assert forall c :: 0 <= c < n ==> p[At(n, c)] == '0';
    if true in reqs {
      var c :| 0 <= c < n && reqs[c];
      assert p[At(n, c)] != '1';
    }
  }

  /** For every last below n and every request vector exactly one item of the case statement
      matches: the idle one when nobody asks, otherwise the one that grants the first requester
      after last, and nobody else, and tags it. */
  lemma TableExact(n: nat, last: nat, reqs: seq<bool>)
    requires last < n && |reqs| == n
    ensures |Matching(Table(n), last, reqs)| == 1
    ensures true !in reqs ==> Matching(Table(n), last, reqs) == [IdleRow(n)]
    ensures true in reqs ==>
              var row := Matching(Table(n), last, reqs)[0];
              IsFirst(n, last, reqs, row.tag) && row.grant == OneHot(n, row.tag)
  {
    hide Matching, RowMatches, IsFirst, OneHot;
    IdleRowExact(n, last, reqs);
    MatchingAppend([IdleRow(n)], RowsUpTo(n, n), last, reqs);
    if true in reqs {
      var c :| 0 <= c < n && reqs[c];
      var t := FirstExists(n, last, reqs, c);
      FirstInRange(n, last, reqs, t);
      MatchingUpTo(n, n, last, reqs, t);
      DistNth(n, last, t);
      NoneMatching([IdleRow(n)], last, reqs);
    } else {
      NoneUpTo(n, n, last, reqs);
      OneMatching([IdleRow(n)], last, reqs, 0);
    }
  }

  lemma FirstInRange(n: nat, last: nat, reqs: seq<bool>, t: nat)
    requires last < n && |reqs| == n && IsFirst(n, last, reqs, t)
    ensures t < n && reqs[t]
  {
  }

  // ----- the priority pointer ---------------------------------------------------

  datatype Policy = Plain | HoldOnValid

  function Clog2(n: nat): nat {
    if n <= 1 then 0 else 1 + Clog2((n + 1) / 2)
  }

  /** Width of tag_o and last_r. */
  function TagWidth(n: nat): nat {
    if n <= 1 then 1 else Clog2(n)
  }

  predicate IsPow2(n: nat) {
    Pow2(Clog2(n)) == n
  }

  /** The pointer just below tag, wrapped by hand unless the subtraction's truncation does it. */
  function JustBelow(n: nat, tag: nat): nat
    requires tag < n
  {
    if !IsPow2(n) && tag == 0 then n - 1 else ((tag as int) - 1) % Pow2(TagWidth(n))
  }

  lemma {:induction false} Clog2Fits(n: nat)
    requires n >= 1
    ensures n <= Pow2(Clog2(n))
  {
    if n > 1 {
      Clog2Fits((n + 1) / 2);
    }
  }

  /** Either way the result is the requester cyclically below tag. */
  lemma JustBelowExact(n: nat, tag: nat)
    requires n >= 2 && tag < n
    ensures JustBelow(n, tag) == if tag == 0 then n - 1 else tag - 1
  {
    Clog2Fits(n);
    var p := Pow2(TagWidth(n));
    if tag == 0 {
      DivModUnique(-1, p, -1, p - 1);
    } else {
      DivModUnique(tag - 1, p, 0, tag - 1);
    }
  }

  /** tag_o; the default item's 0 where no item matches. */
  function TagOut(n: nat, last: nat, reqs: seq<bool>): nat {
    var rows := Matching(Table(n), last, reqs);
    if rows == [] then 0 else rows[0].tag
  }

  /** last_n, and what a single input is wired to. */
  function NextLast(p: Policy, n: nat, last: nat, reqs: seq<bool>, yumi: bool): int
    requires last < n && |reqs| == n
  {
    if n == 1 then 0
    else if yumi then TagOut(n, last, reqs)
    else if p.HoldOnValid? && true in reqs then
      TagBelow(n, last, reqs);
      JustBelow(n, TagOut(n, last, reqs))
    else last
  }

  lemma TagBelow(n: nat, last: nat, reqs: seq<bool>)
    requires last < n && |reqs| == n
    ensures TagOut(n, last, reqs) < n
    ensures true in reqs ==> IsFirst(n, last, reqs, TagOut(n, last, reqs))
  {
    hide Matching, Table;
    TableExact(n, last, reqs);
  }

  /** The pointer stays a requester's number. */
  lemma NextLastBelow(p: Policy, n: nat, last: nat, reqs: seq<bool>, yumi: bool)
    requires last < n && |reqs| == n
    ensures 0 <= NextLast(p, n, last, reqs, yumi) < n
  {
    hide TagOut, JustBelow;
    TagBelow(n, last, reqs);
    if n > 1 {
      JustBelowExact(n, TagOut(n, last, reqs));
    }
  }

  // ----- runs ---------------------------------------------------------------------

  /** One clock cycle: the requests present and whether the grant is taken. */
  datatype Cycle = Cycle(reqs: seq<bool>, yumi: bool)

  /** yumi only with a request. */
  predicate Legal(n: nat, e: Cycle) {
    |e.reqs| == n && (e.yumi ==> true in e.reqs)
  }

  predicate LegalRun(n: nat, es: seq<Cycle>) {
    forall k :: 0 <= k < |es| ==> Legal(n, es[k])
  }

  function After(p: Policy, n: nat, last: nat, es: seq<Cycle>): (r: nat)
    requires last < n && LegalRun(n, es)
    ensures r < n
    decreases es
  {
    if es == [] then last
    else
      NextLastBelow(p, n, last, es[0].reqs, es[0].yumi);
      After(p, n, NextLast(p, n, last, es[0].reqs, es[0].yumi), es[1..])
  }

  /** Requesters whose grants were taken, in order. */
  function Accepted(p: Policy, n: nat, last: nat, es: seq<Cycle>): (tags: seq<nat>)
    requires last < n && LegalRun(n, es)
    decreases es
  {
    if es == [] then []
    else
      NextLastBelow(p, n, last, es[0].reqs, es[0].yumi);
      (if es[0].yumi then [TagOut(n, last, es[0].reqs)] else [])
      + Accepted(p, n, NextLast(p, n, last, es[0].reqs, es[0].yumi), es[1..])
  }

  predicate Asks(es: seq<Cycle>, i: nat) {
    forall k :: 0 <= k < |es| ==> i < |es[k].reqs| && es[k].reqs[i]
  }

  /** A waiting requester gets nearer to the front by at least one with each accept of another,
      and never falls back. */
  lemma WaitShrinks(p: Policy, n: nat, last: nat, e: Cycle, i: nat)
    requires last < n && Legal(n, e) && i < n && e.reqs[i]
    requires e.yumi ==> TagOut(n, last, e.reqs) != i
    ensures 0 <= NextLast(p, n, last, e.reqs, e.yumi) < n
    ensures Dist(n, NextLast(p, n, last, e.reqs, e.yumi), i) + (if e.yumi then 1 else 0) <= Dist(n, last, i)
  {
    hide TagOut, JustBelow;
    NextLastBelow(p, n, last, e.reqs, e.yumi);
    TagBelow(n, last, e.reqs);
    if n > 1 {
      JustBelowExact(n, TagOut(n, last, e.reqs));
    }
  }

  /** Fairness: while i asks and is passed over, at most Dist <= n - 1 others are accepted. */
  lemma {:induction false} BoundedWaiting(p: Policy, n: nat, last: nat, es: seq<Cycle>, i: nat)
    requires last < n && LegalRun(n, es) && i < n && Asks(es, i)
    requires i !in Accepted(p, n, last, es)
    ensures |Accepted(p, n, last, es)| + Dist(n, After(p, n, last, es), i) <= Dist(n, last, i) <= n - 1
    decreases es
  {
    hide TagOut, NextLast, Dist;
    DistNth(n, last, i);
    if es != [] {
      var e := es[0];
      assert e.yumi ==> Accepted(p, n, last, es)[0] == TagOut(n, last, e.reqs);
      WaitShrinks(p, n, last, e, i);
      BoundedWaiting(p, n, NextLast(p, n, last, e.reqs, e.yumi), es[1..], i);
    }
  }

  /** The same as a guarantee: among any n accepts while i keeps asking, one is i's. */
  lemma ServedWithinN(p: Policy, n: nat, last: nat, es: seq<Cycle>, i: nat)
    requires last < n && LegalRun(n, es) && i < n && Asks(es, i)
    requires |Accepted(p, n, last, es)| >= n
    ensures i in Accepted(p, n, last, es)
  {
    hide Accepted, After, Dist;
    if i !in Accepted(p, n, last, es) {
      BoundedWaiting(p, n, last, es, i);
    }
  }

  /** When everyone always asks and every grant is taken, grants simply go round. */
  lemma {:induction false} FullLoadGoesRound(p: Policy, n: nat, last: nat, es: seq<Cycle>, k: nat)
    requires last < n && LegalRun(n, es) && k < |es|
    requires forall j, i :: 0 <= j < |es| && 0 <= i < n ==> es[j].reqs[i]
    requires forall j :: 0 <= j < |es| ==> es[j].yumi
    ensures |Accepted(p, n, last, es)| == |es|
    ensures Accepted(p, n, last, es)[k] == (last + 1 + k) % n
    decreases es
  {
    hide TagOut;
    var e := es[0];
    TagBelow(n, last, e.reqs);
    var t := Nth(n, last, 0);
    assert e.reqs[t];
    assert TagOut(n, last, e.reqs) == t by {
      NthDist(n, last, 0);
      DistNth(n, last, TagOut(n, last, e.reqs));
    }
    Wraps(last, n);
    if |es| > 1 {
      NextLastBelow(p, n, last, e.reqs, e.yumi);
      FullLoadGoesRound(p, n, NextLast(p, n, last, e.reqs, e.yumi), es[1..], if k == 0 then 0 else k - 1);
    }
    ModShift(t + k, if last + 1 == n then 1 else 0, n);
  }

  /** Under hold_on_valid a selected requester that keeps asking stays selected until it is acked. */
  lemma {:induction false} SelectedStays(n: nat, last: nat, es: seq<Cycle>, t: nat)
    requires last < n && LegalRun(n, es) && |es| > 0 && Asks(es, t)
    requires TagOut(n, last, es[0].reqs) == t
    requires forall k :: 0 <= k < |es| - 1 ==> !es[k].yumi
    ensures TagOut(n, After(HoldOnValid, n, last, es[..|es| - 1]), es[|es| - 1].reqs) == t
    decreases es
  {
    hide TagOut;
    if |es| > 1 {
      var e := es[0];
      NextLastBelow(HoldOnValid, n, last, e.reqs, e.yumi);
      var next: nat := NextLast(HoldOnValid, n, last, e.reqs, e.yumi);
      TagBelow(n, last, e.reqs);
      TagBelow(n, next, es[1].reqs);
      StaysOnce(n, last, e, t, es[1].reqs);
      SelectedStays(n, next, es[1..], t);
      assert es[1..][..|es| - 2] == es[..|es| - 1][1..];
    }
  }

  lemma StaysOnce(n: nat, last: nat, e: Cycle, t: nat, reqs: seq<bool>)
    requires last < n && Legal(n, e) && !e.yumi && |reqs| == n && t < n && e.reqs[t] && reqs[t]
    requires TagOut(n, last, e.reqs) == t
    ensures 0 <= NextLast(HoldOnValid, n, last, e.reqs, e.yumi) < n
    ensures TagOut(n, NextLast(HoldOnValid, n, last, e.reqs, e.yumi), reqs) == t
  {
    hide TagOut, JustBelow;
    NextLastBelow(HoldOnValid, n, last, e.reqs, e.yumi);
    var next: nat := NextLast(HoldOnValid, n, last, e.reqs, e.yumi);
    TagBelow(n, next, reqs);
    if n > 1 {
      JustBelowExact(n, t);
    }
    assert Dist(n, next, t) == 0;
    DistNth(n, next, TagOut(n, next, reqs));
  }

  /** Requester c stands between last and t, going round. */
  predicate Between(n: nat, last: nat, c: nat, t: nat) {
    last < n && c < n && t < n && Dist(n, last, c) < Dist(n, last, t)
  }

  lemma {:induction false} PlainKeeps(n: nat, last: nat, es: seq<Cycle>)
    requires last < n && LegalRun(n, es) && forall k :: 0 <= k < |es| ==> !es[k].yumi
    ensures After(Plain, n, last, es) == last
    decreases es
  {
    hide TagOut;
    if es != [] {
      PlainKeeps(n, last, es[1..]);
    }
  }

  lemma FirstIff(n: nat, last: nat, reqs: seq<bool>, t: nat)
    requires last < n && |reqs| == n && t < n && reqs[t]
    ensures TagOut(n, last, reqs) != t <==> exists c :: 0 <= c < n && reqs[c] && Between(n, last, c, t)
  {
    hide TagOut;
    var f := TagOut(n, last, reqs);
    TagBelow(n, last, reqs);
    if f != t {
      DistNth(n, last, f);
      DistNth(n, last, t);
      assert reqs[f] && Between(n, last, f, t);
    }
  }

  /** Without the hold, while a requester that was selected keeps asking and no grant is taken, it is
      not selected if and only if a requester between the pointer and it is asking, which was not
      asking when it was selected. */
  lemma {:induction false} PlainSwitchesIff(n: nat, last: nat, es: seq<Cycle>, t: nat)
    requires last < n && LegalRun(n, es) && |es| > 0 && t < n && Asks(es, t)
    requires TagOut(n, last, es[0].reqs) == t
    requires forall k :: 0 <= k < |es| - 1 ==> !es[k].yumi
    ensures var reqs := es[|es| - 1].reqs;
            TagOut(n, After(Plain, n, last, es[..|es| - 1]), reqs) != t <==>
            exists c :: 0 <= c < n && reqs[c] && Between(n, last, c, t) && !es[0].reqs[c]
  {
    hide TagOut, After, Between;
    var reqs := es[|es| - 1].reqs;
    PlainKeeps(n, last, es[..|es| - 1]);
    FirstIff(n, last, reqs, t);
    FirstIff(n, last, es[0].reqs, t);
    if c :| 0 <= c < n && reqs[c] && Between(n, last, c, t) {
      assert !es[0].reqs[c];
    }
  }

  /** A nearer request does take the selection away before it is acked. */
  lemma PlainMaySwitch()
    ensures TagOut(3, 0, [false, false, true]) == 2
    ensures NextLast(Plain, 3, 0, [false, false, true], false) == 0
    ensures TagOut(3, 0, [false, true, true]) == 1
  {
    hide TagOut;
    TagBelow(3, 0, [false, false, true]);
    TagBelow(3, 0, [false, true, true]);
    assert [false, false, true][2] && [false, true, true][1];
  }

  // ----- the emitted arbiter ---------------------------------------------------------

  class Arbiter {
    const n: nat
    const policy: Policy
    const rows: seq<Row>
    var last: nat

    ghost predicate Valid()
      reads this
    {
      rows == Table(n) && last < n
    }

    constructor (n: nat, policy: Policy)
      requires n >= 1
      ensures Valid() && this.n == n && this.policy == policy && last == 0
    {
      var emitted := EmitTable(n);
      this.n, this.policy, rows, last := n, policy, emitted, 0;
    }

    /** The combinational outputs v_o, tag_o, sel_one_hot_o and grants_o. */
    method Outputs(reqs: seq<bool>, grantsEn: bool) returns (v: bool, tag: nat, sel: seq<bool>, grants: seq<bool>)
      requires Valid() && |reqs| == n
      ensures tag == TagOut(n, last, reqs) && |sel| == |grants| == n
      ensures v <==> true in reqs
      ensures v ==> IsFirst(n, last, reqs, tag)
      ensures forall c :: 0 <= c < n ==> sel[c] == (v && c == tag)
      ensures forall c :: 0 <= c < n ==> grants[c] == (grantsEn && v && c == tag)
    {
      hide Matching, Table, IsFirst;
      TableExact(n, last, reqs);
      TagBelow(n, last, reqs);
      v := true in reqs;
      var row := Matching(rows, last, reqs)[0];
      tag := row.tag;
      sel := seq(n, c requires 0 <= c < n => |row.grant| == n && row.grant[At(n, c)] == '1');
      forall c | 0 <= c < n ensures sel[c] == (v && c == tag) {
        OneHotSelects(n, tag, c);
      }
      grants := seq(n, c requires 0 <= c < |sel| => sel[c] && grantsEn);
    }

    method Clock(reset: bool, reqs: seq<bool>, yumi: bool)
      requires Valid() && |reqs| == n
      modifies this
      ensures Valid()
      ensures last == if reset then 0 else NextLast(policy, n, old(last), reqs, yumi)
    {
      hide Matching, Table, IsFirst;
      var v, tag, _, _ := Outputs(reqs, false);
      TagBelow(n, last, reqs);
      NextLastBelow(policy, n, last, reqs, yumi);
      if reset || n == 1 {
        last := 0;
      } else if yumi {
        last := tag;
      } else if policy.HoldOnValid? && v {
        JustBelowExact(n, tag);
        last := JustBelow(n, tag);
      }
    }
  }
}
