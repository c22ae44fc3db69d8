/** The hybrid logical clock, and causality over runs of many nodes. */
module HybridClock {
  import opened Basics

  const MAX: nat := U64 - 1

  datatype Hlc = Hlc(l: nat, c: nat)

  function Larger(a: nat, b: nat): nat {
    if a < b then b else a
  }

  function SaturatingAdd(a: nat, b: nat): nat {
    if a + b > MAX then MAX else a + b
  }

  function Advance(wall: nat, last: nat): Hlc {
    Hlc(SaturatingAdd(Larger(wall, last), 1), 0)
  }

  function Next(h: Hlc, wall: nat): Hlc {
    Advance(wall, h.l)
  }

  function Observe(h: Hlc, other: Hlc): Hlc {
    if other.l > h.l then Hlc(other.l, h.c) else h
  }

  /** The derived order: by l, then by c. */
  predicate Less(a: Hlc, b: Hlc) {
    a.l < b.l || (a.l == b.l && a.c < b.c)
  }

  // ---- runs ----

  /** A node either issues an event (which its peers may later see) at some wall reading, or
      takes in an event that was issued at an earlier step. */
  datatype Event = Issue(node: nat, wall: nat) | Receive(node: nat, from: nat)

  ghost predicate ValidRun(run: seq<Event>) {
    forall j :: 0 <= j < |run| ==>
      match run[j]
      case Issue(_, wall) => wall < U64
      case Receive(_, from) => from < j && run[from].Issue?
  }

  /** A node's clock after the first n steps of the run. */
  ghost function Clock(run: seq<Event>, n: nat, node: nat): Hlc
    requires ValidRun(run) && n <= |run|
    decreases n, 0
  {
    if n == 0 then Hlc(0, 0)
    else
      var h := Clock(run, n - 1, node);
      match run[n - 1]
      case Issue(who, wall) => if who == node then Next(h, wall) else h
      case Receive(who, from) => if who == node then Observe(h, Stamp(run, from)) else h
  }

  /** The reading at step i, on the node that took the step. */
  ghost function Stamp(run: seq<Event>, i: nat): Hlc
    requires ValidRun(run) && i < |run|
    decreases i + 1, 1
  {
    Clock(run, i + 1, run[i].node)
  }

  ghost predicate Direct(run: seq<Event>, i: nat, j: nat)
    requires i < j < |run|
  {
    run[i].node == run[j].node || (run[j].Receive? && run[j].from == i)
  }

  /** Happens-before: program order on a node, delivery of an event, and their closure. */
  ghost predicate HappensBefore(run: seq<Event>, i: nat, j: nat)
    requires j < |run|
    decreases j
  {
    exists k :: i <= k < j && Direct(run, k, j) && (k == i || HappensBefore(run, i, k))
  }

  lemma {:induction false} ClockMonotone(run: seq<Event>, m: nat, n: nat, node: nat)
    requires ValidRun(run) && m <= n <= |run|
    ensures Clock(run, m, node).l <= Clock(run, n, node).l <= MAX
    decreases n
  {
    if m < n {
      ClockMonotone(run, m, n - 1, node);
    } else if n > 0 {
      ClockMonotone(run, n - 1, n - 1, node);
    }
    if n > 0 && run[n - 1].Receive? {
      var from := run[n - 1].from;
      ClockMonotone(run, from + 1, from + 1, run[from].node);
    }
  }

  lemma DirectStep(run: seq<Event>, i: nat, j: nat)
    requires ValidRun(run) && i < j < |run| && Direct(run, i, j)
    ensures Stamp(run, i).l <= Stamp(run, j).l
    ensures run[j].Issue? ==> SaturatingAdd(Stamp(run, i).l, 1) <= Stamp(run, j).l
  {
    if run[i].node == run[j].node {
      ClockMonotone(run, i + 1, j, run[j].node);
    }
    ClockMonotone(run, j, j + 1, run[j].node);
  }

  /** The largest reading a node has issued or received in the first n steps. */
  ghost function MaxSeen(run: seq<Event>, n: nat, node: nat): nat
    requires ValidRun(run) && n <= |run|
  {
    if n == 0 then 0
    else
      var m := MaxSeen(run, n - 1, node);
      match run[n - 1]
      case Issue(who, _) => if who == node then Larger(m, Stamp(run, n - 1).l) else m
      case Receive(who, from) => if who == node then Larger(m, Stamp(run, from).l) else m
  }

  /** A node's clock is exactly the largest reading it has issued or received, and its counter is 0. */
  lemma {:induction false} ClockExactly(run: seq<Event>, n: nat, node: nat)
    requires ValidRun(run) && n <= |run|
    ensures Clock(run, n, node) == Hlc(MaxSeen(run, n, node), 0)
    decreases n
  {
    if n > 0 {
      ClockExactly(run, n - 1, node);
      ClockMonotone(run, n - 1, n, node);
      if run[n - 1].Issue? {
        assert run[n - 1].node == node ==> Stamp(run, n - 1) == Clock(run, n, node);
      }
    }
  }

  /** An issued reading is one above the larger of the wall and everything its node has issued or
      received, or the ceiling when there is no room above. */
  lemma IssuedExactly(run: seq<Event>, j: nat)
    requires ValidRun(run) && j < |run| && run[j].Issue?
    ensures var top := Larger(run[j].wall, MaxSeen(run, j, run[j].node));
            Stamp(run, j) == Hlc(if top < MAX then top + 1 else MAX, 0)
  {
    ClockExactly(run, j, run[j].node);
    ClockMonotone(run, j, j, run[j].node);
  }

  /** Causality, with its exact condition: an event that happens before an issued event has the
      strictly smaller l if and only if its own l has not saturated. */
  lemma {:induction false} Causality(run: seq<Event>, i: nat, j: nat)
    requires ValidRun(run) && j < |run| && HappensBefore(run, i, j)
    ensures i < j && Stamp(run, i).l <= Stamp(run, j).l
    ensures run[j].Issue? ==> (Stamp(run, i).l < Stamp(run, j).l <==> Stamp(run, i).l < MAX)
    decreases j
  {
    var k :| i <= k < j && Direct(run, k, j) && (k == i || HappensBefore(run, i, k));
    DirectStep(run, k, j);
    ClockMonotone(run, j + 1, j + 1, run[j].node);
    if k != i {
      Causality(run, i, k);
    }
  }

  ghost function MaxWall(run: seq<Event>, n: nat): nat
    requires n <= |run|
  {
    if n == 0 then 0
    else
      var w := MaxWall(run, n - 1);
      match run[n - 1]
      case Issue(_, wall) => Larger(w, wall)
      case Receive(_, _) => w
  }

  ghost function Issues(run: seq<Event>, n: nat): nat
    requires n <= |run|
  {
    if n == 0 then 0 else Issues(run, n - 1) + if run[n - 1].Issue? then 1 else 0
  }

  lemma {:induction false} BoundMonotone(run: seq<Event>, m: nat, n: nat)
    requires m <= n <= |run|
    ensures MaxWall(run, m) <= MaxWall(run, n) && Issues(run, m) <= Issues(run, n)
    decreases n
  {
    if m < n {
      BoundMonotone(run, m, n - 1);
    }
  }

  /** Every clock is at most the largest wall reading seen plus the number of advances. */
  lemma {:induction false} ClockBound(run: seq<Event>, n: nat, node: nat)
    requires ValidRun(run) && n <= |run|
    ensures Clock(run, n, node).l <= MaxWall(run, n) + Issues(run, n)
    decreases n
  {
    if n > 0 {
      ClockBound(run, n - 1, node);
      BoundMonotone(run, n - 1, n);
      if run[n - 1].Receive? {
        var from := run[n - 1].from;
        ClockBound(run, from + 1, run[from].node);
        BoundMonotone(run, from + 1, n);
      }
    }
  }

  /** While walls plus advances stay below the ceiling, happens-before is the clock order. */
  lemma CausalityBelowCeiling(run: seq<Event>, i: nat, j: nat)
    requires ValidRun(run) && j < |run| && HappensBefore(run, i, j) && run[j].Issue?
    requires MaxWall(run, |run|) + Issues(run, |run|) < MAX
    ensures Stamp(run, i).l < Stamp(run, j).l && Less(Stamp(run, i), Stamp(run, j))
  {
    Causality(run, i, j);
    ClockBound(run, i + 1, run[i].node);
    BoundMonotone(run, i + 1, |run|);
  }

  /** At the ceiling the strictness is really lost: two events of one node, one reading. */
  lemma SaturatedExample()
    ensures var run := [Issue(0, MAX), Issue(0, MAX)];
            ValidRun(run) && HappensBefore(run, 0, 1) && Stamp(run, 0) == Stamp(run, 1) == Hlc(MAX, 0)
  {
    var run := [Issue(0, MAX), Issue(0, MAX)];
    assert ValidRun(run);
    assert Direct(run, 0, 1);
    assert Clock(run, 0, 0) == Hlc(0, 0);
    assert Clock(run, 1, 0) == Hlc(MAX, 0);
  }
}
