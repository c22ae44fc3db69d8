/** The verifier's nonce store: the mutable class, and what every run of it keeps. */
module NonceStore {
  import opened Basics
  import opened Cbor

  datatype Entry = Entry(expiresAt: nat, used: bool)

  type Store = map<bytes, Entry>

  function Recorded(s: Store, nonce: bytes, expiresAt: nat): Store {
    s[nonce := Entry(expiresAt, false)]
  }

  function Consumed(s: Store, nonce: bytes, now: nat): Res<Store> {
    if nonce !in s then Err(NonceReplay)
    else if s[nonce].used then Err(NonceReplay)
    else if now > s[nonce].expiresAt then Err(TimeWindow)
    else Ok(s[nonce := s[nonce].(used := true)])
  }

  function Collected(s: Store, now: nat): Store {
    map n | n in s && s[n].expiresAt >= now :: s[n]
  }

  class InMemoryNonceStore {
    var issued: Store

    constructor ()
      ensures issued == map[]
    {
      issued := map[];
    }

    method RecordIssued(nonce: bytes, expiresAt: nat)
      modifies this
      ensures issued == Recorded(old(issued), nonce, expiresAt)
    {
      issued := issued[nonce := Entry(expiresAt, false)];
    }

    method Consume(nonce: bytes, now: nat) returns (r: Res<()>)
      modifies this
      ensures match Consumed(old(issued), nonce, now)
              case Ok(next) => r == Ok(()) && issued == next
              case Err(e) => r == Err(e) && issued == old(issued)
    {
      if nonce !in issued {
        return Err(NonceReplay);
      }
      var entry := issued[nonce];
      if entry.used {
        return Err(NonceReplay);
      }
      if now > entry.expiresAt {
        return Err(TimeWindow);
      }
      issued := issued[nonce := Entry(entry.expiresAt, true)];
      r := Ok(());
    }

    /** Keeps exactly the entries that have not expired. */
    method Gc(now: nat)
      modifies this
      ensures issued == Collected(old(issued), now)
    {
      var left := issued.Keys;
      var kept: Store := map[];
      while left != {}
        invariant left <= issued.Keys
        invariant kept.Keys == set n | n in issued && n !in left && issued[n].expiresAt >= now
        invariant forall n :: n in kept ==> kept[n] == issued[n]
        decreases |left|
      {
        var n :| n in left;
        left := left - {n};
        if issued[n].expiresAt >= now {
          kept := kept[n := issued[n]];
        }
      }
      issued := kept;
    }
  }

  // ---- runs ----

  datatype Op = Issue(nonce: bytes, expiresAt: nat) | Use(nonce: bytes, now: nat) | Gc(now: nat)

  function Apply(s: Store, op: Op): Store {
    match op
    case Issue(nonce, expiresAt) => Recorded(s, nonce, expiresAt)
    case Use(nonce, now) => if Consumed(s, nonce, now).Ok? then Consumed(s, nonce, now).value else s
    case Gc(now) => Collected(s, now)
  }

  predicate Accepts(s: Store, op: Op) {
    op.Use? && Consumed(s, op.nonce, op.now).Ok?
  }

  function RunStore(s: Store, ops: seq<Op>): Store {
    if ops == [] then s else Apply(RunStore(s, ops[..|ops| - 1]), ops[|ops| - 1])
  }

  /** How often the run issued this nonce. */
  ghost function Issues(ops: seq<Op>, n: bytes): nat {
    if ops == [] then 0
    else
      var last := ops[|ops| - 1];
      Issues(ops[..|ops| - 1], n) + if last.Issue? && last.nonce == n then 1 else 0
  }

  /** How often the run accepted this nonce. */
  ghost function Uses(s: Store, ops: seq<Op>, n: bytes): nat {
    if ops == [] then 0
    else
      var front, last := ops[..|ops| - 1], ops[|ops| - 1];
      Uses(s, front, n) + if last.Use? && last.nonce == n && Accepts(RunStore(s, front), last) then 1 else 0
  }

  ghost function Unused(s: Store, n: bytes): nat {
    if n in s && !s[n].used then 1 else 0
  }

  lemma {:induction false} UsesPlusUnused(s: Store, ops: seq<Op>, n: bytes)
    ensures Uses(s, ops, n) + Unused(RunStore(s, ops), n) <= Issues(ops, n) + Unused(s, n)
  {
    if ops != [] {
      UsesPlusUnused(s, ops[..|ops| - 1], n);
    }
  }

  /** Replay safety, whatever the clocks say: a nonce is accepted at most as often as it was
      issued. */
  lemma ReplaySafety(ops: seq<Op>, n: bytes)
    ensures Uses(map[], ops, n) <= Issues(ops, n)
  {
    UsesPlusUnused(map[], ops, n);
  }

  // ---- collecting and never collecting ----

  function ApplyPlain(s: Store, op: Op): Store {
    if op.Gc? then s else Apply(s, op)
  }

  /** The same run on a store that never collects. */
  function RunPlain(s: Store, ops: seq<Op>): Store {
    if ops == [] then s else ApplyPlain(RunPlain(s, ops[..|ops| - 1]), ops[|ops| - 1])
  }

  /** Every entry of the collecting store is the plain store's entry. */
  ghost predicate Within(s: Store, plain: Store) {
    forall n :: n in s ==> n in plain && s[n] == plain[n]
  }

  /** What is missing has expired by time t. */
  ghost predicate MissingExpired(s: Store, plain: Store, t: nat) {
    forall n :: n in plain && n !in s ==> plain[n].expiresAt < t
  }

  function ClockOf(op: Op, t: nat): nat {
    if op.Issue? then t else op.now
  }

  /** The last clock reading of a run. */
  ghost function LastClock(ops: seq<Op>): nat {
    if ops == [] then 0 else ClockOf(ops[|ops| - 1], LastClock(ops[..|ops| - 1]))
  }

  ghost predicate ClockNeverGoesBack(ops: seq<Op>) {
    ops == [] ||
    (ClockNeverGoesBack(ops[..|ops| - 1]) &&
     LastClock(ops[..|ops| - 1]) <= LastClock(ops))
  }

  lemma WithinStep(s: Store, plain: Store, op: Op)
    requires Within(s, plain)
    ensures Within(Apply(s, op), ApplyPlain(plain, op))
  {
  }

  lemma WithinAccepts(s: Store, plain: Store, op: Op)
    requires Within(s, plain) && Accepts(s, op)
    ensures Accepts(plain, op)
  {
  }

  lemma MissingStep(s: Store, plain: Store, op: Op, t: nat)
    requires Within(s, plain) && MissingExpired(s, plain, t) && t <= ClockOf(op, t)
    ensures Accepts(plain, op) ==> Accepts(s, op)
    ensures MissingExpired(Apply(s, op), ApplyPlain(plain, op), ClockOf(op, t))
  {
  }

  lemma {:induction false} CollectingInvariant(ops: seq<Op>)
    requires ClockNeverGoesBack(ops)
    ensures Within(RunStore(map[], ops), RunPlain(map[], ops))
    ensures MissingExpired(RunStore(map[], ops), RunPlain(map[], ops), LastClock(ops))
  {
    hide Apply, ApplyPlain, Within, MissingExpired, Accepts;
    if ops == [] {
      EmptyStores();
    } else {
      var front, op := ops[..|ops| - 1], ops[|ops| - 1];
      CollectingInvariant(front);
      MissingStep(RunStore(map[], front), RunPlain(map[], front), op, LastClock(front));
      WithinStep(RunStore(map[], front), RunPlain(map[], front), op);
    }
  }

  lemma EmptyStores()
    ensures Within(map[], map[]) && MissingExpired(map[], map[], 0)
  {
  }

  /** Collection never widens acceptance, whatever the clocks say. */
  lemma {:induction false} CollectionNeverWidens(ops: seq<Op>, next: Op)
    ensures Within(RunStore(map[], ops), RunPlain(map[], ops))
    ensures Accepts(RunStore(map[], ops), next) ==> Accepts(RunPlain(map[], ops), next)
  {
    hide Apply, ApplyPlain, Accepts, Within;
    if ops == [] {
      EmptyStores();
    } else {
      var front := ops[..|ops| - 1];
      CollectionNeverWidens(front, next);
      WithinStep(RunStore(map[], front), RunPlain(map[], front), ops[|ops| - 1]);
    }
    if Accepts(RunStore(map[], ops), next) {
      WithinAccepts(RunStore(map[], ops), RunPlain(map[], ops), next);
    }
  }

  /** Under a clock that never goes back, garbage collection is invisible: the next operation is
      accepted exactly when a store that never collects would accept it. */
  lemma CollectionIsInvisible(ops: seq<Op>, next: Op)
    requires ClockNeverGoesBack(ops) && LastClock(ops) <= ClockOf(next, LastClock(ops))
    ensures Accepts(RunStore(map[], ops), next) <==> Accepts(RunPlain(map[], ops), next)
  {
    hide RunStore, RunPlain, Accepts, Within, MissingExpired;
    CollectingInvariant(ops);
    MissingStep(RunStore(map[], ops), RunPlain(map[], ops), next, LastClock(ops));
    if Accepts(RunStore(map[], ops), next) {
      WithinAccepts(RunStore(map[], ops), RunPlain(map[], ops), next);
    }
  }

  /** Since n was last issued, a collection ran after n's expiry. */
  ghost predicate CollectedSince(ops: seq<Op>, n: bytes) {
    ops != [] &&
    var front, last := ops[..|ops| - 1], ops[|ops| - 1];
    match last
    case Issue(m, _) => m != n && CollectedSince(front, n)
    case Use(_, _) => CollectedSince(front, n)
    case Gc(now) =>
      CollectedSince(front, n) || (n in RunPlain(map[], front) && RunPlain(map[], front)[n].expiresAt < now)
  }

  /** The collecting store misses exactly the entries collected since their last issue. */
  lemma {:induction false} MissingExactly(ops: seq<Op>, n: bytes)
    ensures n in RunStore(map[], ops) <==> n in RunPlain(map[], ops) && !CollectedSince(ops, n)
  {
    if ops != [] {
      var front := ops[..|ops| - 1];
      MissingExactly(front, n);
      CollectionNeverWidens(front, Use(n, 0));
    }
  }

  /** Whatever the clocks: the collecting store accepts a use exactly when the plain one does and no
      collection since the nonce's last issue ran after its expiry. */
  lemma CollectionExactly(ops: seq<Op>, n: bytes, now: nat)
    ensures Accepts(RunStore(map[], ops), Use(n, now)) <==>
            Accepts(RunPlain(map[], ops), Use(n, now)) && !CollectedSince(ops, n)
  {
    hide RunStore, RunPlain, CollectedSince;
    MissingExactly(ops, n);
    CollectionNeverWidens(ops, Use(n, now));
  }

  /** The condition matters: once the clock goes back, the collecting store refuses a nonce the
      plain one accepts. */
  lemma ClockGoingBack(n: bytes)
    ensures var ops := [Issue(n, 5), Gc(10)];
            !Accepts(RunStore(map[], ops), Use(n, 3)) && Accepts(RunPlain(map[], ops), Use(n, 3))
  {
    var ops := [Issue(n, 5), Gc(10)];
    assert ops[..1] == [Issue(n, 5)] && ops[..1][..0] == [];
    assert RunStore(map[], ops[..1]) == map[n := Entry(5, false)];
    assert RunPlain(map[], ops[..1]) == map[n := Entry(5, false)];
    assert RunStore(map[], ops) == Collected(map[n := Entry(5, false)], 10);
  }

  // ---- one nonce in the middle of other traffic ----

  ghost predicate NeverIssues(ops: seq<Op>, n: bytes) {
    forall i :: 0 <= i < |ops| ==> ops[i].Issue? ==> ops[i].nonce != n
  }

  /** Other nonces come and go, attempts on n itself are turned away, and collection never runs ahead
      of time t. */
  ghost predicate LeavesAlone(s: Store, ops: seq<Op>, n: bytes, t: nat) {
    forall i :: 0 <= i < |ops| ==>
      match ops[i]
      case Issue(m, _) => m != n
      case Use(m, _) => m != n || !Accepts(RunStore(s, ops[..i]), ops[i])
      case Gc(now) => now <= t
  }

  lemma {:induction false} EntrySurvives(s: Store, ops: seq<Op>, n: bytes, t: nat)
    requires n in s && t <= s[n].expiresAt && LeavesAlone(s, ops, n, t)
    ensures n in RunStore(s, ops) && RunStore(s, ops)[n] == s[n]
  {
    if ops != [] {
      var front := ops[..|ops| - 1];
      forall i | 0 <= i < |front|
        ensures front[..i] == ops[..i] && front[i] == ops[i]
      {
      }
      EntrySurvives(s, front, n, t);
    }
  }

  ghost predicate Spent(s: Store, n: bytes) {
    n in s ==> s[n].used
  }

  /** A spent nonce stays spent, through any traffic and any clock, until it is issued again. */
  lemma {:induction false} SpentStaysSpent(s: Store, ops: seq<Op>, n: bytes)
    requires Spent(s, n) && NeverIssues(ops, n)
    ensures Spent(RunStore(s, ops), n)
    ensures forall now :: Consumed(RunStore(s, ops), n, now) == Err(NonceReplay)
  {
    if ops != [] {
      SpentStaysSpent(s, ops[..|ops| - 1], n);
    }
  }
}
