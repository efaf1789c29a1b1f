/**
 The .NET failure backoff and the two places it is nested in: the configuration manager in front of the cold load, and
 the retriever every fetch passes through.
 */
module DotNetBackoff {
  import opened Common
  import opened KeySetLifetime
  import B = Backoff

  // The value of one backoff. Its counter is an int that wraps; its window outlives a success, unused.
  datatype BackoffValue = BackoffValue(failures: int, lastFailure: Option<Time>, window: int)

  const IDLE := BackoffValue(0, None, 0)

  function Remaining(b: BackoffValue, now: Time): int
  {
    if b.lastFailure.None? then 0 else Max(b.window - (now - b.lastFailure.value), 0)
  }

  // A duration times a factor, rounded to whole ticks of 100 ns.
  function Ticks(window: nat, jitter: Jitter): int
  {
    100 * B.JitteredNearest(window / 100, jitter)
  }

  function Failed(b: BackoffValue, now: Time, jitter: Jitter): BackoffValue
  {
    var n := B.Wrap32(b.failures + 1);
    BackoffValue(n, Some(now), Ticks(Max(B.DotNetDelay(n), 0), jitter))
  }

  function Succeeded(b: BackoffValue): BackoffValue
  {
    b.(failures := 0, lastFailure := None)
  }

  class FailureBackoff {
    var failures: int
    var lastFailure: Option<Time>
    var window: int

    ghost function Value(): BackoffValue
      reads this
    {
      BackoffValue(failures, lastFailure, window)
    }

    constructor ()
      ensures Value() == IDLE
    {
      failures, lastFailure, window := 0, None, 0;
    }

    // Whether the caller is refused.
    method ThrowIfBackingOff(now: Time) returns (refused: bool)
      ensures refused <==> Remaining(Value(), now) > 0
    {
      if lastFailure.None? {
        return false;
      }
      var remaining := window - (now - lastFailure.value);
      refused := remaining > 0;
    }

    method RecordFailure(now: Time, jitter: Jitter)
      modifies this
      ensures Value() == Failed(old(Value()), now, jitter)
    {
      failures := B.Wrap32(failures + 1);
      lastFailure := Some(now);
      var shift := Min(Max(failures, 1) - 1, 30);
      var raw := B.Doubled(shift);
      window := Ticks(if raw < B.CAP then raw else B.CAP, jitter);
    }

    method RecordSuccess()
      modifies this`failures, this`lastFailure
      ensures Value() == Succeeded(old(Value()))
    {
      failures := 0;
      lastFailure := None;
    }
  }

  lemma TickBounds(n: nat, jitter: Jitter)
    requires 1 <= n < 0x8000_0000
    ensures B.Schedule(n) / 2 <= Ticks(Max(B.DotNetDelay(n), 0), jitter) <= B.Schedule(n)
  {
    B.DotNetDelayIs(n);
    WholeTicks(if B.Doubled(n - 1) < B.CAP then 1_000_000 * Pow2(n - 1) else 25_000_000, B.Schedule(n), jitter);
  }

  lemma WholeTicks(half: nat, w: nat, jitter: Jitter)
    requires w == 200 * half && half > 0
    ensures w / 2 <= Ticks(w, jitter) <= w
  {
    assert w / 100 == 2 * half && w / 2 == 100 * half;
    B.WindowBetween(2 * half, half, jitter);
  }

  // Every promised window is a whole number of ticks.
  lemma WholeWindow(n: nat)
    requires n >= 1
    ensures B.Schedule(n) % 100 == 0
  {
    B.TheWindowsAre(n);
  }

  // And such a window, drawn, is itself times the factor, to the nearest tick.
  lemma TheFactorIsUsed(window: nat, jitter: Jitter)
    requires window % 100 == 0
    ensures var exact := window as real * jitter;
            exact - 50.0 < Ticks(window, jitter) as real <= exact + 50.0
  {
    var w := window / 100;
    B.TheFactorIsUsed(w, jitter);
    Scaled(w as real, jitter);
    var drawn := B.JitteredNearest(w, jitter);
    assert window == 100 * w && Ticks(window, jitter) == 100 * drawn;
    assert (100 * drawn) as real == 100.0 * drawn as real && window as real == 100.0 * w as real;
  }

  lemma Scaled(a: real, b: real)
    ensures 100.0 * a * b == 100.0 * (a * b)
  {
  }

  // ---- what is thrown ----

  // An exception: whether it is the SDK's transport exception, and the one it wraps.
  datatype Exn = Exn(transport: bool, inner: Option<Exn>)

  // What a backoff throws in place of a fetch.
  const REFUSAL := Exn(true, None)

  // What arrives once others have wrapped e in their own exceptions, depth times over.
  function Wrapped(e: Exn, depth: nat): Exn
  {
    if depth == 0 then e else Exn(false, Some(Wrapped(e, depth - 1)))
  }

  // The manager's exception filter.
  predicate RefusedByABackoff(e: Exn)
  {
    e.transport || (e.inner.Some? && e.inner.value.transport)
  }

  predicate TransportWithin(e: Exn, links: nat)
  {
    links > 0 && (e.transport || (e.inner.Some? && TransportWithin(e.inner.value, links - 1)))
  }

  // The filter sees two links deep: one of them less for every wrapper.
  lemma FilterSees(e: Exn, depth: nat)
    ensures RefusedByABackoff(Wrapped(e, depth)) <==> depth < 2 && TransportWithin(e, 2 - depth)
  {
    if depth > 1 {
      assert Wrapped(e, depth).inner.value == Wrapped(e, depth - 1);
    } else if depth == 0 {
      assert TransportWithin(e, 2) <==> e.transport || (e.inner.Some? && TransportWithin(e.inner.value, 1));
    }
  }

  // The filter tells a refusal from the failure of a fetch exactly when at most one exception is wrapped around either
  // and what the fetch throws holds no transport exception as deep as the filter then sees.
  lemma FilterIsRightExactlyWhen(depth: nat, failure: Exn)
    ensures RefusedByABackoff(Wrapped(REFUSAL, depth)) && !RefusedByABackoff(Wrapped(failure, depth)) <==>
            depth <= 1 && !TransportWithin(failure, 2 - depth)
  {
    FilterSees(REFUSAL, depth);
    FilterSees(failure, depth);
  }

  // ---- the retriever and the manager ----

  // How a fetch ended: with a configuration, with one the validator rejects, or with whatever it threw.
  datatype Fetched = Accepted(cfg: nat) | Rejected | Broke(e: Exn)

  function ThrownBy(f: Fetched): Option<Exn>
  {
    match f
    case Accepted(_) => None
    case Rejected => Some(Exn(false, None))
    case Broke(e) => Some(e)
  }

  function AfterFetch(b: BackoffValue, f: Fetched, now: Time, jitter: Jitter): BackoffValue
  {
    if f.Accepted? then Succeeded(b) else Failed(b, now, jitter)
  }

  function AfterCall(b: BackoffValue, thrown: Option<Exn>, now: Time, jitter: Jitter): BackoffValue
  {
    if thrown.None? then Succeeded(b)
    else if RefusedByABackoff(thrown.value) then b
    else Failed(b, now, jitter)
  }

  class BackoffConfigurationRetriever {
    const backoff: FailureBackoff
    const lifetime: Lifetime

    constructor (lifetime: Lifetime)
      ensures fresh(backoff) && backoff.Value() == IDLE && this.lifetime == lifetime
    {
      backoff := new FailureBackoff();
      this.lifetime := lifetime;
    }

    // Before the fetch.
    method Admit(now: Time) returns (thrown: Option<Exn>)
      ensures thrown == if Remaining(backoff.Value(), now) > 0 then Some(REFUSAL) else None
    {
      var refused := backoff.ThrowIfBackingOff(now);
      thrown := if refused then Some(REFUSAL) else None;
    }

    // After it. What is accepted is stamped as its fetch completes.
    method Finish(f: Fetched, now: Time, jitter: Jitter) returns (thrown: Option<Exn>)
      modifies backoff, lifetime
      ensures thrown == ThrownBy(f)
      ensures backoff.Value() == AfterFetch(old(backoff.Value()), f, now, jitter)
      ensures lifetime.fetchedAt ==
              if f.Accepted? then old(lifetime.fetchedAt)[f.cfg := now] else old(lifetime.fetchedAt)
    {
      thrown := ThrownBy(f);
      if thrown.Some? {
        backoff.RecordFailure(now, jitter);
      } else {
        lifetime.Fetched(f.cfg, now);
        backoff.RecordSuccess();
      }
    }
  }

  class BackoffConfigurationManager {
    const backoff: FailureBackoff

    constructor ()
      ensures fresh(backoff) && backoff.Value() == IDLE
    {
      backoff := new FailureBackoff();
    }

    // Before the inner manager is asked: what is thrown here no handler sees.
    method Admit(now: Time) returns (thrown: Option<Exn>)
      ensures thrown == if Remaining(backoff.Value(), now) > 0 then Some(REFUSAL) else None
    {
      var refused := backoff.ThrowIfBackingOff(now);
      thrown := if refused then Some(REFUSAL) else None;
    }

    // After it has answered or thrown.
    method Finish(thrown: Option<Exn>, now: Time, jitter: Jitter)
      modifies backoff
      ensures backoff.Value() == AfterCall(old(backoff.Value()), thrown, now, jitter)
    {
      if thrown.None? {
        backoff.RecordSuccess();
      } else if !RefusedByABackoff(thrown.value) {
        backoff.RecordFailure(now, jitter);
      }
    }
  }

  // ---- attempts ----

  // A cold load passes both backoffs; a refetch only the retriever's.
  datatype Path = Cold | Refetch

  // What an attempt came to: the retriever refused it, its fetch went out, or the manager answered or threw without
  // one.
  datatype Cause = Refusal | Fetch | NoFetch

  // Begun: past the manager's own check. Arrived: what the inner manager gave back to the outer one, not yet settled.
  datatype Phase = Begun | RefusedAtOnce | Out | Arrived(thrown: Option<Exn>, cause: Cause) | Over(cause: Cause)

  datatype Attempt = Attempt(path: Path, phase: Phase)

  datatype Event =
    | Begin(a: nat, path: Path, t: Time)
    | Ask(a: nat, t: Time)
    | End(a: nat, f: Fetched, t: Time, jitter: Jitter)
    | Warm(a: nat)                             // the manager held a configuration by now: no fetch
    | Throw(a: nat, e: Exn)                    // it threw before any fetch: a waiting caller cancelled
    | Settle(a: nat, t: Time, jitter: Jitter)

  // depth is how often the inner manager wraps what the retriever throws.
  datatype Sys = Sys(outer: BackoffValue, inner: BackoffValue, depth: nat, attempts: map<nat, Attempt>)

  function Start(depth: nat): Sys
  {
    Sys(IDLE, IDLE, depth, map[])
  }

  predicate In(s: Sys, a: nat, phase: Phase)
  {
    a in s.attempts && s.attempts[a].phase == phase
  }

  predicate HasArrived(s: Sys, a: nat)
  {
    a in s.attempts && s.attempts[a].phase.Arrived?
  }

  predicate Enabled(s: Sys, e: Event)
  {
    match e
    case Begin(a, _, _) => a !in s.attempts
    case Ask(a, _) => In(s, a, Begun)
    case End(a, _, _, _) => In(s, a, Out)
    case Warm(a) => In(s, a, Begun) && s.attempts[a].path.Cold?
    case Throw(a, _) => In(s, a, Begun) && s.attempts[a].path.Cold?
    case Settle(a, _, _) => HasArrived(s, a)
  }

  function Move(s: Sys, a: nat, phase: Phase): Sys
    requires a in s.attempts
  {
    s.(attempts := s.attempts[a := s.attempts[a].(phase := phase)])
  }

  // What the retriever gave back, on its way to whoever asked: a refetch's caller only drops it.
  function Reaches(s: Sys, a: nat, thrown: Option<Exn>, cause: Cause): Phase
    requires a in s.attempts
  {
    if s.attempts[a].path.Refetch? then Over(cause)
    else Arrived(if thrown.None? then None else Some(Wrapped(thrown.value, s.depth)), cause)
  }

  function Apply(s: Sys, e: Event): Sys
    requires Enabled(s, e)
  {
    match e
    case Begin(a, path, t) =>
      var refused := path.Cold? && Remaining(s.outer, t) > 0;
      s.(attempts := s.attempts[a := Attempt(path, if refused then RefusedAtOnce else Begun)])
    case Ask(a, t) =>
      Move(s, a, if Remaining(s.inner, t) > 0 then Reaches(s, a, Some(REFUSAL), Refusal) else Out)
    case End(a, f, t, jitter) =>
      Move(s.(inner := AfterFetch(s.inner, f, t, jitter)), a, Reaches(s, a, ThrownBy(f), Fetch))
    case Warm(a) => Move(s, a, Arrived(None, NoFetch))
    case Throw(a, e) => Move(s, a, Arrived(Some(e), NoFetch))
    case Settle(a, t, jitter) =>
      var p := s.attempts[a].phase;
      Move(s.(outer := AfterCall(s.outer, p.thrown, t, jitter)), a, Over(p.cause))
  }

  predicate Run(s: Sys, es: seq<Event>)
  {
    es == [] || (Run(s, es[..|es| - 1]) && Enabled(Exec(s, es[..|es| - 1]), es[|es| - 1]))
  }

  function Exec(s: Sys, es: seq<Event>): Sys
  {
    if es == [] then s
    else
      var u := Exec(s, es[..|es| - 1]);
      if Enabled(u, es[|es| - 1]) then Apply(u, es[|es| - 1]) else u
  }

  // ---- what is counted ----

  // Fetches that went out and failed since the last one that succeeded, in the order they ended.
  function FailedInARow(es: seq<Event>): nat
  {
    if es == [] then 0
    else
      var e := es[|es| - 1];
      var n := FailedInARow(es[..|es| - 1]);
      if e.End? then (if e.f.Accepted? then 0 else n + 1) else n
  }

  // What came of an attempt, from its own steps: its fetch ended, it had no need of one, it threw without one, or else
  // it was refused.
  datatype Came = Ended(f: Fetched) | Warmed | ThrewBefore(e: Exn) | WasRefused

  function CameOf(es: seq<Event>, a: nat): Came
  {
    if es == [] then WasRefused
    else
      match es[|es| - 1]
      case End(b, f, _, _) => if a == b then Ended(f) else CameOf(es[..|es| - 1], a)
      case Warm(b) => if a == b then Warmed else CameOf(es[..|es| - 1], a)
      case Throw(b, e) => if a == b then ThrewBefore(e) else CameOf(es[..|es| - 1], a)
      case _ => CameOf(es[..|es| - 1], a)
  }

  predicate BeganAs(es: seq<Event>, a: nat, path: Path)
  {
    es != [] &&
    (BeganAs(es[..|es| - 1], a, path) || (es[|es| - 1].Begin? && es[|es| - 1].a == a && es[|es| - 1].path == path))
  }

  // What cold loads came to since the last one that had a configuration, in the order they were settled: fetches that
  // failed, and calls that threw without a fetch and with nothing the filter takes for a refusal.
  datatype Tally = Tally(fetches: nat, others: nat)

  function TallyOne(n: Tally, came: Came): Tally
  {
    match came
    case Ended(f) => if f.Accepted? then Tally(0, 0) else n.(fetches := n.fetches + 1)
    case Warmed => Tally(0, 0)
    case ThrewBefore(e) => if RefusedByABackoff(e) then n else n.(others := n.others + 1)
    case WasRefused => n
  }

  function ColdInARow(es: seq<Event>): Tally
  {
    if es == [] then Tally(0, 0)
    else
      var pre, e := es[..|es| - 1], es[|es| - 1];
      if e.Settle? then TallyOne(ColdInARow(pre), CameOf(pre, e.a)) else ColdInARow(pre)
  }

  // An attempt stands where its own steps have brought it.
  ghost predicate AttemptMatches(u: Sys, es: seq<Event>, a: nat)
  {
    var came := CameOf(es, a);
    if a !in u.attempts then came == WasRefused && !BeganAs(es, a, Cold) && !BeganAs(es, a, Refetch)
    else
      && BeganAs(es, a, u.attempts[a].path)
      && match u.attempts[a].phase
         case Begun => came == WasRefused
         case RefusedAtOnce => came == WasRefused && u.attempts[a].path == Cold
         case Out => came == WasRefused
         case Arrived(thrown, cause) => u.attempts[a].path == Cold && ArrivedAs(thrown, cause, came, u.depth)
         case Over(cause) =>
           match cause
           case Refusal => came == WasRefused
           case Fetch => came.Ended?
           case NoFetch => came.Warmed? || came.ThrewBefore?
  }

  predicate ArrivedAs(thrown: Option<Exn>, cause: Cause, came: Came, depth: nat)
  {
    match came
    case Ended(f) => cause == Fetch && thrown == (if f.Accepted? then None else Some(Wrapped(ThrownBy(f).value, depth)))
    case Warmed => cause == NoFetch && thrown.None?
    case ThrewBefore(e) => cause == NoFetch && thrown == Some(e)
    case WasRefused => cause == Refusal && thrown == Some(Wrapped(REFUSAL, depth))
  }

  lemma AttemptStep(u: Sys, pre: seq<Event>, e: Event, a: nat)
    requires Enabled(u, e) && AttemptMatches(u, pre, a)
    ensures AttemptMatches(Apply(u, e), pre + [e], a)
  {
    assert (pre + [e])[..|pre|] == pre;
  }

  lemma {:induction false} AttemptsMatch(depth: nat, es: seq<Event>, a: nat)
    requires Run(Start(depth), es)
    ensures AttemptMatches(Exec(Start(depth), es), es, a)
  {
    if es != [] {
      var pre := es[..|es| - 1];
      AttemptsMatch(depth, pre, a);
      AttemptStep(Exec(Start(depth), pre), pre, es[|es| - 1], a);
      assert pre + [es[|es| - 1]] == es;
    }
  }

  lemma WrapNext(x: int)
    ensures B.Wrap32(B.Wrap32(x) + 1) == B.Wrap32(x + 1)
  {
    var q, r := x / 0x1_0000_0000, x % 0x1_0000_0000;
    assert x + 1 == 0x1_0000_0000 * q + (r + 1);
  }

  lemma CountFits(n: nat)
    requires n + 1 < 0x8000_0000
    ensures B.Wrap32(B.Wrap32(n) + 1) == n + 1
  {
  }

  ghost predicate Counts(b: BackoffValue, n: nat)
  {
    b.failures == B.Wrap32(n) && (b.lastFailure.Some? <==> n > 0)
  }

  lemma CountOne(b: BackoffValue, n: nat, t: Time, jitter: Jitter)
    requires Counts(b, n)
    ensures Counts(Failed(b, t, jitter), n + 1)
  {
    WrapNext(n);
  }

  lemma CountNone(b: BackoffValue)
    ensures Counts(Succeeded(b), 0)
  {
  }

  // The retriever's counter is the number of real fetches that failed in a row, on either path.
  lemma {:induction false} InnerCountsFetches(depth: nat, es: seq<Event>)
    requires Run(Start(depth), es)
    ensures Counts(Exec(Start(depth), es).inner, FailedInARow(es))
  {
    if es != [] {
      var pre, e := es[..|es| - 1], es[|es| - 1];
      InnerCountsFetches(depth, pre);
      var u := Exec(Start(depth), pre);
      CountNone(u.inner);
      if e.End? {
        CountOne(u.inner, FailedInARow(pre), e.t, e.jitter);
      }
    }
  }

  // Nothing a fetch throws looks like a refusal by the time it arrives.
  ghost predicate FilterIsRight(depth: nat, es: seq<Event>)
  {
    && RefusedByABackoff(Wrapped(REFUSAL, depth))
    && forall i :: 0 <= i < |es| && es[i].End? && es[i].f.Broke? ==> !RefusedByABackoff(Wrapped(es[i].f.e, depth))
  }

  // What arrives is what its cause throws, wrapped as often as the inner manager does.
  ghost predicate ArrivesAs(p: Phase, depth: nat)
  {
    p.Arrived? ==>
      && (p.cause.Refusal? ==> p.thrown == Some(Wrapped(REFUSAL, depth)))
      && (p.cause.Fetch? && p.thrown.Some? ==> !RefusedByABackoff(p.thrown.value))
  }

  ghost predicate AllArriveRight(u: Sys)
  {
    forall a :: a in u.attempts ==> ArrivesAs(u.attempts[a].phase, u.depth)
  }

  lemma ArriveStep(u: Sys, e: Event)
    requires Enabled(u, e) && AllArriveRight(u)
    requires e.End? && e.f.Broke? ==> !RefusedByABackoff(Wrapped(e.f.e, u.depth))
    ensures AllArriveRight(Apply(u, e)) && Apply(u, e).depth == u.depth
  {
    if e.End? && e.f.Rejected? {
      FilterSees(Exn(false, None), u.depth);
    }
  }

  // What settling does to the manager's backoff, told by what came of the attempt.
  function AfterSettling(b: BackoffValue, came: Came, now: Time, jitter: Jitter): BackoffValue
  {
    match came
    case Ended(f) => if f.Accepted? then Succeeded(b) else Failed(b, now, jitter)
    case Warmed => Succeeded(b)
    case ThrewBefore(e) => if RefusedByABackoff(e) then b else Failed(b, now, jitter)
    case WasRefused => b
  }

  lemma SettledAs(u: Sys, pre: seq<Event>, e: Event)
    requires Enabled(u, e) && e.Settle? && AllArriveRight(u) && RefusedByABackoff(Wrapped(REFUSAL, u.depth))
    requires AttemptMatches(u, pre, e.a)
    ensures Apply(u, e).outer == AfterSettling(u.outer, CameOf(pre, e.a), e.t, e.jitter)
  {
    assert ArrivesAs(u.attempts[e.a].phase, u.depth);
  }

  lemma CountSettled(b: BackoffValue, came: Came, n: Tally, now: Time, jitter: Jitter)
    requires Counts(b, n.fetches + n.others)
    ensures var m := TallyOne(n, came); Counts(AfterSettling(b, came, now, jitter), m.fetches + m.others)
  {
    CountNone(b);
    CountOne(b, n.fetches + n.others, now, jitter);
  }

  lemma SettleStep(u: Sys, pre: seq<Event>, e: Event, n: Tally)
    requires Enabled(u, e) && AllArriveRight(u) && RefusedByABackoff(Wrapped(REFUSAL, u.depth))
    requires CountsTally(u, n) && (e.Settle? ==> AttemptMatches(u, pre, e.a))
    ensures CountsTally(Apply(u, e), if e.Settle? then TallyOne(n, CameOf(pre, e.a)) else n)
  {
    if e.Settle? {
      SettledAs(u, pre, e);
      CountSettled(u.outer, CameOf(pre, e.a), n, e.t, e.jitter);
    }
  }

  lemma FilterWasRight(depth: nat, es: seq<Event>)
    requires es != [] && FilterIsRight(depth, es)
    ensures var e := es[|es| - 1];
            && FilterIsRight(depth, es[..|es| - 1])
            && (e.End? && e.f.Broke? ==> !RefusedByABackoff(Wrapped(e.f.e, depth)))
  {
    var pre := es[..|es| - 1];
    assert forall i :: 0 <= i < |pre| ==> pre[i] == es[i];
  }

  lemma {:induction false} RunArrivesRight(depth: nat, es: seq<Event>)
    requires Run(Start(depth), es) && FilterIsRight(depth, es)
    ensures AllArriveRight(Exec(Start(depth), es)) && Exec(Start(depth), es).depth == depth
  {
    if es != [] {
      FilterWasRight(depth, es);
      RunArrivesRight(depth, es[..|es| - 1]);
      ArriveStep(Exec(Start(depth), es[..|es| - 1]), es[|es| - 1]);
    }
  }

  lemma {:induction false} OuterCountsColdLoads(depth: nat, es: seq<Event>)
    requires Run(Start(depth), es) && FilterIsRight(depth, es)
    ensures CountsTally(Exec(Start(depth), es), ColdInARow(es))
  {
    if es != [] {
      var pre := es[..|es| - 1];
      FilterWasRight(depth, es);
      OuterCountsColdLoads(depth, pre);
      RunArrivesRight(depth, pre);
      if es[|es| - 1].Settle? {
        AttemptsMatch(depth, pre, es[|es| - 1].a);
      }
      SettleStep(Exec(Start(depth), pre), pre, es[|es| - 1], ColdInARow(pre));
    }
  }

  ghost predicate CountsTally(u: Sys, n: Tally)
  {
    Counts(u.outer, n.fetches + n.others)
  }

  // Both counters count what really happened. The retriever's is the number of fetches that failed in a row, on either
  // path. The manager's is the number of cold loads whose fetch failed, plus calls that threw without a fetch; for this
  // the inner manager must wrap at most once, and no fetch may throw a transport exception within the filter's sight.
  lemma CountersAreRealFailures(depth: nat, es: seq<Event>)
    requires Run(Start(depth), es)
    ensures Counts(Exec(Start(depth), es).inner, FailedInARow(es))
    ensures depth <= 1 && NoTransportInSight(depth, es) ==>
              var n := ColdInARow(es);
              Counts(Exec(Start(depth), es).outer, n.fetches + n.others)
  {
    InnerCountsFetches(depth, es);
    if depth <= 1 && NoTransportInSight(depth, es) {
      FilterIsRightExactlyWhen(depth, Exn(false, None));
      forall i | 0 <= i < |es| && es[i].End? && es[i].f.Broke?
        ensures !RefusedByABackoff(Wrapped(es[i].f.e, depth))
      {
        FilterIsRightExactlyWhen(depth, es[i].f.e);
      }
      OuterCountsColdLoads(depth, es);
    }
  }

  ghost predicate NoTransportInSight(depth: nat, es: seq<Event>)
    requires depth <= 1
  {
    forall i :: 0 <= i < |es| && es[i].End? && es[i].f.Broke? ==> !TransportWithin(es[i].f.e, 2 - depth)
  }

  // While the counter has not overflowed, the window is one drawn for n failures.
  predicate RightWindow(b: BackoffValue, n: nat)
  {
    0 < n < 0x8000_0000 ==> B.Schedule(n) / 2 <= b.window <= B.Schedule(n)
  }

  ghost predicate WindowIsRight(u: Sys, n: nat)
  {
    RightWindow(u.inner, n)
  }

  // One failure more draws the window for that many.
  lemma FailedWindow(b: BackoffValue, n: nat, now: Time, jitter: Jitter)
    requires b.failures == B.Wrap32(n)
    ensures n + 1 < 0x8000_0000 ==> Failed(b, now, jitter).window == Ticks(B.Schedule(n + 1), jitter)
    ensures RightWindow(Failed(b, now, jitter), n + 1)
  {
    if n + 1 < 0x8000_0000 {
      CountFits(n);
      B.DotNetDelayIs(n + 1);
      TickBounds(n + 1, jitter);
    }
  }

  lemma WindowStep(u: Sys, e: Event, n: nat)
    requires Enabled(u, e) && u.inner.failures == B.Wrap32(n) && WindowIsRight(u, n)
    ensures WindowIsRight(Apply(u, e), if e.End? then (if e.f.Accepted? then 0 else n + 1) else n)
  {
    if e.End? {
      FailedWindow(u.inner, n, e.t, e.jitter);
    }
  }

  lemma {:induction false} WindowMatchesFailures(depth: nat, es: seq<Event>)
    requires Run(Start(depth), es)
    ensures WindowIsRight(Exec(Start(depth), es), FailedInARow(es))
  {
    if es != [] {
      var pre := es[..|es| - 1];
      WindowMatchesFailures(depth, pre);
      InnerCountsFetches(depth, pre);
      WindowStep(Exec(Start(depth), pre), es[|es| - 1], FailedInARow(pre));
    }
  }

  // The index of the latest fetch that failed, -1 before the first.
  function LastFailed(es: seq<Event>): (j: int)
    ensures -1 <= j < |es|
    ensures j >= 0 ==> es[j].End?
  {
    if es == [] then -1
    else if es[|es| - 1].End? && !es[|es| - 1].f.Accepted? then |es| - 1
    else LastFailed(es[..|es| - 1])
  }

  ghost predicate InnerMatches(u: Sys, es: seq<Event>)
  {
    var n, j := FailedInARow(es), LastFailed(es);
    n > 0 ==>
      && j >= 0 && u.inner.lastFailure == Some(es[j].t)
      && (n < 0x8000_0000 ==> u.inner.window == Ticks(B.Schedule(n), es[j].jitter))
  }

  lemma InnerStep(u: Sys, pre: seq<Event>, e: Event)
    requires Enabled(u, e) && InnerMatches(u, pre) && Counts(u.inner, FailedInARow(pre))
    ensures InnerMatches(Apply(u, e), pre + [e])
  {
    assert (pre + [e])[..|pre|] == pre;
    if e.End? {
      FailedWindow(u.inner, FailedInARow(pre), e.t, e.jitter);
    } else {
      assert LastFailed(pre + [e]) == LastFailed(pre);
    }
  }

  lemma {:induction false} InnerIsTheHistory(depth: nat, es: seq<Event>)
    requires Run(Start(depth), es)
    ensures InnerMatches(Exec(Start(depth), es), es)
  {
    if es != [] {
      var pre := es[..|es| - 1];
      InnerIsTheHistory(depth, pre);
      InnerCountsFetches(depth, pre);
      InnerStep(Exec(Start(depth), pre), pre, es[|es| - 1]);
      assert pre + [es[|es| - 1]] == es;
    }
  }

  // The retriever lets a fetch out exactly if the latest one to end did not fail, or the window that failure drew is
  // over.
  lemma AsksAreTold(depth: nat, es: seq<Event>, a: nat, t: Time)
    requires Run(Start(depth), es) && Enabled(Exec(Start(depth), es), Ask(a, t)) && FailedInARow(es) < 0x8000_0000
    ensures var v, n, j := Apply(Exec(Start(depth), es), Ask(a, t)), FailedInARow(es), LastFailed(es);
            In(v, a, Out) <==> n == 0 || (j >= 0 && t - es[j].t >= Ticks(B.Schedule(n), es[j].jitter))
  {
    InnerIsTheHistory(depth, es);
    InnerCountsFetches(depth, es);
  }

  // After n failures in a row nothing goes out, on either path, for at least half the promised window; after the whole
  // window nothing is held back by the retriever. This is for a counter that has not overflowed (see
  // Backoff.DotNetWindowIsRightExactlyWhen).
  lemma NothingGoesOutInTheWindow(depth: nat, es: seq<Event>, a: nat, t: Time)
    requires Run(Start(depth), es) && Enabled(Exec(Start(depth), es), Ask(a, t))
    requires 0 < FailedInARow(es) < 0x8000_0000
    ensures var u, n := Exec(Start(depth), es), FailedInARow(es);
            && u.inner.lastFailure.Some?
            && var since := t - u.inner.lastFailure.value;
            && (In(Apply(u, Ask(a, t)), a, Out) ==> since >= B.Schedule(n) / 2)
            && (since >= B.Schedule(n) ==> In(Apply(u, Ask(a, t)), a, Out))
  {
    InnerCountsFetches(depth, es);
    WindowMatchesFailures(depth, es);
  }

  // ---- the manager's own window ----

  lemma WindowSettled(b: BackoffValue, came: Came, n: Tally, now: Time, jitter: Jitter)
    requires Counts(b, n.fetches + n.others) && RightWindow(b, n.fetches + n.others)
    ensures var m := TallyOne(n, came); RightWindow(AfterSettling(b, came, now, jitter), m.fetches + m.others)
  {
    FailedWindow(b, n.fetches + n.others, now, jitter);
  }

  lemma OuterWindowStep(u: Sys, pre: seq<Event>, e: Event, n: Tally)
    requires Enabled(u, e) && AllArriveRight(u) && RefusedByABackoff(Wrapped(REFUSAL, u.depth))
    requires (e.Settle? ==> AttemptMatches(u, pre, e.a)) && CountsTally(u, n)
    requires RightWindow(u.outer, n.fetches + n.others)
    ensures var m := if e.Settle? then TallyOne(n, CameOf(pre, e.a)) else n;
            RightWindow(Apply(u, e).outer, m.fetches + m.others)
  {
    if e.Settle? {
      SettledAs(u, pre, e);
      WindowSettled(u.outer, CameOf(pre, e.a), n, e.t, e.jitter);
    }
  }

  lemma {:induction false} OuterWindowMatches(depth: nat, es: seq<Event>)
    requires Run(Start(depth), es) && FilterIsRight(depth, es)
    ensures RightWindow(Exec(Start(depth), es).outer, ColdInARow(es).fetches + ColdInARow(es).others)
  {
    if es != [] {
      var pre := es[..|es| - 1];
      FilterWasRight(depth, es);
      OuterWindowMatches(depth, pre);
      OuterCountsColdLoads(depth, pre);
      RunArrivesRight(depth, pre);
      if es[|es| - 1].Settle? {
        AttemptsMatch(depth, pre, es[|es| - 1].a);
      }
      OuterWindowStep(Exec(Start(depth), pre), pre, es[|es| - 1], ColdInARow(pre));
    }
  }

  // After n failed cold loads in a row a cold load is refused at once for at least half the promised window, and no
  // longer than all of it; with none on record it is not, and a refetch never is.
  lemma ColdLoadsAreHeldBack(depth: nat, es: seq<Event>, a: nat, path: Path, t: Time)
    requires Run(Start(depth), es) && FilterIsRight(depth, es) && Enabled(Exec(Start(depth), es), Begin(a, path, t))
    requires ColdInARow(es).fetches + ColdInARow(es).others < 0x8000_0000
    ensures var u, n := Exec(Start(depth), es), ColdInARow(es).fetches + ColdInARow(es).others;
            var refused := In(Apply(u, Begin(a, path, t)), a, RefusedAtOnce);
            && (refused <==> !In(Apply(u, Begin(a, path, t)), a, Begun))
            && (path.Refetch? || n == 0 ==> !refused)
            && (path.Cold? && n > 0 ==>
                  && u.outer.lastFailure.Some?
                  && (refused ==> t - u.outer.lastFailure.value < B.Schedule(n))
                  && (t - u.outer.lastFailure.value < B.Schedule(n) / 2 ==> refused))
  {
    OuterCountsColdLoads(depth, es);
    OuterWindowMatches(depth, es);
  }

  // ---- refusals ----

  function Without(es: seq<Event>, who: set<nat>): seq<Event>
  {
    if es == [] then []
    else Without(es[..|es| - 1], who) + (if es[|es| - 1].a in who then [] else [es[|es| - 1]])
  }

  predicate RefusedOrBegun(p: Phase)
  {
    match p
    case Begun => true
    case RefusedAtOnce => true
    case Out => false
    case Arrived(_, cause) => cause.Refusal?
    case Over(cause) => cause.Refusal?
  }

  // Attempts that have been refused, or have not got as far.
  predicate NeverOut(s: Sys, who: set<nat>)
  {
    forall a :: a in who && a in s.attempts ==> RefusedOrBegun(s.attempts[a].phase)
  }

  // A refusal arrives as the inner manager wraps it, whatever else has been thrown.
  ghost predicate RefusalsArrive(s: Sys)
  {
    forall a :: HasArrived(s, a) && s.attempts[a].phase.cause.Refusal? ==>
      s.attempts[a].phase.thrown == Some(Wrapped(REFUSAL, s.depth))
  }

  ghost predicate SameButFor(s: Sys, s2: Sys, who: set<nat>)
  {
    && s.outer == s2.outer && s.inner == s2.inner && s.depth == s2.depth
    && (forall a :: a !in who ==> (a in s.attempts <==> a in s2.attempts))
    && (forall a :: a !in who && a in s.attempts ==> s.attempts[a] == s2.attempts[a])
  }

  lemma RefusalsArriveStep(s: Sys, e: Event)
    requires Enabled(s, e) && RefusalsArrive(s)
    ensures RefusalsArrive(Apply(s, e))
  {
  }

  lemma RefusedStep(s: Sys, s2: Sys, who: set<nat>, e: Event)
    requires Enabled(s, e) && RefusalsArrive(s) && RefusedByABackoff(Wrapped(REFUSAL, s.depth))
    requires SameButFor(s, s2, who) && NeverOut(Apply(s, e), who) && e.a in who
    ensures SameButFor(Apply(s, e), s2, who)
  {
    assert RefusedOrBegun(Apply(s, e).attempts[e.a].phase);
  }

  lemma OtherStep(s: Sys, s2: Sys, who: set<nat>, e: Event)
    requires Enabled(s, e) && SameButFor(s, s2, who) && e.a !in who
    ensures Enabled(s2, e) && SameButFor(Apply(s, e), Apply(s2, e), who)
  {
  }

  lemma NeverOutBefore(s: Sys, who: set<nat>, e: Event)
    requires Enabled(s, e) && NeverOut(Apply(s, e), who)
    ensures NeverOut(s, who)
  {
    forall a | a in who && a in s.attempts
      ensures RefusedOrBegun(s.attempts[a].phase)
    {
      assert a in Apply(s, e).attempts;
    }
  }

  // A refusal counts for nothing while the inner manager wraps at most once: take every attempt that was refused out of
  // a run, and both backoffs, counters, windows and all, end as they did. Twenty queued callers behind one failure
  // leave the trace of one. What fetches throw does not matter here.
  lemma {:induction false} RefusalsLeaveNoTrace(depth: nat, es: seq<Event>, who: set<nat>)
    requires depth <= 1
    requires Run(Start(depth), es) && NeverOut(Exec(Start(depth), es), who)
    ensures Run(Start(depth), Without(es, who))
    ensures SameButFor(Exec(Start(depth), es), Exec(Start(depth), Without(es, who)), who)
    ensures RefusalsArrive(Exec(Start(depth), es))
  {
    if es != [] {
      var s, pre, e := Start(depth), es[..|es| - 1], es[|es| - 1];
      var u := Exec(s, pre);
      NeverOutBefore(u, who, e);
      RefusalsLeaveNoTrace(depth, pre, who);
      RefusalsArriveStep(u, e);
      DepthStays(depth, pre);
      if e.a in who {
        FilterIsRightExactlyWhen(depth, Exn(false, None));
        RefusedStep(u, Exec(s, Without(pre, who)), who, e);
        assert Without(pre, who) + [] == Without(pre, who);
      } else {
        OtherStep(u, Exec(s, Without(pre, who)), who, e);
        assert (Without(pre, who) + [e])[..|Without(pre, who)|] == Without(pre, who);
      }
    }
  }

  lemma {:induction false} DepthStays(depth: nat, es: seq<Event>)
    ensures Exec(Start(depth), es).depth == depth
  {
    if es != [] {
      DepthStays(depth, es[..|es| - 1]);
    }
  }

  // ---- deeper wrapping ----

  lemma Then(s: Sys, es: seq<Event>, e: Event) returns (more: seq<Event>)
    requires Run(s, es) && Enabled(Exec(s, es), e)
    ensures more == es + [e] && Run(s, more) && Exec(s, more) == Apply(Exec(s, es), e)
  {
    more := es + [e];
    assert more[..|es|] == es;
  }

  // A refetch that fails at 0 opens the retriever's window only.
  lemma FailedRefetch(depth: nat) returns (es: seq<Event>)
    ensures var s := Start(depth);
            var u := Exec(s, es);
            && Run(s, es) && u.outer == IDLE && u.depth == depth && u.attempts.Keys == {0} && Remaining(u.inner, 0) > 0
    ensures forall i :: 0 <= i < |es| ==> es[i].a == 0
  {
    var s := Start(depth);
    es := Then(s, [], Begin(0, Refetch, 0));
    es := Then(s, es, Ask(0, 0));
    es := Then(s, es, End(0, Rejected, 0, 0.5));
    TickBounds(1, 0.5);
    B.ScheduleStart();
  }

  // A cold load refused inside that window reaches the manager.
  lemma RefusalReaches(depth: nat) returns (pre: seq<Event>, es: seq<Event>)
    ensures var s := Start(depth);
            var u := Exec(s, es);
            && Run(s, pre) && Run(s, es) && Exec(s, pre).outer == IDLE && Without(es, {1}) == Without(pre, {1})
            && u.outer == IDLE && In(u, 1, Arrived(Some(Wrapped(REFUSAL, depth)), Refusal))
    ensures forall i :: 0 <= i < |pre| ==> pre[i].a == 0
  {
    var s := Start(depth);
    pre := FailedRefetch(depth);
    var begun := Then(s, pre, Begin(1, Cold, 0));
    es := Then(s, begun, Ask(1, 0));
    assert Without(begun, {1}) == Without(pre, {1}) by { assert begun[..|pre|] == pre; }
    assert Without(es, {1}) == Without(begun, {1}) by { assert es[..|begun|] == begun; }
  }

  lemma SettleRefusal(u: Sys, e: Event)
    requires e.Settle? && u.outer == IDLE && In(u, e.a, Arrived(Some(Wrapped(REFUSAL, u.depth)), Refusal))
    ensures Enabled(u, e) && NeverOut(Apply(u, e), {e.a})
    ensures Apply(u, e).outer.failures == if u.depth <= 1 then 0 else 1
  {
    FilterSees(REFUSAL, u.depth);
  }

  lemma RefusedColdLoad(depth: nat) returns (pre: seq<Event>, es: seq<Event>)
    ensures var s := Start(depth);
            && Run(s, pre) && Run(s, es) && Exec(s, pre).outer == IDLE
            && NeverOut(Exec(s, es), {1}) && Without(es, {1}) == Without(pre, {1})
            && Exec(s, es).outer.failures == if depth <= 1 then 0 else 1
    ensures forall i :: 0 <= i < |pre| ==> pre[i].a == 0
  {
    var asked: seq<Event>;
    pre, asked := RefusalReaches(depth);
    DepthStays(depth, asked);
    SettleRefusal(Exec(Start(depth), asked), Settle(1, 0, 0.5));
    es := Then(Start(depth), asked, Settle(1, 0, 0.5));
    assert Without(es, {1}) == Without(asked, {1}) by { assert es[..|asked|] == asked; }
  }

  lemma {:induction false} WithoutNone(es: seq<Event>, who: set<nat>)
    requires forall i :: 0 <= i < |es| ==> es[i].a !in who
    ensures Without(es, who) == es
  {
    if es != [] {
      WithoutNone(es[..|es| - 1], who);
    }
  }

  ghost predicate LeavesNoTrace(depth: nat, es: seq<Event>, who: set<nat>)
  {
    Run(Start(depth), es) && NeverOut(Exec(Start(depth), es), who) ==>
      SameButFor(Exec(Start(depth), es), Exec(Start(depth), Without(es, who)), who)
  }

  // Refusals count for nothing in every run exactly while the inner manager wraps what the retriever throws at most
  // once.
  lemma RefusalsLeaveNoTraceExactlyWhen(depth: nat)
    ensures (forall es, who :: LeavesNoTrace(depth, es, who)) <==> depth <= 1
  {
    if depth <= 1 {
      forall es, who ensures LeavesNoTrace(depth, es, who) {
        if Run(Start(depth), es) && NeverOut(Exec(Start(depth), es), who) {
          RefusalsLeaveNoTrace(depth, es, who);
        }
      }
    } else {
      var pre, es := RefusedColdLoad(depth);
      WithoutNone(pre, {1});
      assert !LeavesNoTrace(depth, es, {1});
    }
  }

  // Nobody is ever stuck: each attempt has its next step, whatever its fetch came to.
  lemma NobodyIsStuck(u: Sys, a: nat, path: Path, f: Fetched, e: Exn, t: Time, jitter: Jitter)
    ensures a !in u.attempts ==> Enabled(u, Begin(a, path, t))
    ensures a in u.attempts ==>
              match u.attempts[a].phase
              case Begun =>
                && Enabled(u, Ask(a, t))
                && (u.attempts[a].path.Cold? ==> Enabled(u, Warm(a)) && Enabled(u, Throw(a, e)))
              case Out => Enabled(u, End(a, f, t, jitter))
              case Arrived(_, _) => Enabled(u, Settle(a, t, jitter))
              case _ => true
  {
  }
}
