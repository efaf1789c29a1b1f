/** What holds of every run of the Go key store. */
module GoKeyStoreResults {
  import opened Common
  import opened KeySets
  import opened GoKeyStore
  import opened GoKeyStoreRuns
  import opened Spacing
  import B = Backoff

  // ---- the history of a run ----

  // A request that went out: when, and whether it was a forced refetch or a cold load.
  datatype Start = Start(t: Time, forced: bool)

  function StartOf(s: Sys, e: Event): seq<Start>
  {
    if e.Decide? && Enabled(s, e) && DecisionAt(s, e.c, e.t).Started? then
      [Start(e.t, DecisionAt(s, e.c, e.t).forced)]
    else []
  }

  function Starts(s: Sys, es: seq<Event>): seq<Start>
  {
    if es == [] then []
    else Starts(s, es[..|es| - 1]) + StartOf(Exec(s, es[..|es| - 1]), es[|es| - 1])
  }

  function Times(xs: seq<Start>): (ts: seq<Time>)
    ensures |ts| == |xs|
  {
    seq(|xs|, i requires 0 <= i < |xs| => xs[i].t)
  }

  function TimesOf(xs: seq<Start>, forced: bool): seq<Time>
  {
    if xs == [] then []
    else
      TimesOf(xs[..|xs| - 1], forced) + (if xs[|xs| - 1].forced == forced then [xs[|xs| - 1].t] else [])
  }

  lemma TimesOfSnoc(xs: seq<Start>, x: Start, forced: bool)
    ensures TimesOf(xs + [x], forced) == TimesOf(xs, forced) + (if x.forced == forced then [x.t] else [])
  {
    assert (xs + [x])[..|xs|] == xs;
  }

  function Records(es: seq<Event>): nat
  {
    if es == [] then 0 else Records(es[..|es| - 1]) + (if es[|es| - 1].Record? then 1 else 0)
  }

  function Closes(es: seq<Event>, f: nat): nat
  {
    if es == [] then 0 else Closes(es[..|es| - 1], f) + (if es[|es| - 1] == Close(f) then 1 else 0)
  }

  // The index of the latest install, -1 before the first.
  function LastInstall(es: seq<Event>): (j: int)
    ensures -1 <= j < |es|
    ensures j >= 0 ==> es[j].Install?
    ensures forall m :: j < m < |es| ==> !es[m].Install?
  {
    if es == [] then -1
    else if es[|es| - 1].Install? then |es| - 1
    else
      var j := LastInstall(es[..|es| - 1]);
      assert forall m :: j < m < |es| - 1 ==> es[..|es| - 1][m] == es[m];
      j
  }

  // ---- single flight ----

  // Every request but the one in flight has been recorded, each exactly once; a flight closes at most once.
  lemma {:induction false} FlightsAreAccountedFor(window: Window, start: Time, es: seq<Event>, f: nat)
    requires Run(Init(window, start), es)
    ensures var u := Exec(Init(window, start), es);
            && |Starts(Init(window, start), es)| == |u.flights|
            && |u.flights| == Records(es) + (if u.store.flight.Some? then 1 else 0)
            && Closes(es, f) == (if At(u, f, CLOSED) then 1 else 0)
  {
    if es != [] {
      var pre := es[..|es| - 1];
      FlightsAreAccountedFor(window, start, pre, f);
      ReachableInv(window, start, pre);
      AccountStep(Exec(Init(window, start), pre), es[|es| - 1], f);
    }
  }

  predicate InFlight(u: Sys) { u.store.flight.Some? }

  lemma AccountStep(u: Sys, e: Event, f: nat)
    requires Inv(u) && Enabled(u, e)
    ensures var v := Apply(u, e);
            && |v.flights| == |u.flights| + |StartOf(u, e)|
            && InFlight(v) == (if StartOf(u, e) != [] then true else if e.Record? then false else InFlight(u))
            && (e.Record? ==> InFlight(u) && StartOf(u, e) == []) && (StartOf(u, e) != [] ==> !InFlight(u))
            && |StartOf(u, e)| <= 1
            && At(v, f, CLOSED) == (At(u, f, CLOSED) || e == Close(f))
            && (e == Close(f) ==> !At(u, f, CLOSED))
  {
  }

  // A request goes out only when no earlier one is unrecorded, whatever the interleaving.
  lemma OneAtATime(window: Window, start: Time, es: seq<Event>, c: nat, t: Time)
    requires Run(Init(window, start), es)
    requires Enabled(Exec(Init(window, start), es), Decide(c, t))
    ensures var u := Exec(Init(window, start), es);
            DecisionAt(u, c, t).Started? ==>
              && (forall f :: 0 <= f < |u.flights| ==> u.flights[f] !in UNRECORDED)
              && Apply(u, Decide(c, t)).store.flight == Some(|u.flights|)
  {
    ReachableInv(window, start, es);
  }

  // A flight can always be finished without any caller: its own steps record it, free the store and tell its waiters.
  lemma FlightsFinishOnTheirOwn(window: Window, start: Time, es: seq<Event>, f: nat, t: Time, jitter: Jitter)
    requires Run(Init(window, start), es)
    requires At(Exec(Init(window, start), es), f, UNRECORDED) && Exec(Init(window, start), es).now <= t
    ensures var u := Exec(Init(window, start), es);
            var end := Exec(u, [Record(f, t, jitter), Close(f)]);
            && Run(u, [Record(f, t, jitter), Close(f)])
            && end.store.flight.None?
            && At(end, f, CLOSED)
            && end.callers == u.callers
            && (u.flights[f].Fetching? ==> end.store.failures == u.store.failures + 1)
            && (u.flights[f].Installed? ==> end.store.failures == 0)
  {
    var u := Exec(Init(window, start), es);
    ReachableInv(window, start, es);
    var r := Record(f, t, jitter);
    ExecSnoc(u, [], r);
    assert [] + [r] == [r];
    ExecSnoc(u, [r], Close(f));
    assert [r] + [Close(f)] == [r, Close(f)];
  }

  // ---- the forced-refetch window ----

  function Latest(ts: seq<Time>): Option<Time>
  {
    if ts == [] then None else Some(ts[|ts| - 1])
  }

  // The window is spent on real requests only: its stamp is always the start of the latest forced refetch.
  lemma {:induction false} WindowIsSpentOnRequests(window: Window, start: Time, es: seq<Event>)
    requires Run(Init(window, start), es)
    ensures var forced := TimesOf(Starts(Init(window, start), es), true);
            && Exec(Init(window, start), es).store.forcedAt == Latest(forced)
            && Spaced(forced, window)
  {
    if es != [] {
      var s, pre, e := Init(window, start), es[..|es| - 1], es[|es| - 1];
      WindowIsSpentOnRequests(window, start, pre);
      ReachableInv(window, start, pre);
      WindowStep(Exec(s, pre), e, TimesOf(Starts(s, pre), true));
      TimesOfMore(Exec(s, pre), e, Starts(s, pre), true);
    }
  }

  lemma WindowStep(u: Sys, e: Event, forced: seq<Time>)
    requires Enabled(u, e)
    requires u.store.forcedAt == Latest(forced) && Spaced(forced, u.window)
    ensures var more := forced + TimesOf(StartOf(u, e), true);
            Apply(u, e).store.forcedAt == Latest(more) && Spaced(more, u.window)
  {
    OneStart(u, e, true);
    if TimesOf(StartOf(u, e), true) == [] {
      assert forced + [] == forced;
    }
  }

  function FailedInARow(s: Sys, es: seq<Event>): nat
  {
    if es == [] then 0
    else
      var n, e := FailedInARow(s, es[..|es| - 1]), es[|es| - 1];
      if !e.Record? then n else if At(Exec(s, es[..|es| - 1]), e.f, {Installed}) then 0 else n + 1
  }

  // The counter is the number of fetches that failed in a row: refusals, joins and cancellations do not count.
  lemma {:induction false} OnlyFetchesCount(window: Window, start: Time, es: seq<Event>)
    requires Run(Init(window, start), es)
    ensures Exec(Init(window, start), es).store.failures == FailedInARow(Init(window, start), es)
  {
    if es != [] {
      OnlyFetchesCount(window, start, es[..|es| - 1]);
    }
  }

  // The index of the latest outcome recorded, -1 before the first.
  function LastRecord(es: seq<Event>): (j: int)
    ensures -1 <= j < |es|
    ensures j >= 0 ==> es[j].Record?
  {
    if es == [] then -1 else if es[|es| - 1].Record? then |es| - 1 else LastRecord(es[..|es| - 1])
  }

  // What a run has left behind, told from its history: whether a set can be used and has the kid, whether a request is
  // unrecorded, and whether the latest failure's window is still open.
  predicate Usable(es: seq<Event>, t: Time)
  {
    LastInstall(es) >= 0 && t - es[LastInstall(es)].t < MAX_AGE
  }

  predicate Misses(es: seq<Event>, kid: string, t: Time)
  {
    Usable(es, t) ==> Lacks(es[LastInstall(es)].ks, kid)
  }

  predicate NothingOut(s: Sys, es: seq<Event>)
  {
    |Starts(s, es)| == Records(es)
  }

  predicate JustForced(forced: seq<Time>, window: Window, t: Time)
  {
    forced != [] && t - forced[|forced| - 1] < window
  }

  predicate JustFailed(s: Sys, es: seq<Event>, t: Time)
  {
    var n, j := FailedInARow(s, es), LastRecord(es);
    n > 0 && j >= 0 && t - es[j].t < B.Jittered(B.GoDelay(n), es[j].jitter)
  }

  // The window in force is the one the latest failure drew.
  lemma {:induction false} WindowIsTheLastFailures(window: Window, start: Time, es: seq<Event>)
    requires Run(Init(window, start), es)
    ensures var u, n, j := Exec(Init(window, start), es), FailedInARow(Init(window, start), es), LastRecord(es);
            if n == 0 then u.store.lastFailure.None?
            else
              && j >= 0 && u.store.lastFailure == Some(es[j].t)
              && u.store.backoff == B.Jittered(B.GoDelay(n), es[j].jitter)
  {
    if es != [] {
      var pre := es[..|es| - 1];
      WindowIsTheLastFailures(window, start, pre);
      OnlyFetchesCount(window, start, pre);
      WindowDrawn(Exec(Init(window, start), pre), es[|es| - 1]);
    }
  }

  lemma WindowDrawn(u: Sys, e: Event)
    requires Enabled(u, e)
    ensures var st, st' := u.store, Apply(u, e).store;
            if !e.Record? then st'.lastFailure == st.lastFailure && st'.backoff == st.backoff
            else if At(u, e.f, {Installed}) then st'.lastFailure.None?
            else
              && st'.lastFailure == Some(e.t)
              && st'.backoff == B.Jittered(B.GoDelay(st.failures + 1), e.jitter)
  {
  }

  // Every answer of the decision is an if and only if on the run's history. A miss joins whatever is out; it is turned
  // away by the window only while a usable set lacks its kid and the latest forced refetch is that recent, by the
  // backoff only while the latest outcome is a failure that recent, and starts a fetch in every other case.
  lemma DecidedExactlyWhen(window: Window, start: Time, es: seq<Event>, c: nat, t: Time)
    requires Run(Init(window, start), es) && Enabled(Exec(Init(window, start), es), Decide(c, t))
    ensures var s := Init(window, start);
            var u := Exec(s, es);
            var limited := Usable(es, t) && JustForced(TimesOf(Starts(s, es), true), window, t);
            var misses, d := Misses(es, u.callers[c].kid, t), DecisionAt(u, c, t);
            && (d == Cached <==> !misses)
            && (d.Joined? <==> misses && !NothingOut(s, es))
            && (d.Joined? ==> d.flight == |Starts(s, es)| - 1)
            && (d == RateLimited <==> misses && NothingOut(s, es) && limited)
            && (d == BackingOff <==> misses && NothingOut(s, es) && !limited && JustFailed(s, es, t))
            && (d == Started(|Starts(s, es)|, Usable(es, t)) <==>
                  misses && NothingOut(s, es) && !limited && !JustFailed(s, es, t))
            && (!d.Started? ==> Apply(u, Decide(c, t)).store == u.store)
  {
    UsableIsFresh(window, start, es, t);
    JustFailedIsBackedOff(window, start, es, t);
    WindowIsSpentOnRequests(window, start, es);
    NothingOutIsNoFlight(window, start, es);
    DecideTable(Exec(Init(window, start), es), c, t);
  }

  lemma DecideTable(u: Sys, c: nat, t: Time)
    requires Enabled(u, Decide(c, t))
    ensures var misses := Lookup(u.store, u.callers[c].kid, t).None?;
            var limited := Fresh(u.store, t) && u.store.forcedAt.Some? && t - u.store.forcedAt.value < u.window;
            var failed := Remaining(u.store, t) > 0;
            var d := DecisionAt(u, c, t);
            && (d == Cached <==> !misses)
            && (d.Joined? <==> misses && u.store.flight.Some?)
            && (d.Joined? ==> Some(d.flight) == u.store.flight)
            && (d == RateLimited <==> misses && u.store.flight.None? && limited)
            && (d == BackingOff <==> misses && u.store.flight.None? && !limited && failed)
            && (d == Started(u.store.started, Fresh(u.store, t)) <==>
                  misses && u.store.flight.None? && !limited && !failed)
            && (!d.Started? ==> Apply(u, Decide(c, t)).store == u.store)
  {
  }

  lemma UsableIsFresh(window: Window, start: Time, es: seq<Event>, t: Time)
    requires Run(Init(window, start), es)
    ensures var u := Exec(Init(window, start), es);
            && (Usable(es, t) <==> Fresh(u.store, t))
            && (forall kid :: Misses(es, kid, t) <==> Lookup(u.store, kid, t).None?)
  {
    StoreHoldsTheLastInstall(window, start, es);
    if LastInstall(es) >= 0 {
      forall kid ensures KeyFor(es[LastInstall(es)].ks, kid).None? <==> Lacks(es[LastInstall(es)].ks, kid) {
        KeyForIsTheFirstFiled(es[LastInstall(es)].ks, kid, 0);
      }
    }
  }

  lemma JustFailedIsBackedOff(window: Window, start: Time, es: seq<Event>, t: Time)
    requires Run(Init(window, start), es)
    ensures JustFailed(Init(window, start), es, t) <==> Remaining(Exec(Init(window, start), es).store, t) > 0
  {
    WindowIsTheLastFailures(window, start, es);
  }

  lemma NothingOutIsNoFlight(window: Window, start: Time, es: seq<Event>)
    requires Run(Init(window, start), es)
    ensures var s := Init(window, start);
            var u := Exec(s, es);
            && (NothingOut(s, es) <==> u.store.flight.None?)
            && (u.store.flight.Some? ==> u.store.flight.value == |Starts(s, es)| - 1)
            && u.store.started == |Starts(s, es)| && u.window == window
  {
    ReachableInv(window, start, es);
    FlightsAreAccountedFor(window, start, es, 0);
    FlightIsTheLast(window, start, es);
  }

  // What is out is the request that went out last.
  lemma {:induction false} FlightIsTheLast(window: Window, start: Time, es: seq<Event>)
    requires Run(Init(window, start), es)
    ensures var u := Exec(Init(window, start), es);
            u.store.flight.Some? ==> u.store.flight.value == |u.flights| - 1
  {
    if es != [] {
      FlightIsTheLast(window, start, es[..|es| - 1]);
      ReachableInv(window, start, es[..|es| - 1]);
    }
  }

  // Until a forced refetch has gone out, a kid missing from a usable set starts or joins a fetch: never refused.
  lemma FirstUnknownKidIsServed(window: Window, start: Time, es: seq<Event>, c: nat, t: Time)
    requires Run(Init(window, start), es)
    requires TimesOf(Starts(Init(window, start), es), true) == []
    requires var u := Exec(Init(window, start), es);
             Enabled(u, Decide(c, t)) && Fresh(u.store, t) && Lookup(u.store, u.callers[c].kid, t).None?
    ensures var d := DecisionAt(Exec(Init(window, start), es), c, t); d.Joined? || (d.Started? && d.forced)
  {
    WindowIsSpentOnRequests(window, start, es);
    ReachableInv(window, start, es);
  }

  // ---- no permanent lock-out ----

  // With no flight, a miss is refused only inside the backoff (5 s at most after the last failure) or, with a usable
  // set, inside the window.
  lemma NoLockOut(window: Window, start: Time, es: seq<Event>, c: nat, t: Time)
    requires Run(Init(window, start), es)
    requires var u := Exec(Init(window, start), es);
             && Enabled(u, Decide(c, t)) && u.store.flight.None?
             && Lookup(u.store, u.callers[c].kid, t).None?
             && (u.store.lastFailure.Some? ==> t - u.store.lastFailure.value >= 5 * SECOND)
    ensures var u := Exec(Init(window, start), es);
            var d := DecisionAt(u, c, t);
            && (!Fresh(u.store, t) ==> d == Started(|u.flights|, false))
            && (Fresh(u.store, t) && (u.store.forcedAt.Some? ==> t - u.store.forcedAt.value >= window) ==>
                  d == Started(|u.flights|, true))
  {
    ReachableInv(window, start, es);
  }

  // ---- an outage ----

  ghost predicate NothingInstalled(es: seq<Event>)
  {
    forall i :: 0 <= i < |es| ==> !es[i].Install?
  }

  ghost predicate InOutage(u: Sys, ts: seq<Time>)
  {
    && u.store.failures == |ts| - (if u.store.flight.Some? then 1 else 0)
    && !Installing(u)
    && (ts != [] ==>
          && ts[|ts| - 1] <= u.now
          && (u.store.flight.None? ==> u.store.lastFailure.Some? && ts[|ts| - 1] <= u.store.lastFailure.value)
          && (|ts| <= 0x8000_0000_0000_0000 ==> ts[|ts| - 1] - ts[0] >= B.LeastWait(0, |ts| - 1)))
  }

  lemma OutageStart(u: Sys, e: Event, ts: seq<Time>)
    requires Inv(u) && Enabled(u, e) && InOutage(u, ts) && StartOf(u, e) != []
    ensures InOutage(Apply(u, e), ts + [e.t])
  {
    assert !Installing(Apply(u, e)) by { NewFlightIsOut(u, e); }
    if ts != [] && |ts| < 0x8000_0000_0000_0000 {
      B.GoDelayIs(|ts|);
      assert e.t >= ts[|ts| - 1] + B.Schedule(|ts|) / 2;
    }
  }

  lemma OutageStep(u: Sys, e: Event, xs: seq<Start>)
    requires Inv(u) && Enabled(u, e) && !e.Install?
    requires InOutage(u, Times(xs))
    ensures InOutage(Apply(u, e), Times(xs + StartOf(u, e)))
  {
    if StartOf(u, e) != [] {
      OutageStart(u, e, Times(xs));
      assert Times(xs + StartOf(u, e)) == Times(xs) + [e.t];
    } else {
      assert Times(xs + StartOf(u, e)) == Times(xs);
    }
  }

  lemma {:induction false} OutageKept(s: Sys, es: seq<Event>)
    requires Inv(s) && s.store.failures == 0 && s.store.flight.None?
    requires Run(s, es) && NothingInstalled(es)
    ensures InOutage(Exec(s, es), Times(Starts(s, es)))
  {
    if es != [] {
      var pre := es[..|es| - 1];
      OutageKept(s, pre);
      RunKeepsInv(s, pre);
      OutageStep(Exec(s, pre), es[|es| - 1], Starts(s, pre));
    }
  }

  // Whatever callers, kids and cancellations: when every fetch fails from a healthy state on, the N-th request goes out
  // no sooner than the least waits of N - 1 failures after the first; from the sixth on that is 3.1 s and 2.5 s more
  // each.
  lemma OutageBound(s: Sys, es: seq<Event>)
    requires Inv(s) && s.store.failures == 0 && s.store.flight.None?
    requires Run(s, es) && NothingInstalled(es)
    requires 1 <= |Starts(s, es)| <= 0x8000_0000_0000_0000
    ensures var ts, n := Times(Starts(s, es)), |Starts(s, es)|;
            && ts[n - 1] - ts[0] >= B.LeastWait(0, n - 1)
            && (n >= 6 ==> ts[n - 1] - ts[0] >= 3_100_000_000 + 2_500_000_000 * (n - 6))
  {
    OutageKept(s, es);
    var n := |Starts(s, es)|;
    if n >= 6 {
      B.LeastWaitOutage(n - 1);
    }
  }

  // n requests as close as the bound allows, the last one still out.
  ghost predicate Tight(window: Window, start: Time, n: nat, es: seq<Event>)
    requires n >= 1
  {
    var s := Init(window, start);
    var u, xs := Exec(s, es), Starts(s, es);
    && Run(s, es) && NothingInstalled(es) && |xs| == n
    && xs[0].t == start && xs[n - 1].t == start + B.LeastWait(0, n - 1)
    && u.store == EMPTY.(failures := n - 1, lastFailure := u.store.lastFailure, backoff := u.store.backoff,
                         flight := Some(n - 1), started := n)
    && |u.flights| == n && u.flights[n - 1] == Fetching && u.now == xs[n - 1].t && u.window == window
    && (forall c :: c in u.callers ==> c < n)
  }

  // A request at the first moment the store allows one: nothing is cached, nothing is out, no backoff is left.
  lemma RequestAt(window: Window, start: Time, n: nat, es: seq<Event>, t: Time) returns (more: seq<Event>)
    requires Run(Init(window, start), es) && NothingInstalled(es)
    requires var u := Exec(Init(window, start), es);
             && u.store.jwks.None? && u.store.flight.None? && u.now <= t && Remaining(u.store, t) == 0
             && n !in u.callers
    ensures var s := Init(window, start);
            var u := Exec(s, es);
            && Run(s, more) && NothingInstalled(more) && Starts(s, more) == Starts(s, es) + [Start(t, false)]
            && Exec(s, more) == u.(store := u.store.(flight := Some(u.store.started), started := u.store.started + 1),
                                   flights := u.flights + [Fetching], now := t,
                                   callers := u.callers[n := Waiting("", u.store.started)])
  {
    var s := Init(window, start);
    var u := Exec(s, es);
    more := Then(s, es, Call(n, "", t));
    assert Starts(s, es) + [] == Starts(s, es);
    more := Then(s, more, Decide(n, t));
    assert Exec(s, more).callers == u.callers[n := Waiting("", u.store.started)];
  }

  lemma FailAtOnce(window: Window, start: Time, n: nat, es: seq<Event>) returns (more: seq<Event>)
    requires 1 <= n < 0x8000_0000_0000_0000 && Tight(window, start, n, es)
    ensures var s := Init(window, start);
            var u := Exec(s, es);
            && Run(s, more) && NothingInstalled(more) && Starts(s, more) == Starts(s, es)
            && Exec(s, more) == u.(store := EMPTY.(failures := n, lastFailure := Some(u.now),
                                                   backoff := B.Schedule(n) / 2, started := n),
                                   flights := u.flights[n - 1 := Recorded(false)])
  {
    var s := Init(window, start);
    B.LeastJitter(n);
    more := Then(s, es, Record(n - 1, Exec(s, es).now, 0.5));
    assert Starts(s, es) + [] == Starts(s, es);
  }

  // The bound is the best there is: with the least jitter, a caller at the end of every window and a provider that
  // refuses at once, the requests go out exactly that far apart.
  lemma {:induction false} OutageBoundIsReached(window: Window, start: Time, n: nat) returns (es: seq<Event>)
    requires 1 <= n < 0x8000_0000_0000_0000
    ensures Tight(window, start, n, es)
    decreases n
  {
    var s := Init(window, start);
    if n == 1 {
      es := RequestAt(window, start, 0, [], start);
    } else {
      es := OutageBoundIsReached(window, start, n - 1);
      var t := Exec(s, es).now + B.Schedule(n - 1) / 2;
      es := FailAtOnce(window, start, n - 1, es);
      es := RequestAt(window, start, n - 1, es, t);
    }
  }

  lemma Then(s: Sys, es: seq<Event>, e: Event) returns (more: seq<Event>)
    requires Run(s, es) && Enabled(Exec(s, es), e)
    ensures more == es + [e] && Run(s, more) && Exec(s, more) == Apply(Exec(s, es), e)
    ensures Starts(s, more) == Starts(s, es) + StartOf(Exec(s, es), e)
  {
    ExecSnoc(s, es, e);
    more := es + [e];
  }

  // ---- a healthy provider ----

  ghost predicate AllSucceed(s: Sys, es: seq<Event>)
  {
    es != [] ==>
      && AllSucceed(s, es[..|es| - 1])
      && (es[|es| - 1].Record? ==> At(Exec(s, es[..|es| - 1]), es[|es| - 1].f, {Installed}))
  }

  ghost predicate LoadsAreApart(u: Sys, cold: seq<Time>)
  {
    && Spaced(cold, MAX_AGE)
    && (cold != [] ==>
          && cold[|cold| - 1] <= u.now
          && ((u.store.flight.Some? && !Installing(u)) || (u.store.jwks.Some? && cold[|cold| - 1] <= u.store.loadedAt)))
  }

  lemma LoadsStep(u: Sys, e: Event, cold: seq<Time>)
    requires Inv(u) && Enabled(u, e) && (e.Record? ==> At(u, e.f, {Installed}))
    requires LoadsAreApart(u, cold)
    ensures LoadsAreApart(Apply(u, e), cold + TimesOf(StartOf(u, e), false))
  {
    OneStart(u, e, false);
    if e.Decide? {
      LoadsDecide(u, e, cold);
    } else {
      assert cold + [] == cold;
    }
  }

  lemma NewFlightIsOut(u: Sys, e: Event)
    requires Inv(u) && Enabled(u, e) && e.Decide? && DecisionAt(u, e.c, e.t).Started?
    ensures var v := Apply(u, e); v.store.flight.Some? && !Installing(v) && v.now == e.t
  {
    assert At(Apply(u, e), |u.flights|, {Fetching});
  }

  lemma LoadsDecide(u: Sys, e: Event, cold: seq<Time>)
    requires Inv(u) && Enabled(u, e) && e.Decide?
    requires LoadsAreApart(u, cold)
    ensures LoadsAreApart(Apply(u, e), cold + TimesOf(StartOf(u, e), false))
  {
    OneStart(u, e, false);
    var d := DecisionAt(u, e.c, e.t);
    if d.Started? {
      NewFlightIsOut(u, e);
      if !d.forced {
        assert cold + TimesOf(StartOf(u, e), false) == cold + [e.t];
        assert cold != [] ==> e.t - cold[|cold| - 1] >= MAX_AGE;
      } else {
        assert cold + TimesOf(StartOf(u, e), false) == cold;
      }
    } else {
      assert cold + TimesOf(StartOf(u, e), false) == cold;
    }
  }

  lemma OneStart(u: Sys, e: Event, forced: bool)
    ensures TimesOf(StartOf(u, e), forced) ==
            if StartOf(u, e) != [] && StartOf(u, e)[0].forced == forced then [StartOf(u, e)[0].t] else []
  {
  }

  lemma TimesOfMore(u: Sys, e: Event, xs: seq<Start>, forced: bool)
    ensures TimesOf(xs + StartOf(u, e), forced) == TimesOf(xs, forced) + TimesOf(StartOf(u, e), forced)
  {
    OneStart(u, e, forced);
    if StartOf(u, e) != [] {
      var x := StartOf(u, e)[0];
      assert StartOf(u, e) == [x];
      TimesOfSnoc(xs, x, forced);
    } else {
      assert xs + StartOf(u, e) == xs;
    }
  }

  lemma {:induction false} ColdLoadsAreApart(window: Window, start: Time, es: seq<Event>)
    requires Run(Init(window, start), es) && AllSucceed(Init(window, start), es)
    ensures LoadsAreApart(Exec(Init(window, start), es), TimesOf(Starts(Init(window, start), es), false))
  {
    if es != [] {
      var s, pre := Init(window, start), es[..|es| - 1];
      ColdLoadsAreApart(window, start, pre);
      ReachableInv(window, start, pre);
      LoadsStep(Exec(s, pre), es[|es| - 1], TimesOf(Starts(s, pre), false));
      TimesOfMore(Exec(s, pre), es[|es| - 1], Starts(s, pre), false);
    }
  }

  lemma {:induction false} CountsAdd(xs: seq<Start>, from: Time, length: nat)
    ensures CountIn(Times(xs), from, length) ==
            CountIn(TimesOf(xs, false), from, length) + CountIn(TimesOf(xs, true), from, length)
  {
    if xs != [] {
      var pre, x := xs[..|xs| - 1], xs[|xs| - 1];
      CountsAdd(pre, from, length);
      assert Times(xs) == Times(pre) + [x.t];
      CountInSnoc(Times(pre), x.t, from, length);
      CountInSnoc(TimesOf(pre, x.forced), x.t, from, length);
      assert TimesOf(xs, !x.forced) == TimesOf(pre, !x.forced) + [] == TimesOf(pre, !x.forced);
      assert TimesOf(xs, x.forced) == TimesOf(pre, x.forced) + [x.t];
    }
  }

  // However many distinct unknown kids arrive: with every fetch succeeding, a span of length T meets at most
  // T / 300 s + 1 cold loads and T / window + 1 forced refetches.
  lemma HealthyBudget(window: Window, start: Time, es: seq<Event>, from: Time, length: nat)
    requires Run(Init(window, start), es) && AllSucceed(Init(window, start), es)
    ensures CountIn(Times(Starts(Init(window, start), es)), from, length) <=
            (length / MAX_AGE + 1) + (length / window + 1)
  {
    var xs := Starts(Init(window, start), es);
    ColdLoadsAreApart(window, start, es);
    WindowIsSpentOnRequests(window, start, es);
    SpanBound(TimesOf(xs, false), MAX_AGE, from, length);
    SpanBound(TimesOf(xs, true), window, from, length);
    CountsAdd(xs, from, length);
  }

  // ---- the age of what is used ----

  lemma {:induction false} StoreHoldsTheLastInstall(window: Window, start: Time, es: seq<Event>)
    requires Run(Init(window, start), es)
    ensures var u, j := Exec(Init(window, start), es), LastInstall(es);
            if j < 0 then u.store.jwks.None?
            else u.store.jwks == Some(es[j].ks) && u.store.loadedAt == es[j].t
  {
    if es != [] {
      StoreHoldsTheLastInstall(window, start, es[..|es| - 1]);
    }
  }

  // The key a lookup step hands to its caller.
  function Given(u: Sys, e: Event): Option<nat>
    requires Enabled(u, e)
  {
    if e.Call? then Lookup(u.store, e.kid, e.t)
    else if e.Relook? then Lookup(u.store, u.callers[e.c].kid, e.t)
    else None
  }

  function KidOf(u: Sys, e: Event): string
    requires Enabled(u, e) && (e.Call? || e.Relook?)
  {
    if e.Call? then e.kid else u.callers[e.c].kid
  }

  // A lookup finds a key exactly when the latest set a fetch brought has it and is younger than 300 s at that reading.
  // Failed, oversized and empty fetches install nothing, so they change neither the set nor its age.
  lemma KeysAreYoungAndLatest(window: Window, start: Time, es: seq<Event>, e: Event, key: nat)
    requires Run(Init(window, start), es + [e]) && (e.Call? || e.Relook?)
    requires Enabled(Exec(Init(window, start), es), e)
    ensures var u, j := Exec(Init(window, start), es), LastInstall(es);
            Given(u, e) == Some(key) <==>
            j >= 0 && e.t - es[j].t < 300 * SECOND && Files(es[j].ks, KidOf(u, e), key)
  {
    assert (es + [e])[..|es|] == es;
    StoreHoldsTheLastInstall(window, start, es);
    if LastInstall(es) >= 0 {
      KeyForIsTheFirstFiled(es[LastInstall(es)].ks, KidOf(Exec(Init(window, start), es), e), key);
    }
  }

  // A step ends a caller with a key exactly when it is such a lookup of its own.
  lemma AnswersAreGiven(u: Sys, e: Event, c: nat, kid: string, key: nat)
    requires Enabled(u, e) && !(c in u.callers && u.callers[c].Answered?)
    ensures (c in Apply(u, e).callers && Apply(u, e).callers[c] == Answered(kid, Found(key))) <==>
            (e.Call? || e.Relook?) && e.c == c && KidOf(u, e) == kid && Given(u, e) == Some(key)
  {
    match e
    case Decide(d, t) => var x := DecisionAt(u, d, t);
    case _ =>
  }

  lemma AnswersStay(u: Sys, e: Event, c: nat)
    requires Enabled(u, e) && c in u.callers && u.callers[c].Answered?
    ensures c in Apply(u, e).callers && Apply(u, e).callers[c] == u.callers[c]
  {
  }

  // Every key a caller ends up with, in any reachable state: some lookup of its own gave it, from the set installed
  // last before that lookup, which was then younger than 300 s.
  lemma {:induction false} FoundKeysWereYoungAndLatest(
      window: Window, start: Time, es: seq<Event>, c: nat, kid: string, key: nat) returns (j: nat)
    requires Run(Init(window, start), es)
    requires var u := Exec(Init(window, start), es); c in u.callers && u.callers[c] == Answered(kid, Found(key))
    ensures j < |es| && (es[j].Call? || es[j].Relook?) && es[j].c == c
    ensures var i := LastInstall(es[..j]);
            i >= 0 && es[j].t - es[i].t < 300 * SECOND && Files(es[i].ks, kid, key)
  {
    var s, pre, e := Init(window, start), es[..|es| - 1], es[|es| - 1];
    var u := Exec(s, pre);
    if c in u.callers && u.callers[c].Answered? {
      AnswersStay(u, e, c);
      j := FoundKeysWereYoungAndLatest(window, start, pre, c, kid, key);
      assert pre[..j] == es[..j];
    } else {
      GivenByTheLastStep(window, start, es, c, kid, key);
      j := |es| - 1;
    }
  }

  lemma GivenByTheLastStep(window: Window, start: Time, es: seq<Event>, c: nat, kid: string, key: nat)
    requires es != [] && Run(Init(window, start), es)
    requires var u := Exec(Init(window, start), es[..|es| - 1]); !(c in u.callers && u.callers[c].Answered?)
    requires var u := Exec(Init(window, start), es); c in u.callers && u.callers[c] == Answered(kid, Found(key))
    ensures var e, i := es[|es| - 1], LastInstall(es[..|es| - 1]);
            && (e.Call? || e.Relook?) && e.c == c
            && i >= 0 && e.t - es[i].t < 300 * SECOND && Files(es[i].ks, kid, key)
  {
    var pre, e := es[..|es| - 1], es[|es| - 1];
    AnswersAreGiven(Exec(Init(window, start), pre), e, c, kid, key);
    assert pre + [e] == es;
    KeysAreYoungAndLatest(window, start, pre, e, key);
  }

  // ---- cancellation ----

  predicate ByCaller(e: Event, who: set<nat>)
  {
    match e
    case Call(c, _, _) => c in who
    case Abandon(c) => c in who
    case Decide(c, _) => c in who
    case WaitEnds(c) => c in who
    case GiveUp(c) => c in who
    case Relook(c, _) => c in who
    case _ => false
  }

  // The schedule with every later step of some callers left out.
  function Without(es: seq<Event>, who: set<nat>): seq<Event>
  {
    if es == [] then []
    else
      Without(es[..|es| - 1], who) + (if ByCaller(es[|es| - 1], who) then [] else [es[|es| - 1]])
  }

  predicate CanGiveUp(s: Sys, who: set<nat>)
  {
    forall c :: c in who ==> c in s.callers && Enabled(s, GiveUp(c))
  }

  // The state after some waiting callers have given up.
  function GivenUp(s: Sys, who: set<nat>): Sys
  {
    s.(callers := map c | c in s.callers :: if c in who then Answered(s.callers[c].kid, Abandoned) else s.callers[c])
  }

  // Two states that differ at most in what became of some callers.
  ghost predicate Alike(s: Sys, s2: Sys, who: set<nat>)
  {
    && s.window == s2.window && s.store == s2.store && s.flights == s2.flights && s2.now <= s.now
    && s.callers.Keys == s2.callers.Keys
    && (forall c :: c in s.callers && c !in who ==> s.callers[c] == s2.callers[c])
    && (forall c :: c in who ==> c in s.callers && !s.callers[c].Missed?)
  }

  lemma AlikeStep(s: Sys, s2: Sys, who: set<nat>, e: Event)
    requires Alike(s, s2, who) && Enabled(s, e)
    ensures ByCaller(e, who) ==> Alike(Apply(s, e), s2, who) && StartOf(s, e) == []
    ensures !ByCaller(e, who) ==>
              Enabled(s2, e) && Alike(Apply(s, e), Apply(s2, e), who) && StartOf(s, e) == StartOf(s2, e)
  {
    if ByCaller(e, who) {
      assert Apply(s, e).callers.Keys == s.callers.Keys;
    }
  }

  lemma WithoutSnoc(es: seq<Event>, e: Event, who: set<nat>)
    ensures Without(es + [e], who) == Without(es, who) + (if ByCaller(e, who) then [] else [e])
  {
    assert (es + [e])[..|es|] == es;
  }

  lemma ExecSnoc(s: Sys, es: seq<Event>, e: Event)
    requires Run(s, es) && Enabled(Exec(s, es), e)
    ensures Run(s, es + [e]) && Exec(s, es + [e]) == Apply(Exec(s, es), e)
    ensures Starts(s, es + [e]) == Starts(s, es) + StartOf(Exec(s, es), e)
  {
    assert (es + [e])[..|es|] == es;
  }

  // Giving up is invisible to the store. Let any waiters give up, and leave out what they would have done later: the
  // rest of the schedule still runs, sends the same requests at the same times, and leaves the same store, the same
  // flights and the same answers to everyone else.
  lemma {:induction false} GivingUpIsInvisible(s: Sys, who: set<nat>, es: seq<Event>)
    requires CanGiveUp(s, who) && Run(s, es)
    ensures Run(GivenUp(s, who), Without(es, who))
    ensures Alike(Exec(s, es), Exec(GivenUp(s, who), Without(es, who)), who)
    ensures Starts(s, es) == Starts(GivenUp(s, who), Without(es, who))
  {
    if es != [] {
      var pre, e := es[..|es| - 1], es[|es| - 1];
      assert pre + [e] == es;
      GivingUpIsInvisible(s, who, pre);
      InvisibleStep(s, GivenUp(s, who), who, pre, e);
    }
  }

  lemma InvisibleStep(s: Sys, s2: Sys, who: set<nat>, pre: seq<Event>, e: Event)
    requires Run(s, pre) && Enabled(Exec(s, pre), e) && Run(s2, Without(pre, who))
    requires Alike(Exec(s, pre), Exec(s2, Without(pre, who)), who)
    requires Starts(s, pre) == Starts(s2, Without(pre, who))
    ensures Run(s2, Without(pre + [e], who))
    ensures Alike(Exec(s, pre + [e]), Exec(s2, Without(pre + [e], who)), who)
    ensures Starts(s, pre + [e]) == Starts(s2, Without(pre + [e], who))
  {
    ExecSnoc(s, pre, e);
    WithoutSnoc(pre, e, who);
    AlikeStep(Exec(s, pre), Exec(s2, Without(pre, who)), who, e);
    if ByCaller(e, who) {
      assert Without(pre, who) + [] == Without(pre, who);
      assert Starts(s, pre) + [] == Starts(s, pre);
    } else {
      ExecSnoc(s2, Without(pre, who), e);
    }
  }
}
