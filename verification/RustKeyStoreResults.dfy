/** What holds of every run of the Rust key store, and where it differs from the Go one. */
module RustKeyStoreResults {
  import opened Common
  import opened KeySets
  import opened RustKeyStore
  import opened Spacing
  import B = Backoff

  /** What a run has done so far. A request is dated by the reading that let it go out. */
  datatype History = History(
    starts: seq<Time>,   // every request
    cold: seq<Time>,     // those that were cold loads
    forced: nat,         // how many were forced refetches
    stamps: seq<Time>,   // every stamp on the window
    wasted: nat,         // stamps followed by no request
    finished: nat,       // fetches recorded
    brought: nat,        // sets fetched
    failed: nat)         // failures recorded

  const NOTHING := History([], [], 0, [], 0, 0, 0, 0)

  function Note(h: History, u: Sys, e: Event): History
    requires Enabled(u, e)
  {
    match e
    case Pass(c, r) =>
      var goes, stamps := VerdictAt(u, c, r).Fetch?, StampsAt(u, c, r);
      h.(starts := h.starts + (if goes then [r.checked] else []),
         cold := h.cold + (if goes && !stamps then [r.checked] else []),
         forced := h.forced + (if goes && stamps then 1 else 0),
         stamps := h.stamps + (if stamps then [r.stamped] else []),
         wasted := h.wasted + (if stamps && !goes then 1 else 0))
    case Stamp(_, _, _) => h.(brought := h.brought + 1)
    case Finish(f, _, _) =>
      h.(finished := h.finished + 1, failed := h.failed + (if u.tasks[f].Fetching? then 1 else 0))
    case _ => h
  }

  function Past(s: Sys, es: seq<Event>): History
  {
    if es == [] then NOTHING
    else
      var h, u := Past(s, es[..|es| - 1]), Exec(s, es[..|es| - 1]);
      if Enabled(u, es[|es| - 1]) then Note(h, u, es[|es| - 1]) else h
  }

  // A state to count from: the gate free, no failure on record.
  ghost predicate Healthy(s: Sys)
  {
    Inv(s) && s.holder.None? && s.gate.failures == 0
  }

  function LatestOr(ts: seq<Time>, before: Option<Time>): Option<Time>
  {
    if ts == [] then before else Some(ts[|ts| - 1])
  }

  predicate Busy(u: Sys) { u.holder.Some? }

  // Requests, outcomes and stamps are all accounted for.
  ghost predicate Accounted(s: Sys, u: Sys, h: History)
  {
    && |u.tasks| == |s.tasks| + |h.starts|
    && |h.starts| == h.finished + (if Busy(u) then 1 else 0)
    && |h.starts| == |h.cold| + h.forced
    && |h.stamps| == h.forced + h.wasted
    && u.minRefetch == s.minRefetch
    && u.gate.lastRefetch == LatestOr(h.stamps, s.gate.lastRefetch)
    && Spaced(h.stamps, s.minRefetch)
  }

  predicate HolderIs(u: Sys, fetching: bool)
  {
    u.holder.Some? && u.holder.value < |u.tasks| && u.tasks[u.holder.value].Fetching? == fetching
  }

  ghost predicate InOutage(u: Sys, h: History)
  {
    var n, ts := |h.starts|, h.starts;
    && (Busy(u) ==> HolderIs(u, true))
    && u.gate.failures == Min(n - (if Busy(u) then 1 else 0), U32_MAX)
    && (n > 0 ==>
          && ts[n - 1] <= u.now
          && (!Busy(u) ==> u.gate.lastFailure.Some? && ts[n - 1] <= u.gate.lastFailure.value)
          && ts[n - 1] - ts[0] >= B.LeastWait(0, n - 1))
  }

  ghost predicate LoadsApart(u: Sys, h: History)
  {
    var n := |h.cold|;
    && Spaced(h.cold, MAX_AGE)
    && (n > 0 ==>
          && h.cold[n - 1] <= u.now
          && (HolderIs(u, true) || (Busy(u) && StampedAfter(u, h.cold[n - 1]))
              || (u.cache.Some? && h.cold[n - 1] <= u.cache.value.loadedAt)))
  }

  predicate StampedAfter(u: Sys, t: Time)
    requires u.holder.Some?
  {
    u.holder.value < |u.tasks| && u.tasks[u.holder.value].Stamped? && t <= u.tasks[u.holder.value].at
  }

  ghost predicate Kept(s: Sys, u: Sys, h: History)
  {
    && Accounted(s, u, h)
    && (h.brought == 0 ==> InOutage(u, h))
    && (h.failed == 0 ==> LoadsApart(u, h))
  }

  lemma AccountedStep(s: Sys, u: Sys, h: History, e: Event)
    requires Inv(u) && Enabled(u, e) && Accounted(s, u, h)
    ensures Accounted(s, Apply(u, e), Note(h, u, e))
  {
  }

  lemma SaturatedSchedule(n: nat)
    requires n >= 1
    ensures B.Schedule(Min(n, U32_MAX)) == B.Schedule(n)
  {
    if n > U32_MAX {
      B.ScheduleIsCapped(n);
      B.ScheduleIsCapped(U32_MAX);
    }
  }

  lemma OutageStep(u: Sys, h: History, e: Event)
    requires Inv(u) && Enabled(u, e) && InOutage(u, h) && !e.Stamp?
    ensures InOutage(Apply(u, e), Note(h, u, e))
  {
    if e.Pass? {
      OutagePass(u, h, e.c, e.r);
    }
  }

  lemma OutagePass(u: Sys, h: History, c: nat, r: Readings)
    requires Inv(u) && Enabled(u, Pass(c, r)) && InOutage(u, h)
    ensures InOutage(Apply(u, Pass(c, r)), Note(h, u, Pass(c, r)))
  {
    if VerdictAt(u, c, r).Fetch? {
      assert Note(h, u, Pass(c, r)).starts == h.starts + [r.checked];
      if h.starts != [] {
        SaturatedSchedule(|h.starts|);
        assert r.checked >= h.starts[|h.starts| - 1] + B.Schedule(|h.starts|) / 2;
      }
    }
  }

  lemma LoadsStep(u: Sys, h: History, e: Event)
    requires Inv(u) && Enabled(u, e) && LoadsApart(u, h)
    requires Note(h, u, e).failed == h.failed
    ensures LoadsApart(Apply(u, e), Note(h, u, e))
  {
    match e
    case Pass(c, r) => LoadsPass(u, h, c, r);
    case Stamp(f, t, ks) => assert u.holder == Some(f);
    case Write(f) => assert u.holder == Some(f);
    case Finish(f, t, jitter) => assert u.holder == Some(f);
    case _ =>
  }

  lemma LoadsPass(u: Sys, h: History, c: nat, r: Readings)
    requires Inv(u) && Enabled(u, Pass(c, r)) && LoadsApart(u, h)
    ensures LoadsApart(Apply(u, Pass(c, r)), Note(h, u, Pass(c, r)))
  {
    if VerdictAt(u, c, r).Fetch? {
      assert HolderIs(Apply(u, Pass(c, r)), true);
    } else {
      assert Note(h, u, Pass(c, r)).cold == h.cold;
    }
  }

  lemma {:induction false} RunKeeps(s: Sys, es: seq<Event>)
    requires Healthy(s) && Run(s, es)
    ensures Inv(Exec(s, es)) && Kept(s, Exec(s, es), Past(s, es))
  {
    RunKeepsInv(s, es);
    if es != [] {
      var pre, e := es[..|es| - 1], es[|es| - 1];
      RunKeeps(s, pre);
      var u, h := Exec(s, pre), Past(s, pre);
      AccountedStep(s, u, h, e);
      if h.brought == 0 && !e.Stamp? { OutageStep(u, h, e); }
      if Note(h, u, e).failed == 0 { LoadsStep(u, h, e); }
    }
  }

  // ---- single flight ----

  // Every request but the running one has been recorded once, and the gate is held exactly while one runs: a caller
  // takes its turn only when no request is out.
  lemma OneAtATime(minRefetch: nat, start: Time, es: seq<Event>)
    requires Run(Init(minRefetch, start), es)
    ensures var u, h := Exec(Init(minRefetch, start), es), Past(Init(minRefetch, start), es);
            && |h.starts| == |u.tasks| == h.finished + (if u.holder.Some? then 1 else 0)
            && (u.holder.None? <==> forall f :: 0 <= f < |u.tasks| ==> u.tasks[f].Finished?)
  {
    RunKeeps(Init(minRefetch, start), es);
  }

  // ---- the window ----

  // The stamp is always the latest one made, and stamps are a window apart. Each belongs to one forced refetch or was
  // spent on no request at all.
  lemma WindowIsTheLatestStamp(minRefetch: nat, start: Time, es: seq<Event>)
    requires Run(Init(minRefetch, start), es)
    ensures var u, h := Exec(Init(minRefetch, start), es), Past(Init(minRefetch, start), es);
            && u.gate.lastRefetch == LatestOr(h.stamps, None)
            && Spaced(h.stamps, minRefetch)
            && |h.stamps| == h.forced + h.wasted
  {
    RunKeeps(Init(minRefetch, start), es);
  }

  // One turn spends a window on no request exactly when it misses on a usable set, finds the window free and the
  // failure backoff still running.
  lemma AWindowIsWastedExactlyWhen(u: Sys, c: nat, r: Readings)
    requires Inv(u) && Enabled(u, Pass(c, r))
    ensures var v := Apply(u, Pass(c, r));
            (v.gate.lastRefetch == Some(r.stamped) && StampsAt(u, c, r) && v.tasks == u.tasks) <==>
            && FreshSet(u.cache, r.looked).Some?
            && KeyFor(FreshSet(u.cache, r.looked).value, u.callers[c].kid).None?
            && (u.gate.lastRefetch.None? || r.compared - u.gate.lastRefetch.value >= u.minRefetch)
            && u.gate.lastFailure.Some? && r.checked - u.gate.lastFailure.value < u.gate.backoff
  {
  }

  // A failure that no stamp has followed has wasted nothing yet.
  ghost predicate WasteIsPaidFor(u: Sys, h: History)
  {
    && h.wasted <= h.failed
    && (Unstamped(u.gate) ==> h.wasted < h.failed)
  }

  predicate Unstamped(g: GateValue)
  {
    g.lastFailure.Some? && (g.lastRefetch.None? || g.lastRefetch.value < g.lastFailure.value)
  }

  lemma WasteStep(u: Sys, h: History, e: Event)
    requires Inv(u) && Enabled(u, e) && WasteIsPaidFor(u, h) && u.minRefetch >= B.CAP
    ensures WasteIsPaidFor(Apply(u, e), Note(h, u, e))
  {
    if e.Pass? && StampsAt(u, e.c, e.r) && !VerdictAt(u, e.c, e.r).Fetch? {
      assert Unstamped(u.gate);
    }
  }

  // With a window of 5 s or more a failure wastes at most one: the next stamp comes when its backoff is over.
  lemma {:induction false} AFailureWastesOneWindow(s: Sys, es: seq<Event>)
    requires Healthy(s) && Run(s, es) && s.minRefetch >= 5 * SECOND
    ensures Past(s, es).wasted <= Past(s, es).failed
    ensures WasteIsPaidFor(Exec(s, es), Past(s, es))
  {
    if es != [] {
      var pre := es[..|es| - 1];
      AFailureWastesOneWindow(s, pre);
      RunKeepsInv(s, pre);
      WasteStep(Exec(s, pre), Past(s, pre), es[|es| - 1]);
    }
  }

  // Before the first stamp, a failure or a fetch that has not written its set means there is no usable one.
  ghost predicate ColdUntilStamped(u: Sys)
  {
    u.gate.lastRefetch.None? && (u.gate.failures > 0 || Busy(u)) && !WrittenIn(u) ==> FreshSet(u.cache, u.now).None?
  }

  predicate WrittenIn(u: Sys)
  {
    u.holder.Some? && u.holder.value < |u.tasks| && u.tasks[u.holder.value].Written?
  }

  lemma ColdStep(u: Sys, e: Event)
    requires Inv(u) && Enabled(u, e) && ColdUntilStamped(u)
    ensures ColdUntilStamped(Apply(u, e))
  {
    match e
    case Pass(c, r) =>
      if VerdictAt(u, c, r).Fetch? {
        assert !WrittenIn(Apply(u, e));
      }
    case Stamp(f, _, _) => assert u.holder == Some(f);
    case Write(f) => assert u.holder == Some(f);
    case Finish(f, _, _) => assert u.holder == Some(f);
    case _ =>
  }

  lemma {:induction false} ReachableColdUntilStamped(minRefetch: nat, start: Time, es: seq<Event>)
    requires Run(Init(minRefetch, start), es)
    ensures ColdUntilStamped(Exec(Init(minRefetch, start), es))
  {
    if es != [] {
      ReachableColdUntilStamped(minRefetch, start, es[..|es| - 1]);
      RunKeepsInv(Init(minRefetch, start), es[..|es| - 1]);
      ColdStep(Exec(Init(minRefetch, start), es[..|es| - 1]), es[|es| - 1]);
    }
  }

  // Until the window has been stamped, a kid missing from a usable set starts a fetch: its turn with the gate is never
  // refused.
  lemma FirstUnknownKidIsServed(minRefetch: nat, start: Time, es: seq<Event>, c: nat, r: Readings)
    requires Run(Init(minRefetch, start), es) && Past(Init(minRefetch, start), es).stamps == []
    requires var u := Exec(Init(minRefetch, start), es);
             && Enabled(u, Pass(c, r)) && FreshSet(u.cache, r.looked).Some?
             && Lookup(u.cache, u.callers[c].kid, r.looked).None?
    ensures VerdictAt(Exec(Init(minRefetch, start), es), c, r).Fetch?
  {
    WindowIsTheLatestStamp(minRefetch, start, es);
    ReachableColdUntilStamped(minRefetch, start, es);
    RunKeepsInv(Init(minRefetch, start), es);
  }

  // ---- an outage ----

  // The same bound as the Go store's, for every number of failures: the counter saturates.
  lemma OutageBound(s: Sys, es: seq<Event>)
    requires Healthy(s) && Run(s, es) && Past(s, es).brought == 0 && Past(s, es).starts != []
    ensures var ts := Past(s, es).starts;
            var n := |ts|;
            && ts[n - 1] - ts[0] >= B.LeastWait(0, n - 1)
            && (n >= 6 ==> ts[n - 1] - ts[0] >= 3_100_000_000 + 2_500_000_000 * (n - 6))
  {
    RunKeeps(s, es);
    var n := |Past(s, es).starts|;
    if n >= 6 {
      B.LeastWaitOutage(n - 1);
    }
  }

  // ---- a healthy provider ----

  // With no failure a span of length T meets at most T / 300 s + 1 cold loads and T / window + 1 stamps; every forced
  // refetch has its stamp and no stamp is wasted.
  lemma HealthyBudget(minRefetch: nat, start: Time, es: seq<Event>, from: Time, length: nat)
    requires minRefetch > 0 && Run(Init(minRefetch, start), es) && Past(Init(minRefetch, start), es).failed == 0
    ensures var h := Past(Init(minRefetch, start), es);
            && CountIn(h.cold, from, length) <= length / MAX_AGE + 1
            && CountIn(h.stamps, from, length) <= length / minRefetch + 1
            && h.wasted == 0 && |h.stamps| == h.forced
  {
    var s := Init(minRefetch, start);
    RunKeeps(s, es);
    NoFailureNoWaste(s, es);
    SpanBound(Past(s, es).cold, MAX_AGE, from, length);
    SpanBound(Past(s, es).stamps, minRefetch, from, length);
  }

  lemma {:induction false} NoFailureNoWaste(s: Sys, es: seq<Event>)
    requires Healthy(s) && Run(s, es) && Past(s, es).failed == 0
    ensures Exec(s, es).gate.failures == 0 && Past(s, es).wasted == 0
  {
    if es != [] {
      NoFailureNoWaste(s, es[..|es| - 1]);
      RunKeepsInv(s, es[..|es| - 1]);
    }
  }

  // ---- no permanent lock-out ----

  lemma NoLockOut(minRefetch: nat, start: Time, es: seq<Event>, c: nat, r: Readings)
    requires Run(Init(minRefetch, start), es)
    requires var u := Exec(Init(minRefetch, start), es);
             && Enabled(u, Pass(c, r))
             && Lookup(u.cache, u.callers[c].kid, r.looked).None?
             && (u.gate.lastFailure.Some? ==> r.checked - u.gate.lastFailure.value >= 5 * SECOND)
    ensures var u := Exec(Init(minRefetch, start), es);
            VerdictAt(u, c, r).Fetch? <==>
              FreshSet(u.cache, r.looked).None? || !WindowOpen(u.gate, minRefetch, r.compared)
  {
    RunKeepsInv(Init(minRefetch, start), es);
  }

  // ---- extending a run ----

  lemma Extend(s: Sys, es: seq<Event>, e: Event)
    requires Run(s, es) && Enabled(Exec(s, es), e)
    ensures Run(s, es + [e]) && Exec(s, es + [e]) == Apply(Exec(s, es), e)
    ensures Past(s, es + [e]) == Note(Past(s, es), Exec(s, es), e)
  {
    assert (es + [e])[..|es|] == es;
  }

  function AllAt(t: Time): Readings
  {
    Readings(t, t, t, t)
  }

  // A concrete waste: the refetch that opened the window at 1 s times out at 31 s, a miss 50 ms later stamps a new
  // window while the backoff refuses it, and the next miss is turned away by that window though no request has gone out
  // in it. The Go store, on the same readings, would let it through.
  lemma AWindowCanBeWasted()
    ensures exists es, c ::
              var s := Init(30 * SECOND, 0);
              && Run(s, es) && Past(s, es).wasted == 1 && |Past(s, es).starts| == 2
              && c in Exec(s, es).callers && Exec(s, es).callers[c] == Answered("b", Limited)
              && Exec(s, es).now - Past(s, es).starts[1] >= 30 * SECOND
              && Remaining(Exec(s, es).gate, Exec(s, es).now) == 0
  {
    var s := Init(30 * SECOND, 0);
    var es := NextMissIsBackedOff();
    assert KeyFor(SET_A, "b").None? by { assert SET_A[1..] == []; }
    es := Then(s, es, Call(3, "b", 32 * SECOND));
    es := Then(s, es, Pass(3, AllAt(32 * SECOND)));
    assert 3 in Exec(s, es).callers;
  }

  const SET_A := [Jwk("a", 1)]

  lemma ColdStart() returns (es: seq<Event>)
    ensures var s := Init(30 * SECOND, 0);
            && Run(s, es)
            && Exec(s, es) == s.(holder := Some(0), tasks := [Fetching], callers := map[0 := Waiting("a", 0)])
            && Past(s, es) == History([0], [0], 0, [], 0, 0, 0, 0)
  {
    var s := Init(30 * SECOND, 0);
    es := Then(s, [], Call(0, "a", 0));
    es := Then(s, es, Pass(0, AllAt(0)));
    assert Exec(s, es).callers == map[0 := Waiting("a", 0)];
  }

  // A load at 0 brings a set with the kid "a".
  lemma Load() returns (es: seq<Event>)
    ensures var s := Init(30 * SECOND, 0);
            && Run(s, es)
            && Exec(s, es) == Sys(30 * SECOND, Some(Cached(SET_A, 0)), OPEN, None, [Finished(Some(SET_A))],
                                  map[0 := Waiting("a", 0)], 0)
            && Past(s, es) == History([0], [0], 0, [], 0, 1, 1, 0)
  {
    var s := Init(30 * SECOND, 0);
    es := ColdStart();
    es := Then(s, es, Stamp(0, 0, SET_A));
    es := Then(s, es, Write(0));
    es := Then(s, es, Finish(0, 0, 0.5));
    assert Exec(s, es).tasks == [Finished(Some(SET_A))];
    assert Exec(s, es).callers == map[0 := Waiting("a", 0)];
  }

  // A kid that is not in it starts a forced refetch at 1 s.
  lemma ForcedRefetch() returns (es: seq<Event>)
    ensures var s := Init(30 * SECOND, 0);
            var u := Exec(s, es);
            && Run(s, es)
            && u.minRefetch == 30 * SECOND && u.cache == Some(Cached(SET_A, 0)) && u.holder == Some(1)
            && u.gate == OPEN.(lastRefetch := Some(SECOND)) && u.tasks == [Finished(Some(SET_A)), Fetching]
            && u.callers.Keys == {0, 1} && u.now == SECOND
            && Past(s, es) == History([0, SECOND], [0], 1, [SECOND], 0, 1, 1, 0)
  {
    var s := Init(30 * SECOND, 0);
    es := Load();
    assert KeyFor(SET_A, "b").None? by { assert SET_A[1..] == []; }
    es := Then(s, es, Call(1, "b", SECOND));
    es := Then(s, es, Pass(1, AllAt(SECOND)));
  }

  // It fails at 31 s.
  lemma RefetchTimesOut() returns (es: seq<Event>)
    ensures var s := Init(30 * SECOND, 0);
            var u := Exec(s, es);
            && Run(s, es)
            && u.minRefetch == 30 * SECOND && u.cache == Some(Cached(SET_A, 0)) && u.holder.None?
            && u.gate == GateValue(Some(SECOND), 1, Some(31 * SECOND), u.gate.backoff)
            && 100 * MS <= u.gate.backoff <= 200 * MS
            && u.callers.Keys == {0, 1} && u.now == 31 * SECOND
            && Past(s, es) == History([0, SECOND], [0], 1, [SECOND], 0, 2, 1, 1)
  {
    es := ForcedRefetch();
    es := Then(Init(30 * SECOND, 0), es, Finish(1, 31 * SECOND, 0.5));
    B.RustWindowBounds(1, 0.5);
    B.RustDelayIs(1);
    B.ScheduleStart();
  }

  // The next miss, 50 ms later, stamps the window and is then refused by the backoff.
  lemma NextMissIsBackedOff() returns (es: seq<Event>)
    ensures var s, t := Init(30 * SECOND, 0), 31 * SECOND + 50 * MS;
            var u := Exec(s, es);
            && Run(s, es)
            && u.minRefetch == 30 * SECOND && u.cache == Some(Cached(SET_A, 0)) && u.holder.None?
            && u.gate == GateValue(Some(t), 1, Some(31 * SECOND), u.gate.backoff) && u.gate.backoff <= 200 * MS
            && u.callers.Keys == {0, 1, 2} && u.now == t
            && Past(s, es).wasted == 1 && Past(s, es).starts == [0, SECOND]
  {
    var s, t := Init(30 * SECOND, 0), 31 * SECOND + 50 * MS;
    es := RefetchTimesOut();
    assert KeyFor(SET_A, "b").None? by { assert SET_A[1..] == []; }
    es := Then(s, es, Call(2, "b", t));
    es := Then(s, es, Pass(2, AllAt(t)));
  }

  lemma Then(s: Sys, es: seq<Event>, e: Event) returns (more: seq<Event>)
    requires Run(s, es) && Enabled(Exec(s, es), e)
    ensures Run(s, more) && Exec(s, more) == Apply(Exec(s, es), e) && Past(s, more) == Note(Past(s, es), Exec(s, es), e)
  {
    more := es + [e];
    Extend(s, es, e);
  }

  // ---- the age of what is used ----

  // What the fetch f brought, and when its age started.
  function Brought(es: seq<Event>, f: nat): Option<Cached>
  {
    if es == [] then None
    else
      var e := es[|es| - 1];
      if e.Stamp? && e.f == f then Some(Cached(e.ks, e.t)) else Brought(es[..|es| - 1], f)
  }

  // The fetch that wrote the cache last.
  function LastWriter(es: seq<Event>): Option<nat>
  {
    if es == [] then None
    else if es[|es| - 1].Write? then Some(es[|es| - 1].f) else LastWriter(es[..|es| - 1])
  }

  ghost predicate BroughtMatches(u: Sys, es: seq<Event>, f: nat)
  {
    var b := Brought(es, f);
    if f >= |u.tasks| then b.None?
    else match u.tasks[f]
      case Fetching => b.None?
      case Stamped(ks, at) => b == Some(Cached(ks, at))
      case Written(ks) => b.Some? && b.value.set_ == ks
      case Finished(None) => b.None?
      case Finished(Some(ks)) => b.Some? && b.value.set_ == ks
  }

  ghost predicate CacheMatches(u: Sys, es: seq<Event>)
  {
    match LastWriter(es)
    case None => u.cache.None?
    case Some(f) => f < |u.tasks| && !u.tasks[f].Fetching? && u.cache.Some? && u.cache == Brought(es, f)
  }

  lemma {:induction false} HistoryMatches(minRefetch: nat, start: Time, es: seq<Event>, f: nat)
    requires Run(Init(minRefetch, start), es)
    ensures BroughtMatches(Exec(Init(minRefetch, start), es), es, f)
    ensures CacheMatches(Exec(Init(minRefetch, start), es), es)
  {
    if es != [] {
      var pre, e := es[..|es| - 1], es[|es| - 1];
      assert pre + [e] == es;
      HistoryMatches(minRefetch, start, pre, f);
      var u := Exec(Init(minRefetch, start), pre);
      BroughtStep(u, pre, e, f);
      if e.Write? {
        HistoryMatches(minRefetch, start, pre, e.f);
      }
      CacheStep(u, pre, e);
    }
  }

  lemma BroughtStep(u: Sys, pre: seq<Event>, e: Event, f: nat)
    requires Enabled(u, e) && BroughtMatches(u, pre, f)
    ensures BroughtMatches(Apply(u, e), pre + [e], f)
  {
    assert (pre + [e])[..|pre|] == pre;
  }

  lemma CacheStep(u: Sys, pre: seq<Event>, e: Event)
    requires Enabled(u, e) && CacheMatches(u, pre) && (e.Write? ==> BroughtMatches(u, pre, e.f))
    ensures CacheMatches(Apply(u, e), pre + [e])
  {
    assert (pre + [e])[..|pre|] == pre;
  }

  // A lookup, in or out of the gate, finds a key exactly when the set written last has it and is younger than 300 s at
  // that reading, counted from the moment its fetch stamped it.
  lemma KeysAreYoungAndLatest(minRefetch: nat, start: Time, es: seq<Event>, kid: string, t: Time, key: nat)
    requires Run(Init(minRefetch, start), es)
    ensures Lookup(Exec(Init(minRefetch, start), es).cache, kid, t) == Some(key) <==>
            && LastWriter(es).Some?
            && Brought(es, LastWriter(es).value).Some?
            && t - Brought(es, LastWriter(es).value).value.loadedAt < 300 * SECOND
            && Files(Brought(es, LastWriter(es).value).value.set_, kid, key)
  {
    HistoryMatches(minRefetch, start, es, 0);
    if LastWriter(es).Some? && Brought(es, LastWriter(es).value).Some? {
      KeyForIsTheFirstFiled(Brought(es, LastWriter(es).value).value.set_, kid, key);
    }
  }

  // The caller that spawned a fetch is answered from the set that very fetch brought, whatever the cache holds by then.
  lemma OwnFetchAnswers(minRefetch: nat, start: Time, es: seq<Event>, c: nat, key: nat)
    requires Run(Init(minRefetch, start), es) && Enabled(Exec(Init(minRefetch, start), es), Deliver(c))
    ensures var u := Exec(Init(minRefetch, start), es);
            var b, kid := Brought(es, u.callers[c].task), u.callers[c].kid;
            Apply(u, Deliver(c)).callers[c] == Answered(kid, Found(key)) <==>
            b.Some? && Files(b.value.set_, kid, key)
  {
    var u := Exec(Init(minRefetch, start), es);
    HistoryMatches(minRefetch, start, es, u.callers[c].task);
    var b := Brought(es, u.callers[c].task);
    if b.Some? {
      KeyForIsTheFirstFiled(b.value.set_, u.callers[c].kid, key);
    }
  }

  // ---- cancellation ----

  predicate Ignorable(e: Event, who: set<nat>)
  {
    (e.Deliver? || e.Drop?) && e.c in who
  }

  function Without(es: seq<Event>, who: set<nat>): seq<Event>
  {
    if es == [] then []
    else Without(es[..|es| - 1], who) + (if Ignorable(es[|es| - 1], who) then [] else [es[|es| - 1]])
  }

  function DroppedFrom(s: Sys, who: set<nat>): Sys
  {
    s.(callers := map c | c in s.callers :: if c in who then Dropped else s.callers[c])
  }

  ghost predicate Alike(s: Sys, s2: Sys, who: set<nat>)
  {
    && s2 == s.(callers := s2.callers)
    && s.callers.Keys == s2.callers.Keys
    && (forall c :: c in s.callers && c !in who ==> s.callers[c] == s2.callers[c])
    && (forall c :: c in who ==> c in s.callers && !s.callers[c].Missed?)
  }

  // The window is stamped and the fetch spawned in one step, so a caller that has spawned one owns nothing the store
  // needs: drop any such callers, and the rest of the schedule runs on to the same gate, cache and requests.
  lemma {:induction false} DroppingIsInvisible(s: Sys, who: set<nat>, es: seq<Event>)
    requires forall c :: c in who ==> c in s.callers && s.callers[c].Waiting?
    requires Run(s, es)
    ensures Run(DroppedFrom(s, who), Without(es, who))
    ensures Alike(Exec(s, es), Exec(DroppedFrom(s, who), Without(es, who)), who)
    ensures Past(s, es) == Past(DroppedFrom(s, who), Without(es, who))
  {
    if es != [] {
      var s2, pre, e := DroppedFrom(s, who), es[..|es| - 1], es[|es| - 1];
      DroppingIsInvisible(s, who, pre);
      AlikeStep(Exec(s, pre), Exec(s2, Without(pre, who)), who, e, Past(s, pre));
      if Ignorable(e, who) {
        assert Without(pre, who) + [] == Without(pre, who);
      } else {
        Extend(s2, Without(pre, who), e);
      }
    }
  }

  lemma AlikeStep(s: Sys, s2: Sys, who: set<nat>, e: Event, h: History)
    requires Alike(s, s2, who) && Enabled(s, e)
    ensures Ignorable(e, who) ==> Alike(Apply(s, e), s2, who) && Note(h, s, e) == h
    ensures !Ignorable(e, who) ==>
              Enabled(s2, e) && Alike(Apply(s, e), Apply(s2, e), who) && Note(h, s, e) == Note(h, s2, e)
  {
  }
}
