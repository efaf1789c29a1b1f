/**
 The Node key source while every fetch fails: how far apart its cold loads are, from any state, and the two things that
 let requests come closer than in the other SDKs.
 */
module NodeOutages {
  import opened Common
  import opened KeySets
  import opened NodeKeyStore
  import opened NodeKeyStoreResults
  import opened Spacing
  import B = Backoff

  // ---- the bound ----

  predicate LatestCounted(u: Sys)
  {
    u.gate.lastCounted == Some(|u.fetches| - 1)
  }

  // After n failed cold loads, the last of them counted, or counted once those who wait for it have taken their turns.
  ghost predicate Held(u: Sys, n: nat, last: Time)
    requires n > 0
  {
    if LatestCounted(u) then
      && !Pending(u) && u.gate.failures >= n
      && u.gate.retryAt.Some? && u.gate.retryAt.value >= (last + B.Schedule(n) / 2) as real
    else
      u.gate.failures >= n - 1 && SomeoneWaits(u)
  }

  ghost predicate InOutage(u: Sys, h: History)
  {
    var n := |h.stretch|;
    n > 0 ==>
      && u.fetches != [] && !u.fetches[|u.fetches| - 1].Brought?
      && !Fresh(u.cache, u.now)
      && h.stretch[n - 1] <= u.now
      && h.stretch[n - 1] - h.stretch[0] >= B.LeastWait(0, n - 1)
      && Held(u, n, h.stretch[n - 1])
  }

  lemma OutageSend(u: Sys, h: History, c: nat, kid: string, r: Readings)
    requires Inv(u) && Enabled(u, Enter(c, kid, r)) && InOutage(u, h) && SendsAt(u, Enter(c, kid, r))
    ensures InOutage(Apply(u, Enter(c, kid, r)), Note(h, u, Enter(c, kid, r)))
  {
    var v := Apply(u, Enter(c, kid, r));
    assert WaitsFor(v.callers[c], |v.fetches| - 1);
    if h.stretch != [] {
      SettledMeansCounted(u, |h.stretch|, h.stretch[|h.stretch| - 1]);
      assert r.stamped >= h.stretch[|h.stretch| - 1] + B.Schedule(|h.stretch|) / 2;
    }
  }

  lemma SettledMeansCounted(u: Sys, n: nat, last: Time)
    requires n > 0 && Held(u, n, last) && Settled(u) && !Pending(u) && u.fetches != []
    ensures LatestCounted(u)
  {
  }

  lemma OutageEnter(u: Sys, h: History, c: nat, kid: string, r: Readings)
    requires Inv(u) && Enabled(u, Enter(c, kid, r)) && InOutage(u, h)
    ensures InOutage(Apply(u, Enter(c, kid, r)), Note(h, u, Enter(c, kid, r)))
  {
    if SendsAt(u, Enter(c, kid, r)) {
      OutageSend(u, h, c, kid, r);
    } else if Pending(u) {
      SomeoneStillWaits(u, Enter(c, kid, r));
    }
  }

  lemma OutageCatch(u: Sys, h: History, c: nat, r: Readings)
    requires Inv(u) && Enabled(u, Resume(c, r)) && InOutage(u, h)
    requires u.fetches[u.callers[c].fetch].Failed?
    ensures InOutage(Apply(u, Resume(c, r)), Note(h, u, Resume(c, r)))
  {
    if h.stretch != [] {
      var n := |h.stretch|;
      DelayBounds(u.gate.failures + 1, r.jitter);
      B.ScheduleGrows(n, Max(u.gate.failures + 1, n));
      assert u.callers[c].fetch == |u.fetches| - 1;
    }
  }

  lemma OutageRetry(u: Sys, h: History, c: nat, r: Readings)
    requires Inv(u) && Enabled(u, Resume(c, r)) && InOutage(u, h)
    requires u.fetches[u.callers[c].fetch].Brought?
    ensures InOutage(Apply(u, Resume(c, r)), Note(h, u, Resume(c, r)))
  {
    var e := Resume(c, r);
    if SendsAt(u, e) {
      assert WaitsFor(Apply(u, e).callers[c], |u.fetches|);
    } else if Pending(u) {
      SomeoneStillWaits(u, e);
    }
  }

  lemma OutageEnd(u: Sys, h: History, e: Event)
    requires Inv(u) && Enabled(u, e) && InOutage(u, h) && e.End? && e.ks.None?
    ensures InOutage(Apply(u, e), Note(h, u, e))
  {
    if h.stretch != [] {
      var c :| c in u.callers && WaitsFor(u.callers[c], |u.fetches| - 1);
      assert WaitsFor(Apply(u, e).callers[c], |u.fetches| - 1);
    }
  }

  lemma OutageReturn(u: Sys, h: History, e: Event)
    requires Inv(u) && Enabled(u, e) && InOutage(u, h) && e.Return?
    ensures InOutage(Apply(u, e), Note(h, u, e))
  {
    if h.stretch != [] && !LatestCounted(u) {
      var c :| c in u.callers && WaitsFor(u.callers[c], |u.fetches| - 1);
      assert WaitsFor(Apply(u, e).callers[c], |u.fetches| - 1);
    }
  }

  lemma OutageStep(u: Sys, h: History, e: Event)
    requires Inv(u) && Enabled(u, e) && InOutage(u, h)
    requires Note(h, u, e).brought == h.brought
    ensures InOutage(Apply(u, e), Note(h, u, e))
  {
    match e
    case Enter(c, kid, r) => OutageEnter(u, h, c, kid, r);
    case End(_, _, _) => OutageEnd(u, h, e);
    case Resume(c, r) =>
      if u.fetches[u.callers[c].fetch].Failed? {
        OutageCatch(u, h, c, r);
      } else {
        OutageRetry(u, h, c, r);
      }
    case Return(_) => OutageReturn(u, h, e);
  }

  lemma {:induction false} RunInOutage(s: Sys, es: seq<Event>)
    requires Inv(s) && Run(s, es) && Past(s, es).brought == 0
    ensures Inv(Exec(s, es)) && InOutage(Exec(s, es), Past(s, es))
  {
    RunKeepsInv(s, es);
    if es != [] {
      var pre := es[..|es| - 1];
      RunInOutage(s, pre);
      OutageStep(Exec(s, pre), Past(s, pre), es[|es| - 1]);
    }
  }

  // From any state on, while every fetch fails: the cold loads since an imported key last wiped out a failure on record
  // are as far apart as the Go store's requests, and a forced refetch keeps its window from whatever went before.
  lemma OutageBound(s: Sys, es: seq<Event>)
    requires Inv(s) && Run(s, es) && Past(s, es).brought == 0
    ensures var h := Past(s, es);
            && |h.starts| == |h.cold| + |h.forced|
            && WindowKept(h.starts, s.window) && Spaced(h.forced, s.window)
            && Apart(h.stretch)
            && (h.undone == 0 ==> h.stretch == h.cold)
  {
    RunInOutage(s, es);
    AttemptsFrom(s, es);
    StretchIsAll(s, es);
    Waits(Past(s, es).stretch);
  }

  // n moments as far apart as n - 1 failures in a row keep them: 3.1 s for the sixth and 2.5 s for each after it.
  predicate Apart(ts: seq<Time>)
  {
    var n := |ts|;
    && (n > 0 ==> ts[n - 1] - ts[0] >= B.LeastWait(0, n - 1))
    && (n >= 6 ==> ts[n - 1] - ts[0] >= 3_100_000_000 + 2_500_000_000 * (n - 6))
  }

  lemma Waits(ts: seq<Time>)
    requires ts != [] ==> ts[|ts| - 1] - ts[0] >= B.LeastWait(0, |ts| - 1)
    ensures Apart(ts)
  {
    B.LeastWaitOutage(Max(|ts| - 1, 5));
  }

  lemma {:induction false} StretchIsAll(s: Sys, es: seq<Event>)
    ensures Past(s, es).undone == 0 ==> Past(s, es).stretch == Past(s, es).cold
  {
    if es != [] {
      StretchIsAll(s, es[..|es| - 1]);
    }
  }

  // ---- how often a failure is wiped out ----

  function Importers(u: Sys): set<nat>
  {
    set c | c in u.callers && u.callers[c].Importing?
  }

  // No usable set, and whoever waits waits for a fetch that has brought none.
  ghost predicate NoSetComes(u: Sys)
  {
    && !Fresh(u.cache, u.now)
    && (forall c :: c in u.callers && u.callers[c].Waiting? ==>
          u.callers[c].fetch == |u.fetches| - 1 && !u.fetches[u.callers[c].fetch].Brought?)
  }

  lemma NoSetStep(u: Sys, h: History, e: Event)
    requires Inv(u) && Enabled(u, e) && NoSetComes(u) && Note(h, u, e).brought == h.brought
    ensures NoSetComes(Apply(u, e))
  {
  }

  lemma ImportersStep(u: Sys, h: History, e: Event)
    requires Inv(u) && Enabled(u, e) && NoSetComes(u) && Note(h, u, e).brought == h.brought
    ensures Importers(Apply(u, e)) == Importers(u) - (if e.Return? then {e.c} else {})
  {
    var v := Apply(u, e);
    forall c ensures c in Importers(v) <==> c in Importers(u) && !(e.Return? && e.c == c) {
      if !e.End? && e.c == c {
      } else {
        assert c in v.callers <==> c in u.callers;
      }
    }
  }

  lemma UndoneStep(u: Sys, h: History, e: Event)
    requires Enabled(u, e)
    ensures Note(h, u, e).undone <= h.undone + (if e.Return? then 1 else 0)
  {
  }

  // Each import that is under way when there is no set to be had wipes out a failure at most once, and no other does.
  lemma {:induction false} EachImporterUndoesOnce(s: Sys, es: seq<Event>)
    requires Inv(s) && NoSetComes(s) && Run(s, es) && Past(s, es).brought == 0
    ensures NoSetComes(Exec(s, es))
    ensures |Importers(Exec(s, es))| + Past(s, es).undone <= |Importers(s)|
  {
    if es != [] {
      var pre, e := es[..|es| - 1], es[|es| - 1];
      EachImporterUndoesOnce(s, pre);
      RunKeepsInv(s, pre);
      NoSetStep(Exec(s, pre), Past(s, pre), e);
      ImportersStep(Exec(s, pre), Past(s, pre), e);
      UndoneStep(Exec(s, pre), Past(s, pre), e);
      if e.Return? {
        assert e.c in Importers(Exec(s, pre));
      }
    }
  }

  // ---- which outages are bounded ----

  // Without a usable set there are only cold loads.
  ghost predicate OnlyColdLoads(u: Sys, h: History)
  {
    && !Fresh(u.cache, u.now) && h.forced == [] && |h.starts| == |h.cold|
    && forall i :: 0 <= i < |h.starts| ==> h.starts[i].t == h.cold[i]
  }

  lemma OnlyColdStep(u: Sys, h: History, e: Event)
    requires Inv(u) && Enabled(u, e) && OnlyColdLoads(u, h) && Note(h, u, e).brought == h.brought
    ensures OnlyColdLoads(Apply(u, e), Note(h, u, e))
  {
  }

  lemma {:induction false} NoSetNoForcedRefetch(s: Sys, es: seq<Event>)
    requires Inv(s) && Run(s, es) && !Fresh(s.cache, s.now) && Past(s, es).brought == 0
    ensures OnlyColdLoads(Exec(s, es), Past(s, es))
  {
    if es != [] {
      var pre := es[..|es| - 1];
      NoSetNoForcedRefetch(s, pre);
      RunKeepsInv(s, pre);
      OnlyColdStep(Exec(s, pre), Past(s, pre), es[|es| - 1]);
    }
  }

  function Times(starts: seq<Start>): (ts: seq<Time>)
    ensures |ts| == |starts| && forall i :: 0 <= i < |ts| ==> ts[i] == starts[i].t
  {
    seq(|starts|, i requires 0 <= i < |starts| => starts[i].t)
  }

  // An outage that begins with no usable set, nobody importing a key and nobody waiting for a fetch that brought one is
  // bounded in all its requests, as in the other SDKs.
  lemma ColdOutageBound(s: Sys, es: seq<Event>)
    requires Inv(s) && NoSetComes(s) && !SomeoneImports(s)
    requires Run(s, es) && Past(s, es).brought == 0
    ensures Apart(Times(Past(s, es).starts)) && Past(s, es).cold == Times(Past(s, es).starts)
  {
    assert Importers(s) == {};
    EachImporterUndoesOnce(s, es);
    OutageBound(s, es);
    NoSetNoForcedRefetch(s, es);
    assert Times(Past(s, es).starts) == Past(s, es).cold;
  }

  predicate SomeoneImports(u: Sys)
  {
    exists c | c in u.callers :: u.callers[c].Importing?
  }

  predicate AllAnswered(u: Sys)
  {
    forall c | c in u.callers :: u.callers[c].Answered?
  }

  // ---- extending a run ----

  lemma Then(s: Sys, es: seq<Event>, e: Event) returns (more: seq<Event>)
    requires Run(s, es) && Enabled(Exec(s, es), e)
    ensures more == es + [e] && Run(s, more) && Exec(s, more) == Apply(Exec(s, es), e)
    ensures Past(s, more) == Note(Past(s, es), Exec(s, es), e)
  {
    more := es + [e];
    assert more[..|more| - 1] == es && more[|more| - 1] == e;
  }

  lemma {:induction false} Unused(ks: set<nat>) returns (d: nat)
    ensures forall k :: k in ks ==> k < d
  {
    if ks == {} {
      d := 0;
    } else {
      var k :| k in ks;
      var rest := Unused(ks - {k});
      d := Max(rest, k + 1);
      assert forall j :: j in ks ==> j == k || j in ks - {k};
    }
  }

  function AllAt(t: Time): Readings
  {
    Readings(t, t, t, t, t, t, t, 0.5)
  }

  // ---- exactly which ----

  // Between turns with nothing out, no usable set and no backoff at t.
  ghost predicate Ready(v: Sys, t: Time)
  {
    Inv(v) && Settled(v) && !Pending(v) && v.now <= t && !Fresh(v.cache, t) && !BackingOff(v.gate, t)
  }

  lemma NobodyWaits(v: Sys)
    requires Inv(v) && Settled(v) && !Pending(v)
    ensures forall c :: c in v.callers ==> !v.callers[c].Waiting?
  {
    forall c | c in v.callers ensures !v.callers[c].Waiting? {
      assert !MustResume(v, c);
    }
  }

  lemma LoadStep(v: Sys, h: History, d: nat, t: Time)
    requires Ready(v, t) && d !in v.callers
    ensures var e := Enter(d, "", AllAt(t));
            && Enabled(v, e)
            && Apply(v, e) == v.(lastAttempt := Some(t), fetches := v.fetches + [Out],
                                 callers := v.callers[d := Waiting("", |v.fetches|, false)], now := t)
            && Note(h, v, e) == h.(starts := h.starts + [Start(t, false)], cold := h.cold + [t],
                                   stretch := h.stretch + [t])
  {
    assert h.forced + [] == h.forced;
  }

  // A load goes out.
  lemma LoadAt(s: Sys, es: seq<Event>, d: nat, t: Time) returns (more: seq<Event>)
    requires Run(s, es) && Ready(Exec(s, es), t) && d !in Exec(s, es).callers
    ensures Run(s, more)
    ensures var v := Exec(s, es);
            Exec(s, more) == v.(lastAttempt := Some(t), fetches := v.fetches + [Out],
                                callers := v.callers[d := Waiting("", |v.fetches|, false)], now := t)
    ensures var h := Past(s, es);
            Past(s, more) == h.(starts := h.starts + [Start(t, false)], cold := h.cold + [t],
                                stretch := h.stretch + [t])
    ensures Inv(Exec(s, more)) && WaitsAlone(Exec(s, more), d)
  {
    var v := Exec(s, es);
    LoadStep(v, Past(s, es), d, t);
    more := Then(s, es, Enter(d, "", AllAt(t)));
    InvStep(v, Enter(d, "", AllAt(t)));
    NobodyWaits(v);
  }

  // Only d waits, and for the request that is out.
  ghost predicate WaitsAlone(v: Sys, d: nat)
  {
    && Pending(v) && d in v.callers && WaitsFor(v.callers[d], |v.fetches| - 1)
    && forall c :: c in v.callers && v.callers[c].Waiting? ==> c == d
  }

  // A waiter takes the turn that a failed fetch gives it.
  lemma CatchStep(v: Sys, h: History, d: nat, t: Time)
    requires MustResume(v, d) && v.now <= t && v.fetches[v.callers[d].fetch].Failed?
    ensures var e, w := Resume(d, AllAt(t)), v.callers[d];
            && Enabled(v, e)
            && Apply(v, e) == v.(gate := AfterCatch(v.gate, Fresh(v.cache, t), FetchError(w.fetch), t, 0.5),
                                 callers := v.callers[d := Answered(w.kid, FetchFailed)], now := t)
            && SameLoads(Note(h, v, e), h) && Note(h, v, e).undone == h.undone
            && (!CountsAt(v, e) ==> Note(h, v, e) == h)
  {
  }

  // The request fails at once.
  lemma FailedAt(s: Sys, es: seq<Event>, d: nat) returns (more: seq<Event>)
    requires Run(s, es)
    requires var v := Exec(s, es); Inv(v) && !Fresh(v.cache, v.now) && WaitsAlone(v, d)
    ensures Run(s, more)
    ensures var v, u := Exec(s, es), Exec(s, more);
            && u == v.(fetches := v.fetches[|v.fetches| - 1 := Failed])
            && Inv(u) && MustResume(u, d) && forall c :: MustResume(u, c) ==> c == d
    ensures SameLoads(Past(s, more), Past(s, es)) && Past(s, more).undone == Past(s, es).undone
  {
    var v := Exec(s, es);
    var e := End(|v.fetches| - 1, None, v.now);
    more := Then(s, es, e);
    InvStep(v, e);
  }

  // And its one waiter counts it.
  lemma CountedAt(s: Sys, es: seq<Event>, d: nat) returns (more: seq<Event>)
    requires Run(s, es)
    requires var v := Exec(s, es); Inv(v) && !Fresh(v.cache, v.now) && WaitsAlone(v, d)
    ensures Run(s, more)
    ensures var v, u := Exec(s, es), Exec(s, more);
            && u == v.(fetches := u.fetches, gate := u.gate, callers := u.callers)
            && Inv(u) && Settled(u) && !Pending(u) && u.gate.failures > 0
            && u.callers == v.callers[d := Answered(v.callers[d].kid, FetchFailed)]
    ensures SameLoads(Past(s, more), Past(s, es)) && Past(s, more).undone == Past(s, es).undone
  {
    more := FailedAt(s, es, d);
    var w := Exec(s, more);
    CatchStep(w, Past(s, more), d, w.now);
    more := Then(s, more, Resume(d, AllAt(w.now)));
    InvStep(w, Resume(d, AllAt(w.now)));
  }

  predicate SameLoads(h: History, h': History)
  {
    h.starts == h'.starts && h.cold == h'.cold && h.brought == h'.brought
  }

  lemma FailedLoad(s: Sys, es: seq<Event>, d: nat, t: Time) returns (more: seq<Event>)
    requires Run(s, es) && Ready(Exec(s, es), t) && d !in Exec(s, es).callers
    ensures Run(s, more)
    ensures var v, u := Exec(s, es), Exec(s, more);
            && Inv(u) && Settled(u) && !Pending(u) && u.now == t && u.cache == v.cache && u.gate.failures > 0
            && u.callers == v.callers[d := Answered("", FetchFailed)]
    ensures var h, h' := Past(s, es), Past(s, more);
            && h'.starts == h.starts + [Start(t, false)] && h'.cold == h.cold + [t]
            && h'.brought == h.brought && h'.undone == h.undone
  {
    more := LoadAt(s, es, d, t);
    more := CountedAt(s, more, d);
  }

  // The key that c imports arrives, and wipes out the failures on record.
  lemma Forgotten(s: Sys, es: seq<Event>, c: nat) returns (more: seq<Event>)
    requires Run(s, es)
    requires var v := Exec(s, es);
             && Inv(v) && Settled(v) && !Pending(v) && !Fresh(v.cache, v.now) && v.gate.failures > 0
             && c in v.callers && v.callers[c].Importing?
    ensures Run(s, more) && Ready(Exec(s, more), Exec(s, es).now)
    ensures Exec(s, more).callers.Keys == Exec(s, es).callers.Keys
    ensures SameLoads(Past(s, more), Past(s, es)) && Past(s, more).undone == Past(s, es).undone + 1
  {
    var v := Exec(s, es);
    NobodyWaits(v);
    more := Then(s, es, Return(c));
    InvStep(v, Return(c));
  }

  lemma ForgottenLoad(s: Sys, es: seq<Event>, c: nat, d: nat, t: Time) returns (more: seq<Event>)
    requires Run(s, es) && Ready(Exec(s, es), t) && d !in Exec(s, es).callers
    requires c in Exec(s, es).callers && Exec(s, es).callers[c].Importing?
    ensures Run(s, more) && Ready(Exec(s, more), t) && Exec(s, more).callers.Keys == Exec(s, es).callers.Keys + {d}
    ensures var h, h' := Past(s, es), Past(s, more);
            && h'.starts == h.starts + [Start(t, false)] && h'.cold == h.cold + [t]
            && h'.brought == h.brought && h'.undone == h.undone + 1
  {
    more := FailedLoad(s, es, d, t);
    more := Forgotten(s, more, c);
  }

  // While c imports a key: a load goes out, fails and is counted, the key arrives, and a second load goes out at the
  // same moment.
  lemma TwoLoadsAtOnce(s: Sys, es: seq<Event>, c: nat, t: Time) returns (more: seq<Event>)
    requires Run(s, es) && Ready(Exec(s, es), t)
    requires c in Exec(s, es).callers && Exec(s, es).callers[c].Importing?
    ensures Run(s, more)
    ensures var h, h' := Past(s, es), Past(s, more);
            && h'.brought == h.brought && h'.undone == h.undone + 1
            && h'.starts == h.starts + [Start(t, false), Start(t, false)] && h'.cold == h.cold + [t, t]
  {
    var h := Past(s, es);
    var d := Unused(Exec(s, es).callers.Keys);
    more := ForgottenLoad(s, es, c, d, t);
    more := LoadAt(s, more, d + 1, t);
    assert h.starts + [Start(t, false)] + [Start(t, false)] == h.starts + [Start(t, false), Start(t, false)];
    assert h.cold + [t] + [t] == h.cold + [t, t];
  }

  // Whoever is owed a turn waited for a fetch that failed.
  ghost predicate OwedFailures(v: Sys)
  {
    forall c :: MustResume(v, c) ==> v.fetches[v.callers[c].fetch].Failed?
  }

  function Waiters(v: Sys): set<nat>
  {
    set c | c in v.callers && v.callers[c].Waiting?
  }

  // Everyone who is owed a turn takes it at the same reading: they are all told of the failure.
  lemma {:induction false} TurnsTaken(s: Sys, es: seq<Event>) returns (more: seq<Event>)
    requires Run(s, es)
    requires var v := Exec(s, es); Inv(v) && OwedFailures(v) && !Pending(v)
    ensures Run(s, more) && SameLoads(Past(s, more), Past(s, es))
    ensures Rested(Exec(s, es), Exec(s, more))
    decreases |Waiters(Exec(s, es))|
  {
    var v := Exec(s, es);
    more := es;
    if c :| MustResume(v, c) {
      var e := Resume(c, AllAt(v.now));
      TurnTaken(v, Past(s, es), c);
      more := Then(s, es, e);
      more := TurnsTaken(s, more);
    }
  }

  lemma TurnTaken(v: Sys, h: History, c: nat)
    requires Inv(v) && OwedFailures(v) && !Pending(v) && MustResume(v, c)
    ensures Enabled(v, Resume(c, AllAt(v.now))) && SameLoads(Note(h, v, Resume(c, AllAt(v.now))), h)
    ensures var w := Apply(v, Resume(c, AllAt(v.now)));
            && Inv(w) && OwedFailures(w) && !Pending(w) && w.now == v.now && w.cache == v.cache
            && Importers(w) == Importers(v) && |Waiters(w)| < |Waiters(v)|
  {
    CatchStep(v, h, c, v.now);
    InvStep(v, Resume(c, AllAt(v.now)));
    OneFewerWaits(v, Apply(v, Resume(c, AllAt(v.now))), c);
  }

  lemma OneFewerWaits(v: Sys, w: Sys, c: nat)
    requires MustResume(v, c) && c in w.callers && w.callers[c].Answered?
    requires w.callers == v.callers[c := w.callers[c]]
    ensures Waiters(w) == Waiters(v) - {c} && |Waiters(w)| < |Waiters(v)| && Importers(w) == Importers(v)
  {
    assert c in Waiters(v);
  }

  // The same state between turns with nothing out, but for the backoff and who has been told of a failure.
  ghost predicate Rested(v: Sys, w: Sys)
  {
    Inv(w) && Settled(w) && !Pending(w) && w.now == v.now && w.cache == v.cache && Importers(w) == Importers(v)
  }

  // From u, the request that is out fails and everyone is told, and nothing is sent.
  lemma Rest(u: Sys) returns (es: seq<Event>)
    requires Inv(u) && OwedFailures(u)
    ensures Run(u, es) && SameLoads(Past(u, es), NOTHING) && Rested(u, Exec(u, es))
  {
    es := [];
    if Pending(u) {
      var e := End(|u.fetches| - 1, None, u.now);
      PendingIsSettled(u);
      es := Then(u, [], e);
      InvStep(u, e);
    }
    es := TurnsTaken(u, es);
  }

  lemma PendingIsSettled(u: Sys)
    requires Inv(u) && OwedFailures(u) && Pending(u)
    ensures Settled(u)
  {
    forall c | c in u.callers ensures !MustResume(u, c) {
      NothingOwed(u, c);
    }
  }

  lemma NothingOwed(u: Sys, c: nat)
    requires Inv(u) && OwedFailures(u) && Pending(u) && c in u.callers
    ensures !MustResume(u, c)
  {
    if u.callers[c].Waiting? {
      assert WaitsInPlace(u, u.callers[c].fetch);
    }
  }

  // 1 ns before a set expires a lookup finds a key in it and begins to import it.
  lemma ImporterAtTheEnd(s: Sys, es: seq<Event>) returns (more: seq<Event>, c: nat)
    requires Run(s, es)
    requires var u := Exec(s, es); Inv(u) && Settled(u) && !Pending(u) && Fresh(u.cache, u.now)
    ensures Run(s, more) && Past(s, more) == Past(s, es)
    ensures var v := Exec(s, more);
            Inv(v) && Settled(v) && !Pending(v) && c in v.callers && v.callers[c].Importing?
  {
    var u := Exec(s, es);
    var ks := u.cache.value.set_;
    c := Unused(u.callers.Keys);
    var e := Enter(c, ks[0].kid, AllAt(u.cache.value.at + MAX_AGE - 1));
    more := Then(s, es, e);
    InvStep(u, e);
    NobodyWaits(u);
  }

  // If every fetch of the run fails, its requests are as far apart as their number of failures keeps them.
  ghost predicate Bounded(u: Sys, es: seq<Event>)
  {
    Run(u, es) && Past(u, es).brought == 0 ==> Apart(Times(Past(u, es).starts))
  }

  // The same of its cold loads alone.
  ghost predicate LoadsBounded(u: Sys, es: seq<Event>)
  {
    Run(u, es) && Past(u, es).brought == 0 ==> Apart(Past(u, es).cold)
  }

  lemma ImporterBreaksTheBound(u: Sys, es: seq<Event>, c: nat) returns (more: seq<Event>)
    requires Run(u, es) && SameLoads(Past(u, es), NOTHING)
    requires var v := Exec(u, es);
             && Inv(v) && Settled(v) && !Pending(v) && c in v.callers && v.callers[c].Importing?
    ensures !Bounded(u, more) && !LoadsBounded(u, more)
  {
    var v := Exec(u, es);
    var t := Max(v.now, if v.cache.Some? then v.cache.value.at + MAX_AGE else v.now) + B.CAP;
    more := TwoLoadsAtOnce(u, es, c, t);
    FirstWait();
    assert Past(u, more).cold == [t, t];
    assert Times(Past(u, more).starts) == [t, t];
  }

  lemma FirstWait()
    ensures B.LeastWait(0, 1) == 100 * MS
  {
    B.ScheduleStart();
    assert B.LeastWait(0, 1) == B.LeastWait(0, 0) + B.Schedule(1) / 2;
  }

  // Whether a request is out or not, between turns and while turns are owed for a failure: the bound holds of every
  // outage that begins there, of all its requests and likewise of its cold loads alone, exactly when no usable set is
  // held and nobody is importing a key.
  lemma OutageIsBoundedExactlyWhen(u: Sys)
    requires Inv(u) && OwedFailures(u)
    ensures (forall es :: Bounded(u, es)) <==> !Fresh(u.cache, u.now) && !SomeoneImports(u)
    ensures (forall es :: LoadsBounded(u, es)) <==> !Fresh(u.cache, u.now) && !SomeoneImports(u)
  {
    if SomeoneImports(u) {
      var c :| c in u.callers && u.callers[c].Importing?;
      var es := Rest(u);
      assert c in Importers(u);
      es := ImporterBreaksTheBound(u, es, c);
    } else if Fresh(u.cache, u.now) {
      var es := Rest(u);
      var c: nat;
      es, c := ImporterAtTheEnd(u, es);
      es := ImporterBreaksTheBound(u, es, c);
    } else {
      NoneComes(u);
      forall es ensures Bounded(u, es) && LoadsBounded(u, es) {
        if Run(u, es) && Past(u, es).brought == 0 {
          ColdOutageBound(u, es);
        }
      }
    }
  }

  lemma NoneComes(u: Sys)
    requires Inv(u) && OwedFailures(u) && !Fresh(u.cache, u.now)
    ensures NoSetComes(u)
  {
    forall c | c in u.callers && u.callers[c].Waiting?
      ensures u.callers[c].fetch == |u.fetches| - 1 && !u.fetches[u.callers[c].fetch].Brought?
    {
      assert WaitsInPlace(u, u.callers[c].fetch);
      assert u.fetches[u.callers[c].fetch].Out? || MustResume(u, c);
    }
  }

  // ---- when the window holds ----

  // A schedule that sends a request before the running backoff is over.
  ghost predicate SendsEarly(u: Sys, es: seq<Event>)
  {
    && Run(u, es) && BackingOff(u.gate, u.now)
    && Past(u, es).starts != [] && (Past(u, es).starts[0].t as real) < u.gate.retryAt.value
  }

  // Nothing has moved since u, or the first request went out once its backoff was over.
  ghost predicate Waited(u: Sys, v: Sys, h: History)
    requires BackingOff(u.gate, u.now)
  {
    if h.starts == [] then
      v.gate == u.gate && v.cache == u.cache && u.now <= v.now && !Pending(v) && AllAnswered(v)
    else
      h.starts[0].t as real >= u.gate.retryAt.value
  }

  lemma WaitedStep(u: Sys, v: Sys, h: History, e: Event)
    requires Inv(v) && BackingOff(u.gate, u.now) && !Fresh(u.cache, u.now) && Enabled(v, e) && Waited(u, v, h)
    ensures Waited(u, Apply(v, e), Note(h, v, e))
  {
    if h.starts == [] {
      assert e.Enter?;
    }
  }

  lemma {:induction false} NobodyImportsSoNobodyIsEarly(u: Sys, es: seq<Event>)
    requires Inv(u) && BackingOff(u.gate, u.now) && AllAnswered(u) && Run(u, es)
    ensures Waited(u, Exec(u, es), Past(u, es))
  {
    if es != [] {
      var pre := es[..|es| - 1];
      NobodyImportsSoNobodyIsEarly(u, pre);
      RunKeepsInv(u, pre);
      WaitedStep(u, Exec(u, pre), Past(u, pre), es[|es| - 1]);
    }
  }

  // An imported key wipes out the failures, and the next lookup sends at once.
  lemma ImporterLetsOneThrough(u: Sys, c: nat) returns (es: seq<Event>)
    requires Inv(u) && Settled(u) && BackingOff(u.gate, u.now) && c in u.callers && u.callers[c].Importing?
    ensures SendsEarly(u, es)
  {
    var d := Unused(u.callers.Keys);
    es := Then(u, [], Return(c));
    var v := Exec(u, es);
    assert v.callers[c].Answered? && forall b :: b in u.callers && b != c ==> v.callers[b] == u.callers[b];
    assert Settled(v);
    es := Then(u, es, Enter(d, "", AllAt(u.now)));
  }

  // Between turns, with a backoff running: no schedule sends a request before it is over exactly when no lookup is
  // still importing a key it found before the set expired.
  lemma TheBackoffHoldsExactlyWhen(u: Sys)
    requires Inv(u) && Settled(u) && BackingOff(u.gate, u.now)
    ensures (forall es :: !SendsEarly(u, es)) <==> !SomeoneImports(u)
  {
    if SomeoneImports(u) {
      var c :| c in u.callers && u.callers[c].Importing?;
      var es := ImporterLetsOneThrough(u, c);
    } else {
      forall es ensures !SendsEarly(u, es) {
        if Run(u, es) {
          NobodyImportsSoNobodyIsEarly(u, es);
        }
      }
    }
  }

  // ---- two outages ----

  const SET_A := [Jwk("a", 1)]
  const COLD := Init(30 * SECOND, 0)

  // A load at 0 has brought a set with the kid "a".
  const WARM := Sys(30 * SECOND, Some(Cached(SET_A, 0)), Some(0), CLEAN, [Brought(SET_A)],
                    map[0 := Answered("a", Found(1))], 0)

  lemma WarmIsReached() returns (es: seq<Event>)
    ensures Run(COLD, es) && Exec(COLD, es) == WARM && Inv(WARM)
  {
    es := Then(COLD, [], Enter(0, "a", AllAt(0)));
    assert Exec(COLD, es).callers == map[0 := Waiting("a", 0, false)];
    es := Then(COLD, es, End(0, Some(SET_A), 0));
    assert Exec(COLD, es).fetches == [Brought(SET_A)];
    es := Then(COLD, es, Resume(0, AllAt(0)));
    es := Then(COLD, es, Return(0));
    assert Exec(COLD, es).callers == map[0 := Answered("a", Found(1))];
    RunKeepsInv(COLD, es);
  }

  lemma NotInTheSet(kid: string)
    requires kid != "a"
    ensures KeyFor(SET_A, kid).None?
  {
    assert SET_A[1..] == [];
  }

  const JUST_BEFORE := 300 * SECOND - 10 * MS

  // 10 ms before the set expires, a kid missing from it sends a forced refetch.
  lemma ForcedJustBefore() returns (es: seq<Event>)
    ensures Run(WARM, es)
    ensures Past(WARM, es) == NOTHING.(starts := [Start(JUST_BEFORE, true)], forced := [JUST_BEFORE])
    ensures Exec(WARM, es) == WARM.(lastAttempt := Some(JUST_BEFORE), fetches := [Brought(SET_A), Out],
                                    callers := WARM.callers[1 := Waiting("b", 1, true)], now := JUST_BEFORE)
  {
    NotInTheSet("b");
    es := Then(WARM, [], Enter(1, "b", AllAt(JUST_BEFORE)));
  }

  // It fails 5 ms later, with the set still usable.
  lemma FailsJustBefore() returns (es: seq<Event>)
    ensures Run(WARM, es)
    ensures Past(WARM, es) == NOTHING.(starts := [Start(JUST_BEFORE, true)], forced := [JUST_BEFORE], failed := 1)
    ensures Exec(WARM, es) == WARM.(lastAttempt := Some(JUST_BEFORE), fetches := [Brought(SET_A), Failed],
                                    callers := WARM.callers[1 := Waiting("b", 1, true)], now := JUST_BEFORE + 5 * MS)
  {
    es := ForcedJustBefore();
    es := Then(WARM, es, End(1, None, JUST_BEFORE + 5 * MS));
    assert Exec(WARM, es).fetches == [Brought(SET_A), Failed];
  }

  // Nothing is counted.
  lemma FailsUncounted() returns (es: seq<Event>)
    ensures Run(WARM, es)
    ensures Past(WARM, es) == NOTHING.(starts := [Start(JUST_BEFORE, true)], forced := [JUST_BEFORE], failed := 1)
    ensures Exec(WARM, es) == WARM.(lastAttempt := Some(JUST_BEFORE), fetches := [Brought(SET_A), Failed],
                                    callers := WARM.callers[1 := Answered("b", FetchFailed)],
                                    now := JUST_BEFORE + 5 * MS)
  {
    es := FailsJustBefore();
    CatchStep(Exec(WARM, es), Past(WARM, es), 1, JUST_BEFORE + 5 * MS);
    es := Then(WARM, es, Resume(1, AllAt(JUST_BEFORE + 5 * MS)));
    assert Exec(WARM, es).callers == WARM.callers[1 := Answered("b", FetchFailed)];
  }

  // An outage that begins with a usable set: the load at 300 s follows that refetch after 10 ms, not 100.
  lemma AWarmOutageStartsCloser() returns (es: seq<Event>)
    ensures Inv(WARM) && WARM.gate.failures == 0 && !Pending(WARM) && AllAnswered(WARM)
    ensures var h := Past(WARM, es);
            && Run(WARM, es) && h.brought == 0 && h.undone == 0
            && h.starts == [Start(JUST_BEFORE, true), Start(300 * SECOND, false)]
            && h.starts[1].t - h.starts[0].t < B.LeastWait(0, 1)
  {
    var reach := WarmIsReached();
    es := FailsUncounted();
    RunKeepsInv(WARM, es);
    es := LoadAt(WARM, es, 2, 300 * SECOND);
    FirstWait();
  }

  // A lookup 1 ms before the set expires finds its key and begins to import it.
  lemma ImporterEnters() returns (es: seq<Event>)
    ensures Run(WARM, es) && Past(WARM, es) == NOTHING
    ensures Exec(WARM, es) == WARM.(callers := WARM.callers[1 := Importing("a", 1)], now := 300 * SECOND - MS)
  {
    es := Then(WARM, [], Enter(1, "a", AllAt(300 * SECOND - MS)));
  }

  // It still is when, at 300 s, the first load of an outage goes out and is refused at once. The key arrives, the
  // failure is forgotten, and the second load goes out at the very moment of the first.
  lemma AnImporterUndoesTheBackoff() returns (es: seq<Event>)
    ensures var h := Past(WARM, es);
            && Run(WARM, es) && h.brought == 0 && h.undone == 1
            && h.cold == [300 * SECOND, 300 * SECOND]
            && h.cold[1] - h.cold[0] < B.LeastWait(0, 1)
  {
    var reach := WarmIsReached();
    es := ImporterEnters();
    RunKeepsInv(WARM, es);
    es := TwoLoadsAtOnce(WARM, es, 1, 300 * SECOND);
    FirstWait();
  }
}
