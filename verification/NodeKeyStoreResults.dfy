/** What holds of every run of the Node key source. */
module NodeKeyStoreResults {
  import opened Common
  import opened KeySets
  import opened NodeKeyStore
  import opened Spacing
  import B = Backoff

  // ---- the history of a run ----

  // A request that went out: when, and whether a usable set was held then.
  datatype Start = Start(t: Time, forced: bool)

  datatype History = History(
    starts: seq<Start>,
    cold: seq<Time>,
    forced: seq<Time>,
    brought: nat,                 // fetches that brought a set
    failed: nat,                  // fetches that failed
    latest: Option<Cached>,       // the set brought last and when
    counted: seq<nat>,            // the fetches the backoff has counted, in the order it did
    countedAt: Option<Time>,
    unusable: seq<nat>,           // the fetches that failed with no usable set held
    undone: nat,                  // how often an imported key wiped out failures on record
    stretch: seq<Time>)           // the cold loads since the latest time one did

  const NOTHING := History([], [], [], 0, 0, None, [], None, [], 0, [])

  predicate SendsAt(u: Sys, e: Event)
  {
    Reloads(u, e) && (e.Enter? || e.Resume?) && Sends(u, e.r)
  }

  predicate CountsAt(u: Sys, e: Event)
  {
    && e.Resume? && MustResume(u, e.c) && u.fetches[u.callers[e.c].fetch].Failed?
    && Counts(u.gate, Fresh(u.cache, e.r.caught), FetchError(u.callers[e.c].fetch))
  }

  function Note(h: History, u: Sys, e: Event): History
  {
    if SendsAt(u, e) then
      var forced := Fresh(u.cache, e.r.judged);
      h.(starts := h.starts + [Start(e.r.stamped, forced)],
         cold := h.cold + (if forced then [] else [e.r.stamped]),
         stretch := h.stretch + (if forced then [] else [e.r.stamped]),
         forced := h.forced + (if forced then [e.r.stamped] else []))
    else if CountsAt(u, e) then
      h.(counted := h.counted + [u.callers[e.c].fetch], countedAt := Some(e.r.counted))
    else if e.End? then
      h.(brought := h.brought + (if e.ks.Some? then 1 else 0),
         failed := h.failed + (if e.ks.Some? then 0 else 1),
         latest := if e.ks.Some? then Some(Cached(e.ks.value, e.t)) else h.latest,
         unusable := h.unusable + (if e.ks.None? && !Fresh(u.cache, e.t) then [e.f] else []))
    else if e.Return? && u.gate.failures > 0 then h.(undone := h.undone + 1, stretch := [])
    else h
  }

  ghost function Past(s: Sys, es: seq<Event>): History
  {
    if es == [] then NOTHING else Note(Past(s, es[..|es| - 1]), Exec(s, es[..|es| - 1]), es[|es| - 1])
  }

  // ---- what it keeps ----

  predicate Follows(x: Start, y: Start, window: nat)
  {
    x.t <= y.t && (y.forced ==> y.t - x.t >= window)
  }

  // Each forced refetch keeps its distance from whatever request came before it.
  predicate WindowKept(starts: seq<Start>, window: nat)
  {
    forall i :: 0 < i < |starts| ==> Follows(starts[i - 1], starts[i], window)
  }

  ghost predicate StartsKept(s: Sys, u: Sys, h: History)
  {
    && u.window == s.window
    && u.lastAttempt == (if h.starts == [] then s.lastAttempt else Some(h.starts[|h.starts| - 1].t))
    && WindowKept(h.starts, s.window)
    && |h.starts| == |h.cold| + |h.forced|
  }

  ghost predicate ForcedKept(u: Sys, h: History)
  {
    && Spaced(h.forced, u.window)
    && (h.forced != [] ==> u.lastAttempt.Some? && h.forced[|h.forced| - 1] <= u.lastAttempt.value)
  }

  ghost predicate AttemptsKept(s: Sys, u: Sys, h: History)
  {
    StartsKept(s, u, h) && ForcedKept(u, h)
  }

  ghost predicate Tallied(u: Sys, h: History)
  {
    && |u.fetches| == |h.starts|
    && |h.starts| == h.brought + h.failed + (if Pending(u) then 1 else 0)
    && u.cache == h.latest
  }

  ghost predicate CountKept(u: Sys, h: History)
  {
    && u.gate.failures <= |h.counted|
    && u.gate.lastCounted == (if h.counted == [] then None else Some(h.counted[|h.counted| - 1]))
    && (u.gate.failures > 0 ==>
          h.countedAt.Some? && u.gate.retryAt.Some? && u.gate.retryAt.value < (h.countedAt.value + B.CAP) as real)
    && (forall i :: 0 <= i < |h.counted| ==> FailedAt(u, h.counted[i]))
    && (forall i :: 0 < i < |h.counted| ==> h.counted[i - 1] < h.counted[i])
  }

  predicate FailedAt(u: Sys, f: nat)
  {
    f < |u.fetches| && u.fetches[f].Failed?
  }

  // What a turn does to the window and to the backoff, apart from where it leaves its caller.
  lemma Effect(u: Sys, e: Event)
    requires Inv(u) && Enabled(u, e)
    ensures var v := Apply(u, e);
            && v.window == u.window
            && v.lastAttempt == (if SendsAt(u, e) then Some(e.r.stamped) else u.lastAttempt)
            && v.fetches == (if SendsAt(u, e) then u.fetches + [Out] else if e.End? then v.fetches else u.fetches)
            && v.gate == (if CountsAt(u, e) then v.gate else if v.gate.failures == 0 then Reset(u.gate) else u.gate)
    ensures SendsAt(u, e) ==> !CountsAt(u, e)
  {
  }

  lemma StartsStep(s: Sys, u: Sys, h: History, e: Event)
    requires Inv(u) && Enabled(u, e) && StartsKept(s, u, h)
    ensures StartsKept(s, Apply(u, e), Note(h, u, e))
  {
    Effect(u, e);
    if SendsAt(u, e) && h.starts != [] {
      assert Follows(h.starts[|h.starts| - 1], Start(e.r.stamped, Fresh(u.cache, e.r.judged)), s.window);
    }
  }

  lemma ForcedStep(u: Sys, h: History, e: Event)
    requires Inv(u) && Enabled(u, e) && ForcedKept(u, h)
    ensures ForcedKept(Apply(u, e), Note(h, u, e))
  {
    Effect(u, e);
  }

  // From any state the requests keep to the window.
  lemma {:induction false} AttemptsFrom(s: Sys, es: seq<Event>)
    requires Inv(s) && Run(s, es)
    ensures AttemptsKept(s, Exec(s, es), Past(s, es))
  {
    if es != [] {
      var pre := es[..|es| - 1];
      AttemptsFrom(s, pre);
      RunKeepsInv(s, pre);
      StartsStep(s, Exec(s, pre), Past(s, pre), es[|es| - 1]);
      ForcedStep(Exec(s, pre), Past(s, pre), es[|es| - 1]);
    }
  }

  lemma TallyStep(u: Sys, h: History, e: Event)
    requires Inv(u) && Enabled(u, e) && Tallied(u, h)
    ensures Tallied(Apply(u, e), Note(h, u, e))
  {
  }

  lemma FailuresLast(u: Sys, e: Event, f: nat)
    requires Inv(u) && Enabled(u, e) && FailedAt(u, f)
    ensures FailedAt(Apply(u, e), f)
  {
  }

  lemma CountStep(u: Sys, h: History, e: Event)
    requires Inv(u) && Enabled(u, e) && CountKept(u, h)
    ensures CountKept(Apply(u, e), Note(h, u, e))
  {
    Effect(u, e);
    forall i | 0 <= i < |h.counted| ensures FailedAt(Apply(u, e), h.counted[i]) {
      FailuresLast(u, e, h.counted[i]);
    }
    if CountsAt(u, e) {
      DelayBounds(u.gate.failures + 1, e.r.jitter);
      assert FailedAt(Apply(u, e), u.callers[e.c].fetch);
    }
  }

  // With no failure so far, the latest cold load is still out or its set is at least as young as it is.
  ghost predicate LoadsApart(u: Sys, h: History)
  {
    && Spaced(h.cold, MAX_AGE)
    && (h.cold != [] ==>
          && h.cold[|h.cold| - 1] <= u.now
          && (Pending(u) || (u.cache.Some? && h.cold[|h.cold| - 1] <= u.cache.value.at)))
  }

  lemma LoadsStep(u: Sys, h: History, e: Event)
    requires Inv(u) && Enabled(u, e) && LoadsApart(u, h) && Note(h, u, e).failed == h.failed
    ensures LoadsApart(Apply(u, e), Note(h, u, e))
  {
    if SendsAt(u, e) {
      LoadsSend(u, h, e);
    }
  }

  lemma LoadsSend(u: Sys, h: History, e: Event)
    requires Inv(u) && Enabled(u, e) && LoadsApart(u, h) && SendsAt(u, e)
    ensures LoadsApart(Apply(u, e), Note(h, u, e))
  {
    SentIsPending(u, e);
    if !Fresh(u.cache, e.r.judged) {
      if h.cold != [] {
        LoadWaits(u, h, e);
      }
      SpacedSnoc(h.cold, e.r.stamped, MAX_AGE);
      assert Note(h, u, e).cold == h.cold + [e.r.stamped];
    } else {
      assert Note(h, u, e).cold == h.cold;
    }
  }

  lemma SentIsPending(u: Sys, e: Event)
    requires Enabled(u, e) && SendsAt(u, e)
    ensures Pending(Apply(u, e)) && Apply(u, e).now == e.r.counted && Apply(u, e).cache == u.cache
  {
  }

  lemma LoadWaits(u: Sys, h: History, e: Event)
    requires Enabled(u, e) && LoadsApart(u, h) && SendsAt(u, e) && !Fresh(u.cache, e.r.judged) && h.cold != []
    ensures e.r.stamped - h.cold[|h.cold| - 1] >= MAX_AGE
  {
  }

  lemma SpacedSnoc(ts: seq<Time>, t: Time, gap: int)
    requires Spaced(ts, gap) && (ts != [] ==> t - ts[|ts| - 1] >= gap)
    ensures Spaced(ts + [t], gap)
  {
  }

  lemma {:induction false} RunKeeps(window: nat, start: Time, es: seq<Event>)
    requires Run(Init(window, start), es)
    ensures var u, h := Exec(Init(window, start), es), Past(Init(window, start), es);
            && Inv(u) && u.window == window
            && AttemptsKept(Init(window, start), u, h) && Tallied(u, h) && CountKept(u, h)
  {
    var s := Init(window, start);
    RunKeepsInv(s, es);
    AttemptsFrom(s, es);
    if es != [] {
      var pre, e := es[..|es| - 1], es[|es| - 1];
      RunKeeps(window, start, pre);
      TallyStep(Exec(s, pre), Past(s, pre), e);
      CountStep(Exec(s, pre), Past(s, pre), e);
    }
  }

  lemma {:induction false} LoadsFrom(window: nat, start: Time, es: seq<Event>)
    requires Run(Init(window, start), es) && Past(Init(window, start), es).failed == 0
    ensures LoadsApart(Exec(Init(window, start), es), Past(Init(window, start), es))
  {
    if es != [] {
      var s, pre := Init(window, start), es[..|es| - 1];
      LoadsFrom(window, start, pre);
      RunKeepsInv(s, pre);
      LoadsStep(Exec(s, pre), Past(s, pre), es[|es| - 1]);
    }
  }

  // ---- a usable set is never held back ----

  // Whatever unknown kids, failing refetches and other callers a run holds: a lookup ends at once with the key exactly
  // when the set brought last is younger than 300 s and has the kid. It sends nothing and changes nothing else.
  lemma CachedKidsAreAlwaysServed(window: nat, start: Time, es: seq<Event>, c: nat, kid: string, r: Readings)
    requires Run(Init(window, start), es) && Enabled(Exec(Init(window, start), es), Enter(c, kid, r))
    ensures var u, h := Exec(Init(window, start), es), Past(Init(window, start), es);
            var v := Apply(u, Enter(c, kid, r));
            && (v.callers[c].Importing? <==> Fresh(h.latest, r.looked) && !Lacks(h.latest.value.set_, kid))
            && (v.callers[c].Importing? ==>
                  && Files(h.latest.value.set_, kid, v.callers[c].key)
                  && v == u.(now := r.counted, callers := u.callers[c := Importing(kid, v.callers[c].key)]))
            && (v.callers[c] == Answered(kid, InBackoff) ==> !Fresh(h.latest, r.entered))
  {
    RunKeeps(window, start, es);
    var h := Past(Init(window, start), es);
    if h.latest.Some? {
      var k := Lookup(h.latest, kid);
      KeyForIsTheFirstFiled(h.latest.value.set_, kid, if k.Some? then k.value else 0);
    }
  }

  // What becomes of a lookup that finds a usable set without its kid, told from the run's history: it joins the request
  // that is out; with none out, it sends one unless a set is still usable and the latest request of any kind went out
  // less than a window ago, and else it is refused. Neither way does it count as a failure.
  ghost predicate MissDecided(u: Sys, h: History, c: nat, kid: string, r: Readings)
    requires Enabled(u, Enter(c, kid, r))
  {
    var v := Apply(u, Enter(c, kid, r));
    var out := |h.starts| > h.brought + h.failed;
    var limited := Fresh(h.latest, r.judged) && JustAttempted(h.starts, u.window, r.compared);
    && c in v.callers
    && (u.fetches != [] && v.fetches == u.fetches && v.callers[c] == Waiting(kid, |u.fetches| - 1, true) <==> out)
    && (v.fetches == u.fetches + [Out] && v.callers[c] == Waiting(kid, |u.fetches|, true) <==> !out && !limited)
    && (v.fetches == u.fetches && v.callers[c] == Answered(kid, NoKey) <==> !out && limited)
    && v.gate.failures <= u.gate.failures && v.gate.lastCounted == u.gate.lastCounted
  }

  predicate JustAttempted(starts: seq<Start>, window: nat, now: Time)
  {
    starts != [] && now - starts[|starts| - 1].t < window
  }

  lemma MissDecidedExactlyWhen(window: nat, start: Time, es: seq<Event>, c: nat, kid: string, r: Readings)
    requires Run(Init(window, start), es) && Enabled(Exec(Init(window, start), es), Enter(c, kid, r))
    requires var h := Past(Init(window, start), es); Fresh(h.latest, r.looked) && Lacks(h.latest.value.set_, kid)
    ensures MissDecided(Exec(Init(window, start), es), Past(Init(window, start), es), c, kid, r)
  {
    RunKeeps(window, start, es);
    KeyForIsTheFirstFiled(Past(Init(window, start), es).latest.value.set_, kid, 0);
    MissFrom(Exec(Init(window, start), es), Past(Init(window, start), es), c, kid, r);
  }

  lemma MissFrom(u: Sys, h: History, c: nat, kid: string, r: Readings)
    requires Inv(u) && Enabled(u, Enter(c, kid, r)) && Fresh(h.latest, r.looked) && Lookup(h.latest, kid).None?
    requires Tallied(u, h) && u.lastAttempt == (if h.starts == [] then None else Some(h.starts[|h.starts| - 1].t))
    ensures MissDecided(u, h, c, kid, r)
  {
    MissTable(u, c, kid, r);
  }

  lemma MissTable(u: Sys, c: nat, kid: string, r: Readings)
    requires Inv(u) && Enabled(u, Enter(c, kid, r)) && Fresh(u.cache, r.looked) && Lookup(u.cache, kid).None?
    ensures var v := Apply(u, Enter(c, kid, r));
            if Pending(u) then
              v.fetches == u.fetches && v.callers[c] == Waiting(kid, |u.fetches| - 1, true) && v.gate == u.gate
            else if Fresh(u.cache, r.judged) && WindowOpen(u.lastAttempt, u.window, r.compared) then
              v.fetches == u.fetches && v.callers[c] == Answered(kid, NoKey)
              && v.gate == (if Fresh(u.cache, r.caught) then Reset(u.gate) else u.gate)
            else
              v.fetches == u.fetches + [Out] && v.callers[c] == Waiting(kid, |u.fetches|, true) && v.gate == u.gate
  {
  }

  // The caller of a fetch that brought a set gets a key exactly when that set has it; one whose refetch was its last
  // chance is told otherwise at once.
  lemma OwnFetchAnswers(window: nat, start: Time, es: seq<Event>, c: nat, r: Readings)
    requires Run(Init(window, start), es) && Enabled(Exec(Init(window, start), es), Resume(c, r))
    ensures var u := Exec(Init(window, start), es);
            var w, v := u.callers[c], Apply(u, Resume(c, r));
            var p := u.fetches[w.fetch];
            && (p.Failed? ==> v.callers[c] == Answered(w.kid, FetchFailed))
            && (p.Brought? ==>
                  && (v.callers[c].Importing? <==> !Lacks(p.ks, w.kid))
                  && (v.callers[c].Importing? ==>
                        v.callers[c].kid == w.kid && Files(p.ks, w.kid, v.callers[c].key))
                  && (Lacks(p.ks, w.kid) && w.last ==> v.callers[c] == Answered(w.kid, NoKey)))
  {
    RunKeeps(window, start, es);
    var u := Exec(Init(window, start), es);
    if u.fetches[u.callers[c].fetch].Brought? {
      assert SeesItsSet(u, c);
      OwnSetIs(u, c, r);
    }
  }

  lemma OwnSetIs(u: Sys, c: nat, r: Readings)
    requires Inv(u) && Enabled(u, Resume(c, r)) && SeesItsSet(u, c) && u.fetches[u.callers[c].fetch].Brought?
    ensures var w, p, told := u.callers[c], u.fetches[u.callers[c].fetch], Apply(u, Resume(c, r)).callers[c];
            && (told.Importing? <==> !Lacks(p.ks, w.kid))
            && (told.Importing? ==> told.kid == w.kid && Files(p.ks, w.kid, told.key))
            && (Lacks(p.ks, w.kid) && w.last ==> told == Answered(w.kid, NoKey))
  {
    var k := KeyFor(u.cache.value.set_, u.callers[c].kid);
    KeyForIsTheFirstFiled(u.cache.value.set_, u.callers[c].kid, if k.Some? then k.value else 0);
  }

  // ---- the backoff counts fetches ----

  // However many callers waited for it, a fetch is counted at most once, and only if it failed; refusals by the window
  // and unknown kids never are.
  lemma AFailureIsCountedOnce(window: nat, start: Time, es: seq<Event>)
    requires Run(Init(window, start), es)
    ensures var u, h := Exec(Init(window, start), es), Past(Init(window, start), es);
            && u.gate.failures <= |h.counted| <= h.failed
            && (forall i :: 0 <= i < |h.counted| ==> FailedAt(u, h.counted[i]))
            && (forall i, j :: 0 <= i < j < |h.counted| ==> h.counted[i] < h.counted[j])
  {
    RunKeeps(window, start, es);
    var u, h := Exec(Init(window, start), es), Past(Init(window, start), es);
    Increasing(h.counted);
    FailuresAreTallied(window, start, es);
    DistinctFailures(h.counted, u.fetches);
  }

  // A fetch that failed without a usable set has been counted, or those who waited for it have yet to take their turns.
  ghost predicate CountedOrAwaited(u: Sys, h: History, f: nat)
  {
    f in h.counted || (f == |u.fetches| - 1 && FailedAt(u, f) && !Fresh(u.cache, u.now) && SomeoneWaits(u))
  }

  lemma AwaitedStep(u: Sys, h: History, e: Event, f: nat)
    requires Inv(u) && Enabled(u, e) && CountKept(u, h) && CountedOrAwaited(u, h, f)
    ensures CountedOrAwaited(Apply(u, e), Note(h, u, e), f)
  {
    if f !in h.counted {
      var c :| c in u.callers && WaitsFor(u.callers[c], |u.fetches| - 1);
      assert MustResume(u, c);
      if e.Return? {
        assert WaitsFor(Apply(u, e).callers[c], |u.fetches| - 1);
      } else if e.Resume? {
        assert u.gate.lastCounted != Some(f);
        assert Note(h, u, e).counted == h.counted + [f];
      }
    }
  }

  lemma AwaitedEnd(u: Sys, h: History, e: Event)
    requires Inv(u) && Enabled(u, e) && IsFailure(e) && !Fresh(u.cache, e.t)
    ensures CountedOrAwaited(Apply(u, e), Note(h, u, e), e.f)
  {
    var c :| c in u.callers && WaitsFor(u.callers[c], |u.fetches| - 1);
    assert WaitsFor(Apply(u, e).callers[c], |u.fetches| - 1);
  }

  lemma {:induction false} UnusableAreCounted(window: nat, start: Time, es: seq<Event>, f: nat)
    requires Run(Init(window, start), es) && f in Past(Init(window, start), es).unusable
    ensures CountedOrAwaited(Exec(Init(window, start), es), Past(Init(window, start), es), f)
  {
    var s, pre, e := Init(window, start), es[..|es| - 1], es[|es| - 1];
    RunKeeps(window, start, pre);
    if f in Past(s, pre).unusable {
      UnusableAreCounted(window, start, pre, f);
      AwaitedStep(Exec(s, pre), Past(s, pre), e, f);
    } else {
      AwaitedEnd(Exec(s, pre), Past(s, pre), e);
    }
  }

  // Nor does a failure go uncounted: once everyone has taken their turn, each fetch that failed with no usable set held
  // is among those counted.
  lemma AFailureIsNotMissed(window: nat, start: Time, es: seq<Event>, f: nat)
    requires Run(Init(window, start), es) && Settled(Exec(Init(window, start), es))
    requires f in Past(Init(window, start), es).unusable
    ensures f in Past(Init(window, start), es).counted
  {
    UnusableAreCounted(window, start, es, f);
    NobodyAwaits(Exec(Init(window, start), es), Past(Init(window, start), es), f);
  }

  lemma NobodyAwaits(u: Sys, h: History, f: nat)
    requires Settled(u) && CountedOrAwaited(u, h, f)
    ensures f in h.counted
  {
    if f !in h.counted {
      var c :| c in u.callers && WaitsFor(u.callers[c], |u.fetches| - 1);
      assert MustResume(u, c);
    }
  }

  lemma {:induction false} Increasing(xs: seq<nat>)
    requires forall i :: 0 < i < |xs| ==> xs[i - 1] < xs[i]
    ensures forall i, j :: 0 <= i < j < |xs| ==> xs[i] < xs[j]
  {
    if xs != [] {
      var pre := xs[..|xs| - 1];
      Increasing(pre);
      forall i, j | 0 <= i < j < |xs| ensures xs[i] < xs[j] {
        if j < |pre| {
          assert pre[i] < pre[j];
        } else if i < j - 1 {
          assert pre[i] < pre[j - 1];
        }
      }
    }
  }

  function Failures(ps: seq<Phase>): nat
  {
    if ps == [] then 0 else Failures(ps[..|ps| - 1]) + (if ps[|ps| - 1].Failed? then 1 else 0)
  }

  lemma {:induction false} FailuresUpdated(ps: seq<Phase>, f: nat, p: Phase)
    requires f < |ps| && ps[f].Out?
    ensures Failures(ps[f := p]) == Failures(ps) + (if p.Failed? then 1 else 0)
  {
    var n := |ps| - 1;
    if f < n {
      FailuresUpdated(ps[..n], f, p);
      assert ps[f := p][..n] == ps[..n][f := p];
    } else {
      assert ps[f := p][..n] == ps[..n];
    }
  }

  predicate IsFailure(e: Event)
  {
    e.End? && e.ks.None?
  }

  lemma FailuresStep(u: Sys, e: Event)
    requires Enabled(u, e)
    ensures Failures(Apply(u, e).fetches) == Failures(u.fetches) + (if IsFailure(e) then 1 else 0)
  {
    match e
    case End(f, ks, t) => FailuresUpdated(u.fetches, f, if ks.Some? then Brought(ks.value) else Failed);
    case _ => assert (u.fetches + [Out])[..|u.fetches|] == u.fetches;
  }

  lemma FailedStep(u: Sys, h: History, e: Event)
    requires Enabled(u, e)
    ensures Note(h, u, e).failed == h.failed + (if IsFailure(e) then 1 else 0)
  {
  }

  lemma {:induction false} FailuresAreTallied(window: nat, start: Time, es: seq<Event>)
    requires Run(Init(window, start), es)
    ensures Failures(Exec(Init(window, start), es).fetches) == Past(Init(window, start), es).failed
  {
    if es != [] {
      var pre, e := es[..|es| - 1], es[|es| - 1];
      FailuresAreTallied(window, start, pre);
      FailuresStep(Exec(Init(window, start), pre), e);
      FailedStep(Exec(Init(window, start), pre), Past(Init(window, start), pre), e);
    }
  }

  lemma {:induction false} DistinctFailures(xs: seq<nat>, ps: seq<Phase>)
    requires forall i, j :: 0 <= i < j < |xs| ==> xs[i] < xs[j]
    requires forall i :: 0 <= i < |xs| ==> xs[i] < |ps| && ps[xs[i]].Failed?
    ensures |xs| <= Failures(ps)
    decreases |ps|
  {
    if xs != [] {
      var n := |ps| - 1;
      if xs[|xs| - 1] == n {
        DistinctFailures(xs[..|xs| - 1], ps[..n]);
      } else {
        DistinctFailures(xs, ps[..n]);
      }
    }
  }

  // ---- the window and the request budget ----

  // A forced refetch keeps a window's distance from the request before it, cold loads and failures included.
  lemma ForcedRefetchesAreApart(window: nat, start: Time, es: seq<Event>)
    requires Run(Init(window, start), es)
    ensures WindowKept(Past(Init(window, start), es).starts, window)
    ensures Spaced(Past(Init(window, start), es).forced, window)
  {
    RunKeeps(window, start, es);
  }

  // However many unknown kids arrive, a span of length T meets at most T / window + 1 forced refetches, outage or not;
  // with no failure it meets at most T / 300 s + 1 cold loads.
  lemma RequestBudget(window: nat, start: Time, es: seq<Event>, from: Time, length: nat)
    requires window > 0 && Run(Init(window, start), es)
    ensures var h := Past(Init(window, start), es);
            && |h.starts| == |h.cold| + |h.forced|
            && CountIn(h.forced, from, length) <= length / window + 1
            && (h.failed == 0 ==> CountIn(h.cold, from, length) <= length / MAX_AGE + 1)
  {
    RunKeeps(window, start, es);
    var h := Past(Init(window, start), es);
    SpanBound(h.forced, window, from, length);
    if h.failed == 0 {
      LoadsFrom(window, start, es);
      SpanBound(h.cold, MAX_AGE, from, length);
    }
  }

  // 5 s after the last counted failure, a lookup with no usable set joins a request or makes one.
  lemma NoLockOut(window: nat, start: Time, es: seq<Event>, c: nat, kid: string, r: Readings)
    requires Run(Init(window, start), es) && Enabled(Exec(Init(window, start), es), Enter(c, kid, r))
    requires var h := Past(Init(window, start), es);
             && !Fresh(h.latest, r.looked)
             && (h.countedAt.Some? ==> r.entered - h.countedAt.value >= 5 * SECOND)
    ensures var v := Apply(Exec(Init(window, start), es), Enter(c, kid, r));
            Pending(v) && v.callers[c] == Waiting(kid, |v.fetches| - 1, false)
  {
    RunKeeps(window, start, es);
    var u := Exec(Init(window, start), es);
    GateOpens(u, Past(Init(window, start), es), r.entered);
    AdmittedColdEntry(u, c, kid, r);
  }

  lemma AdmittedColdEntry(u: Sys, c: nat, kid: string, r: Readings)
    requires Enabled(u, Enter(c, kid, r)) && !BackingOff(u.gate, r.entered) && !Fresh(u.cache, r.looked)
    ensures var v := Apply(u, Enter(c, kid, r));
            Pending(v) && v.callers[c] == Waiting(kid, |v.fetches| - 1, false)
  {
    assert !Fresh(u.cache, r.judged);
  }

  lemma GateOpens(u: Sys, h: History, t: Time)
    requires CountKept(u, h) && ClockIsAhead(u)
    requires h.countedAt.Some? ==> t - h.countedAt.value >= B.CAP
    ensures !BackingOff(u.gate, t)
  {
  }
}
