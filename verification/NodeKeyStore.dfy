/**
 The Node key source: jose keeps the key set and folds concurrent loads into one request; the SDK puts a window on
 forced refetches into the fetch it hands to jose, and a failure backoff around the whole. Neither sees the other's
 state.
 */
module NodeKeyStore {
  import opened Common
  import opened KeySets
  import B = Backoff

  datatype Cached = Cached(set_: KeySet, at: Time)

  predicate Fresh(cache: Option<Cached>, now: Time)
  {
    cache.Some? && now - cache.value.at < MAX_AGE
  }

  function Lookup(cache: Option<Cached>, kid: string): Option<nat>
  {
    if cache.None? then None else KeyFor(cache.value.set_, kid)
  }

  // What jose throws. The failure of a fetch is one object, thrown to everyone who waited for it.
  datatype Error = NoMatchingKey | FetchError(fetch: nat)

  // ---- the window on forced refetches ----

  function WindowOpen(lastAttempt: Option<Time>, window: nat, now: Time): bool
  {
    lastAttempt.Some? && now - lastAttempt.value < window
  }

  class RefetchWindow {
    var lastAttempt: Option<Time>
    const window: nat

    constructor (window: nat)
      ensures lastAttempt.None? && this.window == window
    {
      this.window := window;
      lastAttempt := None;
    }

    // The fetch jose calls, up to the request: refused, or stamped and sent.
    method Attempt(cache: Option<Cached>, judged: Time, compared: Time, stamped: Time) returns (goes: bool)
      modifies this
      ensures goes <==> !(Fresh(cache, judged) && WindowOpen(old(lastAttempt), window, compared))
      ensures lastAttempt == if goes then Some(stamped) else old(lastAttempt)
    {
      var forced := Fresh(cache, judged);
      if forced && lastAttempt.Some? && compared - lastAttempt.value < window {
        return false;
      }
      lastAttempt := Some(stamped);
      goes := true;
    }
  }

  // ---- the failure backoff ----

  datatype Counter = Counter(failures: nat, retryAt: Option<real>, lastCounted: Option<nat>)

  const CLEAN := Counter(0, None, None)

  predicate BackingOff(g: Counter, now: Time)
  {
    g.retryAt.Some? && g.retryAt.value > now as real
  }

  function Reset(g: Counter): Counter
  {
    g.(failures := 0, retryAt := None)
  }

  predicate Counts(g: Counter, usable: bool, e: Error)
  {
    !usable && e.FetchError? && g.lastCounted != Some(e.fetch)
  }

  function Delay(n: nat, jitter: Jitter): real
    requires n >= 1
  {
    B.NodeDelay(n) as real * jitter
  }

  function AfterCatch(g: Counter, usable: bool, e: Error, now: Time, jitter: Jitter): Counter
  {
    if usable then Reset(g)
    else if Counts(g, usable, e) then
      Counter(g.failures + 1, Some(now as real + Delay(g.failures + 1, jitter)), Some(e.fetch))
    else g
  }

  class FailureBackoff {
    var failures: nat
    var retryAt: Option<real>
    var lastCounted: Option<nat>

    ghost function Value(): Counter
      reads this
    {
      Counter(failures, retryAt, lastCounted)
    }

    constructor ()
      ensures Value() == CLEAN
    {
      failures, retryAt, lastCounted := 0, None, None;
    }

    method Remaining(now: Time) returns (left: real)
      ensures left >= 0.0
      ensures left > 0.0 <==> BackingOff(Value(), now)
      ensures left > 0.0 ==> now as real + left == retryAt.value
    {
      if retryAt.None? {
        return 0.0;
      }
      left := retryAt.value - now as real;
      if left < 0.0 {
        left := 0.0;
      }
    }

    method Succeeded()
      modifies this
      ensures Value() == Reset(old(Value()))
    {
      failures, retryAt := 0, None;
    }

    method Caught(usable: bool, e: Error, now: Time, jitter: Jitter)
      modifies this
      ensures Value() == AfterCatch(old(Value()), usable, e, now, jitter)
    {
      if usable {
        failures, retryAt := 0, None;
      } else if e != NoMatchingKey && lastCounted != Some(e.fetch) {
        lastCounted := Some(e.fetch);
        failures := failures + 1;
        retryAt := Some(now as real + Delay(failures, jitter));
      }
    }
  }

  // ---- the system ----

  datatype Phase = Out | Brought(ks: KeySet) | Failed

  datatype Answer = Found(key: nat) | NoKey | InBackoff | FetchFailed

  // Where one lookup stands. Its last chance is the refetch after a kid was missing from the set.
  datatype Caller =
    | Waiting(kid: string, fetch: nat, last: bool)
    | Importing(kid: string, key: nat)
    | Answered(kid: string, answer: Answer)

  // The clock readings of one uninterrupted turn in the order they are taken, and the jitter it may draw: the backoff
  // check, the age check, the age and window checks and the stamp of the fetch, the age check and the stamp of a
  // failure.
  datatype Readings = Readings(
    entered: Time, looked: Time, judged: Time, compared: Time, stamped: Time, caught: Time, counted: Time,
    jitter: Jitter)

  predicate InOrder(r: Readings, now: Time)
  {
    now <= r.entered <= r.looked <= r.judged <= r.compared <= r.stamped <= r.caught <= r.counted
  }

  datatype Event =
    | Enter(c: nat, kid: string, r: Readings)          // a lookup, up to its first wait
    | End(f: nat, ks: Option<KeySet>, t: Time)         // the request succeeds with a set, or fails
    | Resume(c: nat, r: Readings)                      // a waiter takes its turn after that
    | Return(c: nat)                                   // the key has been imported

  datatype Sys = Sys(
    window: nat,
    cache: Option<Cached>,
    lastAttempt: Option<Time>,
    gate: Counter,
    fetches: seq<Phase>,
    callers: map<nat, Caller>,
    now: Time)

  function Init(window: nat, now: Time): Sys
  {
    Sys(window, None, None, CLEAN, [], map[], now)
  }

  // The request that is out, if any: only the latest can be.
  predicate Pending(s: Sys)
  {
    s.fetches != [] && s.fetches[|s.fetches| - 1].Out?
  }

  predicate MustResume(s: Sys, c: nat)
  {
    && c in s.callers && s.callers[c].Waiting?
    && s.callers[c].fetch < |s.fetches| && !s.fetches[s.callers[c].fetch].Out?
  }

  // Nobody still has to take the turn that the end of a fetch gave them.
  ghost predicate Settled(s: Sys)
  {
    forall c :: c in s.callers ==> !MustResume(s, c)
  }

  // Waiters of a fetch run before the event loop takes anything else up.
  ghost predicate Enabled(s: Sys, e: Event)
  {
    match e
    case Enter(c, _, r) => c !in s.callers && Settled(s) && InOrder(r, s.now)
    case End(f, ks, t) =>
      f < |s.fetches| && s.fetches[f].Out? && Settled(s) && s.now <= t && (ks.Some? ==> ks.value != [])
    case Resume(c, r) => MustResume(s, c) && InOrder(r, s.now)
    case Return(c) => c in s.callers && s.callers[c].Importing?
  }

  predicate Sends(s: Sys, r: Readings)
  {
    !Pending(s) && !(Fresh(s.cache, r.judged) && WindowOpen(s.lastAttempt, s.window, r.compared))
  }

  function Throw(s: Sys, c: nat, kid: string, e: Error, r: Readings): Sys
  {
    s.(gate := AfterCatch(s.gate, Fresh(s.cache, r.caught), e, r.counted, r.jitter),
       callers := s.callers[c := Answered(kid, if e.NoMatchingKey? then NoKey else FetchFailed)])
  }

  // jose's reload: join the request that is out, or make one if the window lets it.
  function Reload(s: Sys, c: nat, kid: string, last: bool, r: Readings): Sys
  {
    if Pending(s) then s.(callers := s.callers[c := Waiting(kid, |s.fetches| - 1, last)])
    else if Sends(s, r) then
      s.(lastAttempt := Some(r.stamped),
         fetches := s.fetches + [Out],
         callers := s.callers[c := Waiting(kid, |s.fetches|, last)])
    else Throw(s, c, kid, NoMatchingKey, r)
  }

  function Import(s: Sys, c: nat, kid: string): Sys
    requires Lookup(s.cache, kid).Some?
  {
    s.(callers := s.callers[c := Importing(kid, Lookup(s.cache, kid).value)])
  }

  // The turns that end in a reload.
  predicate Reloads(s: Sys, e: Event)
  {
    match e
    case Enter(_, kid, r) =>
      !BackingOff(s.gate, r.entered) && (!Fresh(s.cache, r.looked) || Lookup(s.cache, kid).None?)
    case Resume(c, _) =>
      && MustResume(s, c) && s.fetches[s.callers[c].fetch].Brought?
      && Lookup(s.cache, s.callers[c].kid).None? && !s.callers[c].last
    case _ => false
  }

  function Apply(s: Sys, e: Event): Sys
    requires Enabled(s, e)
  {
    match e
    case Enter(c, kid, r) =>
      var s' := s.(now := r.counted);
      if BackingOff(s.gate, r.entered) then s'.(callers := s.callers[c := Answered(kid, InBackoff)])
      else if Reloads(s, e) then Reload(s', c, kid, Fresh(s.cache, r.looked), r)
      else Import(s', c, kid)
    case End(f, ks, t) =>
      s.(cache := if ks.Some? then Some(Cached(ks.value, t)) else s.cache,
         fetches := s.fetches[f := if ks.Some? then Brought(ks.value) else Failed],
         now := t)
    case Resume(c, r) =>
      var w, s' := s.callers[c], s.(now := r.counted);
      if s.fetches[w.fetch].Failed? then Throw(s', c, w.kid, FetchError(w.fetch), r)
      else if Lookup(s.cache, w.kid).Some? then Import(s', c, w.kid)
      else if Reloads(s, e) then Reload(s', c, w.kid, true, r)
      else Throw(s', c, w.kid, NoMatchingKey, r)
    case Return(c) =>
      var w := s.callers[c];
      s.(gate := Reset(s.gate), callers := s.callers[c := Answered(w.kid, Found(w.key))])
  }

  ghost predicate Run(s: Sys, es: seq<Event>)
  {
    es == [] || (Run(s, es[..|es| - 1]) && Enabled(Exec(s, es[..|es| - 1]), es[|es| - 1]))
  }

  ghost function Exec(s: Sys, es: seq<Event>): Sys
  {
    if es == [] then s
    else
      var u := Exec(s, es[..|es| - 1]);
      if Enabled(u, es[|es| - 1]) then Apply(u, es[|es| - 1]) else u
  }

  // ---- what every step keeps ----

  // A waiter waits for the latest fetch, or has yet to see the one before it succeed.
  predicate WaitsInPlace(s: Sys, f: nat)
  {
    || f == |s.fetches| - 1
    || (f == |s.fetches| - 2 && s.fetches[f].Brought? && Pending(s))
  }

  // Only the latest fetch can be out, someone waits for it, and what has been counted is a fetch that failed.
  ghost predicate OneFetch(s: Sys)
  {
    && (forall f :: 0 <= f < |s.fetches| - 1 ==> !s.fetches[f].Out?)
    && (forall c :: c in s.callers && s.callers[c].Waiting? ==> WaitsInPlace(s, s.callers[c].fetch))
    && (Pending(s) ==> SomeoneWaits(s))
    && (s.gate.lastCounted.Some? ==>
          s.gate.lastCounted.value < |s.fetches| && s.fetches[s.gate.lastCounted.value].Failed?)
  }

  predicate WaitsFor(w: Caller, f: int)
  {
    w.Waiting? && w.fetch == f
  }

  ghost predicate SomeoneWaits(s: Sys)
  {
    exists c :: c in s.callers && WaitsFor(s.callers[c], |s.fetches| - 1)
  }

  // A waiter of a fetch that brought a set finds that set.
  predicate SeesItsSet(s: Sys, c: nat)
    requires MustResume(s, c)
  {
    var p := s.fetches[s.callers[c].fetch];
    p.Brought? ==> s.cache.Some? && s.cache.value.set_ == p.ks
  }

  ghost predicate WaitersSeeTheirSet(s: Sys)
  {
    forall c :: MustResume(s, c) ==> SeesItsSet(s, c)
  }

  ghost predicate ClockIsAhead(s: Sys)
  {
    && (s.cache.Some? ==> s.cache.value.at <= s.now)
    && (s.lastAttempt.Some? ==> s.lastAttempt.value <= s.now)
    && (s.gate.retryAt.Some? ==> s.gate.retryAt.value <= (s.now + B.CAP) as real)
    && (s.gate.retryAt.Some? <==> s.gate.failures > 0)
  }

  // A backoff that is still running: no usable set, nothing out, and nobody waiting except for a fetch that failed.
  ghost predicate BackoffMeansCold(s: Sys)
  {
    BackingOff(s.gate, s.now) ==>
      && !Fresh(s.cache, s.now)
      && !Pending(s)
      && (forall c :: c in s.callers && s.callers[c].Waiting? ==>
            MustResume(s, c) && s.fetches[s.callers[c].fetch].Failed?)
  }

  predicate NoEmptySet(s: Sys)
  {
    s.cache.Some? ==> s.cache.value.set_ != []
  }

  ghost predicate Inv(s: Sys)
  {
    NoEmptySet(s) && OneFetch(s) && WaitersSeeTheirSet(s) && ClockIsAhead(s) && BackoffMeansCold(s)
  }

  lemma DelayBounds(n: nat, jitter: Jitter)
    requires n >= 1
    ensures (B.Schedule(n) / 2) as real <= Delay(n, jitter) < B.Schedule(n) as real
  {
    B.NodeDelayIs(n);
    var half := if B.Doubled(n - 1) < B.CAP then 100_000_000 * Pow2(n - 1) else 2_500_000_000;
    assert B.NodeDelay(n) == B.Schedule(n) == 2 * half;
    var p := B.HalfToWhole(B.Schedule(n) as real, half as real, jitter);
    assert Delay(n, jitter) == p && B.Schedule(n) / 2 == half;
  }

  lemma SomeoneStillWaits(s: Sys, e: Event)
    requires Inv(s) && Enabled(s, e) && !e.End? && Pending(s)
    ensures SomeoneWaits(Apply(s, e))
  {
    var c :| c in s.callers && WaitsFor(s.callers[c], |s.fetches| - 1);
    var v := Apply(s, e);
    assert v.fetches == s.fetches;
    assert c in v.callers && WaitsFor(v.callers[c], |v.fetches| - 1);
  }

  lemma SenderWaits(s: Sys, e: Event)
    requires Inv(s) && Enabled(s, e) && !Pending(s) && Pending(Apply(s, e))
    ensures SomeoneWaits(Apply(s, e))
  {
    var v := Apply(s, e);
    assert e.Enter? || e.Resume?;
    assert WaitsFor(v.callers[e.c], |v.fetches| - 1);
  }

  lemma FetchesStep(s: Sys, e: Event)
    requires Inv(s) && Enabled(s, e)
    ensures forall c :: c in Apply(s, e).callers && Apply(s, e).callers[c].Waiting? ==>
              WaitsInPlace(Apply(s, e), Apply(s, e).callers[c].fetch)
    ensures forall f :: 0 <= f < |Apply(s, e).fetches| - 1 ==> !Apply(s, e).fetches[f].Out?
  {
  }

  lemma OneFetchStep(s: Sys, e: Event)
    requires Inv(s) && Enabled(s, e)
    ensures OneFetch(Apply(s, e))
  {
    FetchesStep(s, e);
    if Pending(Apply(s, e)) {
      if Pending(s) { SomeoneStillWaits(s, e); } else { SenderWaits(s, e); }
    }
  }

  lemma CatchKeepsClock(g: Counter, usable: bool, e: Error, r: Readings, now: Time)
    requires g.retryAt.Some? ==> g.retryAt.value <= (now + B.CAP) as real
    requires InOrder(r, now) && (g.retryAt.Some? <==> g.failures > 0)
    ensures var g' := AfterCatch(g, usable, e, r.counted, r.jitter);
            && (g'.retryAt.Some? ==> g'.retryAt.value <= (r.counted + B.CAP) as real)
            && (g'.retryAt.Some? <==> g'.failures > 0)
  {
    DelayBounds(g.failures + 1, r.jitter);
  }

  lemma ClockStep(s: Sys, e: Event)
    requires Inv(s) && Enabled(s, e)
    ensures ClockIsAhead(Apply(s, e))
  {
    match e
    case Enter(c, kid, r) => ClockEnter(s, c, kid, r);
    case Resume(c, r) => ClockResume(s, c, r);
    case _ =>
  }

  lemma ClockEnter(s: Sys, c: nat, kid: string, r: Readings)
    requires Inv(s) && Enabled(s, Enter(c, kid, r))
    ensures ClockIsAhead(Apply(s, Enter(c, kid, r)))
  {
    CatchKeepsClock(s.gate, Fresh(s.cache, r.caught), NoMatchingKey, r, s.now);
  }

  lemma ClockResume(s: Sys, c: nat, r: Readings)
    requires Inv(s) && Enabled(s, Resume(c, r))
    ensures ClockIsAhead(Apply(s, Resume(c, r)))
  {
    var failed := s.fetches[s.callers[c].fetch].Failed?;
    var e := if failed then FetchError(s.callers[c].fetch) else NoMatchingKey;
    CatchKeepsClock(s.gate, Fresh(s.cache, r.caught), e, r, s.now);
  }

  lemma BackoffStep(s: Sys, e: Event)
    requires Inv(s) && Enabled(s, e)
    ensures BackoffMeansCold(Apply(s, e))
  {
  }

  lemma WaiterSeesItsSet(s: Sys, e: Event, c: nat)
    requires Inv(s) && Enabled(s, e) && MustResume(Apply(s, e), c)
    ensures SeesItsSet(Apply(s, e), c)
  {
    if !e.End? {
      assert MustResume(s, c);
    }
  }

  lemma WaitersStep(s: Sys, e: Event)
    requires Inv(s) && Enabled(s, e)
    ensures WaitersSeeTheirSet(Apply(s, e))
  {
    forall c | MustResume(Apply(s, e), c) ensures SeesItsSet(Apply(s, e), c) {
      WaiterSeesItsSet(s, e, c);
    }
  }

  lemma InvStep(s: Sys, e: Event)
    requires Inv(s) && Enabled(s, e)
    ensures Inv(Apply(s, e))
  {
    OneFetchStep(s, e);
    ClockStep(s, e);
    BackoffStep(s, e);
    WaitersStep(s, e);
  }

  lemma {:induction false} RunKeepsInv(s: Sys, es: seq<Event>)
    requires Inv(s) && Run(s, es)
    ensures Inv(Exec(s, es)) && Exec(s, es).window == s.window
  {
    if es != [] {
      RunKeepsInv(s, es[..|es| - 1]);
      InvStep(Exec(s, es[..|es| - 1]), es[|es| - 1]);
    }
  }
}
