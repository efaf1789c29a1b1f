/**
 Whole runs of the Go key store: callers that look a kid up, decide, wait, give up and look again; fetches that
 install, record and close in three separate steps; one clock that never goes back. Every interleaving of these
 atomic steps is a run.
 */
module GoKeyStoreRuns {
  import opened Common
  import opened KeySets
  import opened GoKeyStore
  import B = Backoff

  // A fetch: still out, installed but not recorded, recorded but not announced, announced to its waiters.
  datatype Phase = Fetching | Installed | Recorded(ok: bool) | Closed(ok: bool)

  datatype Answer = Found(key: nat) | NoKey | Limited | InBackoff | FetchFailed | Abandoned

  // Where one call of the resolver stands.
  datatype Caller =
    | Missed(kid: string)
    | Waiting(kid: string, flight: nat)
    | Relooking(kid: string)
    | Answered(kid: string, answer: Answer)

  datatype Event =
    | Call(c: nat, kid: string, t: Time)        // the first lookup
    | Abandon(c: nat)                           // the context had ended before anything was started
    | Decide(c: nat, t: Time)                   // the decision under one lock
    | WaitEnds(c: nat)                          // the flight's outcome reaches a waiter
    | GiveUp(c: nat)                            // a waiter's context ends first
    | Relook(c: nat, t: Time)                   // the lookup after the wait
    | Install(f: nat, t: Time, ks: KeySet)      // a fetch brought a key set
    | Record(f: nat, t: Time, jitter: Jitter)   // its outcome is recorded; nothing installed means it failed
    | Close(f: nat)                             // its waiters are told

  datatype Sys = Sys(window: Window, store: Store, flights: seq<Phase>, callers: map<nat, Caller>, now: Time)

  function Init(window: Window, now: Time): Sys
  {
    Sys(window, EMPTY, [], map[], now)
  }

  predicate At(s: Sys, f: nat, phases: set<Phase>)
  {
    f < |s.flights| && s.flights[f] in phases
  }

  const UNRECORDED := {Fetching, Installed}
  const CLOSED := {Closed(true), Closed(false)}

  predicate Enabled(s: Sys, e: Event)
  {
    match e
    case Call(c, _, t) => c !in s.callers && s.now <= t
    case Abandon(c) => c in s.callers && s.callers[c].Missed?
    case Decide(c, t) => c in s.callers && s.callers[c].Missed? && s.now <= t
    case WaitEnds(c) => c in s.callers && s.callers[c].Waiting? && At(s, s.callers[c].flight, CLOSED)
    case GiveUp(c) => c in s.callers && s.callers[c].Waiting? && !At(s, s.callers[c].flight, CLOSED)
    case Relook(c, t) => c in s.callers && s.callers[c].Relooking? && s.now <= t
    case Install(f, t, ks) => At(s, f, {Fetching}) && ks != [] && s.now <= t
    case Record(f, t, _) => At(s, f, UNRECORDED) && s.now <= t
    case Close(f) => At(s, f, {Recorded(true), Recorded(false)})
  }

  function Told(kid: string, d: Decision): Caller
  {
    match d
    case Cached => Relooking(kid)
    case Joined(f) => Waiting(kid, f)
    case Started(f, _) => Waiting(kid, f)
    case RateLimited => Answered(kid, Limited)
    case BackingOff => Answered(kid, InBackoff)
  }

  function Apply(s: Sys, e: Event): Sys
    requires Enabled(s, e)
  {
    match e
    case Call(c, kid, t) =>
      var k := Lookup(s.store, kid, t);
      s.(callers := s.callers[c := if k.Some? then Answered(kid, Found(k.value)) else Missed(kid)], now := t)
    case Abandon(c) => s.(callers := s.callers[c := Answered(s.callers[c].kid, Abandoned)])
    case Decide(c, t) =>
      var kid := s.callers[c].kid;
      var d := DecisionAt(s, c, t);
      s.(store := AfterDecide(s.store, d, t),
         flights := if d.Started? then s.flights + [Fetching] else s.flights,
         callers := s.callers[c := Told(kid, d)],
         now := t)
    case WaitEnds(c) =>
      var w := s.callers[c];
      s.(callers := s.callers[c := if s.flights[w.flight].ok then Relooking(w.kid) else Answered(w.kid, FetchFailed)])
    case GiveUp(c) => s.(callers := s.callers[c := Answered(s.callers[c].kid, Abandoned)])
    case Relook(c, t) =>
      var kid := s.callers[c].kid;
      var k := Lookup(s.store, kid, t);
      s.(callers := s.callers[c := Answered(kid, if k.Some? then Found(k.value) else NoKey)], now := t)
    case Install(f, t, ks) =>
      s.(store := AfterInstall(s.store, ks, t), flights := s.flights[f := Installed], now := t)
    case Record(f, t, jitter) =>
      var ok := s.flights[f].Installed?;
      s.(store := AfterRecord(s.store, ok, t, jitter), flights := s.flights[f := Recorded(ok)], now := t)
    case Close(f) => s.(flights := s.flights[f := Closed(s.flights[f].ok)])
  }

  function DecisionAt(s: Sys, c: nat, t: Time): Decision
    requires c in s.callers && s.callers[c].Missed?
  {
    GoKeyStore.Decide(s.store, s.window, s.callers[c].kid, t)
  }

  // ---- runs ----

  predicate Run(s: Sys, es: seq<Event>)
  {
    es == [] || (Run(s, es[..|es| - 1]) && Enabled(Exec(s, es[..|es| - 1]), es[|es| - 1]))
  }

  // The state a run ends in.
  function Exec(s: Sys, es: seq<Event>): Sys
  {
    if es == [] then s
    else
      var u := Exec(s, es[..|es| - 1]);
      if Enabled(u, es[|es| - 1]) then Apply(u, es[|es| - 1]) else u
  }

  // ---- what every step keeps ----

  ghost predicate SingleFlight(s: Sys)
  {
    && s.store.started == |s.flights|
    && (s.store.flight.Some? ==> At(s, s.store.flight.value, UNRECORDED))
    && (forall f :: 0 <= f < |s.flights| && s.flights[f] in UNRECORDED ==> s.store.flight == Some(f))
  }

  ghost predicate ClockIsAhead(s: Sys)
  {
    && (s.store.jwks.Some? ==> s.store.loadedAt <= s.now)
    && (s.store.forcedAt.Some? ==> s.store.forcedAt.value <= s.now)
    && (s.store.lastFailure.Some? ==> s.store.lastFailure.value <= s.now)
  }

  ghost predicate WindowMatchesCount(s: Store)
  {
    && (s.lastFailure.Some? <==> s.failures > 0)
    && (s.failures == 0 ==> s.backoff == 0)
    && (s.failures > 0 ==> B.GoDelay(s.failures) / 2 <= s.backoff < B.GoDelay(s.failures) <= B.CAP)
  }

  predicate Installing(s: Sys)
  {
    s.store.flight.Some? && At(s, s.store.flight.value, {Installed})
  }

  // Before the first forced refetch, a failure or a fetch that has installed nothing means there is no usable set.
  ghost predicate ColdUntilForced(s: Sys)
  {
    s.store.forcedAt.None? && (s.store.failures > 0 || s.store.flight.Some?) && !Installing(s) ==>
      !Fresh(s.store, s.now)
  }

  ghost predicate FlightsKnown(s: Sys)
  {
    forall c :: c in s.callers && s.callers[c].Waiting? ==> s.callers[c].flight < |s.flights|
  }

  ghost predicate Inv(s: Sys)
  {
    SingleFlight(s) && ClockIsAhead(s) && WindowMatchesCount(s.store) && ColdUntilForced(s) && FlightsKnown(s)
  }

  lemma InvStep(s: Sys, e: Event)
    requires Inv(s) && Enabled(s, e)
    ensures Inv(Apply(s, e))
  {
    match e
    case Decide(c, t) =>
      DecideKeepsInv(s, c, t);
    case Record(f, t, jitter) =>
      RecordKeepsInv(s, f, t, jitter);
    case _ =>
  }

  lemma RecordKeepsInv(s: Sys, f: nat, t: Time, jitter: Jitter)
    requires Inv(s) && Enabled(s, Record(f, t, jitter))
    ensures Inv(Apply(s, Record(f, t, jitter)))
  {
    B.GoWindowBounds(s.store.failures + 1, jitter);
  }

  lemma DecideKeepsInv(s: Sys, c: nat, t: Time)
    requires Inv(s) && Enabled(s, Decide(c, t))
    ensures Inv(Apply(s, Decide(c, t)))
  {
    var d := DecisionAt(s, c, t);
    var s' := Apply(s, Decide(c, t));
    if d.Started? {
      assert s'.flights[|s.flights|] == Fetching;
    }
  }

  lemma {:induction false} RunKeepsInv(s: Sys, es: seq<Event>)
    requires Inv(s) && Run(s, es)
    ensures Inv(Exec(s, es)) && Exec(s, es).window == s.window
  {
    if es != [] {
      RunKeepsInv(s, es[..|es| - 1]);
      InvStep(Exec(s, es[..|es| - 1]), es[|es| - 1]);
    }
  }

  // Every reachable state.
  lemma ReachableInv(window: Window, start: Time, es: seq<Event>)
    requires Run(Init(window, start), es)
    ensures Inv(Exec(Init(window, start), es)) && Exec(Init(window, start), es).window == window
  {
    RunKeepsInv(Init(window, start), es);
  }
}
