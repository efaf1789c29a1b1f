/**
 The Go key store: the cached key set and every gate on fetching it again, as one object whose methods are the
 regions the source runs under its mutex. Each method is specified by a function on the store's value.
 */
module GoKeyStore {
  import opened Common
  import opened KeySets
  import opened Backoff

  // The forced-refetch window. The configuration never lets it be zero or negative.
  type Window = w: int | w > 0 witness 1

  /** The value of the store. Flights are numbered in the order they start; the number stands for the pointer. */
  datatype Store = Store(
    jwks: Option<KeySet>,
    loadedAt: Time,
    forcedAt: Option<Time>,
    failures: nat,
    lastFailure: Option<Time>,
    backoff: int,
    flight: Option<nat>,
    started: nat)

  const EMPTY := Store(None, 0, None, 0, None, 0, None, 0)

  predicate Fresh(s: Store, now: Time)
  {
    s.jwks.Some? && now - s.loadedAt < MAX_AGE
  }

  function Lookup(s: Store, kid: string, now: Time): Option<nat>
  {
    if Fresh(s, now) then KeyFor(s.jwks.value, kid) else None
  }

  function Remaining(s: Store, now: Time): int
  {
    if s.lastFailure.None? then 0 else Max(s.backoff - (now - s.lastFailure.value), 0)
  }

  // What a miss is told: the key is there by now, wait for a flight, or go away.
  datatype Decision =
    | Cached
    | Joined(flight: nat)
    | Started(flight: nat, forced: bool)
    | RateLimited
    | BackingOff

  function Decide(s: Store, window: Window, kid: string, now: Time): Decision
  {
    if Lookup(s, kid, now).Some? then Cached
    else if s.flight.Some? then Joined(s.flight.value)
    else if Fresh(s, now) && s.forcedAt.Some? && now - s.forcedAt.value < window then RateLimited
    else if Remaining(s, now) > 0 then BackingOff
    else Started(s.started, Fresh(s, now))
  }

  function AfterDecide(s: Store, d: Decision, now: Time): Store
  {
    match d
    case Started(f, forced) =>
      s.(flight := Some(f), started := f + 1, forcedAt := if forced then Some(now) else s.forcedAt)
    case _ => s
  }

  function AfterInstall(s: Store, ks: KeySet, now: Time): Store
  {
    s.(jwks := Some(ks), loadedAt := now)
  }

  function AfterRecord(s: Store, ok: bool, now: Time, jitter: Jitter): Store
  {
    if ok then s.(failures := 0, lastFailure := None, backoff := 0, flight := None)
    else
      var n := s.failures + 1;
      s.(failures := n, lastFailure := Some(now), backoff := Jittered(GoDelay(n), jitter), flight := None)
  }

  /** The store itself. The mutex is not modelled as an object: each method is one critical section. */
  class JwksState {
    var jwks: Option<KeySet>
    var loadedAt: Time
    var forcedAt: Option<Time>
    var failures: nat
    var lastFailure: Option<Time>
    var backoff: int
    var flight: Option<nat>
    var started: nat
    const window: Window

    ghost function Value(): Store
      reads this
    {
      Store(jwks, loadedAt, forcedAt, failures, lastFailure, backoff, flight, started)
    }

    constructor (window: Window)
      ensures Value() == EMPTY && this.window == window
    {
      this.window := window;
      jwks, loadedAt, forcedAt := None, 0, None;
      failures, lastFailure, backoff := 0, None, 0;
      flight, started := None, 0;
    }

    predicate FreshLocked(now: Time)
      reads this
      ensures FreshLocked(now) == Fresh(Value(), now)
    {
      jwks.Some? && now - loadedAt < MAX_AGE
    }

    method LookUp(kid: string, now: Time) returns (key: Option<nat>)
      ensures key == Lookup(Value(), kid, now)
      ensures key.Some? ==> Fresh(Value(), now) && Files(jwks.value, kid, key.value)
      ensures key.None? ==> !Fresh(Value(), now) || Lacks(jwks.value, kid)
    {
      if !FreshLocked(now) {
        return None;
      }
      key := KeyFor(jwks.value, kid);
      KeyForIsTheFirstFiled(jwks.value, kid, if key.Some? then key.value else 0);
    }

    method BackoffRemaining(now: Time) returns (r: int)
      ensures r == Remaining(Value(), now)
    {
      if lastFailure.None? {
        return 0;
      }
      r := backoff - (now - lastFailure.value);
      if r <= 0 {
        r := 0;
      }
    }

    // Starts a fetch unless the failure backoff forbids it. The caller has found no fetch in flight.
    method StartFetchLocked(now: Time) returns (f: Option<nat>)
      requires flight.None?
      modifies this`flight, this`started
      ensures old(Remaining(Value(), now)) > 0 ==> f.None? && Value() == old(Value())
      ensures old(Remaining(Value(), now)) <= 0 ==>
                f == Some(old(started)) && Value() == old(Value()).(flight := f, started := old(started) + 1)
    {
      var r := BackoffRemaining(now);
      if r > 0 {
        return None;
      }
      f := Some(started);
      flight := f;
      started := started + 1;
    }

    method FetchFor(kid: string, now: Time) returns (d: Decision)
      modifies this
      ensures d == Decide(old(Value()), window, kid, now)
      ensures Value() == AfterDecide(old(Value()), d, now)
    {
      var usable := FreshLocked(now);
      if usable && KeyFor(jwks.value, kid).Some? {
        return Cached;
      }
      if flight.Some? {
        return Joined(flight.value);
      }
      if !usable {
        var cold := StartFetchLocked(now);
        return if cold.Some? then Started(cold.value, false) else BackingOff;
      }
      if forcedAt.Some? && now - forcedAt.value < window {
        return RateLimited;
      }
      var f := StartFetchLocked(now);
      if f.None? {
        return BackingOff;
      }
      forcedAt := Some(now);
      d := Started(f.value, true);
    }

    // The end of a fetch that brought a key set.
    method Install(ks: KeySet, now: Time)
      modifies this`jwks, this`loadedAt
      ensures Value() == AfterInstall(old(Value()), ks, now)
    {
      jwks, loadedAt := Some(ks), now;
    }

    method BackoffDelay(jitter: Jitter) returns (w: int)
      ensures w == Jittered(GoDelay(failures), jitter)
    {
      var shift := Wrap64(failures - 1);
      if shift < 0 {
        shift := 0;
      }
      if shift > 62 {
        shift := 62;
      }
      var d := Wrap64(Doubled(shift));
      if d > CAP || d <= 0 {
        d := CAP;
      }
      w := Jittered(d, jitter);
    }

    // The outcome of a fetch, recorded in a second critical section.
    method RecordFetch(ok: bool, now: Time, jitter: Jitter)
      modifies this`failures, this`lastFailure, this`backoff, this`flight
      ensures Value() == AfterRecord(old(Value()), ok, now, jitter)
    {
      if !ok {
        failures := failures + 1;
        lastFailure := Some(now);
        backoff := BackoffDelay(jitter);
      } else {
        failures := 0;
        lastFailure := None;
        backoff := 0;
      }
      flight := None;
    }
  }
}
