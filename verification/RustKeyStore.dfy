/**
 The Rust key store: a second design of the same rules. One owned gate guards both the window and the backoff; a fetch
 takes the gate with it into a task of its own and gives it back once its outcome is recorded.
 */
module RustKeyStore {
  import opened Common
  import opened KeySets
  import B = Backoff

  const U32_MAX := 0xFFFF_FFFF

  datatype Cached = Cached(set_: KeySet, loadedAt: Time)

  // The value of the gate.
  datatype GateValue = GateValue(lastRefetch: Option<Time>, failures: nat, lastFailure: Option<Time>, backoff: int)

  const OPEN := GateValue(None, 0, None, 0)

  function Since(now: Time, then_: Time): int { Max(now - then_, 0) }

  function FreshSet(cache: Option<Cached>, now: Time): Option<KeySet>
  {
    if cache.Some? && Since(now, cache.value.loadedAt) < MAX_AGE then Some(cache.value.set_) else None
  }

  function Lookup(cache: Option<Cached>, kid: string, now: Time): Option<nat>
  {
    var ks := FreshSet(cache, now);
    if ks.None? then None else KeyFor(ks.value, kid)
  }

  function Remaining(g: GateValue, now: Time): int
  {
    if g.lastFailure.None? then 0 else Max(g.backoff - Since(now, g.lastFailure.value), 0)
  }

  // The four clock readings of one pass through the gate: the age check, the window check, the stamp, the backoff
  // check.
  datatype Readings = Readings(looked: Time, compared: Time, stamped: Time, checked: Time)

  predicate InOrder(r: Readings, now: Time)
  {
    now <= r.looked <= r.compared <= r.stamped <= r.checked
  }

  datatype Verdict = Hit(key: nat) | RateLimited | BackingOff | Fetch

  predicate WindowOpen(g: GateValue, minRefetch: nat, now: Time)
  {
    g.lastRefetch.Some? && Since(now, g.lastRefetch.value) < minRefetch
  }

  // A miss against a usable set that has passed the window check: the reading that stamps the window.
  predicate Stamps(g: GateValue, cache: Option<Cached>, minRefetch: nat, kid: string, r: Readings)
  {
    FreshSet(cache, r.looked).Some? && Lookup(cache, kid, r.looked).None? && !WindowOpen(g, minRefetch, r.compared)
  }

  function Admit(g: GateValue, cache: Option<Cached>, minRefetch: nat, kid: string, r: Readings): Verdict
  {
    var hit := Lookup(cache, kid, r.looked);
    if hit.Some? then Hit(hit.value)
    else if FreshSet(cache, r.looked).Some? && WindowOpen(g, minRefetch, r.compared) then RateLimited
    else if Remaining(g, r.checked) > 0 then BackingOff
    else Fetch
  }

  function AfterAdmit(g: GateValue, cache: Option<Cached>, minRefetch: nat, kid: string, r: Readings): GateValue
  {
    if Stamps(g, cache, minRefetch, kid, r) then g.(lastRefetch := Some(r.stamped)) else g
  }

  function AfterFailure(g: GateValue, now: Time, jitter: Jitter): GateValue
  {
    var n := Min(g.failures + 1, U32_MAX);
    g.(failures := n, lastFailure := Some(now), backoff := B.JitteredNearest(B.RustDelay(n), jitter))
  }

  function AfterSuccess(g: GateValue): GateValue
  {
    g.(failures := 0, lastFailure := None, backoff := 0)
  }

  class Gate {
    var lastRefetch: Option<Time>
    var failures: nat
    var lastFailure: Option<Time>
    var backoff: int

    ghost function Value(): GateValue
      reads this
    {
      GateValue(lastRefetch, failures, lastFailure, backoff)
    }

    constructor ()
      ensures Value() == OPEN
    {
      lastRefetch, failures, lastFailure, backoff := None, 0, None, 0;
    }

    function BackoffRemaining(now: Time): (left: int)
      reads this
      ensures left == Remaining(Value(), now)
    {
      if lastFailure.None? then 0 else Max(backoff - Since(now, lastFailure.value), 0)
    }

    // The part of a lookup that runs under the gate, up to the point where the fetch is spawned.
    method Pass(cache: Option<Cached>, minRefetch: nat, kid: string, r: Readings) returns (v: Verdict)
      modifies this`lastRefetch
      ensures v == Admit(old(Value()), cache, minRefetch, kid, r)
      ensures Value() == AfterAdmit(old(Value()), cache, minRefetch, kid, r)
    {
      var usable := FreshSet(cache, r.looked);
      if usable.Some? && KeyFor(usable.value, kid).Some? {
        return Hit(KeyFor(usable.value, kid).value);
      }
      var cold := usable.None?;
      if !cold {
        if lastRefetch.Some? && Since(r.compared, lastRefetch.value) < minRefetch {
          return RateLimited;
        }
        lastRefetch := Some(r.stamped);
      }
      var left := BackoffRemaining(r.checked);
      if left != 0 {
        return BackingOff;
      }
      v := Fetch;
    }

    method RecordFailure(now: Time, jitter: Jitter)
      modifies this`failures, this`lastFailure, this`backoff
      ensures Value() == AfterFailure(old(Value()), now, jitter)
    {
      failures := if failures < U32_MAX then failures + 1 else U32_MAX;
      lastFailure := Some(now);
      backoff := B.JitteredNearest(B.RustDelay(failures), jitter);
    }

    method RecordSuccess()
      modifies this`failures, this`lastFailure, this`backoff
      ensures Value() == AfterSuccess(old(Value()))
    {
      failures, lastFailure, backoff := 0, None, 0;
    }
  }

  // ---- the system ----

  // A fetch task: still out, its set stamped with its age but not written, written, finished with what it brought.
  datatype Phase = Fetching | Stamped(ks: KeySet, at: Time) | Written(ks: KeySet) | Finished(brought: Option<KeySet>)

  datatype Answer = Found(key: nat) | UnknownKid | Limited | InBackoff | FetchFailed

  datatype Caller =
    | Missed(kid: string)
    | Waiting(kid: string, task: nat)
    | Answered(kid: string, answer: Answer)
    | Dropped

  datatype Event =
    | Call(c: nat, kid: string, t: Time)         // the lookup outside the gate
    | Pass(c: nat, r: Readings)                  // a turn with the gate
    | Deliver(c: nat)                            // the caller that spawned the fetch gets its result
    | Drop(c: nat)                               // the caller's future is dropped
    | Stamp(f: nat, t: Time, ks: KeySet)         // the fetch succeeded; its age starts
    | Write(f: nat)                              // the cache lock was granted
    | Finish(f: nat, t: Time, jitter: Jitter)    // the outcome is recorded and the gate given back

  // holder is the fetch task that owns the gate.
  datatype Sys = Sys(
    minRefetch: nat,
    cache: Option<Cached>,
    gate: GateValue,
    holder: Option<nat>,
    tasks: seq<Phase>,
    callers: map<nat, Caller>,
    now: Time)

  function Init(minRefetch: nat, now: Time): Sys
  {
    Sys(minRefetch, None, OPEN, None, [], map[], now)
  }

  predicate Enabled(s: Sys, e: Event)
  {
    match e
    case Call(c, _, _) => c !in s.callers
    case Pass(c, r) => c in s.callers && s.callers[c].Missed? && s.holder.None? && InOrder(r, s.now)
    case Deliver(c) =>
      c in s.callers && s.callers[c].Waiting? && s.callers[c].task < |s.tasks| && s.tasks[s.callers[c].task].Finished?
    case Drop(c) => c in s.callers && (s.callers[c].Missed? || s.callers[c].Waiting?)
    case Stamp(f, t, ks) => f < |s.tasks| && s.tasks[f].Fetching? && ks != [] && s.now <= t
    case Write(f) => f < |s.tasks| && s.tasks[f].Stamped?
    case Finish(f, t, _) => f < |s.tasks| && (s.tasks[f].Fetching? || s.tasks[f].Written?) && s.now <= t
  }

  function VerdictAt(s: Sys, c: nat, r: Readings): Verdict
    requires c in s.callers && s.callers[c].Missed?
  {
    Admit(s.gate, s.cache, s.minRefetch, s.callers[c].kid, r)
  }

  predicate StampsAt(s: Sys, c: nat, r: Readings)
    requires c in s.callers && s.callers[c].Missed?
  {
    Stamps(s.gate, s.cache, s.minRefetch, s.callers[c].kid, r)
  }

  function Told(kid: string, v: Verdict, task: nat): Caller
  {
    match v
    case Hit(key) => Answered(kid, Found(key))
    case RateLimited => Answered(kid, Limited)
    case BackingOff => Answered(kid, InBackoff)
    case Fetch => Waiting(kid, task)
  }

  function Delivered(kid: string, brought: Option<KeySet>): Caller
  {
    Answered(kid,
             if brought.None? then FetchFailed
             else
               var k := KeyFor(brought.value, kid);
               if k.Some? then Found(k.value) else UnknownKid)
  }

  function Apply(s: Sys, e: Event): Sys
    requires Enabled(s, e)
  {
    match e
    case Call(c, kid, t) =>
      var k := Lookup(s.cache, kid, t);
      s.(callers := s.callers[c := if k.Some? then Answered(kid, Found(k.value)) else Missed(kid)])
    case Pass(c, r) =>
      var kid, v := s.callers[c].kid, VerdictAt(s, c, r);
      s.(gate := AfterAdmit(s.gate, s.cache, s.minRefetch, kid, r),
         holder := if v.Fetch? then Some(|s.tasks|) else None,
         tasks := if v.Fetch? then s.tasks + [Fetching] else s.tasks,
         callers := s.callers[c := Told(kid, v, |s.tasks|)],
         now := r.checked)
    case Deliver(c) =>
      s.(callers := s.callers[c := Delivered(s.callers[c].kid, s.tasks[s.callers[c].task].brought)])
    case Drop(c) => s.(callers := s.callers[c := Dropped])
    case Stamp(f, t, ks) => s.(tasks := s.tasks[f := Stamped(ks, t)], now := t)
    case Write(f) =>
      var w := s.tasks[f];
      s.(cache := Some(Cached(w.ks, w.at)), tasks := s.tasks[f := Written(w.ks)])
    case Finish(f, t, jitter) =>
      var ok := s.tasks[f].Written?;
      s.(gate := if ok then AfterSuccess(s.gate) else AfterFailure(s.gate, t, jitter),
         holder := None,
         tasks := s.tasks[f := Finished(if ok then Some(s.tasks[f].ks) else None)],
         now := t)
  }

  predicate Run(s: Sys, es: seq<Event>)
  {
    es == [] || (Run(s, es[..|es| - 1]) && Enabled(Exec(s, es[..|es| - 1]), es[|es| - 1]))
  }

  function Exec(s: Sys, es: seq<Event>): Sys
  {
    if es == [] then s
    else
      var u := Exec(s, es[..|es| - 1]);
      if Enabled(u, es[|es| - 1]) then Apply(u, es[|es| - 1]) else u
  }

  // ---- what every step keeps ----

  predicate Unfinished(s: Sys, f: nat)
  {
    f < |s.tasks| && !s.tasks[f].Finished?
  }

  // The gate belongs to exactly the one task that has not finished.
  ghost predicate GateFollowsTheTask(s: Sys)
  {
    && (s.holder.Some? ==> Unfinished(s, s.holder.value))
    && (forall f :: 0 <= f < |s.tasks| && !s.tasks[f].Finished? ==> s.holder == Some(f))
  }

  ghost predicate ClockIsAhead(s: Sys)
  {
    && (s.cache.Some? ==> s.cache.value.loadedAt <= s.now)
    && (s.gate.lastRefetch.Some? ==> s.gate.lastRefetch.value <= s.now)
    && (s.gate.lastFailure.Some? ==> s.gate.lastFailure.value <= s.now)
    && (forall f :: 0 <= f < |s.tasks| && s.tasks[f].Stamped? ==>
          s.tasks[f].at <= s.now && (s.cache.Some? ==> s.cache.value.loadedAt <= s.tasks[f].at))
  }

  ghost predicate WindowMatchesCount(g: GateValue)
  {
    && g.failures <= U32_MAX
    && (g.lastFailure.Some? <==> g.failures > 0)
    && (g.failures > 0 ==> B.Schedule(g.failures) / 2 <= g.backoff <= B.Schedule(g.failures) <= B.CAP)
  }

  ghost predicate Inv(s: Sys)
  {
    GateFollowsTheTask(s) && ClockIsAhead(s) && WindowMatchesCount(s.gate)
  }

  lemma PassKeepsInv(s: Sys, c: nat, r: Readings)
    requires Inv(s) && Enabled(s, Pass(c, r))
    ensures Inv(Apply(s, Pass(c, r)))
  {
    var s' := Apply(s, Pass(c, r));
    if VerdictAt(s, c, r).Fetch? {
      assert s'.tasks[|s.tasks|] == Fetching;
    }
  }

  lemma FinishKeepsInv(s: Sys, f: nat, t: Time, jitter: Jitter)
    requires Inv(s) && Enabled(s, Finish(f, t, jitter))
    ensures Inv(Apply(s, Finish(f, t, jitter)))
  {
    var n := Min(s.gate.failures + 1, U32_MAX);
    B.RustWindowBounds(n, jitter);
    B.RustDelayIs(n);
  }

  lemma InvStep(s: Sys, e: Event)
    requires Inv(s) && Enabled(s, e)
    ensures Inv(Apply(s, e))
  {
    match e
    case Pass(c, r) => PassKeepsInv(s, c, r);
    case Finish(f, t, jitter) => FinishKeepsInv(s, f, t, jitter);
    case _ =>
  }

  lemma {:induction false} RunKeepsInv(s: Sys, es: seq<Event>)
    requires Inv(s) && Run(s, es)
    ensures Inv(Exec(s, es)) && Exec(s, es).minRefetch == s.minRefetch
  {
    if es != [] {
      RunKeepsInv(s, es[..|es| - 1]);
      InvStep(Exec(s, es[..|es| - 1]), es[|es| - 1]);
    }
  }
}
