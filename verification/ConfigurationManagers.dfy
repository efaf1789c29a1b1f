/**
 The .NET key store: a forced-refetch manager over a cold-start manager over managers that are cold until a load
 succeeds and then keep serving that configuration. Calls, refetches and the clock interleave freely; what one call does
 between two awaits or volatile accesses is one step.
 */
module ConfigurationManagers {
  import opened Common
  import opened KeySets

  // A configuration object. Objects are numbered in the order their fetches completed.
  type Cfg = nat

  // One wrapped manager: the configuration it holds, and the one it is known to have served.
  datatype Slot = Slot(held: Option<Cfg>, served: Option<Cfg>)

  // A refetch: what it was decided against, and what it has fetched but not yet published.
  datatype Refetch = Refetch(against: Cfg, fetched: Option<Cfg>)

  // A published refetch is served in place of the configuration it was decided against.
  datatype Published = Published(over: Cfg, newer: Cfg)

  // Where one call stands; t is the reading of its expiry check.
  datatype Call =
    | Checked(t: Time)
    | Using(t: Time, slot: nat)
    | Got(t: Time, slot: nat, cfg: Cfg)
    | Marked(t: Time, cfg: Cfg)
    | Written(t: Time, cfg: Cfg)
    | Returned(t: Time, result: Cfg)
    | Threw

  datatype Sys = Sys(
    interval: int,
    slots: seq<Slot>,
    current: nat,
    cached: Option<Cfg>,
    published: Option<Published>,
    decided: Option<Time>,
    running: Option<Refetch>,
    stamps: seq<Time>,
    calls: map<nat, Call>,
    now: Time)

  function Init(interval: int, now: Time): Sys
  {
    Sys(interval, [Slot(None, None)], 0, None, None, None, None, [], map[], now)
  }

  datatype Event =
    | Check(c: nat, t: Time)
    | Take(c: nat)                       // reads the current slot
    | Get(c: nat, ok: bool, t: Time)     // its manager answers with what it holds or loads; not ok: the call throws
    | Mark(c: nat)
    | Write(c: nat)
    | Return(c: nat)
    | Request(t: Time)                   // a validation asks for a refetch
    | Fetch(t: Time)                     // the refetch's fetch succeeded
    | Publish
    | End                                // the refetch is over, published or failed

  function ServedFor(published: Option<Published>, cfg: Cfg): Cfg
  {
    if published.Some? && published.value.over == cfg then published.value.newer else cfg
  }

  predicate Expired(stamps: seq<Time>, cfg: Cfg, t: Time)
    requires cfg < |stamps|
  {
    t - stamps[cfg] >= MAX_AGE
  }

  // What one expiry check does to the slots: a new cold one, if the current one served the expired configuration.
  function AfterCheck(slots: seq<Slot>, current: nat, cached: Cfg, expired: bool): (seq<Slot>, nat)
    requires current < |slots|
  {
    if expired && slots[current].served == Some(cached) then (slots + [Slot(None, None)], |slots|) else (slots, current)
  }

  // Whether a request decides a new refetch.
  predicate Decides(cached: Option<Cfg>, running: Option<Refetch>, decided: Option<Time>, interval: int, now: Time)
  {
    cached.Some? && running.None? && !(decided.Some? && now - decided.value < interval)
  }

  /** The cold-start manager's slots. */
  class ColdStart {
    var slots: seq<Slot>
    var current: nat

    ghost predicate Valid()
      reads this
    {
      current < |slots|
    }

    constructor ()
      ensures Valid() && slots == [Slot(None, None)] && current == 0
    {
      slots, current := [Slot(None, None)], 0;
    }

    method StartOverIfExpired(cached: Cfg, expired: bool)
      requires Valid()
      modifies this
      ensures Valid() && (slots, current) == AfterCheck(old(slots), old(current), cached, expired)
    {
      if !expired {
        return;
      }
      if slots[current].served == Some(cached) {
        slots, current := slots + [Slot(None, None)], |slots|;
      }
    }
  }

  /** The forced-refetch manager's own fields. */
  class ForcedRefetch {
    var cached: Option<Cfg>
    var published: Option<Published>
    var decided: Option<Time>
    var running: Option<Refetch>
    const interval: int

    constructor (interval: int)
      ensures cached.None? && published.None? && decided.None? && running.None? && this.interval == interval
    {
      this.interval := interval;
      cached, published, decided, running := None, None, None, None;
    }

    // Whether the caller will wait for a refetch, the one it starts or the one that runs.
    method RequestRefresh(now: Time) returns (waits: bool)
      modifies this`decided, this`running
      ensures var starts := Decides(cached, old(running), old(decided), interval, now);
              && decided == (if starts then Some(now) else old(decided))
              && running == (if starts then Some(Refetch(cached.value, None)) else old(running))
              && (waits <==> cached.Some? && (old(running).Some? || starts))
    {
      if cached.None? {
        return false;
      }
      if running.None? {
        if decided.Some? && now - decided.value < interval {
          return false;
        }
        decided := Some(now);
        running := Some(Refetch(cached.value, None));
      }
      waits := true;
    }

    // The end of a refetch; one that failed publishes nothing.
    method Finish()
      requires running.Some?
      modifies this`published, this`running
      ensures running.None?
      ensures published == (if old(running).value.fetched.Some?
                            then Some(Published(old(running).value.against, old(running).value.fetched.value))
                            else old(published))
    {
      if running.value.fetched.Some? {
        published := Some(Published(running.value.against, running.value.fetched.value));
      }
      running := None;
    }
  }

  // ---- the system ----

  ghost predicate FieldsKnown(s: Sys)
  {
    && (s.cached.Some? ==> s.cached.value < |s.stamps|)
    && (s.published.Some? ==> s.published.value.over < s.published.value.newer < |s.stamps|)
    && (s.running.Some? ==> s.running.value.against < |s.stamps|)
    && (s.running.Some? && s.running.value.fetched.Some? ==>
          s.running.value.against < s.running.value.fetched.value < |s.stamps|)
  }

  predicate SlotKnown(s: Sys, slot: Slot)
  {
    && (slot.held.Some? ==> slot.held.value < |s.stamps|)
    && (slot.served.Some? ==> slot.served == slot.held)
  }

  ghost predicate WellFormed(s: Sys)
  {
    && s.current < |s.slots|
    && FieldsKnown(s)
    && (forall i :: 0 <= i < |s.slots| ==> SlotKnown(s, s.slots[i]))
    && (forall c :: c in s.calls ==> CallKnown(s, s.calls[c]))
    && StampsInOrder(s)
  }

  predicate CallKnown(s: Sys, k: Call)
  {
    match k
    case Using(_, i) => i < |s.slots|
    case Got(_, i, cfg) => i < |s.slots| && cfg < |s.stamps| && s.slots[i].held == Some(cfg)
    case Marked(_, cfg) => cfg < |s.stamps|
    case Written(_, cfg) => cfg < |s.stamps|
    case Returned(_, cfg) => cfg < |s.stamps|
    case _ => true
  }

  ghost predicate Enabled(s: Sys, e: Event)
  {
    && WellFormed(s)
    && match e
       case Check(c, t) => c !in s.calls && s.now <= t
       case Take(c) => c in s.calls && s.calls[c].Checked?
       case Get(c, _, t) => c in s.calls && s.calls[c].Using? && s.now <= t
       case Mark(c) => c in s.calls && s.calls[c].Got?
       case Write(c) => c in s.calls && s.calls[c].Marked?
       case Return(c) => c in s.calls && s.calls[c].Written?
       case Request(t) => s.now <= t
       case Fetch(t) => s.running.Some? && s.running.value.fetched.None? && s.now <= t
       case Publish =>
         s.running.Some? && s.running.value.fetched.Some? && s.published != Some(PublishedBy(s.running.value))
       case End =>
         s.running.Some? &&
         (s.running.value.fetched.None? || s.published == Some(PublishedBy(s.running.value)))
  }

  function PublishedBy(r: Refetch): Published
    requires r.fetched.Some?
  {
    Published(r.against, r.fetched.value)
  }

  ghost function Apply(s: Sys, e: Event): Sys
    requires Enabled(s, e)
  {
    match e
    case Check(c, t) =>
      if s.cached.None? then s.(calls := s.calls[c := Checked(t)], now := t)
      else
        var last := s.cached.value;
        var expired := Expired(s.stamps, ServedFor(s.published, last), t);
        var (slots, current) := AfterCheck(s.slots, s.current, last, expired);
        s.(slots := slots, current := current, calls := s.calls[c := Checked(t)], now := t)
    case Take(c) => s.(calls := s.calls[c := Using(s.calls[c].t, s.current)])
    case Get(c, ok, t) =>
      var at, i := s.calls[c].t, s.calls[c].slot;
      if !ok then s.(calls := s.calls[c := Threw], now := t)
      else if s.slots[i].held.Some? then s.(calls := s.calls[c := Got(at, i, s.slots[i].held.value)], now := t)
      else
        var cfg := |s.stamps|;
        s.(slots := s.slots[i := s.slots[i].(held := Some(cfg))], stamps := s.stamps + [t],
           calls := s.calls[c := Got(at, i, cfg)], now := t)
    case Mark(c) =>
      var k := s.calls[c];
      s.(slots := s.slots[k.slot := s.slots[k.slot].(served := Some(k.cfg))], calls := s.calls[c := Marked(k.t, k.cfg)])
    case Write(c) =>
      s.(cached := Some(s.calls[c].cfg), calls := s.calls[c := Written(s.calls[c].t, s.calls[c].cfg)])
    case Return(c) =>
      s.(calls := s.calls[c := Returned(s.calls[c].t, ServedFor(s.published, s.calls[c].cfg))])
    case Request(t) =>
      if Decides(s.cached, s.running, s.decided, s.interval, t) then
        s.(decided := Some(t), running := Some(Refetch(s.cached.value, None)), now := t)
      else s.(now := t)
    case Fetch(t) =>
      s.(running := Some(s.running.value.(fetched := Some(|s.stamps|))), stamps := s.stamps + [t], now := t)
    case Publish => s.(published := Some(PublishedBy(s.running.value)))
    case End => s.(running := None)
  }

  ghost predicate StampsInOrder(s: Sys)
  {
    && (forall i, j :: 0 <= i < j < |s.stamps| ==> s.stamps[i] <= s.stamps[j])
    && (forall i :: 0 <= i < |s.stamps| ==> s.stamps[i] <= s.now)
  }

  // Nothing a call knows is ever taken back: slots keep what they hold, configurations keep their numbers.
  ghost predicate Grows(s: Sys, s': Sys)
  {
    && |s.stamps| <= |s'.stamps| && |s.slots| <= |s'.slots|
    && (forall i :: 0 <= i < |s.slots| && s.slots[i].held.Some? ==> s'.slots[i].held == s.slots[i].held)
  }

  lemma StillKnown(s: Sys, s': Sys, k: Call)
    requires Grows(s, s') && CallKnown(s, k)
    ensures CallKnown(s', k)
  {
  }

  lemma CallsStillKnown(s: Sys, e: Event, c: nat)
    requires Enabled(s, e) && c in Apply(s, e).calls
    ensures Grows(s, Apply(s, e)) && CallKnown(Apply(s, e), Apply(s, e).calls[c])
  {
    if c in s.calls {
      StillKnown(s, Apply(s, e), s.calls[c]);
    }
  }

  lemma StampsStayInOrder(s: Sys, e: Event)
    requires Enabled(s, e)
    ensures StampsInOrder(Apply(s, e)) && s.stamps <= Apply(s, e).stamps
  {
  }

  lemma FieldsStayKnown(s: Sys, e: Event)
    requires Enabled(s, e)
    ensures FieldsKnown(Apply(s, e))
  {
  }

  lemma SlotsStayKnown(s: Sys, e: Event)
    requires Enabled(s, e)
    ensures Apply(s, e).current < |Apply(s, e).slots|
    ensures forall i :: 0 <= i < |Apply(s, e).slots| ==> SlotKnown(Apply(s, e), Apply(s, e).slots[i])
  {
  }

  lemma WellFormedStep(s: Sys, e: Event)
    requires Enabled(s, e)
    ensures WellFormed(Apply(s, e))
  {
    StampsStayInOrder(s, e);
    FieldsStayKnown(s, e);
    SlotsStayKnown(s, e);
    forall c | c in Apply(s, e).calls
      ensures CallKnown(Apply(s, e), Apply(s, e).calls[c])
    {
      CallsStillKnown(s, e, c);
    }
  }

  ghost predicate Run(s: Sys, es: seq<Event>)
  {
    es == [] || (Run(s, es[..|es| - 1]) && Enabled(Exec(s, es[..|es| - 1]), es[|es| - 1]))
  }

  ghost function Exec(s: Sys, es: seq<Event>): Sys
  {
    if es == [] then s
    else
      var u := Exec(s, es[..|es| - 1]);
      if Enabled(u, es[|es| - 1]) then Apply(u, es[|es| - 1]) else u
  }

  predicate Over(k: Call)
  {
    k.Returned? || k.Threw?
  }

  // Calls that do not overlap: one begins only when every earlier one is over. Refetches go on meanwhile.
  ghost predicate OneCallAtATime(s: Sys, es: seq<Event>)
  {
    es != [] ==>
      && OneCallAtATime(s, es[..|es| - 1])
      && (es[|es| - 1].Check? ==> Idle(Exec(s, es[..|es| - 1])))
  }

  ghost predicate Idle(s: Sys)
  {
    forall c :: c in s.calls ==> Over(s.calls[c])
  }

  predicate Young(s: Sys, cfg: Cfg, t: Time)
    requires cfg < |s.stamps|
  {
    !Expired(s.stamps, cfg, t)
  }

  // What is kept while calls do not overlap. Object numbers stand for age: a later one is never older.
  ghost predicate Ordered(s: Sys)
  {
    && WellFormed(s)
    && (s.published.Some? ==> s.cached.Some? && s.published.value.over <= s.cached.value)
    && (s.running.Some? ==> s.cached.Some? && s.running.value.against <= s.cached.value)
    && (s.running.Some? && s.published.Some? ==> s.published.value.over <= s.running.value.against)
    && (s.running.Some? && s.published.Some? && s.running.value.fetched.Some? ==>
          s.published.value.newer <= s.running.value.fetched.value)
    && (forall c, d :: c in s.calls && d in s.calls && !Over(s.calls[c]) && !Over(s.calls[d]) ==> c == d)
  }

  ghost predicate SlotMatches(s: Sys)
    requires WellFormed(s)
  {
    s.slots[s.current].held == s.slots[s.current].served &&
    (s.slots[s.current].held.Some? ==> s.slots[s.current].held == s.cached)
  }

  // What a call in progress can rely on.
  ghost predicate CallIsSafe(s: Sys, k: Call)
    requires WellFormed(s) && CallKnown(s, k)
  {
    var slot := s.slots[s.current];
    match k
    case Checked(t) =>
      SlotMatches(s) && t <= s.now && (slot.held.Some? ==> Young(s, ServedFor(s.published, slot.held.value), t))
    case Using(t, i) =>
      && i == s.current && SlotMatches(s) && t <= s.now
      && (slot.held.Some? ==> Young(s, ServedFor(s.published, slot.held.value), t))
    case Got(t, i, cfg) =>
      && i == s.current && slot.held == Some(cfg) && Young(s, ServedFor(s.published, cfg), t)
      && (s.cached.Some? ==> s.cached.value <= cfg)
    case Marked(t, cfg) =>
      && slot.held == Some(cfg) == slot.served && Young(s, ServedFor(s.published, cfg), t)
      && (s.cached.Some? ==> s.cached.value <= cfg)
    case Written(t, cfg) => SlotMatches(s) && slot.held == Some(cfg) && Young(s, ServedFor(s.published, cfg), t)
    case Returned(t, result) => Young(s, result, t)
    case Threw => true
  }

  ghost predicate Safe(s: Sys)
  {
    && Ordered(s)
    && (Idle(s) ==> SlotMatches(s))
    && (forall c :: c in s.calls ==> CallIsSafe(s, s.calls[c]))
  }
}
