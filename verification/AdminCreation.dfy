/**
 The Go client's lazy admin facade: a cached slot in front of a shared flight that looks at the slot again before it
 creates anything. Callers, the flight's own steps and cancellations interleave freely.
 */
module AdminCreation {
  import opened Common

  // Where one flight stands. Ending: its function has returned, its callers have not been told and joiners still find
  // it.
  datatype Flight = Looking | Creating | Made(client: nat) | Ending(result: Option<nat>) | Over(result: Option<nat>)

  datatype Caller = Missed | Waiting(flight: nat) | Has(client: nat) | Failed | Gone

  datatype Event =
    | Call(c: nat)               // reads the slot
    | Abandon(c: nat)            // its context had already ended
    | Join(c: nat)               // joins the live flight or starts one
    | Look(f: nat)               // the flight reads the slot again
    | Create(f: nat, ok: bool)   // logs in
    | Store(f: nat)              // fills the slot
    | End(f: nat)                // the flight is over and its callers are told
    | Receive(c: nat)
    | GiveUp(c: nat)

  // live is the flight the group knows; made counts the clients created, which are numbered in order.
  datatype Sys = Sys(admin: Option<nat>, live: Option<nat>, flights: seq<Flight>, made: nat, callers: map<nat, Caller>)

  const START := Sys(None, None, [], 0, map[])

  predicate Known(s: Sys, f: nat) { f < |s.flights| }

  predicate Enabled(s: Sys, e: Event)
  {
    match e
    case Call(c) => c !in s.callers
    case Abandon(c) => c in s.callers && s.callers[c].Missed?
    case Join(c) => c in s.callers && s.callers[c].Missed?
    case Look(f) => Known(s, f) && s.flights[f].Looking?
    case Create(f, _) => Known(s, f) && s.flights[f].Creating?
    case Store(f) => Known(s, f) && s.flights[f].Made?
    case End(f) => Known(s, f) && s.flights[f].Ending?
    case Receive(c) => c in s.callers && s.callers[c].Waiting? && Known(s, s.callers[c].flight) &&
                       s.flights[s.callers[c].flight].Over?
    case GiveUp(c) => c in s.callers && s.callers[c].Waiting? &&
                      !(Known(s, s.callers[c].flight) && s.flights[s.callers[c].flight].Over?)
  }

  function Apply(s: Sys, e: Event): Sys
    requires Enabled(s, e)
  {
    match e
    case Call(c) => s.(callers := s.callers[c := if s.admin.Some? then Has(s.admin.value) else Missed])
    case Abandon(c) => s.(callers := s.callers[c := Gone])
    case Join(c) =>
      if s.live.Some? then s.(callers := s.callers[c := Waiting(s.live.value)])
      else
        s.(live := Some(|s.flights|), flights := s.flights + [Looking], callers := s.callers[c := Waiting(|s.flights|)])
    case Look(f) => s.(flights := s.flights[f := if s.admin.Some? then Ending(s.admin) else Creating])
    case Create(f, ok) =>
      if ok then s.(flights := s.flights[f := Made(s.made)], made := s.made + 1)
      else s.(flights := s.flights[f := Ending(None)])
    case Store(f) =>
      s.(admin := Some(s.flights[f].client), flights := s.flights[f := Ending(Some(s.flights[f].client))])
    case End(f) =>
      s.(flights := s.flights[f := Over(s.flights[f].result)], live := if s.live == Some(f) then None else s.live)
    case Receive(c) =>
      var r := s.flights[s.callers[c].flight].result;
      s.(callers := s.callers[c := if r.Some? then Has(r.value) else Failed])
    case GiveUp(c) => s.(callers := s.callers[c := Gone])
  }

  predicate Run(s: Sys, es: seq<Event>)
  {
    es == [] || (Run(s, es[..|es| - 1]) && Enabled(Exec(s, es[..|es| - 1]), es[|es| - 1]))
  }

  function Exec(s: Sys, es: seq<Event>): Sys
  {
    if es == [] then s
    else
      var u := Exec(s, es[..|es| - 1]);
      if Enabled(u, es[|es| - 1]) then Apply(u, es[|es| - 1]) else u
  }

  function Creations(es: seq<Event>): nat
  {
    if es == [] then 0
    else Creations(es[..|es| - 1]) + (if es[|es| - 1].Create? && es[|es| - 1].ok then 1 else 0)
  }

  // What a flight may know of the slot.
  predicate Agrees(s: Sys, f: Flight)
  {
    match f
    case Creating => s.admin.None? && s.made == 0
    case Made(client) => s.admin.None? && s.made == 1 && client == 0
    case Ending(Some(x)) => s.admin == Some(x)
    case Over(Some(x)) => s.admin == Some(x)
    case _ => true
  }

  predicate MadeButNotStored(s: Sys)
  {
    s.live.Some? && Known(s, s.live.value) && s.flights[s.live.value].Made?
  }

  ghost predicate Inv(s: Sys)
  {
    && (s.live.Some? ==> Known(s, s.live.value))
    && (forall f :: 0 <= f < |s.flights| && !s.flights[f].Over? ==> s.live == Some(f))
    && (forall f :: 0 <= f < |s.flights| ==> Agrees(s, s.flights[f]))
    && (forall c :: c in s.callers && s.callers[c].Has? ==> s.admin == Some(s.callers[c].client))
    && (s.admin.Some? ==> s.admin == Some(0))
    && s.made == (if s.admin.Some? || MadeButNotStored(s) then 1 else 0)
  }

  lemma InvStep(s: Sys, e: Event)
    requires Inv(s) && Enabled(s, e)
    ensures Inv(Apply(s, e))
    ensures s.admin.Some? ==> Apply(s, e).admin == s.admin
    ensures e.Create? && !e.ok ==> Apply(s, e).admin.None? && Apply(s, e).made == 0
  {
  }

  lemma {:induction false} RunKeepsInv(es: seq<Event>)
    requires Run(START, es)
    ensures Inv(Exec(START, es)) && Exec(START, es).made == Creations(es)
  {
    if es != [] {
      RunKeepsInv(es[..|es| - 1]);
      InvStep(Exec(START, es[..|es| - 1]), es[|es| - 1]);
    }
  }

  // In every interleaving at most one admin client is ever created, and every caller that gets one gets that one.
  lemma OneClientForAll(es: seq<Event>, c: nat, d: nat)
    requires Run(START, es)
    ensures var u := Exec(START, es);
            && Creations(es) <= 1
            && (c in u.callers && u.callers[c].Has? ==> Creations(es) == 1 && u.admin == Some(u.callers[c].client))
            && (c in u.callers && d in u.callers && u.callers[c].Has? && u.callers[d].Has? ==>
                  u.callers[c] == u.callers[d])
  {
    RunKeepsInv(es);
  }

  // A creation that failed leaves the slot empty, and the flight's end lets the next caller start another.
  lemma AFailureIsNotCached(es: seq<Event>, f: nat, c: nat)
    requires Run(START, es) && Enabled(Exec(START, es), Create(f, false))
    requires c !in Exec(START, es).callers
    ensures var v := Apply(Apply(Exec(START, es), Create(f, false)), End(f));
            && v.admin.None? && v.live.None?
            && Apply(v, Call(c)).callers[c] == Missed
            && var w := Apply(Apply(v, Call(c)), Join(c));
               w.live == Some(|v.flights|) && w.flights[|v.flights|] == Looking
  {
    RunKeepsInv(es);
    var u := Exec(START, es);
    InvStep(u, Create(f, false));
    InvStep(Apply(u, Create(f, false)), End(f));
  }

  // ---- what each step tells its caller, from the history of the run ----

  predicate Stored(es: seq<Event>)
  {
    es != [] && (Stored(es[..|es| - 1]) || es[|es| - 1].Store?)
  }

  predicate StoredBy(es: seq<Event>, f: nat)
  {
    es != [] && (StoredBy(es[..|es| - 1], f) || es[|es| - 1] == Store(f))
  }

  // The flight looked at the slot when a client had been stored.
  predicate FoundBy(es: seq<Event>, f: nat)
  {
    es != [] && (FoundBy(es[..|es| - 1], f) || (es[|es| - 1] == Look(f) && Stored(es[..|es| - 1])))
  }

  predicate FailedBy(es: seq<Event>, f: nat)
  {
    es != [] && (FailedBy(es[..|es| - 1], f) || es[|es| - 1] == Create(f, false))
  }

  // A flight ends with the client exactly if it found or stored it, and without exactly if its creation failed.
  ghost predicate FlightMatches(u: Sys, es: seq<Event>, f: nat)
  {
    if f >= |u.flights| then !StoredBy(es, f) && !FoundBy(es, f) && !FailedBy(es, f)
    else
      match u.flights[f]
      case Ending(r) => ResultMatches(r, es, f)
      case Over(r) => ResultMatches(r, es, f)
      case _ => !StoredBy(es, f) && !FoundBy(es, f) && !FailedBy(es, f)
  }

  predicate ResultMatches(r: Option<nat>, es: seq<Event>, f: nat)
  {
    && (r == Some(0) <==> StoredBy(es, f) || FoundBy(es, f))
    && (r.None? <==> FailedBy(es, f))
  }

  // The slot is filled exactly once a client has been stored; that one is the first made.
  lemma {:induction false} SlotIsTheHistory(es: seq<Event>, f: nat)
    requires Run(START, es)
    ensures Exec(START, es).admin == if Stored(es) then Some(0) else None
    ensures FlightMatches(Exec(START, es), es, f)
  {
    if es != [] {
      var pre := es[..|es| - 1];
      SlotIsTheHistory(pre, f);
      RunKeepsInv(pre);
      SlotStep(Exec(START, pre), pre, es[|es| - 1], f);
      assert pre + [es[|es| - 1]] == es;
    }
  }

  lemma SlotStep(u: Sys, pre: seq<Event>, e: Event, f: nat)
    requires Inv(u) && Enabled(u, e) && u.admin == (if Stored(pre) then Some(0) else None) && FlightMatches(u, pre, f)
    ensures Apply(u, e).admin == if Stored(pre + [e]) then Some(0) else None
    ensures FlightMatches(Apply(u, e), pre + [e], f)
  {
    assert (pre + [e])[..|pre|] == pre;
  }

  lemma OthersAreLeftAlone(u: Sys, e: Event, d: nat)
    requires Enabled(u, e) && (e.Look? || e.Create? || e.Store? || e.End? || e.c != d)
    ensures d in Apply(u, e).callers <==> d in u.callers
    ensures d in u.callers ==> Apply(u, e).callers[d] == u.callers[d]
  {
  }

  // A caller has the client at once exactly when one has been stored, and goes on to join a flight exactly when not.
  lemma CallsAreTold(es: seq<Event>, c: nat)
    requires Run(START, es) && Enabled(Exec(START, es), Call(c))
    ensures var told := Apply(Exec(START, es), Call(c)).callers[c];
            && (told == Has(0) <==> Stored(es))
            && (told == Missed <==> !Stored(es))
  {
    SlotIsTheHistory(es, 0);
  }

  // A caller that waited has the client exactly if its flight stored or found it, and fails exactly if the creation
  // did.
  lemma WaitersAreTold(es: seq<Event>, c: nat)
    requires Run(START, es) && Enabled(Exec(START, es), Receive(c))
    ensures var u := Exec(START, es);
            var f, told := u.callers[c].flight, Apply(u, Receive(c)).callers[c];
            && (told == Has(0) <==> StoredBy(es, f) || FoundBy(es, f))
            && (told == Failed <==> FailedBy(es, f))
  {
    SlotIsTheHistory(es, Exec(START, es).callers[c].flight);
  }

  // A miss waits for the flight that is live, or starts the one it waits for.
  lemma JoinersWait(es: seq<Event>, c: nat)
    requires Run(START, es) && Enabled(Exec(START, es), Join(c))
    ensures var u := Exec(START, es);
            var v := Apply(u, Join(c));
            && c in v.callers && v.callers[c].Waiting? && v.live == Some(v.callers[c].flight)
            && (u.live.Some? ==> v.flights == u.flights && v.live == u.live)
            && (u.live.None? ==> v.flights == u.flights + [Looking] && v.callers[c].flight == |u.flights|)
            && v.callers[c].flight < |v.flights| && !v.flights[v.callers[c].flight].Over?
  {
    RunKeepsInv(es);
    LiveIsNotOver(es);
  }

  lemma {:induction false} LiveIsNotOver(es: seq<Event>)
    requires Run(START, es)
    ensures var u := Exec(START, es); u.live.Some? ==> u.live.value < |u.flights| && !u.flights[u.live.value].Over?
  {
    if es != [] {
      LiveIsNotOver(es[..|es| - 1]);
      RunKeepsInv(es[..|es| - 1]);
    }
  }

  // A caller that gives up is told so, and nothing else changes.
  lemma GivingUpIsTold(u: Sys, c: nat)
    requires c in u.callers && (Enabled(u, Abandon(c)) || Enabled(u, GiveUp(c)))
    ensures Apply(u, if Enabled(u, Abandon(c)) then Abandon(c) else GiveUp(c)) == u.(callers := u.callers[c := Gone])
  {
  }

  // A flight can always be carried to its end without any caller, and then its waiters are told.
  lemma FlightsEnd(u: Sys, f: nat, ok: bool)
    requires Known(u, f) && !u.flights[f].Over?
    ensures var e := NextStep(u, f, ok);
            && Enabled(u, e) && Apply(u, e).callers == u.callers && Known(Apply(u, e), f)
            && Rank(Apply(u, e).flights[f]) < Rank(u.flights[f])
  {
  }

  function NextStep(u: Sys, f: nat, ok: bool): Event
    requires Known(u, f) && !u.flights[f].Over?
  {
    match u.flights[f]
    case Looking => Look(f)
    case Creating => Create(f, ok)
    case Made(_) => Store(f)
    case Ending(_) => End(f)
  }

  function Rank(f: Flight): nat
  {
    match f
    case Looking => 4
    case Creating => 3
    case Made(_) => 2
    case Ending(_) => 1
    case Over(_) => 0
  }

  // Nobody is ever stuck: a waiter hears of its flight exactly once that is over, and can give up until then.
  lemma NobodyIsStuck(u: Sys, c: nat)
    ensures c !in u.callers ==> Enabled(u, Call(c))
    ensures c in u.callers ==>
              match u.callers[c]
              case Missed => Enabled(u, Join(c)) && Enabled(u, Abandon(c))
              case Waiting(f) => if f < |u.flights| && u.flights[f].Over? then Enabled(u, Receive(c))
                                 else Enabled(u, GiveUp(c))
              case _ => true
  {
  }
}
