/** What every caller of the Go key store is told at every step, from the history of the run. */
module GoKeyStoreAnswers {
  import opened Common
  import opened KeySets
  import opened GoKeyStore
  import opened GoKeyStoreRuns
  import opened GoKeyStoreResults

  // ---- how a flight ended ----

  // The flight brought a key set.
  predicate Brought(es: seq<Event>, f: nat)
  {
    es != [] && (Brought(es[..|es| - 1], f) || (es[|es| - 1].Install? && es[|es| - 1].f == f))
  }

  predicate WasRecorded(es: seq<Event>, f: nat)
  {
    es != [] && (WasRecorded(es[..|es| - 1], f) || (es[|es| - 1].Record? && es[|es| - 1].f == f))
  }

  // Once recorded, a flight counts as a success exactly when it brought a set.
  ghost predicate PhaseMatches(u: Sys, es: seq<Event>, f: nat)
  {
    if f >= |u.flights| then !Brought(es, f) && !WasRecorded(es, f)
    else
      match u.flights[f]
      case Fetching => !Brought(es, f) && !WasRecorded(es, f)
      case Installed => Brought(es, f) && !WasRecorded(es, f)
      case Recorded(ok) => (ok <==> Brought(es, f)) && WasRecorded(es, f)
      case Closed(ok) => (ok <==> Brought(es, f)) && WasRecorded(es, f)
  }

  lemma PhaseStep(u: Sys, pre: seq<Event>, e: Event, f: nat)
    requires Inv(u) && Enabled(u, e) && PhaseMatches(u, pre, f)
    ensures PhaseMatches(Apply(u, e), pre + [e], f)
  {
    assert (pre + [e])[..|pre|] == pre;
  }

  lemma {:induction false} PhasesMatch(window: Window, start: Time, es: seq<Event>, f: nat)
    requires Run(Init(window, start), es)
    ensures PhaseMatches(Exec(Init(window, start), es), es, f)
  {
    if es != [] {
      var pre := es[..|es| - 1];
      PhasesMatch(window, start, pre, f);
      ReachableInv(window, start, pre);
      PhaseStep(Exec(Init(window, start), pre), pre, es[|es| - 1], f);
      assert pre + [es[|es| - 1]] == es;
    }
  }

  // ---- what each step tells its caller ----

  // Nobody but the caller of a step is told anything by it.
  lemma OthersAreLeftAlone(u: Sys, e: Event, d: nat)
    requires Enabled(u, e) && (e.Install? || e.Record? || e.Close? || e.c != d)
    ensures d in Apply(u, e).callers <==> d in u.callers
    ensures d in u.callers ==> Apply(u, e).callers[d] == u.callers[d]
  {
  }

  // The first lookup answers with the key, or leaves its caller to go on.
  lemma FirstLookIsTold(window: Window, start: Time, es: seq<Event>, c: nat, kid: string, t: Time, key: nat)
    requires Run(Init(window, start), es) && Enabled(Exec(Init(window, start), es), Call(c, kid, t))
    ensures var told := Apply(Exec(Init(window, start), es), Call(c, kid, t)).callers[c];
            && (told == Answered(kid, Found(key)) <==> Usable(es, t) && Files(es[LastInstall(es)].ks, kid, key))
            && (told == Missed(kid) <==> Misses(es, kid, t))
  {
    UsableIsFresh(window, start, es, t);
    StoreHoldsTheLastInstall(window, start, es);
    if LastInstall(es) >= 0 {
      KeyForIsTheFirstFiled(es[LastInstall(es)].ks, kid, key);
    }
  }

  // What the decision tells a miss: a kid that is cached by then looks again, the others wait for the request that is
  // out or goes out, or hear which of the two refusals it was.
  lemma DecisionsAreTold(window: Window, start: Time, es: seq<Event>, c: nat, t: Time)
    requires Run(Init(window, start), es) && Enabled(Exec(Init(window, start), es), Decide(c, t))
    ensures var s := Init(window, start);
            var u := Exec(s, es);
            var limited := Usable(es, t) && JustForced(TimesOf(Starts(s, es), true), window, t);
            var kid := u.callers[c].kid;
            var misses, told := Misses(es, kid, t), Apply(u, Decide(c, t)).callers[c];
            && (told == Relooking(kid) <==> !misses)
            && (|Starts(s, es)| > 0 && told == Waiting(kid, |Starts(s, es)| - 1) <==> misses && !NothingOut(s, es))
            && (told == Answered(kid, Limited) <==> misses && NothingOut(s, es) && limited)
            && (told == Answered(kid, InBackoff) <==> misses && NothingOut(s, es) && !limited && JustFailed(s, es, t))
            && (told == Waiting(kid, |Starts(s, es)|) <==>
                  misses && NothingOut(s, es) && !limited && !JustFailed(s, es, t))
  {
    DecidedExactlyWhen(window, start, es, c, t);
    ToldByDecision(Exec(Init(window, start), es), c, t);
    SomethingStarted(window, start, es);
  }

  lemma ToldByDecision(u: Sys, c: nat, t: Time)
    requires Enabled(u, Decide(c, t))
    ensures var d, kid := DecisionAt(u, c, t), u.callers[c].kid;
            Apply(u, Decide(c, t)).callers[c] ==
            match d
            case Cached => Relooking(kid)
            case Joined(f) => Waiting(kid, f)
            case Started(f, _) => Waiting(kid, f)
            case RateLimited => Answered(kid, Limited)
            case BackingOff => Answered(kid, InBackoff)
  {
  }

  lemma SomethingStarted(window: Window, start: Time, es: seq<Event>)
    requires Run(Init(window, start), es)
    ensures !NothingOut(Init(window, start), es) ==> |Starts(Init(window, start), es)| > 0
  {
    FlightsAreAccountedFor(window, start, es, 0);
  }

  // The outcome of a flight reaches its waiters: one that brought a set sends them to look again, one that failed ends
  // them.
  lemma WaitersAreTold(window: Window, start: Time, es: seq<Event>, c: nat)
    requires Run(Init(window, start), es) && Enabled(Exec(Init(window, start), es), WaitEnds(c))
    ensures var u := Exec(Init(window, start), es);
            var w, told := u.callers[c], Apply(u, WaitEnds(c)).callers[c];
            && WasRecorded(es, w.flight)
            && (told == Relooking(w.kid) <==> Brought(es, w.flight))
            && (told == Answered(w.kid, FetchFailed) <==> !Brought(es, w.flight))
  {
    PhasesMatch(window, start, es, Exec(Init(window, start), es).callers[c].flight);
  }

  // The last lookup ends its caller, with the key or without.
  lemma LastLookIsTold(window: Window, start: Time, es: seq<Event>, c: nat, t: Time, key: nat)
    requires Run(Init(window, start), es) && Enabled(Exec(Init(window, start), es), Relook(c, t))
    ensures var u := Exec(Init(window, start), es);
            var kid, told := u.callers[c].kid, Apply(u, Relook(c, t)).callers[c];
            && (told == Answered(kid, Found(key)) <==> Usable(es, t) && Files(es[LastInstall(es)].ks, kid, key))
            && (told == Answered(kid, NoKey) <==> Misses(es, kid, t))
  {
    UsableIsFresh(window, start, es, t);
    StoreHoldsTheLastInstall(window, start, es);
    if LastInstall(es) >= 0 {
      KeyForIsTheFirstFiled(es[LastInstall(es)].ks, Exec(Init(window, start), es).callers[c].kid, key);
    }
  }

  // A caller that gives up, before it starts anything or while it waits, is told so and nothing else changes.
  lemma GivingUpIsTold(u: Sys, c: nat)
    requires c in u.callers && (Enabled(u, Abandon(c)) || Enabled(u, GiveUp(c)))
    ensures var e := if Enabled(u, Abandon(c)) then Abandon(c) else GiveUp(c);
            Apply(u, e) == u.(callers := u.callers[c := Answered(u.callers[c].kid, Abandoned)])
  {
  }

  // A waiter whose flight brought the set installed last, with its kid in it, has the key by its next two steps.
  lemma OwnFetchIsEnough(window: Window, start: Time, es: seq<Event>, c: nat, t: Time, key: nat)
    requires Run(Init(window, start), es) && Enabled(Exec(Init(window, start), es), WaitEnds(c))
    requires var u, j := Exec(Init(window, start), es), LastInstall(es);
             && j >= 0 && es[j].f == u.callers[c].flight && Files(es[j].ks, u.callers[c].kid, key)
             && u.now <= t && t - es[j].t < 300 * SECOND
    ensures var more := es + [WaitEnds(c), Relook(c, t)];
            && Run(Init(window, start), more)
            && Exec(Init(window, start), more).callers[c] ==
               Answered(Exec(Init(window, start), es).callers[c].kid, Found(key))
  {
    var s, j := Init(window, start), LastInstall(es);
    InstalledIsBrought(es, j);
    WaitersAreTold(window, start, es, c);
    ExecSnoc(s, es, WaitEnds(c));
    var mid := es + [WaitEnds(c)];
    ExecSnoc(s, mid, Relook(c, t));
    assert mid + [Relook(c, t)] == es + [WaitEnds(c), Relook(c, t)];
    LastInstallSnoc(es, WaitEnds(c));
    LastLookIsTold(window, start, mid, c, t, key);
  }

  lemma LastInstallSnoc(es: seq<Event>, e: Event)
    requires !e.Install?
    ensures LastInstall(es + [e]) == LastInstall(es)
  {
    assert (es + [e])[..|es|] == es;
  }

  lemma {:induction false} InstalledIsBrought(es: seq<Event>, j: nat)
    requires j < |es| && es[j].Install?
    ensures Brought(es, es[j].f)
  {
    if j < |es| - 1 {
      assert es[..|es| - 1][j] == es[j];
      InstalledIsBrought(es[..|es| - 1], j);
    }
  }

  // Nobody is ever stuck: each caller has its next step at any later reading, a waiter's being the outcome exactly once
  // its flight has closed; and each flight has its own, whatever its fetch came to.
  lemma NobodyIsStuck(window: Window, start: Time, es: seq<Event>, c: nat, f: nat, kid: string, t: Time, jitter: Jitter)
    requires Run(Init(window, start), es) && Exec(Init(window, start), es).now <= t
    ensures var u := Exec(Init(window, start), es);
            && (c !in u.callers ==> Enabled(u, Call(c, kid, t)))
            && (c in u.callers ==>
                  match u.callers[c]
                  case Missed(_) => Enabled(u, Decide(c, t)) && Enabled(u, Abandon(c))
                  case Waiting(_, g) => if At(u, g, {Closed(true), Closed(false)}) then Enabled(u, WaitEnds(c))
                                        else Enabled(u, GiveUp(c))
                  case Relooking(_) => Enabled(u, Relook(c, t))
                  case Answered(_, _) => true)
            && (f < |u.flights| ==>
                  match u.flights[f]
                  case Fetching => Enabled(u, Install(f, t, [Jwk(kid, 0)])) && Enabled(u, Record(f, t, jitter))
                  case Installed => Enabled(u, Record(f, t, jitter))
                  case Recorded(_) => Enabled(u, Close(f))
                  case Closed(_) => true)
  {
    ReachableInv(window, start, es);
  }
}
