/** What every caller of the Node key source is told at every step, from the history of the run. */
module NodeKeyStoreAnswers {
  import opened Common
  import opened KeySets
  import opened NodeKeyStore
  import opened NodeKeyStoreResults
  import B = Backoff

  // ---- what a run has left behind ----

  predicate Usable(h: History, t: Time)
  {
    h.latest.Some? && t - h.latest.value.at < 300 * SECOND
  }

  predicate Misses(h: History, kid: string, t: Time)
  {
    Usable(h, t) ==> Lacks(h.latest.value.set_, kid)
  }

  ghost predicate Hits(h: History, kid: string, t: Time, key: nat)
  {
    Usable(h, t) && Files(h.latest.value.set_, kid, key)
  }

  predicate RequestIsOut(h: History)
  {
    |h.starts| > h.brought + h.failed
  }

  predicate Limited(h: History, window: nat, judged: Time, compared: Time)
  {
    Usable(h, judged) && JustAttempted(h.starts, window, compared)
  }

  // How the request f ended: not yet, without a set, or with one.
  datatype Outcome = Unknown | Empty | With(ks: KeySet)

  function OutcomeOf(es: seq<Event>, f: nat): Outcome
  {
    if es == [] then Unknown
    else if es[|es| - 1].End? && es[|es| - 1].f == f then
      if es[|es| - 1].ks.None? then Empty else With(es[|es| - 1].ks.value)
    else OutcomeOf(es[..|es| - 1], f)
  }

  ghost predicate OutcomeMatches(u: Sys, es: seq<Event>, f: nat)
  {
    if f >= |u.fetches| then OutcomeOf(es, f) == Unknown
    else
      match u.fetches[f]
      case Out => OutcomeOf(es, f) == Unknown
      case Failed => OutcomeOf(es, f) == Empty
      case Brought(ks) => OutcomeOf(es, f) == With(ks)
  }

  lemma OutcomeStep(u: Sys, pre: seq<Event>, e: Event, f: nat)
    requires Enabled(u, e) && OutcomeMatches(u, pre, f)
    ensures OutcomeMatches(Apply(u, e), pre + [e], f)
  {
    assert (pre + [e])[..|pre|] == pre;
  }

  lemma {:induction false} OutcomesMatch(window: nat, start: Time, es: seq<Event>, f: nat)
    requires Run(Init(window, start), es)
    ensures OutcomeMatches(Exec(Init(window, start), es), es, f)
  {
    if es != [] {
      var pre := es[..|es| - 1];
      OutcomesMatch(window, start, pre, f);
      OutcomeStep(Exec(Init(window, start), pre), pre, es[|es| - 1], f);
      assert pre + [es[|es| - 1]] == es;
    }
  }

  // ---- the backoff, from the history ----

  // Failures counted since the last reset, and when and with which factor the latest was.
  datatype Tally = Tally(failures: nat, at: Time, jitter: Jitter)

  const NONE := Tally(0, 0, 0.5)

  // The step ends its caller without a key, other than by the backoff.
  ghost predicate Threw(u: Sys, e: Event)
    requires Enabled(u, e)
  {
    (e.Enter? || e.Resume?) && e.c in Apply(u, e).callers && Apply(u, e).callers[e.c].Answered? &&
    (Apply(u, e).callers[e.c].answer.NoKey? || Apply(u, e).callers[e.c].answer.FetchFailed?)
  }

  // A key, or a failure met with a usable set, forgets everything; a fetch that failed is counted the first time
  // someone hears of it without one.
  ghost function TallyAfter(n: Tally, u: Sys, h: History, e: Event): Tally
    requires Enabled(u, e)
  {
    if e.Return? then n.(failures := 0)
    else if !Threw(u, e) then n
    else if Usable(h, e.r.caught) then n.(failures := 0)
    else if e.Resume? && Apply(u, e).callers[e.c].answer.FetchFailed? && u.callers[e.c].Waiting?
            && u.callers[e.c].fetch !in h.counted then
      Tally(n.failures + 1, e.r.counted, e.r.jitter)
    else n
  }

  ghost function TallyOf(s: Sys, es: seq<Event>): Tally
  {
    if es == [] then NONE
    else
      var u := Exec(s, es[..|es| - 1]);
      if Enabled(u, es[|es| - 1]) then
        TallyAfter(TallyOf(s, es[..|es| - 1]), u, Past(s, es[..|es| - 1]), es[|es| - 1])
      else TallyOf(s, es[..|es| - 1])
  }

  // The moment the window of the latest counted failure is over.
  function WindowEnd(n: Tally): real
    requires n.failures > 0
  {
    n.at as real + B.Schedule(n.failures) as real * n.jitter
  }

  ghost predicate TallyMatches(u: Sys, n: Tally)
  {
    && u.gate.failures == n.failures
    && u.gate.retryAt == if n.failures == 0 then None else Some(WindowEnd(n))
  }

  lemma CountedWindow(n: nat, t: Time, jitter: Jitter)
    ensures t as real + Delay(n + 1, jitter) == WindowEnd(Tally(n + 1, t, jitter))
  {
    B.NodeDelayIs(n + 1);
  }

  lemma TallyStep(u: Sys, h: History, n: Tally, e: Event)
    requires Inv(u) && Enabled(u, e) && Tallied(u, h) && CountKept(u, h) && TallyMatches(u, n)
    ensures TallyMatches(Apply(u, e), TallyAfter(n, u, h, e))
  {
    if e.Resume? && u.fetches[u.callers[e.c].fetch].Failed? {
      var f := u.callers[e.c].fetch;
      assert WaitsInPlace(u, f);
      CountedIsLatest(u, h, f);
      CountedWindow(n.failures, e.r.counted, e.r.jitter);
    }
  }

  // Only the latest request can still be heard of, so it has been counted exactly if it is the one counted last.
  lemma CountedIsLatest(u: Sys, h: History, f: nat)
    requires CountKept(u, h) && f == |u.fetches| - 1
    ensures f in h.counted <==> u.gate.lastCounted == Some(f)
  {
    Increasing(h.counted);
    if f in h.counted {
      var i :| 0 <= i < |h.counted| && h.counted[i] == f;
      assert FailedAt(u, h.counted[|h.counted| - 1]);
      assert h.counted[i] <= h.counted[|h.counted| - 1];
    }
  }

  lemma {:induction false} TallyIsTheHistory(window: nat, start: Time, es: seq<Event>)
    requires Run(Init(window, start), es)
    ensures TallyMatches(Exec(Init(window, start), es), TallyOf(Init(window, start), es))
  {
    if es != [] {
      var s, pre := Init(window, start), es[..|es| - 1];
      TallyIsTheHistory(window, start, pre);
      RunKeeps(window, start, pre);
      TallyStep(Exec(s, pre), Past(s, pre), TallyOf(s, pre), es[|es| - 1]);
    }
  }

  predicate BackedOff(n: Tally, t: Time)
  {
    n.failures > 0 && (t as real) < WindowEnd(n)
  }

  // ---- what each step tells its caller ----

  lemma OthersAreLeftAlone(u: Sys, e: Event, d: nat)
    requires Enabled(u, e) && (e.End? || e.c != d)
    ensures d in Apply(u, e).callers <==> d in u.callers
    ensures d in u.callers ==> Apply(u, e).callers[d] == u.callers[d]
  {
  }

  // What a reload comes to: the request that is out, a refusal by the window, or a request of its own.
  ghost predicate ReloadTold(told: Caller, h: History, window: nat, kid: string, last: bool, r: Readings)
  {
    if RequestIsOut(h) then told.Waiting? && told.fetch == |h.starts| - 1 && told.kid == kid && told.last == last
    else if Limited(h, window, r.judged, r.compared) then told == Answered(kid, NoKey)
    else told == Waiting(kid, |h.starts|, last)
  }

  // A lookup: turned away while the backoff runs; else on to import the key that the set has; else a reload, its last
  // chance if a usable set lacks the kid.
  ghost predicate EntryTold(u: Sys, h: History, n: Tally, c: nat, kid: string, r: Readings, key: nat)
    requires Enabled(u, Enter(c, kid, r))
  {
    var told := Apply(u, Enter(c, kid, r)).callers[c];
    && (told == Answered(kid, InBackoff) <==> BackedOff(n, r.entered))
    && (told == Importing(kid, key) <==> !BackedOff(n, r.entered) && Hits(h, kid, r.looked, key))
    && (!BackedOff(n, r.entered) && Misses(h, kid, r.looked) ==>
          ReloadTold(told, h, u.window, kid, Usable(h, r.looked), r))
  }

  lemma EntriesAreTold(window: nat, start: Time, es: seq<Event>, c: nat, kid: string, r: Readings, key: nat)
    requires Run(Init(window, start), es) && Enabled(Exec(Init(window, start), es), Enter(c, kid, r))
    ensures var s := Init(window, start);
            EntryTold(Exec(s, es), Past(s, es), TallyOf(s, es), c, kid, r, key)
  {
    var s := Init(window, start);
    RunKeeps(window, start, es);
    TallyIsTheHistory(window, start, es);
    EntryFrom(s, Exec(s, es), Past(s, es), TallyOf(s, es), c, kid, r, key);
  }

  lemma EntryFrom(s: Sys, u: Sys, h: History, n: Tally, c: nat, kid: string, r: Readings, key: nat)
    requires Inv(u) && Enabled(u, Enter(c, kid, r)) && Tallied(u, h) && StartsKept(s, u, h) && TallyMatches(u, n)
    requires s.lastAttempt.None?
    ensures EntryTold(u, h, n, c, kid, r, key)
  {
    if u.cache.Some? {
      KeyForIsTheFirstFiled(u.cache.value.set_, kid, key);
    }
    assert BackingOff(u.gate, r.entered) <==> BackedOff(n, r.entered);
    ReloadIs(s, u, h, c, kid, Fresh(u.cache, r.looked), r);
  }

  lemma ReloadIs(s: Sys, u: Sys, h: History, c: nat, kid: string, last: bool, r: Readings)
    requires Inv(u) && Tallied(u, h) && StartsKept(s, u, h) && s.lastAttempt.None?
    ensures ReloadTold(Reload(u.(now := r.counted), c, kid, last, r).callers[c], h, u.window, kid, last, r)
  {
  }

  // A waiter's turn: it fails with its fetch; else the set that brought is looked in, and if that lacks the kid one
  // more reload is tried, unless that was it.
  ghost predicate TurnTold(u: Sys, es: seq<Event>, h: History, c: nat, r: Readings, key: nat)
    requires Enabled(u, Resume(c, r))
  {
    var w, told := u.callers[c], Apply(u, Resume(c, r)).callers[c];
    match OutcomeOf(es, w.fetch)
    case Unknown => false
    case Empty => told == Answered(w.kid, FetchFailed)
    case With(ks) =>
      && (told == Importing(w.kid, key) <==> Files(ks, w.kid, key))
      && (Lacks(ks, w.kid) && w.last ==> told == Answered(w.kid, NoKey))
      && (Lacks(ks, w.kid) && !w.last ==> ReloadTold(told, h, u.window, w.kid, true, r))
  }

  lemma TurnsAreTold(window: nat, start: Time, es: seq<Event>, c: nat, r: Readings, key: nat)
    requires Run(Init(window, start), es) && Enabled(Exec(Init(window, start), es), Resume(c, r))
    ensures TurnTold(Exec(Init(window, start), es), es, Past(Init(window, start), es), c, r, key)
  {
    var s := Init(window, start);
    var u := Exec(s, es);
    RunKeeps(window, start, es);
    OutcomesMatch(window, start, es, u.callers[c].fetch);
    TurnFrom(s, u, es, Past(s, es), c, r, key);
  }

  lemma TurnFrom(s: Sys, u: Sys, es: seq<Event>, h: History, c: nat, r: Readings, key: nat)
    requires Inv(u) && Enabled(u, Resume(c, r)) && Tallied(u, h) && StartsKept(s, u, h) && s.lastAttempt.None?
    requires OutcomeMatches(u, es, u.callers[c].fetch)
    ensures TurnTold(u, es, h, c, r, key)
  {
    assert SeesItsSet(u, c);
    if u.cache.Some? {
      KeyForIsTheFirstFiled(u.cache.value.set_, u.callers[c].kid, key);
    }
    ReloadIs(s, u, h, c, u.callers[c].kid, true, r);
  }

  // An imported key is what its caller gets.
  lemma ImportersAreTold(u: Sys, c: nat)
    requires Enabled(u, Return(c))
    ensures var w := u.callers[c];
            w.Importing? && Apply(u, Return(c)).callers[c] == Answered(w.kid, Found(w.key))
  {
  }

  // ---- every key ----

  predicate Holds(w: Caller, kid: string, key: nat)
  {
    w == Importing(kid, key) || w == Answered(kid, Found(key))
  }

  // The step finds the key for its caller: in the set brought last, younger than 300 s, or in the one its own fetch
  // brought.
  ghost predicate Gives(u: Sys, es: seq<Event>, h: History, e: Event, c: nat, kid: string, key: nat)
  {
    match e
    case Enter(d, k, r) => d == c && k == kid && Hits(h, kid, r.looked, key)
    case Resume(d, r) =>
      && d == c && c in u.callers && u.callers[c].Waiting? && u.callers[c].kid == kid
      && OutcomeOf(es, u.callers[c].fetch).With? && Files(OutcomeOf(es, u.callers[c].fetch).ks, kid, key)
    case _ => false
  }

  lemma GivenByTheLastStep(window: nat, start: Time, pre: seq<Event>, e: Event, c: nat, kid: string, key: nat)
    requires Run(Init(window, start), pre) && Enabled(Exec(Init(window, start), pre), e)
    requires var u := Exec(Init(window, start), pre); !(c in u.callers && Holds(u.callers[c], kid, key))
    requires var v := Apply(Exec(Init(window, start), pre), e); c in v.callers && Holds(v.callers[c], kid, key)
    ensures Gives(Exec(Init(window, start), pre), pre, Past(Init(window, start), pre), e, c, kid, key)
  {
    var s := Init(window, start);
    match e
    case Enter(d, k, r) =>
      EntriesAreTold(window, start, pre, d, k, r, key);
      GivenByEntry(Exec(s, pre), pre, Past(s, pre), TallyOf(s, pre), e, c, kid, key);
    case Resume(d, r) =>
      TurnsAreTold(window, start, pre, d, r, key);
      GivenByTurn(Exec(s, pre), pre, Past(s, pre), e, c, kid, key);
    case _ =>
  }

  lemma GivenByEntry(
      u: Sys, es: seq<Event>, h: History, n: Tally, e: Event, c: nat, kid: string, key: nat)
    requires Enabled(u, e) && e.Enter? && EntryTold(u, h, n, e.c, e.kid, e.r, key)
    requires !(c in u.callers && Holds(u.callers[c], kid, key))
    requires c in Apply(u, e).callers && Holds(Apply(u, e).callers[c], kid, key)
    ensures Gives(u, es, h, e, c, kid, key)
  {
    if e.c != c {
      OthersAreLeftAlone(u, e, c);
    }
  }

  lemma GivenByTurn(u: Sys, es: seq<Event>, h: History, e: Event, c: nat, kid: string, key: nat)
    requires Enabled(u, e) && e.Resume? && TurnTold(u, es, h, e.c, e.r, key)
    requires !(c in u.callers && Holds(u.callers[c], kid, key))
    requires c in Apply(u, e).callers && Holds(Apply(u, e).callers[c], kid, key)
    ensures Gives(u, es, h, e, c, kid, key)
  {
    if e.c != c {
      OthersAreLeftAlone(u, e, c);
    }
  }

  // Every key any caller imports or holds in any reachable state was found for it by such a step of its own.
  lemma {:induction false} FoundKeysWereGiven(
      window: nat, start: Time, es: seq<Event>, c: nat, kid: string, key: nat) returns (j: nat)
    requires Run(Init(window, start), es)
    requires var u := Exec(Init(window, start), es); c in u.callers && Holds(u.callers[c], kid, key)
    ensures j < |es|
    ensures var s := Init(window, start);
            Gives(Exec(s, es[..j]), es[..j], Past(s, es[..j]), es[j], c, kid, key)
  {
    var pre, e := es[..|es| - 1], es[|es| - 1];
    var u := Exec(Init(window, start), pre);
    if c in u.callers && Holds(u.callers[c], kid, key) {
      j := FoundKeysWereGiven(window, start, pre, c, kid, key);
      assert pre[..j] == es[..j];
    } else {
      GivenByTheLastStep(window, start, pre, e, c, kid, key);
      j := |es| - 1;
    }
  }

  // Nobody is ever stuck: whoever is owed a turn can take it, an import can end, and once all turns are taken a new
  // lookup can come in and the request that is out can end either way.
  lemma NobodyIsStuck(window: nat, start: Time, es: seq<Event>, c: nat, kid: string, r: Readings)
    requires Run(Init(window, start), es) && InOrder(r, Exec(Init(window, start), es).now)
    ensures var u := Exec(Init(window, start), es);
            && (c in u.callers ==>
                  match u.callers[c]
                  case Waiting(_, f, _) => f < |u.fetches| && (!u.fetches[f].Out? ==> Enabled(u, Resume(c, r)))
                  case Importing(_, _) => Enabled(u, Return(c))
                  case Answered(_, _) => true)
            && (Settled(u) && c !in u.callers ==> Enabled(u, Enter(c, kid, r)))
            && (Settled(u) && RequestIsOut(Past(Init(window, start), es)) ==>
                  && u.fetches != []
                  && Enabled(u, End(|u.fetches| - 1, None, r.entered))
                  && Enabled(u, End(|u.fetches| - 1, Some([Jwk(kid, 0)]), r.entered)))
  {
    RunKeeps(window, start, es);
    var u := Exec(Init(window, start), es);
    if c in u.callers && u.callers[c].Waiting? {
      assert WaitsInPlace(u, u.callers[c].fetch);
    }
  }
}
