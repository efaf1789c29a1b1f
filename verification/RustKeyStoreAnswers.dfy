/** What every caller of the Rust key store is told at every step, from the history of the run. */
module RustKeyStoreAnswers {
  import opened Common
  import opened KeySets
  import opened RustKeyStore
  import opened RustKeyStoreResults
  import B = Backoff

  // ---- what a run has left behind ----

  // What the fetch that wrote the cache last brought.
  function CacheOf(es: seq<Event>): Option<Cached>
  {
    if LastWriter(es).None? then None else Brought(es, LastWriter(es).value)
  }

  predicate Usable(es: seq<Event>, t: Time)
  {
    CacheOf(es).Some? && t - CacheOf(es).value.loadedAt < 300 * SECOND
  }

  predicate Misses(es: seq<Event>, kid: string, t: Time)
  {
    Usable(es, t) ==> Lacks(CacheOf(es).value.set_, kid)
  }

  ghost predicate Hits(es: seq<Event>, kid: string, t: Time, key: nat)
  {
    Usable(es, t) && Files(CacheOf(es).value.set_, kid, key)
  }

  lemma LookupIs(minRefetch: nat, start: Time, es: seq<Event>, kid: string, t: Time, key: nat)
    requires Run(Init(minRefetch, start), es)
    ensures var u := Exec(Init(minRefetch, start), es);
            && (Usable(es, t) <==> FreshSet(u.cache, t).Some?)
            && (Misses(es, kid, t) <==> Lookup(u.cache, kid, t).None?)
            && (Hits(es, kid, t, key) <==> Lookup(u.cache, kid, t) == Some(key))
  {
    HistoryMatches(minRefetch, start, es, 0);
    if CacheOf(es).Some? {
      KeyForIsTheFirstFiled(CacheOf(es).value.set_, kid, key);
    }
  }

  predicate Wrote(es: seq<Event>, f: nat)
  {
    es != [] && (Wrote(es[..|es| - 1], f) || (es[|es| - 1].Write? && es[|es| - 1].f == f))
  }

  // A task has written exactly while its set is in, and it finishes with a set exactly if it has.
  ghost predicate TaskMatches(u: Sys, es: seq<Event>, f: nat)
  {
    if f >= |u.tasks| then !Wrote(es, f)
    else
      match u.tasks[f]
      case Fetching => !Wrote(es, f)
      case Stamped(_, _) => !Wrote(es, f)
      case Written(_) => Wrote(es, f)
      case Finished(b) => b.Some? <==> Wrote(es, f)
  }

  lemma {:induction false} TasksMatch(minRefetch: nat, start: Time, es: seq<Event>, f: nat)
    requires Run(Init(minRefetch, start), es)
    ensures TaskMatches(Exec(Init(minRefetch, start), es), es, f)
  {
    if es != [] {
      TasksMatch(minRefetch, start, es[..|es| - 1], f);
    }
  }

  // Fetches that finished without having written, since the last one that had.
  function FailedInARow(es: seq<Event>): nat
  {
    if es == [] then 0
    else
      var n, e := FailedInARow(es[..|es| - 1]), es[|es| - 1];
      if !e.Finish? then n else if Wrote(es[..|es| - 1], e.f) then 0 else n + 1
  }

  // The index of the latest outcome recorded, -1 before the first.
  function LastFinish(es: seq<Event>): (j: int)
    ensures -1 <= j < |es|
    ensures j >= 0 ==> es[j].Finish?
  {
    if es == [] then -1 else if es[|es| - 1].Finish? then |es| - 1 else LastFinish(es[..|es| - 1])
  }

  ghost predicate GateMatches(u: Sys, es: seq<Event>)
  {
    var n, j := FailedInARow(es), LastFinish(es);
    && u.gate.failures == Min(n, U32_MAX)
    && (if n == 0 then u.gate.lastFailure.None?
        else
          && j >= 0 && u.gate.lastFailure == Some(es[j].t)
          && u.gate.backoff == B.JitteredNearest(B.Schedule(n), es[j].jitter))
  }

  lemma GateStep(u: Sys, pre: seq<Event>, e: Event)
    requires Enabled(u, e) && GateMatches(u, pre) && (e.Finish? ==> TaskMatches(u, pre, e.f))
    ensures GateMatches(Apply(u, e), pre + [e])
  {
    assert (pre + [e])[..|pre|] == pre;
    if e.Finish? {
      var n := FailedInARow(pre);
      B.RustDelayIs(Min(n + 1, U32_MAX));
      SaturatedSchedule(n + 1);
    } else {
      assert LastFinish(pre + [e]) == LastFinish(pre);
    }
  }

  // The counter is the number of fetches that failed in a row, and the window the one the latest of them drew.
  lemma {:induction false} GateIsTheHistory(minRefetch: nat, start: Time, es: seq<Event>)
    requires Run(Init(minRefetch, start), es)
    ensures GateMatches(Exec(Init(minRefetch, start), es), es)
  {
    if es != [] {
      var pre, e := es[..|es| - 1], es[|es| - 1];
      GateIsTheHistory(minRefetch, start, pre);
      if e.Finish? {
        TasksMatch(minRefetch, start, pre, e.f);
      }
      GateStep(Exec(Init(minRefetch, start), pre), pre, e);
      assert pre + [e] == es;
    }
  }

  predicate JustStamped(stamps: seq<Time>, minRefetch: nat, t: Time)
  {
    stamps != [] && t - stamps[|stamps| - 1] < minRefetch
  }

  predicate JustFailed(es: seq<Event>, t: Time)
  {
    var n, j := FailedInARow(es), LastFinish(es);
    n > 0 && j >= 0 && t - es[j].t < B.JitteredNearest(B.Schedule(n), es[j].jitter)
  }

  // ---- what each step tells its caller ----

  lemma OthersAreLeftAlone(u: Sys, e: Event, d: nat)
    requires Enabled(u, e) && (e.Stamp? || e.Write? || e.Finish? || e.c != d)
    ensures d in Apply(u, e).callers <==> d in u.callers
    ensures d in u.callers ==> Apply(u, e).callers[d] == u.callers[d]
  {
  }

  // The lookup outside the gate answers with the key, or leaves its caller to take a turn.
  lemma FirstLookIsTold(minRefetch: nat, start: Time, es: seq<Event>, c: nat, kid: string, t: Time, key: nat)
    requires Run(Init(minRefetch, start), es) && Enabled(Exec(Init(minRefetch, start), es), Call(c, kid, t))
    ensures var told := Apply(Exec(Init(minRefetch, start), es), Call(c, kid, t)).callers[c];
            && (told == Answered(kid, Found(key)) <==> Hits(es, kid, t, key))
            && (told == Missed(kid) <==> Misses(es, kid, t))
  {
    LookupIs(minRefetch, start, es, kid, t, key);
  }

  // A turn with the gate, each outcome told from the run's history: the key; a refusal by the window, only with a
  // usable set that lacks the kid; a refusal by the backoff; or a fetch of the caller's own.
  ghost predicate TurnTold(u: Sys, es: seq<Event>, h: History, c: nat, r: Readings, key: nat)
    requires Enabled(u, Pass(c, r))
  {
    var kid, told := u.callers[c].kid, Apply(u, Pass(c, r)).callers[c];
    var misses := Misses(es, kid, r.looked);
    var limited := Usable(es, r.looked) && JustStamped(h.stamps, u.minRefetch, r.compared);
    && (told == Answered(kid, Found(key)) <==> Hits(es, kid, r.looked, key))
    && (told == Answered(kid, Limited) <==> misses && limited)
    && (told == Answered(kid, InBackoff) <==> misses && !limited && JustFailed(es, r.checked))
    && (told == Waiting(kid, |h.starts|) <==> misses && !limited && !JustFailed(es, r.checked))
  }

  lemma TurnsAreTold(minRefetch: nat, start: Time, es: seq<Event>, c: nat, r: Readings, key: nat)
    requires Run(Init(minRefetch, start), es) && Enabled(Exec(Init(minRefetch, start), es), Pass(c, r))
    ensures TurnTold(Exec(Init(minRefetch, start), es), es, Past(Init(minRefetch, start), es), c, r, key)
  {
    var u, h := Exec(Init(minRefetch, start), es), Past(Init(minRefetch, start), es);
    RunKeeps(Init(minRefetch, start), es);
    LookupIs(minRefetch, start, es, u.callers[c].kid, r.looked, key);
    GateIsTheHistory(minRefetch, start, es);
    TurnTable(u, c, r);
    assert WindowOpen(u.gate, u.minRefetch, r.compared) <==> JustStamped(h.stamps, u.minRefetch, r.compared);
  }

  lemma TurnTable(u: Sys, c: nat, r: Readings)
    requires Inv(u) && Enabled(u, Pass(c, r))
    ensures var kid := u.callers[c].kid;
            var hit := Lookup(u.cache, kid, r.looked);
            Apply(u, Pass(c, r)).callers[c] ==
            if hit.Some? then Answered(kid, Found(hit.value))
            else if FreshSet(u.cache, r.looked).Some? && WindowOpen(u.gate, u.minRefetch, r.compared) then
              Answered(kid, Limited)
            else if u.gate.lastFailure.Some? && r.checked - u.gate.lastFailure.value < u.gate.backoff then
              Answered(kid, InBackoff)
            else Waiting(kid, |u.tasks|)
  {
  }

  // The caller of a fetch hears of its failure, gets the key, or learns that the set it brought lacks the kid.
  lemma FetchersAreTold(minRefetch: nat, start: Time, es: seq<Event>, c: nat, key: nat)
    requires Run(Init(minRefetch, start), es) && Enabled(Exec(Init(minRefetch, start), es), Deliver(c))
    ensures var u := Exec(Init(minRefetch, start), es);
            var w, told := u.callers[c], Apply(u, Deliver(c)).callers[c];
            var b := Brought(es, w.task);
            && (told == Answered(w.kid, FetchFailed) <==> b.None?)
            && (told == Answered(w.kid, UnknownKid) <==> b.Some? && Lacks(b.value.set_, w.kid))
            && (told == Answered(w.kid, Found(key)) <==> b.Some? && Files(b.value.set_, w.kid, key))
  {
    var u := Exec(Init(minRefetch, start), es);
    var w := u.callers[c];
    HistoryMatches(minRefetch, start, es, w.task);
    if Brought(es, w.task).Some? {
      KeyForIsTheFirstFiled(Brought(es, w.task).value.set_, w.kid, key);
    }
  }

  lemma DroppingIsTold(u: Sys, c: nat)
    requires Enabled(u, Drop(c))
    ensures Apply(u, Drop(c)) == u.(callers := u.callers[c := Dropped])
  {
  }

  // ---- every key ----

  // The step gives its caller, asking for kid, this key.
  ghost predicate Gives(u: Sys, pre: seq<Event>, e: Event, c: nat, kid: string, key: nat)
  {
    match e
    case Call(d, k, t) => d == c && k == kid && Hits(pre, kid, t, key)
    case Pass(d, r) => d == c && c in u.callers && u.callers[c] == Missed(kid) && Hits(pre, kid, r.looked, key)
    case Deliver(d) =>
      && d == c && c in u.callers && u.callers[c].Waiting? && u.callers[c].kid == kid
      && Brought(pre, u.callers[c].task).Some? && Files(Brought(pre, u.callers[c].task).value.set_, kid, key)
    case _ => false
  }

  lemma GivenByTheLastStep(minRefetch: nat, start: Time, pre: seq<Event>, e: Event, c: nat, kid: string, key: nat)
    requires Run(Init(minRefetch, start), pre) && Enabled(Exec(Init(minRefetch, start), pre), e)
    requires var u := Exec(Init(minRefetch, start), pre); !(c in u.callers && u.callers[c].Answered?)
    requires var v := Apply(Exec(Init(minRefetch, start), pre), e);
             c in v.callers && v.callers[c] == Answered(kid, Found(key))
    ensures Gives(Exec(Init(minRefetch, start), pre), pre, e, c, kid, key)
  {
    match e
    case Call(d, k, t) => FirstLookIsTold(minRefetch, start, pre, d, k, t, key);
    case Pass(d, r) => TurnsAreTold(minRefetch, start, pre, d, r, key);
    case Deliver(d) => FetchersAreTold(minRefetch, start, pre, d, key);
    case _ =>
  }

  // Every key any caller holds in any reachable state was given to it by a step of its own: from the set written last,
  // then younger than 300 s, or from the set its own fetch brought.
  lemma {:induction false} FoundKeysWereGiven(
      minRefetch: nat, start: Time, es: seq<Event>, c: nat, kid: string, key: nat) returns (j: nat)
    requires Run(Init(minRefetch, start), es)
    requires var u := Exec(Init(minRefetch, start), es); c in u.callers && u.callers[c] == Answered(kid, Found(key))
    ensures j < |es| && Gives(Exec(Init(minRefetch, start), es[..j]), es[..j], es[j], c, kid, key)
  {
    var pre, e := es[..|es| - 1], es[|es| - 1];
    var u := Exec(Init(minRefetch, start), pre);
    if c in u.callers && u.callers[c].Answered? {
      AnswersStay(u, e, c);
      j := FoundKeysWereGiven(minRefetch, start, pre, c, kid, key);
      assert pre[..j] == es[..j];
    } else {
      GivenByTheLastStep(minRefetch, start, pre, e, c, kid, key);
      j := |es| - 1;
    }
  }

  lemma AnswersStay(u: Sys, e: Event, c: nat)
    requires Enabled(u, e) && c in u.callers && u.callers[c].Answered?
    ensures c in Apply(u, e).callers && Apply(u, e).callers[c] == u.callers[c]
  {
  }

  // Nobody is ever stuck: a caller takes its turn as soon as the gate is free, the caller of a fetch hears of it as
  // soon as it has finished, and each fetch has its own next step, whatever it came to.
  lemma NobodyIsStuck(
      minRefetch: nat, start: Time, es: seq<Event>, c: nat, f: nat, kid: string, t: Time, jitter: Jitter)
    requires Run(Init(minRefetch, start), es) && Exec(Init(minRefetch, start), es).now <= t
    ensures var u := Exec(Init(minRefetch, start), es);
            && (c !in u.callers ==> Enabled(u, Call(c, kid, t)))
            && (c in u.callers ==>
                  match u.callers[c]
                  case Missed(_) => (u.holder.None? ==> Enabled(u, Pass(c, AllAt(t)))) && Enabled(u, Drop(c))
                  case Waiting(_, g) =>
                    g < |u.tasks| && (u.tasks[g].Finished? ==> Enabled(u, Deliver(c))) && Enabled(u, Drop(c))
                  case Answered(_, _) => true
                  case Dropped => true)
            && (f < |u.tasks| ==>
                  match u.tasks[f]
                  case Fetching => Enabled(u, Stamp(f, t, [Jwk(kid, 0)])) && Enabled(u, Finish(f, t, jitter))
                  case Stamped(_, _) => Enabled(u, Write(f))
                  case Written(_) => Enabled(u, Finish(f, t, jitter))
                  case Finished(_) => true)
  {
    WaitersKnowTheirTask(minRefetch, start, es, c);
  }

  lemma {:induction false} WaitersKnowTheirTask(minRefetch: nat, start: Time, es: seq<Event>, c: nat)
    requires Run(Init(minRefetch, start), es)
    ensures var u := Exec(Init(minRefetch, start), es);
            c in u.callers && u.callers[c].Waiting? ==> u.callers[c].task < |u.tasks|
  {
    if es != [] {
      WaitersKnowTheirTask(minRefetch, start, es[..|es| - 1], c);
    }
  }
}
