/** What the .NET managers return, and when a refetched configuration is what they return. */
module ConfigurationManagersAnswers {
  import opened Common
  import opened ConfigurationManagers
  import opened ConfigurationManagersResults

  // ---- one whole call ----

  // The configuration that stands for cfg while p is published has had its time.
  predicate HadItsTime(s: Sys, cfg: Cfg, t: Time)
    requires FieldsKnown(s) && cfg < |s.stamps|
  {
    if s.published.Some? && s.published.value.over == cfg then t - s.stamps[s.published.value.newer] >= 300 * SECOND
    else t - s.stamps[cfg] >= 300 * SECOND
  }

  // The call finds the current manager to have served what was returned last, and that has had its time.
  predicate StartsOver(s: Sys, t: Time)
    requires s.current < |s.slots| && FieldsKnown(s)
  {
    s.cached.Some? && s.slots[s.current].served == s.cached && HadItsTime(s, s.cached.value, t)
  }

  // The manager's own answer: what it holds, or a configuration loaded for the call.
  predicate OwnAnswer(s: Sys, u: Sys, t: Time, t2: Time, own: Cfg)
    requires s.current < |s.slots| && FieldsKnown(s)
  {
    if StartsOver(s, t) || s.slots[s.current].held.None? then own == |s.stamps| && u.stamps == s.stamps + [t2]
    else s.slots[s.current].held == Some(own) && u.stamps == s.stamps
  }

  // A call with nothing in between, from any state: what it returns is the refetch published last exactly if that was
  // decided against the manager's own answer, and is that answer if not. It leaves the answer behind as what was
  // served.
  lemma AWholeCallReturns(s: Sys, c: nat, t: Time, t2: Time) returns (own: Cfg)
    requires WellFormed(s) && c !in s.calls && s.now <= t <= t2
    ensures Run(s, WholeCall(c, t, t2))
    ensures var u := Exec(s, WholeCall(c, t, t2));
            && OwnAnswer(s, u, t, t2, own)
            && c in u.calls
            && (s.published.Some? && s.published.value.over == own ==>
                  u.calls[c] == Returned(t, s.published.value.newer))
            && (!(s.published.Some? && s.published.value.over == own) ==> u.calls[c] == Returned(t, own))
            && u.published == s.published && u.running == s.running && u.cached == Some(own)
            && u.current < |u.slots| && u.slots[u.current] == Slot(Some(own), Some(own))
            && u.current == (if StartsOver(s, t) then |s.slots| else s.current)
  {
    var es := CallThrough(s, [], c, t, t2);
    assert es == WholeCall(c, t, t2);
    own := OwnIs(s, c, t, t2);
  }

  lemma BegunIs(s: Sys, c: nat, t: Time)
    requires WellFormed(s) && c !in s.calls && s.now <= t
    ensures var b := Begun(s, c, t);
            && WellFormed(b) && b.calls == s.calls[c := Using(t, b.current)] && b.now == t
            && b.published == s.published && b.running == s.running && b.stamps == s.stamps && b.cached == s.cached
            && (if StartsOver(s, t) then b.slots == s.slots + [Slot(None, None)] && b.current == |s.slots|
                else b.slots == s.slots && b.current == s.current)
  {
    BegunState(s, c, t);
  }

  lemma OwnIs(s: Sys, c: nat, t: Time, t2: Time) returns (own: Cfg)
    requires WellFormed(s) && c !in s.calls && s.now <= t <= t2
    ensures WellFormed(Begun(s, c, t)) && Enabled(Begun(s, c, t), Get(c, true, t2))
    ensures var w := Apply(Begun(s, c, t), Get(c, true, t2));
            && OwnAnswer(s, w, t, t2, own)
            && c in w.calls && w.published == s.published && w.running == s.running
            && w.current == (if StartsOver(s, t) then |s.slots| else s.current)
            && w.current < |w.slots| && w.calls[c] == Got(t, w.current, own)
  {
    BegunIs(s, c, t);
    own := Apply(Begun(s, c, t), Get(c, true, t2)).calls[c].cfg;
  }

  // A manager that throws ends the call, and nothing is kept of it.
  lemma AThrowEndsTheCall(s: Sys, c: nat, t: Time)
    requires Enabled(s, Get(c, false, t))
    ensures Apply(s, Get(c, false, t)) == s.(calls := s.calls[c := Threw], now := t)
  {
  }

  lemma OthersAreLeftAlone(s: Sys, e: Event, d: nat)
    requires Enabled(s, e) && (OfRefetch(e) || e.c != d)
    ensures d in Apply(s, e).calls <==> d in s.calls
    ensures d in s.calls ==> Apply(s, e).calls[d] == s.calls[d]
  {
  }

  // ---- refetches, from the history of the run ----

  // The index of the latest of each kind of step, -1 before the first.
  ghost function LastDecision(s: Sys, es: seq<Event>): (j: int)
    ensures -1 <= j < |es|
  {
    if es == [] then -1
    else if DecisionBy(Exec(s, es[..|es| - 1]), es[|es| - 1]) != [] then |es| - 1
    else LastDecision(s, es[..|es| - 1])
  }

  function LastFetch(es: seq<Event>): (j: int)
    ensures -1 <= j < |es|
    ensures j >= 0 ==> es[j].Fetch?
  {
    if es == [] then -1 else if es[|es| - 1].Fetch? then |es| - 1 else LastFetch(es[..|es| - 1])
  }

  function LastPublish(es: seq<Event>): (j: int)
    ensures -1 <= j < |es|
  {
    if es == [] then -1 else if es[|es| - 1].Publish? then |es| - 1 else LastPublish(es[..|es| - 1])
  }

  function LastEnd(es: seq<Event>): (j: int)
    ensures -1 <= j < |es|
  {
    if es == [] then -1 else if es[|es| - 1].End? then |es| - 1 else LastEnd(es[..|es| - 1])
  }

  // What had been returned when the latest refetch was decided, and the number of what was fetched last.
  ghost function DecidedAgainst(s: Sys, es: seq<Event>): Option<Cfg>
  {
    if LastDecision(s, es) < 0 then None else Exec(s, es[..LastDecision(s, es)]).cached
  }

  ghost function FetchedLast(s: Sys, es: seq<Event>): Option<Cfg>
  {
    if LastFetch(es) < 0 then None else Some(|Exec(s, es[..LastFetch(es)]).stamps|)
  }

  ghost predicate RunningMatches(s: Sys, es: seq<Event>)
  {
    var u := Exec(s, es);
    && (u.running.Some? <==> LastEnd(es) < LastDecision(s, es))
    && (u.running.Some? ==>
          && DecidedAgainst(s, es) == Some(u.running.value.against)
          && (u.running.value.fetched.Some? <==> LastDecision(s, es) < LastFetch(es))
          && (u.running.value.fetched.Some? ==> u.running.value.fetched == FetchedLast(s, es)))
  }

  // A refetch runs from its decision to its end, against what had been returned when it was decided, and holds what was
  // fetched since.
  lemma {:induction false} RunningIsTheHistory(interval: int, start: Time, es: seq<Event>)
    requires Run(Init(interval, start), es)
    ensures RunningMatches(Init(interval, start), es)
  {
    if es != [] {
      RunningIsTheHistory(interval, start, es[..|es| - 1]);
      RunningStep(Init(interval, start), es);
    }
  }

  lemma RunningStep(s: Sys, es: seq<Event>)
    requires es != [] && Run(s, es) && RunningMatches(s, es[..|es| - 1])
    ensures RunningMatches(s, es)
  {
    LastsStay(s, es);
    RunningAfter(Exec(s, es[..|es| - 1]), es[|es| - 1]);
  }

  lemma RunningAfter(u: Sys, e: Event)
    requires Enabled(u, e)
    ensures DecisionBy(u, e) != [] ==> u.running.None? && u.cached.Some?
    ensures Apply(u, e).running ==
            if DecisionBy(u, e) != [] then Some(Refetch(u.cached.value, None))
            else if e.Fetch? then Some(Refetch(u.running.value.against, Some(|u.stamps|)))
            else if e.End? then None
            else u.running
  {
  }

  // The latest steps of a prefix are found at the same places.
  lemma LastsStay(s: Sys, es: seq<Event>)
    requires es != []
    ensures var pre := es[..|es| - 1];
            && (LastDecision(s, pre) >= 0 ==> es[..LastDecision(s, pre)] == pre[..LastDecision(s, pre)])
            && (LastFetch(pre) >= 0 ==> es[..LastFetch(pre)] == pre[..LastFetch(pre)])
  {
  }

  // What is published is what the latest Publish put there: fetched last before it, over what its refetch was decided
  // against.
  ghost predicate PublishedMatches(s: Sys, es: seq<Event>)
  {
    var u, p := Exec(s, es), LastPublish(es);
    if p < 0 then u.published.None?
    else
      && DecidedAgainst(s, es[..p]).Some? && FetchedLast(s, es[..p]).Some?
      && u.published == Some(Published(DecidedAgainst(s, es[..p]).value, FetchedLast(s, es[..p]).value))
  }

  lemma {:induction false} PublishedIsTheHistory(interval: int, start: Time, es: seq<Event>)
    requires Run(Init(interval, start), es)
    ensures PublishedMatches(Init(interval, start), es)
  {
    if es != [] {
      PublishedIsTheHistory(interval, start, es[..|es| - 1]);
      RunningIsTheHistory(interval, start, es[..|es| - 1]);
      PublishedStep(Init(interval, start), es);
    }
  }

  lemma PublishedStep(s: Sys, es: seq<Event>)
    requires es != [] && Run(s, es) && PublishedMatches(s, es[..|es| - 1]) && RunningMatches(s, es[..|es| - 1])
    ensures PublishedMatches(s, es)
  {
    var pre, e := es[..|es| - 1], es[|es| - 1];
    var p := LastPublish(pre);
    PublishedAfter(Exec(s, pre), e);
    if e.Publish? {
      assert es[..LastPublish(es)] == pre;
    } else if p >= 0 {
      assert LastPublish(es) == p && es[..p] == pre[..p];
    }
  }

  lemma PublishedAfter(u: Sys, e: Event)
    requires Enabled(u, e)
    ensures Apply(u, e).published == if e.Publish? then Some(PublishedBy(u.running.value)) else u.published
  {
  }

  // Whatever else went on: while the refetch published last was decided against what the current manager holds, and
  // what it fetched is younger than 300 s, the next whole call returns what it fetched.
  lemma ARefetchIsServed(interval: int, start: Time, es: seq<Event>, c: nat, t: Time, t2: Time)
    requires Run(Init(interval, start), es) && LastPublish(es) >= 0
    requires var s, p := Init(interval, start), LastPublish(es);
             var u := Exec(s, es);
             && WellFormed(u) && c !in u.calls && u.now <= t <= t2
             && u.slots[u.current].held.Some? && u.slots[u.current].held == DecidedAgainst(s, es[..p])
             && LastFetch(es[..p]) >= 0 && t - es[LastFetch(es[..p])].t < 300 * SECOND
    ensures var s, p := Init(interval, start), LastPublish(es);
            var v := Exec(Exec(s, es), WholeCall(c, t, t2));
            && Run(Exec(s, es), WholeCall(c, t, t2))
            && FetchedLast(s, es[..p]).Some? && c in v.calls
            && v.calls[c] == Returned(t, FetchedLast(s, es[..p]).value)
  {
    var s, p := Init(interval, start), LastPublish(es);
    var u := Exec(s, es);
    PublishedIsTheHistory(interval, start, es);
    var b := LastFetch(es[..p]);
    assert es[..p][..b] == es[..b] && es[..p][b] == es[b];
    StampIsTheFetch(interval, start, es, b);
    ServedWhileYoung(u, c, t, t2, u.published.value.over, u.published.value.newer);
  }

  lemma ServedWhileYoung(u: Sys, c: nat, t: Time, t2: Time, over: Cfg, newer: Cfg)
    requires WellFormed(u) && c !in u.calls && u.now <= t <= t2
    requires u.published == Some(Published(over, newer)) && u.slots[u.current].held == Some(over)
    requires t - u.stamps[newer] < 300 * SECOND
    ensures Run(u, WholeCall(c, t, t2))
    ensures var v := Exec(u, WholeCall(c, t, t2)); c in v.calls && v.calls[c] == Returned(t, newer)
  {
    assert SlotKnown(u, u.slots[u.current]);
    var own := AWholeCallReturns(u, c, t, t2);
  }

  // What a fetch brought is stamped with the moment it completed, for good.
  lemma {:induction false} StampIsTheFetch(interval: int, start: Time, es: seq<Event>, b: nat)
    requires Run(Init(interval, start), es) && b < |es| && es[b].Fetch?
    ensures var s := Init(interval, start);
            var y := |Exec(s, es[..b]).stamps|;
            y < |Exec(s, es).stamps| && Exec(s, es).stamps[y] == es[b].t
  {
    var s, pre, e := Init(interval, start), es[..|es| - 1], es[|es| - 1];
    if b < |pre| {
      StampIsTheFetch(interval, start, pre, b);
      assert pre[..b] == es[..b];
      StampsStayInOrder(Exec(s, pre), e);
    } else {
      assert es[..b] == pre;
    }
  }

  // Nobody is ever stuck: each call and the refetch have their next step in every well-formed state.
  lemma NobodyIsStuck(s: Sys, c: nat, t: Time)
    requires WellFormed(s) && s.now <= t
    ensures c !in s.calls ==> Enabled(s, Check(c, t))
    ensures c in s.calls ==>
              match s.calls[c]
              case Checked(_) => Enabled(s, Take(c))
              case Using(_, _) => Enabled(s, Get(c, true, t)) && Enabled(s, Get(c, false, t))
              case Got(_, _, _) => Enabled(s, Mark(c))
              case Marked(_, _) => Enabled(s, Write(c))
              case Written(_, _) => Enabled(s, Return(c))
              case _ => true
    ensures Enabled(s, Request(t))
    ensures s.running.Some? && s.running.value.fetched.None? ==> Enabled(s, Fetch(t)) && Enabled(s, End)
    ensures s.running.Some? && s.running.value.fetched.Some? ==> Enabled(s, Publish) || Enabled(s, End)
  {
  }

  // ---- when a refetch is decided ----

  // Some call has written back what it was given.
  predicate SomethingServed(es: seq<Event>)
  {
    es != [] && (SomethingServed(es[..|es| - 1]) || es[|es| - 1].Write?)
  }

  lemma {:induction false} ServedIsTheHistory(interval: int, start: Time, es: seq<Event>)
    requires Run(Init(interval, start), es)
    ensures Exec(Init(interval, start), es).cached.Some? <==> SomethingServed(es)
  {
    if es != [] {
      ServedIsTheHistory(interval, start, es[..|es| - 1]);
    }
  }

  // A request decides a refetch exactly if something has been served, none is running, and the latest decision is an
  // interval old.
  lemma RequestsDecideExactlyWhen(interval: int, start: Time, es: seq<Event>, t: Time)
    requires Run(Init(interval, start), es) && Enabled(Exec(Init(interval, start), es), Request(t))
    ensures var s := Init(interval, start);
            var u, ds := Exec(s, es), Decisions(s, es);
            && (DecisionBy(u, Request(t)) == [t] <==>
                  && SomethingServed(es) && LastDecision(s, es) <= LastEnd(es)
                  && (ds == [] || t - ds[|ds| - 1] >= interval))
            && Apply(u, Request(t)) ==
               (if DecisionBy(u, Request(t)) == [] then u.(now := t)
                else u.(decided := Some(t), running := Some(Refetch(u.cached.value, None)), now := t))
  {
    ServedIsTheHistory(interval, start, es);
    RunningIsTheHistory(interval, start, es);
    RefetchesAreApart(interval, start, es);
  }
}
