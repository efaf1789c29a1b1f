/** When a served configuration is young, and when it is not. */
module ConfigurationManagersResults {
  import opened Common
  import opened ConfigurationManagers
  import opened Spacing

  // ---- calls that do not overlap ----

  lemma Younger(s: Sys, s': Sys, cfg: Cfg, cfg': Cfg, t: Time)
    requires StampsInOrder(s') && s.stamps <= s'.stamps && cfg < |s.stamps| && cfg <= cfg' < |s'.stamps|
    requires Young(s, cfg, t)
    ensures Young(s', cfg', t)
  {
    assert s'.stamps[cfg] == s.stamps[cfg];
  }

  predicate OfRefetch(e: Event)
  {
    e.Request? || e.Fetch? || e.Publish? || e.End?
  }

  // What is served for a configuration never gets older while a refetch goes through its steps.
  lemma ServedStaysYoung(s: Sys, e: Event, cfg: Cfg, t: Time)
    requires Ordered(s) && Enabled(s, e) && OfRefetch(e)
    requires cfg < |s.stamps| && (s.cached.Some? ==> s.cached.value <= cfg)
    requires Young(s, ServedFor(s.published, cfg), t)
    ensures WellFormed(Apply(s, e)) && Young(Apply(s, e), ServedFor(Apply(s, e).published, cfg), t)
  {
    WellFormedStep(s, e);
    StampsStayInOrder(s, e);
    Younger(s, Apply(s, e), ServedFor(s.published, cfg), ServedFor(Apply(s, e).published, cfg), t);
  }

  lemma RefetchKeepsCall(s: Sys, e: Event, k: Call)
    requires Ordered(s) && Enabled(s, e) && OfRefetch(e) && CallKnown(s, k) && CallIsSafe(s, k)
    ensures WellFormed(Apply(s, e)) && CallKnown(Apply(s, e), k) && CallIsSafe(Apply(s, e), k)
  {
    WellFormedStep(s, e);
    StampsStayInOrder(s, e);
    match k
    case Checked(t) => if s.slots[s.current].held.Some? { ServedStaysYoung(s, e, s.slots[s.current].held.value, t); }
    case Using(t, _) => if s.slots[s.current].held.Some? { ServedStaysYoung(s, e, s.slots[s.current].held.value, t); }
    case Got(t, _, cfg) => ServedStaysYoung(s, e, cfg, t);
    case Marked(t, cfg) => ServedStaysYoung(s, e, cfg, t);
    case Written(t, cfg) => ServedStaysYoung(s, e, cfg, t);
    case Returned(t, cfg) => Younger(s, Apply(s, e), cfg, cfg, t);
    case Threw =>
  }

  lemma RefetchKeepsOrder(s: Sys, e: Event)
    requires Ordered(s) && Enabled(s, e) && OfRefetch(e)
    ensures Ordered(Apply(s, e))
  {
    WellFormedStep(s, e);
  }

  lemma OverStaysSafe(s: Sys, s': Sys, k: Call)
    requires WellFormed(s) && WellFormed(s') && s.stamps <= s'.stamps
    requires Over(k) && CallKnown(s, k) && CallIsSafe(s, k)
    ensures CallKnown(s', k) && CallIsSafe(s', k)
  {
    if k.Returned? {
      Younger(s, s', k.result, k.result, k.t);
    }
  }

  // The one call in progress takes its step; the others are over.
  lemma CallerStep(s: Sys, e: Event)
    requires Safe(s) && Enabled(s, e) && !OfRefetch(e) && (e.Check? ==> Idle(s))
    ensures Ordered(Apply(s, e))
    ensures CallIsSafe(Apply(s, e), Apply(s, e).calls[e.c])
    ensures forall d :: d in s.calls && d != e.c ==> Over(s.calls[d])
  {
    WellFormedStep(s, e);
    match e
    case Check(c, t) => CheckStep(s, c, t);
    case Get(c, ok, t) => GetStep(s, c, ok, t);
    case _ => LaterStep(s, e);
  }

  lemma LaterStep(s: Sys, e: Event)
    requires Safe(s) && Enabled(s, e) && (e.Take? || e.Mark? || e.Write? || e.Return?)
    ensures Ordered(Apply(s, e))
    ensures CallIsSafe(Apply(s, e), Apply(s, e).calls[e.c])
  {
    WellFormedStep(s, e);
    assert CallIsSafe(s, s.calls[e.c]);
  }

  lemma CheckStep(s: Sys, c: nat, t: Time)
    requires Safe(s) && Enabled(s, Check(c, t)) && Idle(s)
    ensures Ordered(Apply(s, Check(c, t)))
    ensures CallIsSafe(Apply(s, Check(c, t)), Checked(t))
  {
    WellFormedStep(s, Check(c, t));
  }

  lemma GetStep(s: Sys, c: nat, ok: bool, t: Time)
    requires Safe(s) && Enabled(s, Get(c, ok, t))
    ensures Ordered(Apply(s, Get(c, ok, t)))
    ensures CallIsSafe(Apply(s, Get(c, ok, t)), Apply(s, Get(c, ok, t)).calls[c])
  {
    WellFormedStep(s, Get(c, ok, t));
    assert CallIsSafe(s, s.calls[c]);
  }

  lemma RefetchIsSafe(s: Sys, e: Event)
    requires Safe(s) && Enabled(s, e) && OfRefetch(e)
    ensures Safe(Apply(s, e))
  {
    var s' := Apply(s, e);
    RefetchKeepsOrder(s, e);
    forall c | c in s'.calls ensures CallIsSafe(s', s'.calls[c]) { RefetchKeepsCall(s, e, s.calls[c]); }
  }

  lemma CallerIsSafe(s: Sys, e: Event)
    requires Safe(s) && Enabled(s, e) && !OfRefetch(e) && (e.Check? ==> Idle(s))
    ensures Safe(Apply(s, e))
  {
    var s' := Apply(s, e);
    CallerStep(s, e);
    StampsStayInOrder(s, e);
    forall c | c in s'.calls ensures CallIsSafe(s', s'.calls[c]) {
      if c != e.c { OverStaysSafe(s, s', s.calls[c]); }
    }
    IdleAfterCaller(s, e);
  }

  lemma IdleAfterCaller(s: Sys, e: Event)
    requires Safe(s) && Enabled(s, e) && !OfRefetch(e) && WellFormed(Apply(s, e))
    ensures Idle(Apply(s, e)) ==> SlotMatches(Apply(s, e))
  {
    assert e.c in Apply(s, e).calls;
    if e.Get? || e.Return? {
      assert CallIsSafe(s, s.calls[e.c]);
    }
  }

  lemma {:induction false} RunIsSafe(interval: int, start: Time, es: seq<Event>)
    requires Run(Init(interval, start), es) && OneCallAtATime(Init(interval, start), es)
    ensures Safe(Exec(Init(interval, start), es))
  {
    if es != [] {
      RunIsSafe(interval, start, es[..|es| - 1]);
      var u, e := Exec(Init(interval, start), es[..|es| - 1]), es[|es| - 1];
      if OfRefetch(e) { RefetchIsSafe(u, e); } else { CallerIsSafe(u, e); }
    }
  }

  // Calls that do not overlap, refetches completing at any point: nothing that is 300 s old or more at the expiry check
  // is ever returned, and a refetched configuration is returned only in place of the one the current manager still
  // holds.
  lemma ReturnedIsYoung(interval: int, start: Time, es: seq<Event>, c: nat)
    requires Run(Init(interval, start), es) && OneCallAtATime(Init(interval, start), es)
    requires Enabled(Exec(Init(interval, start), es), Return(c))
    ensures var u := Exec(Init(interval, start), es);
            var t, cfg, result := u.calls[c].t, u.calls[c].cfg, Apply(u, Return(c)).calls[c].result;
            && t - u.stamps[result] < 300 * SECOND
            && u.slots[u.current].held == Some(cfg)
            && (result == cfg || u.published == Some(Published(cfg, result)))
  {
    var u := Exec(Init(interval, start), es);
    RunIsSafe(interval, start, es);
    assert CallIsSafe(u, u.calls[c]);
  }

  // ---- the refetch window ----

  ghost function DecisionBy(u: Sys, e: Event): seq<Time>
  {
    if e.Request? && Decides(u.cached, u.running, u.decided, u.interval, e.t) then [e.t] else []
  }

  ghost function Decisions(s: Sys, es: seq<Event>): seq<Time>
  {
    if es == [] then [] else Decisions(s, es[..|es| - 1]) + DecisionBy(Exec(s, es[..|es| - 1]), es[|es| - 1])
  }

  ghost function EndedRefetches(es: seq<Event>): nat
  {
    if es == [] then 0 else EndedRefetches(es[..|es| - 1]) + (if es[|es| - 1].End? then 1 else 0)
  }

  // Refetches are decided a whole interval apart, failed ones included, one at a time, and none before something was
  // served. This holds of every run, overlapping calls or not.
  lemma {:induction false} RefetchesAreApart(interval: int, start: Time, es: seq<Event>)
    requires Run(Init(interval, start), es)
    ensures Exec(Init(interval, start), es).interval == interval
    ensures Refetched(Exec(Init(interval, start), es), Decisions(Init(interval, start), es), EndedRefetches(es))
  {
    if es != [] {
      var pre := es[..|es| - 1];
      RefetchesAreApart(interval, start, pre);
      var s := Init(interval, start);
      RefetchedStep(Exec(s, pre), es[|es| - 1], Decisions(s, pre), EndedRefetches(pre));
    }
  }

  ghost predicate Refetched(u: Sys, ds: seq<Time>, ended: nat)
  {
    && Spaced(ds, u.interval)
    && u.decided == (if ds == [] then None else Some(ds[|ds| - 1]))
    && |ds| == ended + (if u.running.Some? then 1 else 0)
    && (u.cached.None? ==> ds == [])
  }

  lemma RefetchedStep(u: Sys, e: Event, ds: seq<Time>, ended: nat)
    requires Enabled(u, e) && Refetched(u, ds, ended)
    ensures Apply(u, e).interval == u.interval
    ensures Refetched(Apply(u, e), ds + DecisionBy(u, e), ended + (if e.End? then 1 else 0))
  {
    if DecisionBy(u, e) == [] {
      assert ds + [] == ds;
    }
  }

  // ---- any state ----

  // One whole call with nothing in between: checked at t, its manager answering at t2.
  function WholeCall(c: nat, t: Time, t2: Time): seq<Event>
  {
    [Check(c, t), Take(c), Get(c, true, t2), Mark(c), Write(c), Return(c)]
  }

  // The current manager holds a configuration that has had its time, and it is not the one the last call to write left
  // behind: the guard of the restart fails.
  predicate RestartMissed(s: Sys, t: Time)
    requires s.current < |s.slots|
    requires s.slots[s.current].held.Some? ==> ServedFor(s.published, s.slots[s.current].held.value) < |s.stamps|
  {
    var slot := s.slots[s.current];
    && slot.held.Some?
    && Expired(s.stamps, ServedFor(s.published, slot.held.value), t)
    && !(s.cached == slot.held && slot.served == slot.held)
  }

  lemma Extend(s: Sys, es: seq<Event>, e: Event)
    requires Run(s, es) && Enabled(Exec(s, es), e)
    ensures Run(s, es + [e]) && Exec(s, es + [e]) == Apply(Exec(s, es), e)
  {
    assert (es + [e])[..|es|] == es;
  }

  lemma Then(s: Sys, es: seq<Event>, e: Event) returns (more: seq<Event>)
    requires Run(s, es) && Enabled(Exec(s, es), e)
    ensures more == es + [e]
    ensures Run(s, more) && Exec(s, more) == Apply(Exec(s, es), e) && WellFormed(Exec(s, more))
  {
    more := es + [e];
    Extend(s, es, e);
    WellFormedStep(Exec(s, es), e);
  }

  function Finished(u: Sys, c: nat): Sys
    requires c in u.calls && u.calls[c].Got? && u.calls[c].slot < |u.slots|
  {
    var k := u.calls[c];
    u.(slots := u.slots[k.slot := Slot(Some(k.cfg), Some(k.cfg))], cached := Some(k.cfg),
       calls := u.calls[c := Returned(k.t, ServedFor(u.published, k.cfg))])
  }

  lemma FinishedState(u: Sys, c: nat)
    requires WellFormed(u) && c in u.calls && u.calls[c].Got? && CallKnown(u, u.calls[c])
    ensures Enabled(u, Mark(c)) && Enabled(Apply(u, Mark(c)), Write(c))
    ensures Enabled(Apply(Apply(u, Mark(c)), Write(c)), Return(c))
    ensures Apply(Apply(Apply(u, Mark(c)), Write(c)), Return(c)) == Finished(u, c)
    ensures WellFormed(Finished(u, c))
  {
    var u1 := Apply(u, Mark(c));
    WellFormedStep(u, Mark(c));
    var u2 := Apply(u1, Write(c));
    WellFormedStep(u1, Write(c));
    var u3 := Apply(u2, Return(c));
    WellFormedStep(u2, Return(c));
    assert u3.calls == Finished(u, c).calls;
  }

  // From the manager's answer to the return.
  lemma FinishCall(s: Sys, es: seq<Event>, c: nat) returns (more: seq<Event>)
    requires Run(s, es) && WellFormed(Exec(s, es))
    requires c in Exec(s, es).calls && Exec(s, es).calls[c].Got? && CallKnown(Exec(s, es), Exec(s, es).calls[c])
    ensures more == es + [Mark(c), Write(c), Return(c)] && Run(s, more)
    ensures Exec(s, more) == Finished(Exec(s, es), c) && WellFormed(Exec(s, more))
  {
    FinishedState(Exec(s, es), c);
    more := es + [Mark(c)];
    Extend(s, es, Mark(c));
    Extend(s, more, Write(c));
    more := more + [Write(c)];
    Extend(s, more, Return(c));
    more := more + [Return(c)];
  }

  ghost function Begun(s: Sys, c: nat, t: Time): Sys
    requires Enabled(s, Check(c, t))
  {
    var v := Apply(s, Check(c, t));
    v.(calls := s.calls[c := Using(t, v.current)])
  }

  lemma BegunState(u: Sys, c: nat, t: Time)
    requires Enabled(u, Check(c, t))
    ensures Enabled(Apply(u, Check(c, t)), Take(c)) && Apply(Apply(u, Check(c, t)), Take(c)) == Begun(u, c, t)
    ensures WellFormed(Begun(u, c, t))
  {
    var v := Apply(u, Check(c, t));
    WellFormedStep(u, Check(c, t));
    WellFormedStep(v, Take(c));
    assert Apply(v, Take(c)).calls == Begun(u, c, t).calls;
  }

  // The check of a call and its choice of a manager.
  lemma StartCall(s: Sys, es: seq<Event>, c: nat, t: Time) returns (more: seq<Event>)
    requires Run(s, es) && WellFormed(Exec(s, es)) && Enabled(Exec(s, es), Check(c, t))
    ensures more == es + [Check(c, t), Take(c)] && Run(s, more)
    ensures Exec(s, more) == Begun(Exec(s, es), c, t) && WellFormed(Exec(s, more))
  {
    BegunState(Exec(s, es), c, t);
    Extend(s, es, Check(c, t));
    more := es + [Check(c, t)];
    Extend(s, more, Take(c));
    more := more + [Take(c)];
  }

  lemma AnswerState(u: Sys, c: nat, t2: Time)
    requires WellFormed(u) && c in u.calls && u.calls[c].Using? && u.now <= t2
    ensures var w := Apply(u, Get(c, true, t2));
            WellFormed(w) && c in w.calls && w.calls[c].Got? && w.calls[c].t == u.calls[c].t && CallKnown(w, w.calls[c])
  {
    WellFormedStep(u, Get(c, true, t2));
  }

  // A whole call on any state.
  lemma CallThrough(s: Sys, es: seq<Event>, c: nat, t: Time, t2: Time) returns (more: seq<Event>)
    requires Run(s, es) && WellFormed(Exec(s, es)) && Enabled(Exec(s, es), Check(c, t)) && t <= t2
    ensures more == es + WholeCall(c, t, t2) && Run(s, more) && WellFormed(Exec(s, more))
    ensures WellFormed(Begun(Exec(s, es), c, t))
    ensures var w := Apply(Begun(Exec(s, es), c, t), Get(c, true, t2));
            && c in w.calls && w.calls[c].Got? && CallKnown(w, w.calls[c]) && w.calls[c].t == t
            && Exec(s, more) == Finished(w, c)
  {
    more := StartCall(s, es, c, t);
    var u := Exec(s, more);
    AnswerState(u, c, t2);
    Extend(s, more, Get(c, true, t2));
    more := more + [Get(c, true, t2)];
    more := FinishCall(s, more, c);
    WholeCallIs(es, c, t, t2);
  }

  lemma WholeCallIs(es: seq<Event>, c: nat, t: Time, t2: Time)
    ensures es + [Check(c, t), Take(c)] + [Get(c, true, t2)] + [Mark(c), Write(c), Return(c)] ==
            es + WholeCall(c, t, t2)
  {
  }

  // For every state at all, however calls have overlapped before: a whole call returns something younger than 300 s at
  // its check exactly when it does not miss its restart.
  lemma AWholeCallIsYoungExactlyWhen(s: Sys, c: nat, t: Time, t2: Time)
    requires WellFormed(s) && c !in s.calls && s.now <= t <= t2
    ensures var u := Exec(s, WholeCall(c, t, t2));
            && Run(s, WholeCall(c, t, t2))
            && c in u.calls && u.calls[c].Returned? && u.calls[c].t == t && u.calls[c].result < |u.stamps|
            && (t - u.stamps[u.calls[c].result] < 300 * SECOND <==> !RestartMissed(s, t))
  {
    var es := CallThrough(s, [], c, t, t2);
    assert es == WholeCall(c, t, t2);
    AnswerIsYoungExactlyWhen(s, c, t, t2);
  }

  lemma AnswerIsYoungExactlyWhen(s: Sys, c: nat, t: Time, t2: Time)
    requires WellFormed(s) && c !in s.calls && s.now <= t <= t2
    ensures WellFormed(Begun(s, c, t))
    ensures var w := Apply(Begun(s, c, t), Get(c, true, t2));
            && c in w.calls && w.calls[c].Got?
            && var result := ServedFor(w.published, w.calls[c].cfg);
            && result < |w.stamps|
            && (t - w.stamps[result] < 300 * SECOND <==> !RestartMissed(s, t))
  {
    BegunState(s, c, t);
  }

  // ---- calls that overlap ----

  // A concrete miss. A call checked at 299 s has its configuration but has not written it back when another, at 300 s,
  // starts over and loads a new one; then the first writes the old one back. Nobody calls until 600 s: that call judges
  // the old configuration, finds the current manager never served it, and is handed the other one, 300 s old.
  lemma OverlappingCallsCanMissARestart()
    ensures exists es, c ::
              var u := Exec(Init(30 * SECOND, 0), es);
              && Run(Init(30 * SECOND, 0), es)
              && c in u.calls && u.calls[c].Returned? && u.calls[c].result < |u.stamps|
              && u.calls[c].t - u.stamps[u.calls[c].result] >= 300 * SECOND
  {
    var s := Init(30 * SECOND, 0);
    var es := StaleWriteBack();
    es := CallThrough(s, es, 3, 600 * SECOND, 600 * SECOND);
    var u := Exec(s, es);
    assert u.calls[3] == Returned(600 * SECOND, 1);
  }

  const X := Some(0 as Cfg)
  const Y := Some(1 as Cfg)

  lemma FirstCall() returns (es: seq<Event>)
    ensures var s := Init(30 * SECOND, 0);
            var u := Exec(s, es);
            && Run(s, es) && WellFormed(u)
            && u == s.(slots := [Slot(X, X)], cached := X, stamps := [0], calls := u.calls) && u.calls.Keys == {0}
  {
    es := CallThrough(Init(30 * SECOND, 0), [], 0, 0, 0);
    assert Exec(Init(30 * SECOND, 0), es).slots == [Slot(X, X)];
  }

  // After a load at 0, a call checked at 299 s is handed its configuration.
  lemma HandedCall() returns (es: seq<Event>)
    ensures var s := Init(30 * SECOND, 0);
            var u := Exec(s, es);
            && Run(s, es) && WellFormed(u)
            && u == s.(slots := [Slot(X, X)], cached := X, stamps := [0], calls := u.calls, now := 299 * SECOND)
            && u.calls.Keys == {0, 1} && u.calls[1] == Got(299 * SECOND, 0, 0)
  {
    var s := Init(30 * SECOND, 0);
    es := FirstCall();
    es := StartCall(s, es, 1, 299 * SECOND);
    es := Then(s, es, Get(1, true, 299 * SECOND));
    assert Exec(s, es).slots == [Slot(X, X)];
  }

  // It stops short of writing back.
  lemma StalledCall() returns (es: seq<Event>)
    ensures var s := Init(30 * SECOND, 0);
            var u := Exec(s, es);
            && Run(s, es) && WellFormed(u)
            && u == s.(slots := [Slot(X, X)], cached := X, stamps := [0], calls := u.calls, now := 299 * SECOND)
            && u.calls.Keys == {0, 1} && u.calls[1] == Marked(299 * SECOND, 0)
  {
    var s := Init(30 * SECOND, 0);
    es := HandedCall();
    es := Then(s, es, Mark(1));
    assert Exec(s, es).slots == [Slot(X, X)];
  }

  // At 300 s another call starts over on a second slot.
  lemma SecondSlot() returns (es: seq<Event>)
    ensures var s := Init(30 * SECOND, 0);
            var u := Exec(s, es);
            && Run(s, es) && WellFormed(u)
            && u == s.(slots := [Slot(X, X), Slot(Y, Y)], current := 1, cached := Y, stamps := [0, 300 * SECOND],
                       calls := u.calls, now := 300 * SECOND)
            && u.calls.Keys == {0, 1, 2} && u.calls[1] == Marked(299 * SECOND, 0)
  {
    var s := Init(30 * SECOND, 0);
    es := StalledCall();
    es := CallThrough(s, es, 2, 300 * SECOND, 300 * SECOND);
    var u := Exec(s, es);
    assert u.slots == [Slot(X, X), Slot(Y, Y)] && u.stamps == [0, 300 * SECOND];
  }

  // And the stalled call writes the first slot's configuration back.
  lemma StaleWriteBack() returns (es: seq<Event>)
    ensures var s := Init(30 * SECOND, 0);
            var u := Exec(s, es);
            && Run(s, es) && WellFormed(u)
            && u == s.(slots := [Slot(X, X), Slot(Y, Y)], current := 1, cached := X, stamps := [0, 300 * SECOND],
                       calls := u.calls, now := 300 * SECOND)
            && u.calls.Keys == {0, 1, 2}
  {
    var s := Init(30 * SECOND, 0);
    es := SecondSlot();
    es := Then(s, es, Write(1));
  }
}
