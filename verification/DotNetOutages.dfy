/**
 The .NET fetches while every one of them fails: how far apart they are, from any state of a process on, however many
 may be out at a time.
 */
module DotNetOutages {
  import opened Common
  import opened DotNetBackoff
  import B = Backoff

  // ---- the history of a run ----

  // A fetch that went out: whose, and when.
  datatype Went = Went(a: nat, t: Time)

  predicate GoesOut(u: Sys, e: Event)
  {
    e.Ask? && In(u, e.a, Begun) && Remaining(u.inner, e.t) <= 0
  }

  // What has gone out since s.
  function Wents(s: Sys, es: seq<Event>): seq<Went>
  {
    if es == [] then [] else After(Wents(s, es[..|es| - 1]), Exec(s, es[..|es| - 1]), es[|es| - 1])
  }

  function After(ws: seq<Went>, u: Sys, e: Event): seq<Went>
  {
    ws + (if GoesOut(u, e) then [Went(e.a, e.t)] else [])
  }

  // The retriever's clock: its latest reading, or what it was before.
  function Clock(before: Option<Time>, es: seq<Event>): Option<Time>
  {
    if es == [] then before else ClockAfter(Clock(before, es[..|es| - 1]), es[|es| - 1])
  }

  function ClockAfter(clock: Option<Time>, e: Event): Option<Time>
  {
    if e.Ask? || e.End? then Some(e.t) else clock
  }

  predicate Reached(clock: Option<Time>, t: Time)
  {
    clock.Some? && t <= clock.value
  }

  predicate InTime(clock: Option<Time>, e: Event)
  {
    (e.Ask? || e.End?) && clock.Some? ==> clock.value <= e.t
  }

  // The clock does not go back.
  ghost predicate Ordered(before: Option<Time>, es: seq<Event>)
  {
    es != [] ==> Ordered(before, es[..|es| - 1]) && InTime(Clock(before, es[..|es| - 1]), es[|es| - 1])
  }

  function Outs(u: Sys): set<nat>
  {
    set a | a in u.attempts && u.attempts[a].phase.Out?
  }

  // In every state the run goes through, at most m fetches are out, and none of the run has brought a configuration.
  ghost predicate Outage(s: Sys, es: seq<Event>, m: nat)
  {
    |Outs(Exec(s, es))| <= m &&
    (es != [] ==> Outage(s, es[..|es| - 1], m) && !(es[|es| - 1].End? && es[|es| - 1].f.Accepted?))
  }

  // ---- where an outage may begin ----

  // The retriever's counter stands at n failures in a row, with a window drawn for that many.
  ghost predicate Sound(u: Sys, n: nat, clock: Option<Time>)
  {
    && Counts(u.inner, n) && WindowIsRight(u, n)
    && (u.inner.lastFailure.Some? ==> Reached(clock, u.inner.lastFailure.value))
  }

  function Next(n: nat, e: Event): nat
  {
    if !e.End? then n else if e.f.Accepted? then 0 else n + 1
  }

  lemma SoundStep(u: Sys, n: nat, clock: Option<Time>, e: Event)
    requires Enabled(u, e) && Sound(u, n, clock) && InTime(clock, e)
    ensures Sound(Apply(u, e), Next(n, e), ClockAfter(clock, e))
  {
    WindowStep(u, e, n);
    CountNone(u.inner);
    if e.End? {
      CountOne(u.inner, n, e.t, e.jitter);
    }
  }

  // So it does in every state of every process, fetches of all outcomes behind it.
  lemma {:induction false} ReachableIsSound(depth: nat, es: seq<Event>)
    requires Run(Start(depth), es) && Ordered(None, es)
    ensures Sound(Exec(Start(depth), es), FailedInARow(es), Clock(None, es))
  {
    if es != [] {
      var pre := es[..|es| - 1];
      ReachableIsSound(depth, pre);
      SoundStep(Exec(Start(depth), pre), FailedInARow(pre), Clock(None, pre), es[|es| - 1]);
    }
  }

  // ---- what an outage keeps ----

  // A fetch that has gone out still is, or the latest failure is no older than it.
  predicate OutOrFailed(u: Sys, w: Went)
  {
    && w.a in u.attempts && !u.attempts[w.a].phase.Begun? && !u.attempts[w.a].phase.RefusedAtOnce?
    && (u.attempts[w.a].phase.Out? || (u.inner.lastFailure.Some? && w.t <= u.inner.lastFailure.value))
  }

  ghost predicate Known(u: Sys, ws: seq<Went>, clock: Option<Time>)
  {
    && (u.inner.lastFailure.Some? ==> Reached(clock, u.inner.lastFailure.value))
    && (forall i :: 0 <= i < |ws| ==> OutOrFailed(u, ws[i]) && Reached(clock, ws[i].t))
    && (forall i, j :: 0 <= i < j < |ws| ==> ws[i].a != ws[j].a && ws[i].t <= ws[j].t)
  }

  lemma KnownStep(u: Sys, ws: seq<Went>, clock: Option<Time>, e: Event)
    requires Enabled(u, e) && Known(u, ws, clock) && !(e.End? && e.f.Accepted?) && InTime(clock, e)
    ensures Known(Apply(u, e), After(ws, u, e), ClockAfter(clock, e))
  {
    var v := Apply(u, e);
    forall i | 0 <= i < |ws| ensures OutOrFailed(v, ws[i]) {
      StaysOutOrFailed(u, ws[i], clock, e);
    }
  }

  lemma StaysOutOrFailed(u: Sys, w: Went, clock: Option<Time>, e: Event)
    requires Enabled(u, e) && OutOrFailed(u, w) && Reached(clock, w.t) && !(e.End? && e.f.Accepted?) && InTime(clock, e)
    requires u.inner.lastFailure.Some? ==> Reached(clock, u.inner.lastFailure.value)
    ensures OutOrFailed(Apply(u, e), w)
  {
  }

  lemma OutsBecome(u: Sys, e: Event)
    requires Enabled(u, e)
    ensures Outs(Apply(u, e)) == if GoesOut(u, e) then Outs(u) + {e.a} else if e.End? then Outs(u) - {e.a} else Outs(u)
  {
    var v := Apply(u, e);
    forall a | a != e.a ensures a in Outs(v) <==> a in Outs(u) {
      assert a in v.attempts <==> a in u.attempts;
    }
  }

  // How many are out.
  lemma OutsStep(u: Sys, e: Event)
    requires Enabled(u, e)
    ensures |Outs(Apply(u, e))| == |Outs(u)| + (if GoesOut(u, e) then 1 else if e.End? then -1 else 0)
  {
    OutsBecome(u, e);
    assert GoesOut(u, e) ==> e.a !in Outs(u);
    assert e.End? ==> e.a in Outs(u);
  }

  lemma {:induction false} RunSound(s: Sys, k: nat, before: Option<Time>, es: seq<Event>, m: nat)
    requires Sound(s, k, before) && Run(s, es) && Ordered(before, es) && Outage(s, es, m)
    ensures Sound(Exec(s, es), k + FailedInARow(es), Clock(before, es))
  {
    if es != [] {
      var pre := es[..|es| - 1];
      RunSound(s, k, before, pre, m);
      SoundStep(Exec(s, pre), k + FailedInARow(pre), Clock(before, pre), es[|es| - 1]);
    }
  }

  lemma {:induction false} RunOuts(s: Sys, es: seq<Event>, m: nat)
    requires Run(s, es) && Outage(s, es, m)
    ensures FailedInARow(es) + |Outs(Exec(s, es))| == |Wents(s, es)| + |Outs(s)|
  {
    if es != [] {
      RunOuts(s, es[..|es| - 1], m);
      OutsStep(Exec(s, es[..|es| - 1]), es[|es| - 1]);
    }
  }

  lemma {:induction false} RunKnown(s: Sys, k: nat, before: Option<Time>, es: seq<Event>, m: nat)
    requires Sound(s, k, before) && Run(s, es) && Ordered(before, es) && Outage(s, es, m)
    ensures Known(Exec(s, es), Wents(s, es), Clock(before, es))
  {
    if es != [] {
      var pre := es[..|es| - 1];
      RunKnown(s, k, before, pre, m);
      KnownStep(Exec(s, pre), Wents(s, pre), Clock(before, pre), es[|es| - 1]);
    }
  }

  // ---- the bound ----

  function Ids(ws: seq<Went>): set<nat>
  {
    if ws == [] then {} else Ids(ws[..|ws| - 1]) + {ws[|ws| - 1].a}
  }

  lemma {:induction false} IdsAre(ws: seq<Went>, a: nat)
    requires a in Ids(ws)
    ensures exists i :: 0 <= i < |ws| && ws[i].a == a
  {
    if a != ws[|ws| - 1].a {
      IdsAre(ws[..|ws| - 1], a);
      var i :| 0 <= i < |ws| - 1 && ws[..|ws| - 1][i].a == a;
      assert ws[i].a == a;
    }
  }

  lemma {:induction false} DistinctIds(ws: seq<Went>)
    requires forall i, j :: 0 <= i < j < |ws| ==> ws[i].a != ws[j].a
    ensures |Ids(ws)| == |ws|
  {
    if ws != [] {
      var pre, w := ws[..|ws| - 1], ws[|ws| - 1];
      DistinctIds(pre);
      if w.a in Ids(pre) {
        IdsAre(pre, w.a);
      }
    }
  }

  lemma {:induction false} Fits(xs: set<nat>, ys: set<nat>)
    requires xs <= ys
    ensures |xs| <= |ys|
  {
    if xs != {} {
      var x :| x in xs;
      Fits(xs - {x}, ys - {x});
    }
  }

  // With fewer than m out, one of the last m to have gone out has failed since.
  lemma OneHasFailed(u: Sys, ws: seq<Went>, clock: Option<Time>, m: nat)
    requires Known(u, ws, clock) && |Outs(u)| < m <= |ws|
    ensures u.inner.lastFailure.Some? && ws[|ws| - m].t <= u.inner.lastFailure.value
  {
    var last := ws[|ws| - m..];
    DistinctIds(last);
    if Ids(last) <= Outs(u) {
      Fits(Ids(last), Outs(u));
    } else {
      var a :| a in Ids(last) && a !in Outs(u);
      IdsAre(last, a);
      var i :| 0 <= i < |last| && last[i].a == a;
      assert OutOrFailed(u, ws[|ws| - m + i]);
      assert ws[|ws| - m].t <= ws[|ws| - m + i].t;
    }
  }

  // Each fetch waits for the window of the failures there were m fetches before it.
  ghost predicate Gapped(ws: seq<Went>, m: nat)
    requires m > 0
  {
    forall i :: m <= i < |ws| ==> ws[i].t - ws[i - m].t >= B.Schedule(i - m + 1) / 2
  }

  lemma GapStep(u: Sys, ws: seq<Went>, clock: Option<Time>, m: nat, n: nat, e: Event)
    requires Known(u, ws, clock) && GoesOut(u, e) && 0 < m <= |ws| && |Outs(u)| < m && |ws| <= n + |Outs(u)|
    requires 0 < n < 0x8000_0000 && WindowIsRight(u, n)
    ensures e.t - ws[|ws| - m].t >= B.Schedule(|ws| - m + 1) / 2
  {
    OneHasFailed(u, ws, clock, m);
    B.ScheduleGrows(|ws| - m + 1, n);
  }

  // k failures in a row are on record at s, and fetches may be out already: the counter has room for them and the
  // run's.
  predicate Fitting(s: Sys, k: nat, ws: seq<Went>)
  {
    k + |Outs(s)| + |ws| <= 0x8000_0000
  }

  lemma {:induction false} FetchesAreGapped(s: Sys, k: nat, before: Option<Time>, es: seq<Event>, m: nat)
    requires m > 0 && Sound(s, k, before)
    requires Run(s, es) && Ordered(before, es) && Outage(s, es, m) && Fitting(s, k, Wents(s, es))
    ensures Gapped(Wents(s, es), m)
  {
    if es != [] {
      var pre, e := es[..|es| - 1], es[|es| - 1];
      FetchesAreGapped(s, k, before, pre, m);
      RunSound(s, k, before, pre, m);
      RunOuts(s, pre, m);
      RunKnown(s, k, before, pre, m);
      OutsStep(Exec(s, pre), e);
      var u, ws := Exec(s, pre), Wents(s, pre);
      if GoesOut(u, e) && m <= |ws| {
        GapStep(u, ws, Clock(before, pre), m, k + FailedInARow(pre), e);
      }
    }
  }

  lemma {:induction false} Multiples(k: nat, m: nat)
    requires m > 0 && k > 0
    ensures k * m == (k - 1) * m + m && (k - 1) * m >= k - 1
  {
    if k > 1 {
      Multiples(k - 1, m);
    }
  }

  lemma {:induction false} GapsAddUp(ws: seq<Went>, m: nat, k: nat)
    requires m > 0 && Gapped(ws, m) && k * m < |ws|
    ensures ws[k * m].t - ws[0].t >= B.LeastWait(0, k)
    decreases k
  {
    if k > 0 {
      Multiples(k, m);
      GapsAddUp(ws, m, k - 1);
      OneMoreGap(ws, m, (k - 1) * m, k);
    }
  }

  lemma OneMoreGap(ws: seq<Went>, m: nat, i: nat, k: nat)
    requires m > 0 && k > 0 && Gapped(ws, m) && i + m < |ws| && i >= k - 1
    ensures ws[i + m].t - ws[i].t >= B.Schedule(k) / 2
  {
    B.ScheduleGrows(k, i + 1);
  }

  // From any sound state on, cold or serving keys, with failures on record or fetches out: while every fetch fails and
  // at most m are out at a time, on either path and whatever callers there are, k * m fetches after the first comes one
  // no sooner than the least waits of k failures in a row. A single cold load and a single refetch at a time make m
  // two; one at a time makes it the bound of the other SDKs.
  lemma OutageBound(s: Sys, n: nat, before: Option<Time>, es: seq<Event>, m: nat, k: nat)
    requires m > 0 && Sound(s, n, before)
    requires Run(s, es) && Ordered(before, es) && Outage(s, es, m) && Fitting(s, n, Wents(s, es))
    requires k * m < |Wents(s, es)|
    ensures var ws := Wents(s, es);
            && ws[k * m].t - ws[0].t >= B.LeastWait(0, k)
            && (k >= 5 ==> ws[k * m].t - ws[0].t >= 3_100_000_000 + 2_500_000_000 * (k - 5))
  {
    FetchesAreGapped(s, n, before, es, m);
    GapsAddUp(Wents(s, es), m, k);
    B.LeastWaitOutage(Max(k, 5));
  }

  // In particular after any history of a process: whatever was fetched, failed and refused before.
  lemma AnyOutageIsBounded(depth: nat, history: seq<Event>, es: seq<Event>, m: nat, k: nat)
    requires Run(Start(depth), history) && Ordered(None, history)
    requires var s := Exec(Start(depth), history);
             && m > 0 && Run(s, es) && Ordered(Clock(None, history), es) && Outage(s, es, m)
             && Fitting(s, FailedInARow(history), Wents(s, es)) && k * m < |Wents(s, es)|
    ensures var ws := Wents(Exec(Start(depth), history), es);
            && ws[k * m].t - ws[0].t >= B.LeastWait(0, k)
            && (k >= 5 ==> ws[k * m].t - ws[0].t >= 3_100_000_000 + 2_500_000_000 * (k - 5))
  {
    ReachableIsSound(depth, history);
    OutageBound(Exec(Start(depth), history), FailedInARow(history), Clock(None, history), es, m, k);
  }
}
