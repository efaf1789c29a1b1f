/** How many events fit in a span of time when consecutive ones are kept apart. */
module Spacing {
  predicate Spaced(ts: seq<int>, gap: int)
  {
    forall i :: 0 < i < |ts| ==> ts[i] - ts[i - 1] >= gap
  }

  // The number of elements of ts in the closed span [from, from + length].
  function CountIn(ts: seq<int>, from: int, length: int): nat
  {
    if ts == [] then 0
    else
      CountIn(ts[..|ts| - 1], from, length) + (if from <= ts[|ts| - 1] <= from + length then 1 else 0)
  }

  lemma CountInSnoc(ts: seq<int>, t: int, from: int, length: int)
    ensures CountIn(ts + [t], from, length) == CountIn(ts, from, length) + (if from <= t <= from + length then 1 else 0)
  {
    assert (ts + [t])[..|ts|] == ts;
  }

  lemma {:induction false} CountedAreApart(ts: seq<int>, gap: int, from: int, length: int)
    requires Spaced(ts, gap) && gap > 0
    ensures var c := CountIn(ts, from, length);
            c > 0 ==> from + (c - 1) * gap <= ts[|ts| - 1] && (c - 1) * gap <= length
  {
    if ts != [] {
      var pre := ts[..|ts| - 1];
      CountedAreApart(pre, gap, from, length);
      var c := CountIn(pre, from, length);
      if c > 0 {
        assert ts[|ts| - 1] - ts[|ts| - 2] >= gap;
        OneMore(c, gap);
      }
    }
  }

  lemma OneMore(c: int, gap: int)
    ensures c * gap == (c - 1) * gap + gap
  {
  }

  // A span of length T meets at most T / gap + 1 events.
  lemma SpanBound(ts: seq<int>, gap: int, from: int, length: nat)
    requires Spaced(ts, gap) && gap > 0
    ensures CountIn(ts, from, length) <= length / gap + 1
  {
    CountedAreApart(ts, gap, from, length);
    var c := CountIn(ts, from, length);
    if c > 0 {
      QuotientBound(c - 1, gap, length);
    }
  }

  lemma QuotientBound(k: int, gap: int, length: nat)
    requires gap > 0 && k * gap <= length
    ensures k <= length / gap
  {
    var q := length / gap;
    assert length < (q + 1) * gap;
    assert k >= q + 1 ==> k * gap >= (q + 1) * gap;
  }
}
