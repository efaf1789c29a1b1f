/** What several components share: an optional value, a byte and the clock scale. */
module Common {
  datatype Option<+T> = None | Some(value: T)

  // Every clock reading and duration is in nanoseconds.
  type Time = int
  const MS := 1_000_000
  const SECOND := 1_000 * MS

  type byte = b: int | 0 <= b < 256 witness 0

  // The factor a failure window is multiplied by, drawn once per failure.
  type Jitter = j: real | 0.5 <= j < 1.0 witness 0.5

  function Min(a: int, b: int): int { if a < b then a else b }

  function Max(a: int, b: int): int { if a > b then a else b }

  function Pow2(n: nat): (p: nat)
    ensures p >= 1
  {
    if n == 0 then 1 else 2 * Pow2(n - 1)
  }

  lemma {:induction false} Pow2Splits(a: nat, b: nat)
    ensures Pow2(a + b) == Pow2(a) * Pow2(b)
    decreases b
  {
    if b == 0 {
    } else {
      Pow2Splits(a, b - 1);
      assert Pow2(a + b) == 2 * Pow2(a + (b - 1));
      assert Pow2(a) * (2 * Pow2(b - 1)) == 2 * (Pow2(a) * Pow2(b - 1));
    }
  }

  lemma {:induction false} Pow2Grows(a: nat, b: nat)
    requires a <= b
    ensures Pow2(a) <= Pow2(b)
    decreases b - a
  {
    if a < b {
      Pow2Grows(a + 1, b);
    }
  }
}

/** Key sets, and how long a fetched one may be used. */
module KeySets {
  import opened Common

  const MAX_AGE := 300_000_000_000

  datatype Jwk = Jwk(kid: string, key: nat)
  type KeySet = seq<Jwk>

  // The first key filed under kid.
  function KeyFor(ks: KeySet, kid: string): Option<nat>
  {
    if ks == [] then None else if ks[0].kid == kid then Some(ks[0].key) else KeyFor(ks[1..], kid)
  }

  // No entry is filed under kid.
  predicate Lacks(ks: KeySet, kid: string)
  {
    forall i :: 0 <= i < |ks| ==> ks[i].kid != kid
  }

  // key stands in an entry filed under kid, and no entry before that one is.
  ghost predicate Files(ks: KeySet, kid: string, key: nat)
  {
    exists i :: 0 <= i < |ks| && ks[i] == Jwk(kid, key) && Lacks(ks[..i], kid)
  }

  // A lookup gives exactly the key of the first entry filed under the kid, and none exactly when there is no such
  // entry.
  lemma {:induction false} KeyForIsTheFirstFiled(ks: KeySet, kid: string, key: nat)
    ensures KeyFor(ks, kid) == Some(key) <==> Files(ks, kid, key)
    ensures KeyFor(ks, kid).None? <==> Lacks(ks, kid)
  {
    if ks == [] {
    } else if ks[0].kid == kid {
      assert Lacks(ks[..0], kid);
      forall i | 0 < i < |ks| ensures !Lacks(ks[..i], kid) {
        assert ks[..i][0] == ks[0];
      }
      assert ks[0] == Jwk(kid, ks[0].key);
    } else {
      KeyForIsTheFirstFiled(ks[1..], kid, key);
      FilesBelow(ks, kid, key);
      assert Lacks(ks, kid) <==> Lacks(ks[1..], kid) by {
        if Lacks(ks[1..], kid) {
          forall i | 0 <= i < |ks| ensures ks[i].kid != kid { assert i > 0 ==> ks[i] == ks[1..][i - 1]; }
        }
      }
    }
  }

  lemma FilesBelow(ks: KeySet, kid: string, key: nat)
    requires ks != [] && ks[0].kid != kid
    ensures Files(ks, kid, key) <==> Files(ks[1..], kid, key)
  {
    var rest := ks[1..];
    if Files(ks, kid, key) {
      var i :| 0 <= i < |ks| && ks[i] == Jwk(kid, key) && Lacks(ks[..i], kid);
      assert rest[i - 1] == Jwk(kid, key);
      var ahead := rest[..i - 1];
      forall j | 0 <= j < |ahead| ensures ahead[j].kid != kid { assert ahead[j] == ks[..i][j + 1]; }
    }
    if Files(rest, kid, key) {
      var i :| 0 <= i < |rest| && rest[i] == Jwk(kid, key) && Lacks(rest[..i], kid);
      assert ks[i + 1] == Jwk(kid, key);
      var ahead := ks[..i + 1];
      forall j | 0 <= j < |ahead| ensures ahead[j].kid != kid { assert j > 0 ==> ahead[j] == rest[..i][j - 1]; }
    }
  }
}
