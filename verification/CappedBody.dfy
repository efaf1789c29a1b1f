/**
 The Go token-response cap: a reader that hands over at most cap bytes and looks one byte past them, read whole through
 io.LimitReader and io.ReadAll, on its own and beneath the admin lane's error bound.
 */
module CappedBody {
  import opened Common

  // A Read's error. Broken stands for any read error of the body itself.
  datatype Err = Nil | EOF | TooLarge | Broken

  /** A response body: its bytes, how it ends, how far it has been read. How it is chunked is left open. */
  class Body {
    const data: seq<byte>
    const broken: bool
    var pos: nat
    var idle: nat      // how many more empty reads without an error it will make

    constructor (data: seq<byte>, broken: bool, idle: nat)
      ensures Valid() && pos == 0 && this.data == data && this.broken == broken
    {
      this.data, this.broken, this.pos, this.idle := data, broken, 0, idle;
    }

    predicate Valid()
      reads this
    {
      pos <= |data|
    }

    function Ending(): Err
    {
      if broken then Broken else EOF
    }

    function Left(): nat
      requires Valid()
      reads this
    {
      |data| - pos + idle
    }

    // Any chunk up to n bytes; the ending may come with the last bytes or after them.
    method Read(n: nat) returns (chunk: seq<byte>, err: Err)
      requires Valid()
      modifies this
      ensures Valid() && old(pos) <= pos <= old(pos) + n && chunk == data[old(pos)..pos]
      ensures err == Nil || (err == Ending() && pos == |data|)
      ensures idle <= old(idle)
      ensures n > 0 && err == Nil ==> Left() < old(Left())
    {
      var k: nat :| k <= n && pos + k <= |data|;
      err := Nil;
      if k == 0 && n > 0 {
        if idle > 0 {
          idle := idle - 1;
        } else if pos < |data| {
          k := 1;
        } else {
          err := Ending();
        }
      }
      chunk := data[pos..pos + k];
      pos := pos + k;
      if pos == |data| {
        if * {
          err := Ending();
        }
      }
    }
  }

  class Capped {
    const body: Body
    const cap: nat
    var hit: bool
    var n: nat
    var end: Err       // what lies past the cap, once looked at

    predicate Valid()
      reads this, body
    {
      && body.Valid() && n <= cap
      && body.pos == n + (if end == TooLarge then 1 else 0)
      && (end != Nil ==> n == cap)
      && (end == EOF || end == Broken ==> end == body.Ending() && n == |body.data|)
      && (end == TooLarge <==> hit)
    }

    constructor (body: Body, cap: nat)
      requires body.Valid() && body.pos == 0
      ensures Valid() && this.body == body && this.cap == cap && n == 0 && end == Nil && !hit
    {
      this.body, this.cap, hit, n, end := body, cap, false, 0, Nil;
    }

    // Once what lies past the cap is known, every later read answers with it.
    method Read(p: nat) returns (chunk: seq<byte>, err: Err)
      requires Valid()
      modifies this, body
      ensures old(end) != Nil ==>
                && chunk == [] && err == end == old(end) && n == old(n)
                && body.pos == old(body.pos) && body.idle == old(body.idle)
      ensures Valid() && old(n) <= n <= old(n) + p && chunk == body.data[old(n)..n]
      ensures err == Nil ==> end == Nil && (n < cap || p == 0) && (p > 0 ==> body.Left() < old(body.Left()))
      ensures err == EOF || err == Broken ==> err == body.Ending() && n == |body.data|
      ensures err == TooLarge ==> n == cap < |body.data|
      ensures hit <==> err == TooLarge
    {
      if end != Nil {
        return [], end;
      }
      var left := cap - n;
      if left == 0 {
        err := LookPast();
        return [], err;
      }
      var want := if p > left then left else p;
      chunk, err := body.Read(want);
      n := n + |chunk|;
      if err == Nil && n == cap {
        err := LookPast();
      }
    }

    // The one byte after the cap, read in full: none ends the body there, one refuses it.
    method LookPast() returns (err: Err)
      requires Valid() && end == Nil && n == cap
      modifies this, body
      ensures Valid() && n == old(n) && err == end != Nil
      ensures err == TooLarge <==> |body.data| > cap
    {
      var one, e := body.Read(1);
      while one == [] && e == Nil
        invariant body.Valid() && |one| <= 1 && body.pos == n + |one| && !hit && end == Nil
        invariant e == Nil || (e == body.Ending() && body.pos == |body.data|)
        invariant n == old(n) == cap
        decreases e == Nil, body.Left()
      {
        one, e := body.Read(1);
      }
      if one == [] {
        end := e;
      } else {
        hit := true;
        end := TooLarge;
      }
      err := end;
    }
  }

  // What a reader may be put on: a body as it is, or one under the cap.
  datatype Source = Raw(body: Body) | Under(capped: Capped)

  // What io.ReadAll hands back.
  datatype Outcome = Outcome(bytes: seq<byte>, err: Err)

  // A body read whole under a cap: itself, or its first cap bytes and the refusal.
  function WholeOrRefused(data: seq<byte>, broken: bool, cap: nat): Outcome
  {
    if |data| > cap then Outcome(data[..cap], TooLarge)
    else Outcome(data, if broken then Broken else Nil)
  }

  // A body read under a limit with nothing to refuse it: whole within the limit, cut past it. With exactly limit bytes
  // a broken ending may or may not have been seen.
  predicate ReadUpTo(out: Outcome, data: seq<byte>, broken: bool, limit: nat)
  {
    if |data| < limit then out == Outcome(data, if broken then Broken else Nil)
    else out.bytes == data[..limit] && (out.err == Nil || (out.err == Broken && broken && |data| == limit))
  }

  // io.ReadAll(io.LimitReader(capped, limit)), whatever buffer sizes ReadAll picks. A limit of the cap or more never
  // hides the refusal; a smaller one cuts instead, and that is the only difference.
  method ReadAllCapped(capped: Capped, limit: nat) returns (out: Outcome)
    requires capped.Valid() && capped.n == 0 && capped.end == Nil && capped.cap > 0
    modifies capped, capped.body
    ensures capped.Valid() && |out.bytes| <= Min(limit, capped.cap) && capped.body.pos <= capped.cap + 1
    ensures limit >= capped.cap ==>
              out == WholeOrRefused(capped.body.data, capped.body.broken, capped.cap) &&
              (capped.hit <==> |capped.body.data| > capped.cap)
    ensures limit < capped.cap ==> ReadUpTo(out, capped.body.data, capped.body.broken, limit) && !capped.hit
  {
    var data := capped.body.data;
    var b: seq<byte>, err := [], Nil;
    var left := limit;
    while err == Nil
      invariant capped.Valid() && b == data[..capped.n] && |b| == limit - left && left >= 0
      invariant err == Nil ==> capped.end == Nil && capped.n < capped.cap && !capped.hit
      invariant err == EOF ==> (left == 0 && capped.n == limit < capped.cap && !capped.hit) ||
                               (!capped.body.broken && capped.n == |data| && !capped.hit)
      invariant err == Broken ==> capped.body.broken && capped.n == |data| && !capped.hit
      invariant err == TooLarge ==> capped.n == capped.cap < |data| && capped.hit
      decreases err == Nil, capped.body.Left()
    {
      var room: nat :| room > 0;
      if left <= 0 {
        err := EOF;
      } else {
        var chunk, e := capped.Read(Min(room, left));
        b, left, err := b + chunk, left - |chunk|, e;
      }
    }
    out := Outcome(b, if err == EOF then Nil else err);
  }

  // The same over a body without a cap beneath.
  method ReadAllRaw(body: Body, limit: nat) returns (out: Outcome)
    requires body.Valid() && body.pos == 0
    modifies body
    ensures body.Valid() && body.pos == |out.bytes| <= limit
    ensures ReadUpTo(out, body.data, body.broken, limit)
  {
    var b: seq<byte>, err := [], Nil;
    var left := limit;
    while err == Nil
      invariant body.Valid() && b == body.data[..body.pos] && |b| == limit - left && left >= 0
      invariant err == EOF ==> left == 0 || (!body.broken && body.pos == |body.data|)
      invariant err == Broken ==> body.broken && body.pos == |body.data|
      invariant err != TooLarge
      decreases err == Nil, body.Left()
    {
      var room: nat :| room > 0;
      if left <= 0 {
        err := EOF;
      } else {
        var chunk, e := body.Read(Min(room, left));
        b, left, err := b + chunk, left - |chunk|, e;
      }
    }
    out := Outcome(b, if err == EOF then Nil else err);
  }

  // ---- the admin lane's error bound ----

  // What resty is handed: a body in memory or a reader that only fails, and whether it still carries a media type.
  datatype Answer = InMemory(bytes: seq<byte>, typed: bool) | Failing(err: Err, typed: bool)

  // Whole within the bound, a failing reader if it broke there, else cut to the bound and stripped of its media type. A
  // body that breaks just one byte past the bound may go either way.
  predicate Bounded(answer: Answer, data: seq<byte>, broken: bool, bound: nat, typed: bool)
  {
    if |data| <= bound then answer == if broken then Failing(Broken, typed) else InMemory(data, typed)
    else
      || answer == InMemory(data[..bound], false)
      || (answer == Failing(Broken, typed) && broken && |data| == bound + 1)
  }

  // Reads an error body to its end or one byte past bound.
  method BoundError(source: Source, bound: nat, typed: bool) returns (answer: Answer)
    requires source.Raw? ==> source.body.Valid() && source.body.pos == 0
    requires source.Under? ==> source.capped.Valid() && source.capped.n == 0 && source.capped.end == Nil
    requires source.Under? ==> source.capped.cap > 0
    modifies match source case Raw(b) => {b as object} case Under(c) => {c as object, c.body as object}
    ensures source.Raw? ==>
              && Bounded(answer, source.body.data, source.body.broken, bound, typed)
              && source.body.pos <= bound + 1
    // Over the token cap, while the bound is no smaller: an oversized body is refused, never cut. A bound one less than
    // the cap cuts a body of exactly cap bytes.
    ensures source.Under? && bound + 1 >= source.capped.cap ==>
              var out := WholeOrRefused(source.capped.body.data, source.capped.body.broken, source.capped.cap);
              && source.capped.hit == (|source.capped.body.data| > source.capped.cap)
              && answer == if out.err != Nil then Failing(out.err, typed)
                           else if |out.bytes| <= bound then InMemory(out.bytes, typed)
                           else InMemory(out.bytes[..bound], false)
    // Below it, it is a cut.
    ensures source.Under? && bound + 1 < source.capped.cap ==>
              && Bounded(answer, source.capped.body.data, source.capped.body.broken, bound, typed)
              && !source.capped.hit
  {
    var out: Outcome;
    match source {
      case Raw(b) => out := ReadAllRaw(b, bound + 1);
      case Under(c) => out := ReadAllCapped(c, bound + 1);
    }
    if out.err != Nil {
      return Failing(out.err, typed);
    }
    if |out.bytes| > bound {
      return InMemory(out.bytes[..bound], false);
    }
    answer := InMemory(out.bytes, typed);
  }

  const TOKEN_RESPONSE_MAX_BYTES := 1048576

  // A whole token response, as both consumers of the cap read it: x/oauth2 through a limit of exactly the cap, the
  // admin bound through one byte more. Both give the body if and only if it is within the cap and complete.
  method ReadTokenResponse(data: seq<byte>, broken: bool, idle: nat, oneMore: bool)
    returns (out: Outcome, hit: bool, pulled: nat)
    ensures out == WholeOrRefused(data, broken, TOKEN_RESPONSE_MAX_BYTES)
    ensures out.err == Nil <==> |data| <= 1024 * 1024 && !broken
    ensures hit <==> |data| > 1024 * 1024
    ensures |out.bytes| <= TOKEN_RESPONSE_MAX_BYTES && pulled <= TOKEN_RESPONSE_MAX_BYTES + 1
  {
    var body := new Body(data, broken, idle);
    var capped := new Capped(body, TOKEN_RESPONSE_MAX_BYTES);
    out := ReadAllCapped(capped, if oneMore then TOKEN_RESPONSE_MAX_BYTES + 1 else TOKEN_RESPONSE_MAX_BYTES);
    hit, pulled := capped.hit, body.pos;
  }
}
