/** The .NET scrubbing of exception chains that quote what they failed to parse. */
module ErrorCause {
  import opened Common

  const MAX_DEPTH := 16

  datatype HttpError = InvalidResponse | OtherError(code: int)

  // The exception types the scrubber tells apart, with the fields a copy keeps.
  datatype Kind =
    | Json(line: Option<int>, position: Option<int>)
    | HttpRequest(error: HttpError, status: Option<int>)
    | HttpIO(error: HttpError)
    | Sdk
    | Sanitized(of: string)
    | Other(name: string)

  /** An exception and its inner chain. tagged is the mark every copy carries. */
  datatype Exc = Exc(kind: Kind, message: string, stack: string, tagged: bool, inner: Option<Exc>)

  predicate IsClean(e: Exc) { e.kind.Sdk? || e.tagged }

  predicate QuotesInput(e: Exc)
  {
    e.kind.Json?
    || (e.kind.HttpRequest? && e.kind.error.InvalidResponse?)
    || (e.kind.HttpIO? && e.kind.error.InvalidResponse?)
  }

  // The messages of the quoting exceptions among the links from x on, up to the first clean one and to the depth bound.
  function Quoted(x: Option<Exc>, depth: nat): seq<string>
    requires depth <= MAX_DEPTH
    decreases MAX_DEPTH - depth
  {
    if x.None? || IsClean(x.value) || depth == MAX_DEPTH then []
    else (if QuotesInput(x.value) then [x.value.message] else []) + Quoted(x.value.inner, depth + 1)
  }

  method QuotedMessages(e: Exc) returns (quoted: seq<string>)
    ensures quoted == Quoted(Some(e), 0)
  {
    quoted := [];
    var x := Some(e);
    var depth := 0;
    while x.Some? && !IsClean(x.value) && depth < MAX_DEPTH
      invariant depth <= MAX_DEPTH && quoted + Quoted(x, depth) == Quoted(Some(e), 0)
      decreases MAX_DEPTH - depth
    {
      var link := x.value;
      Assoc(quoted, link, depth);
      if QuotesInput(link) {
        quoted := quoted + [link.message];
      }
      x, depth := link.inner, depth + 1;
    }
    assert quoted + [] == quoted;
  }

  lemma Assoc(quoted: seq<string>, link: Exc, depth: nat)
    requires depth < MAX_DEPTH && !IsClean(link)
    ensures quoted + Quoted(Some(link), depth) ==
            (if QuotesInput(link) then quoted + [link.message] else quoted) + Quoted(link.inner, depth + 1)
  {
  }

  predicate Contains(text: string, part: string)
  {
    exists i :: 0 <= i <= |text| && StandsAt(text, part, i)
  }

  predicate StandsAt(text: string, part: string, i: nat)
  {
    i + |part| <= |text| && text[i..i + |part|] == part
  }

  predicate Repeats(text: string, quoted: seq<string>)
  {
    exists k :: 0 <= k < |quoted| && quoted[k] != "" && Contains(text, quoted[k])
  }

  const REPEATED := "message withheld: it repeats response input a lower library quoted"
  const INVALID_HTTP := "invalid HTTP response (input withheld)"
  const READING := "message withheld: raised while reading the response"

  // The fixed text for a JSON error, standing for the line and the position it prints.
  function InvalidJson(line: Option<int>, position: Option<int>): string
  {
    "invalid JSON (input withheld). LineNumber: " + Shown(line) + " | BytePositionInLine: " + Shown(position) + "."
  }

  function Shown(n: Option<int>): string
  {
    if n.None? then "" else if n.value < 0 then "-" + Digits(-n.value) else Digits(n.value)
  }

  function Digits(n: nat): string
  {
    if n < 10 then [('0' as int + n) as char] else Digits(n / 10) + [('0' as int + n % 10) as char]
  }

  // None withholds every message.
  function SafeMessage(e: Exc, quoted: Option<seq<string>>): string
  {
    if e.kind.Json? then InvalidJson(e.kind.line, e.kind.position)
    else if QuotesInput(e) then INVALID_HTTP
    else if quoted.None? then READING
    else if Repeats(e.message, quoted.value) then REPEATED
    else e.message
  }

  function Copy(e: Exc, quoted: Option<seq<string>>, depth: nat): Exc
    requires depth < MAX_DEPTH
    decreases MAX_DEPTH - depth, 1
  {
    CopyOf(e, SafeMessage(e, quoted), CopyInner(e, quoted, depth))
  }

  // The rest of the chain: kept from a clean link on, cut where the depth bound is reached.
  function CopyInner(e: Exc, quoted: Option<seq<string>>, depth: nat): Option<Exc>
    requires depth < MAX_DEPTH
    decreases MAX_DEPTH - depth, 0
  {
    if e.inner.None? then None
    else if IsClean(e.inner.value) then e.inner
    else if depth + 1 < MAX_DEPTH then Some(Copy(e.inner.value, quoted, depth + 1))
    else None
  }

  // The types a copy keeps, and the stand-in for every other.
  function CopyOf(e: Exc, message: string, inner: Option<Exc>): Exc
  {
    match e.kind
    case Json(_, _) => Exc(e.kind, message, "", true, inner)
    case HttpRequest(_, _) => Exc(e.kind, message, "", true, inner)
    case HttpIO(_) => Exc(e.kind, message, "", true, inner)
    case _ => Exc(Sanitized(TypeName(e.kind)), TypeName(e.kind) + ": " + message, e.stack, true, inner)
  }

  function TypeName(k: Kind): string
  {
    match k
    case Other(name) => name
    case Sanitized(_) => "Xzawed.Keycloak.SanitizedException"
    case _ => ""
  }

  function Scrub(cause: Option<Exc>): Option<Exc>
  {
    if cause.None? || IsClean(cause.value) then cause
    else
      var quoted := Quoted(cause, 0);
      if quoted == [] then cause else Some(Copy(cause.value, Some(quoted), 0))
  }

  // ---- which chains are replaced ----

  function Link(e: Exc, k: nat): Option<Exc>
  {
    if k == 0 then Some(e) else if e.inner.None? then None else Link(e.inner.value, k - 1)
  }

  // The k-th link is a quoting exception and no link up to it is clean.
  ghost predicate QuotesAt(e: Exc, k: nat)
  {
    && Link(e, k).Some? && QuotesInput(Link(e, k).value)
    && (forall j :: 0 <= j <= k && Link(e, j).Some? ==> !IsClean(Link(e, j).value))
  }

  lemma {:induction false} QuotedExactlyWhen(e: Exc, depth: nat)
    requires depth <= MAX_DEPTH
    ensures Quoted(Some(e), depth) != [] <==> exists k: nat :: depth + k < MAX_DEPTH && QuotesAt(e, k)
    decreases MAX_DEPTH - depth
  {
    if depth == MAX_DEPTH {
    } else if IsClean(e) {
      forall k: nat ensures !QuotesAt(e, k) { assert Link(e, 0) == Some(e); }
    } else if QuotesInput(e) {
      assert QuotesAt(e, 0);
    } else if e.inner.None? {
      forall k: nat ensures !QuotesAt(e, k) { if k > 0 { assert Link(e, k).None?; } }
    } else {
      var i := e.inner.value;
      QuotedExactlyWhen(i, depth + 1);
      forall k: nat ensures QuotesAt(e, k) <==> k > 0 && QuotesAt(i, k - 1) { QuotesBelow(e, k); }
      if Quoted(Some(e), depth) != [] {
        var k: nat :| depth + 1 + k < MAX_DEPTH && QuotesAt(i, k);
        assert QuotesAt(e, k + 1);
      }
    }
  }

  lemma QuotesBelow(e: Exc, k: nat)
    requires !IsClean(e) && !QuotesInput(e) && e.inner.Some?
    ensures QuotesAt(e, k) <==> k > 0 && QuotesAt(e.inner.value, k - 1)
  {
    if k > 0 {
      var i := e.inner.value;
      assert Link(e, k) == Link(i, k - 1);
      if QuotesAt(e, k) {
        forall j | 0 <= j <= k - 1 && Link(i, j).Some? ensures !IsClean(Link(i, j).value) {
          assert Link(e, j + 1) == Link(i, j);
        }
      }
      if QuotesAt(i, k - 1) {
        forall j | 0 <= j <= k && Link(e, j).Some? ensures !IsClean(Link(e, j).value) {
          if j > 0 { assert Link(e, j) == Link(i, j - 1); }
        }
      }
    }
  }

  // A chain is replaced exactly when a quoting exception stands among its first 16 links with no clean link before it.
  lemma ReplacedExactlyWhen(e: Exc)
    ensures Scrub(Some(e)) != Some(e) <==> exists k: nat :: k < MAX_DEPTH && QuotesAt(e, k)
  {
    QuotedExactlyWhen(e, 0);
    if IsClean(e) {
      forall k: nat ensures !QuotesAt(e, k) { assert Link(e, 0) == Some(e); }
    }
  }

  // n wrappers around a JSON error.
  function Wrapped(n: nat, message: string): Exc
  {
    if n == 0 then Exc(Json(None, None), message, "", false, None)
    else Exc(Other("System.Exception"), "failed", "", false, Some(Wrapped(n - 1, message)))
  }

  // "Anywhere in the chain" is not quite so: under 16 wrappers the quoting message stays as it is, under 15 it goes.
  lemma {:induction false} DepthIsTheLimit(message: string)
    ensures Scrub(Some(Wrapped(16, message))) == Some(Wrapped(16, message))
    ensures Scrub(Some(Wrapped(15, message))) != Some(Wrapped(15, message))
  {
    WrappedQuotes(16, 0, message);
    WrappedQuotes(15, 0, message);
  }

  lemma {:induction false} WrappedQuotes(n: nat, depth: nat, message: string)
    requires depth <= MAX_DEPTH
    ensures Quoted(Some(Wrapped(n, message)), depth) == if depth + n < MAX_DEPTH then [message] else []
    decreases n
  {
    if n > 0 && depth < MAX_DEPTH {
      WrappedQuotes(n - 1, depth + 1, message);
    }
  }

  // ---- scrubbing twice ----

  lemma ScrubIsIdempotent(cause: Option<Exc>)
    ensures Scrub(Scrub(cause)) == Scrub(cause)
  {
  }

  // ---- two chains that differ in what was quoted ----

  // The chains agree on everything a copy may look at, but for the messages of quoting exceptions.
  predicate DifferInQuotes(a: Exc, b: Exc, depth: nat)
    requires depth < MAX_DEPTH
    decreases MAX_DEPTH - depth
  {
    && a.kind == b.kind && a.stack == b.stack && a.tagged == b.tagged && !IsClean(a)
    && (QuotesInput(a) || a.message == b.message)
    && (a.inner.Some? <==> b.inner.Some?)
    && (a.inner.Some? ==>
          if IsClean(a.inner.value) || IsClean(b.inner.value) then a.inner == b.inner
          else depth + 1 < MAX_DEPTH ==> DifferInQuotes(a.inner.value, b.inner.value, depth + 1))
  }

  // Every other message either repeats something quoted in both chains or in neither.
  predicate TreatedAlike(a: Exc, qa: seq<string>, qb: seq<string>, depth: nat)
    requires depth < MAX_DEPTH
    decreases MAX_DEPTH - depth
  {
    && (QuotesInput(a) || a.message == REPEATED || (Repeats(a.message, qa) <==> Repeats(a.message, qb)))
    && (a.inner.Some? && !IsClean(a.inner.value) && depth + 1 < MAX_DEPTH ==>
          TreatedAlike(a.inner.value, qa, qb, depth + 1))
  }

  lemma {:induction false} CopiesAgreeExactlyWhen(a: Exc, b: Exc, qa: seq<string>, qb: seq<string>, depth: nat)
    requires depth < MAX_DEPTH && DifferInQuotes(a, b, depth)
    ensures Copy(a, Some(qa), depth) == Copy(b, Some(qb), depth) <==> TreatedAlike(a, qa, qb, depth)
    decreases MAX_DEPTH - depth, 1
  {
    InnersAgreeExactlyWhen(a, b, qa, qb, depth);
    MessagesAgreeExactlyWhen(a, b, qa, qb);
    CopiesOfAgreeExactlyWhen(a, b, SafeMessage(a, Some(qa)), SafeMessage(b, Some(qb)),
                             CopyInner(a, Some(qa), depth), CopyInner(b, Some(qb), depth));
  }

  lemma {:induction false} InnersAgreeExactlyWhen(a: Exc, b: Exc, qa: seq<string>, qb: seq<string>, depth: nat)
    requires depth < MAX_DEPTH && DifferInQuotes(a, b, depth)
    ensures CopyInner(a, Some(qa), depth) == CopyInner(b, Some(qb), depth) <==>
            (a.inner.Some? && !IsClean(a.inner.value) && depth + 1 < MAX_DEPTH ==>
               TreatedAlike(a.inner.value, qa, qb, depth + 1))
    decreases MAX_DEPTH - depth, 0
  {
    if a.inner.Some? && !IsClean(a.inner.value) && !IsClean(b.inner.value) && depth + 1 < MAX_DEPTH {
      CopiesAgreeExactlyWhen(a.inner.value, b.inner.value, qa, qb, depth + 1);
    }
  }

  lemma CopiesOfAgreeExactlyWhen(a: Exc, b: Exc, x: string, y: string, i: Option<Exc>, j: Option<Exc>)
    requires a.kind == b.kind && a.stack == b.stack
    ensures CopyOf(a, x, i) == CopyOf(b, y, j) <==> x == y && i == j
  {
    PrefixCancels(TypeName(a.kind) + ": ", x, y);
  }

  lemma MessagesAgreeExactlyWhen(a: Exc, b: Exc, qa: seq<string>, qb: seq<string>)
    requires a.kind == b.kind && (QuotesInput(a) || a.message == b.message)
    ensures SafeMessage(a, Some(qa)) == SafeMessage(b, Some(qb)) <==>
            QuotesInput(a) || a.message == REPEATED || (Repeats(a.message, qa) <==> Repeats(a.message, qb))
  {
  }

  lemma PrefixCancels(p: string, x: string, y: string)
    ensures p + x == p + y <==> x == y
  {
    if p + x == p + y {
      assert (p + x)[|p|..] == x && (p + y)[|p|..] == y;
    }
  }

  lemma {:induction false} SameQuotingLinks(a: Exc, b: Exc, depth: nat)
    requires depth < MAX_DEPTH && DifferInQuotes(a, b, depth)
    ensures |Quoted(Some(a), depth)| == |Quoted(Some(b), depth)|
    decreases MAX_DEPTH - depth
  {
    if a.inner.Some? && !IsClean(a.inner.value) && !IsClean(b.inner.value) && depth + 1 < MAX_DEPTH {
      SameQuotingLinks(a.inner.value, b.inner.value, depth + 1);
    }
  }

  // Two chains that differ only in what their quoting exceptions say, at least one of them among the first 16 links,
  // scrub to the same chain exactly when every other message is treated alike.
  lemma ScrubHidesQuotesExactlyWhen(a: Exc, b: Exc)
    requires DifferInQuotes(a, b, 0) && Quoted(Some(a), 0) != []
    ensures Scrub(Some(a)) == Scrub(Some(b)) <==> TreatedAlike(a, Quoted(Some(a), 0), Quoted(Some(b), 0), 0)
  {
    SameQuotingLinks(a, b, 0);
    CopiesAgreeExactlyWhen(a, b, Quoted(Some(a), 0), Quoted(Some(b), 0), 0);
  }

  // No message of a link that does not quote contains a quoted one.
  predicate NothingRepeats(a: Exc, q: seq<string>, depth: nat)
    requires depth < MAX_DEPTH
    decreases MAX_DEPTH - depth
  {
    && (QuotesInput(a) || !Repeats(a.message, q))
    && (a.inner.Some? && !IsClean(a.inner.value) && depth + 1 < MAX_DEPTH ==>
          NothingRepeats(a.inner.value, q, depth + 1))
  }

  lemma {:induction false} NothingRepeatsIsAlike(a: Exc, qa: seq<string>, qb: seq<string>, depth: nat)
    requires depth < MAX_DEPTH && NothingRepeats(a, qa, depth) && NothingRepeats(a, qb, depth)
    ensures TreatedAlike(a, qa, qb, depth)
    decreases MAX_DEPTH - depth
  {
    if a.inner.Some? && !IsClean(a.inner.value) && depth + 1 < MAX_DEPTH {
      NothingRepeatsIsAlike(a.inner.value, qa, qb, depth + 1);
    }
  }

  // So what was quoted leaves no trace, however long the chains, while no other message repeats it.
  lemma ScrubHidesQuotes(a: Exc, b: Exc)
    requires DifferInQuotes(a, b, 0) && Quoted(Some(a), 0) != []
    requires NothingRepeats(a, Quoted(Some(a), 0), 0) && NothingRepeats(a, Quoted(Some(b), 0), 0)
    ensures Scrub(Some(a)) == Scrub(Some(b))
  {
    NothingRepeatsIsAlike(a, Quoted(Some(a), 0), Quoted(Some(b), 0), 0);
    ScrubHidesQuotesExactlyWhen(a, b);
  }

  // ---- withholding everything ----

  function WithholdAll(cause: Exc): Exc
  {
    if IsClean(cause) then cause else Copy(cause, None, 0)
  }

  // The chains agree on everything but the messages of links that are not clean.
  predicate DifferInMessages(a: Exc, b: Exc, depth: nat)
    requires depth < MAX_DEPTH
    decreases MAX_DEPTH - depth
  {
    && a.kind == b.kind && a.stack == b.stack && a.tagged == b.tagged && !IsClean(a)
    && (a.inner.Some? <==> b.inner.Some?)
    && (a.inner.Some? ==>
          if IsClean(a.inner.value) || IsClean(b.inner.value) then a.inner == b.inner
          else depth + 1 < MAX_DEPTH ==> DifferInMessages(a.inner.value, b.inner.value, depth + 1))
  }

  lemma {:induction false} CopiesWithoutMessagesAgree(a: Exc, b: Exc, depth: nat)
    requires depth < MAX_DEPTH && DifferInMessages(a, b, depth)
    ensures Copy(a, None, depth) == Copy(b, None, depth)
    decreases MAX_DEPTH - depth
  {
    if a.inner.Some? && !IsClean(a.inner.value) && !IsClean(b.inner.value) && depth + 1 < MAX_DEPTH {
      CopiesWithoutMessagesAgree(a.inner.value, b.inner.value, depth + 1);
    }
  }

  // For a chain raised while reading a response no message at all gets through, repeated or not.
  lemma WithholdAllHidesMessages(a: Exc, b: Exc)
    requires DifferInMessages(a, b, 0)
    ensures WithholdAll(a) == WithholdAll(b)
  {
    CopiesWithoutMessagesAgree(a, b, 0);
  }

  // ---- what a copy carries ----

  // The three families that quote what they failed to parse, and nothing else.
  lemma QuotingFamiliesAre(kind: Kind, message: string, stack: string, tagged: bool, inner: Option<Exc>)
    ensures QuotesInput(Exc(kind, message, stack, tagged, inner)) <==>
            match kind
            case Json(_, _) => true
            case HttpRequest(error, _) => error == InvalidResponse
            case HttpIO(error) => error == InvalidResponse
            case Sdk => false
            case Sanitized(_) => false
            case Other(_) => false
    ensures IsClean(Exc(kind, message, stack, tagged, inner)) <==> kind == Sdk || tagged
  {
  }

  // y says of x what may be said: a fixed text for what quotes and for what repeats a quote, its own message otherwise.
  predicate SaysOf(text: string, x: Exc, quoted: Option<seq<string>>)
  {
    && (x.kind.Json? ==> text == InvalidJson(x.kind.line, x.kind.position))
    && (!x.kind.Json? && QuotesInput(x) ==> text == INVALID_HTTP)
    && (!QuotesInput(x) && quoted.None? ==> text == READING)
    && (!QuotesInput(x) && quoted.Some? && Repeats(x.message, quoted.value) ==> text == REPEATED)
    && (!QuotesInput(x) && quoted.Some? && !Repeats(x.message, quoted.value) ==> text == x.message)
  }

  // A JSON error keeps its type and position, an HTTP one its type, error and status; any other becomes a stand-in with
  // its type's name and its stack trace. Every copy is tagged.
  ghost predicate Carries(y: Exc, x: Exc, quoted: Option<seq<string>>)
  {
    && y.tagged
    && (x.kind.Json? || x.kind.HttpRequest? || x.kind.HttpIO? ==>
          y.kind == x.kind && y.stack == "" && SaysOf(y.message, x, quoted))
    && (x.kind.Other? ==>
          && y.kind == Sanitized(x.kind.name) && y.stack == x.stack && |x.kind.name| + 2 <= |y.message|
          && y.message[..|x.kind.name| + 2] == x.kind.name + ": "
          && SaysOf(y.message[|x.kind.name| + 2..], x, quoted))
  }

  // No link from e up to the k-th is clean.
  ghost predicate NoneCleanTo(e: Exc, k: nat)
  {
    forall j :: 0 <= j <= k && Link(e, j).Some? ==> !IsClean(Link(e, j).value)
  }

  // Link by link: up to the first clean one and the depth bound each is copied, the clean one and all below it are kept
  // as they are, and at the bound the chain is cut.
  lemma {:induction false} CopiesLinkByLink(e: Exc, quoted: Option<seq<string>>, depth: nat, k: nat)
    requires depth + k < MAX_DEPTH && NoneCleanTo(e, k)
    ensures Link(Copy(e, quoted, depth), k).Some? <==> Link(e, k).Some?
    ensures Link(e, k).Some? ==> Carries(Link(Copy(e, quoted, depth), k).value, Link(e, k).value, quoted)
    ensures Link(e, k).Some? ==>
              var x, y := Link(e, k).value, Link(Copy(e, quoted, depth), k).value;
              if x.inner.Some? && IsClean(x.inner.value) then y.inner == x.inner
              else y.inner.Some? <==> x.inner.Some? && depth + k + 1 < MAX_DEPTH
    decreases k
  {
    assert Link(e, 0) == Some(e);
    if k == 0 {
      CopyCarries(e, quoted, depth);
    } else if e.inner.Some? {
      var i := e.inner.value;
      assert Link(e, 1) == Some(i) by { assert Link(i, 0) == Some(i); }
      forall j | 0 <= j <= k - 1 && Link(i, j).Some? ensures !IsClean(Link(i, j).value) {
        assert Link(e, j + 1) == Link(i, j);
      }
      CopiesLinkByLink(i, quoted, depth + 1, k - 1);
      assert Copy(e, quoted, depth).inner == Some(Copy(i, quoted, depth + 1));
    } else {
      assert Copy(e, quoted, depth).inner.None?;
    }
  }

  lemma CopyCarries(e: Exc, quoted: Option<seq<string>>, depth: nat)
    requires depth < MAX_DEPTH && !IsClean(e)
    ensures Carries(Copy(e, quoted, depth), e, quoted)
  {
    var y := Copy(e, quoted, depth);
    if e.kind.Other? {
      var n := |e.kind.name| + 2;
      assert y.message == e.kind.name + ": " + SafeMessage(e, quoted);
      assert y.message[..n] == e.kind.name + ": " && y.message[n..] == SafeMessage(e, quoted);
    }
  }

  // ---- texts ----

  // A message repeats what was quoted exactly if it is some nonempty quoted message with something before and after.
  lemma RepeatsExactlyWhen(text: string, quoted: seq<string>)
    ensures Repeats(text, quoted) <==>
            exists k, a, b :: 0 <= k < |quoted| && quoted[k] != "" && Around(text, a, quoted[k], b)
  {
    if Repeats(text, quoted) {
      var k :| 0 <= k < |quoted| && quoted[k] != "" && Contains(text, quoted[k]);
      var i :| 0 <= i <= |text| && StandsAt(text, quoted[k], i);
      assert Around(text, text[..i], quoted[k], text[i + |quoted[k]|..]);
    }
    if k, a, b :| 0 <= k < |quoted| && quoted[k] != "" && Around(text, a, quoted[k], b) {
      assert StandsAt(text, quoted[k], |a|);
      assert Contains(text, quoted[k]);
    }
  }

  predicate Around(text: string, a: string, part: string, b: string)
  {
    text == a + part + b
  }

  function Value(s: string): int
  {
    if s == [] then 0 else 10 * Value(s[..|s| - 1]) + (s[|s| - 1] as int - '0' as int)
  }

  // The decimal digits of a number stand for it, the first of them not a zero unless it is the only one.
  lemma {:induction false} DigitsAreTheNumber(n: nat)
    ensures Value(Digits(n)) == n && Digits(n) != [] && (n > 0 ==> Digits(n)[0] != '0')
    ensures forall k :: 0 <= k < |Digits(n)| ==> '0' <= Digits(n)[k] <= '9'
  {
    if n >= 10 {
      DigitsAreTheNumber(n / 10);
      assert Digits(n)[..|Digits(n)| - 1] == Digits(n / 10);
    } else {
      assert Digits(n)[..0] == [];
    }
  }

  lemma AJsonErrorReads()
    ensures InvalidJson(Some(3), Some(-14)) ==
            "invalid JSON (input withheld). LineNumber: " + "3" + " | BytePositionInLine: " + "-14" + "."
    ensures Shown(None) == ""
  {
    assert Digits(14) == Digits(1) + ['4'];
  }
}
