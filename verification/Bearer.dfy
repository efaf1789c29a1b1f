/**
 The bearer token grammar, section 2.1 of RFC 6750, behind the same trim in four SDKs: two match a regular expression,
 one scans from the front, one strips the padding from the back.
 */
module Bearer {
  import opened Common

  predicate Edge(c: char)
  {
    c == ' ' || c == '\t' || c == '\r' || c == '\n'
  }

  predicate Token68(c: char)
  {
    'A' <= c <= 'Z' || 'a' <= c <= 'z' || '0' <= c <= '9' || c in "-._~+/"
  }

  predicate AllToken68(s: string) { forall k :: 0 <= k < |s| ==> Token68(s[k]) }

  predicate AllPadding(s: string) { forall k :: 0 <= k < |s| ==> s[k] == '=' }

  predicate AllEdges(s: string) { forall k :: 0 <= k < |s| ==> Edge(s[k]) }

  // The language of the grammar: one or more token characters, then padding.
  ghost predicate B64Token(t: string)
  {
    exists i :: 1 <= i <= |t| && AllToken68(t[..i]) && AllPadding(t[i..])
  }

  // t is what may follow "Bearer " for s: s is t between characters that are trimmed.
  ghost predicate Carries(s: string, t: string)
  {
    B64Token(t) && exists a, b :: AllEdges(a) && AllEdges(b) && s == a + t + b
  }

  // ---- the library trims ----

  function TrimLeft(s: string): string
  {
    if s != [] && Edge(s[0]) then TrimLeft(s[1..]) else s
  }

  function TrimRight(s: string): string
  {
    if s != [] && Edge(s[|s| - 1]) then TrimRight(s[..|s| - 1]) else s
  }

  function TrimEnd(s: string): string
  {
    if s != [] && s[|s| - 1] == '=' then TrimEnd(s[..|s| - 1]) else s
  }

  lemma {:induction false} TrimLeftIs(s: string, a: string, rest: string)
    requires s == a + rest && AllEdges(a) && (rest == [] || !Edge(rest[0]))
    ensures TrimLeft(s) == rest
  {
    if a == [] {
      assert s == rest;
    } else {
      assert s[0] == a[0] && s[1..] == a[1..] + rest;
      TrimLeftIs(s[1..], a[1..], rest);
    }
  }

  lemma {:induction false} TrimRightIs(s: string, rest: string, b: string)
    requires s == rest + b && AllEdges(b) && (rest == [] || !Edge(rest[|rest| - 1]))
    ensures TrimRight(s) == rest
  {
    if b == [] {
      assert s == rest;
    } else {
      assert s[|s| - 1] == b[|b| - 1] && s[..|s| - 1] == rest + b[..|b| - 1];
      TrimRightIs(s[..|s| - 1], rest, b[..|b| - 1]);
    }
  }

  lemma {:induction false} TrimEndIs(s: string, body: string, pad: string)
    requires s == body + pad && AllPadding(pad) && (body == [] || body[|body| - 1] != '=')
    ensures TrimEnd(s) == body
  {
    if pad == [] {
      assert s == body;
    } else {
      assert s[|s| - 1] == pad[|pad| - 1] && s[..|s| - 1] == body + pad[..|pad| - 1];
      TrimEndIs(s[..|s| - 1], body, pad[..|pad| - 1]);
    }
  }

  function Trim(s: string): string { TrimRight(TrimLeft(s)) }

  lemma {:induction false} TrimLeftLeaves(s: string) returns (a: string)
    ensures s == a + TrimLeft(s) && AllEdges(a)
    ensures TrimLeft(s) == [] || !Edge(TrimLeft(s)[0])
  {
    if s != [] && Edge(s[0]) {
      var a' := TrimLeftLeaves(s[1..]);
      a := [s[0]] + a';
    } else {
      a := [];
    }
  }

  lemma {:induction false} TrimRightLeaves(s: string) returns (b: string)
    ensures s == TrimRight(s) + b && AllEdges(b)
    ensures TrimRight(s) == [] || !Edge(TrimRight(s)[|TrimRight(s)| - 1])
  {
    if s != [] && Edge(s[|s| - 1]) {
      var b' := TrimRightLeaves(s[..|s| - 1]);
      b := b' + [s[|s| - 1]];
    } else {
      b := [];
    }
  }

  lemma {:induction false} TrimEndLeaves(s: string) returns (pad: string)
    ensures s == TrimEnd(s) + pad && AllPadding(pad)
    ensures TrimEnd(s) == [] || TrimEnd(s)[|TrimEnd(s)| - 1] != '='
  {
    if s != [] && s[|s| - 1] == '=' {
      var p := TrimEndLeaves(s[..|s| - 1]);
      pad := p + "=";
    } else {
      pad := [];
    }
  }

  lemma TokenEndsAreNotEdges(t: string)
    requires B64Token(t)
    ensures t != [] && !Edge(t[0]) && !Edge(t[|t| - 1])
  {
    var i :| 1 <= i <= |t| && AllToken68(t[..i]) && AllPadding(t[i..]);
    assert Token68(t[..i][0]);
    if i < |t| {
      assert t[i..][|t| - i - 1] == '=';
    } else {
      assert Token68(t[..i][i - 1]);
    }
  }

  // Only the trimmed text can be what s carries.
  lemma CarriedIsTrimmed(s: string, t: string)
    ensures Carries(s, t) <==> t == Trim(s) && B64Token(t)
  {
    if Carries(s, t) {
      var a, b :| AllEdges(a) && AllEdges(b) && s == a + t + b;
      TokenEndsAreNotEdges(t);
      assert s == a + (t + b);
      TrimLeftIs(s, a, t + b);
      TrimRightIs(t + b, t, b);
    }
    if t == Trim(s) && B64Token(t) {
      var a := TrimLeftLeaves(s);
      var b := TrimRightLeaves(TrimLeft(s));
      assert s == a + t + b;
    }
  }

  // ---- the four recognisers ----

  ghost predicate Correct(s: string, r: Option<string>)
  {
    match r
    case Some(t) => Carries(s, t)
    case None => forall t :: !Carries(s, t)
  }

  lemma CorrectIsUnique(s: string, r: Option<string>, r': Option<string>)
    requires Correct(s, r) && Correct(s, r')
    ensures r == r'
  {
    if r.Some? { CarriedIsTrimmed(s, r.value); }
    if r'.Some? { CarriedIsTrimmed(s, r'.value); }
  }

  // Go: the library trim, then ^[A-Za-z0-9._~+/-]+=*$ on the whole text.
  ghost function GoSendable(token: string): (r: Option<string>)
    ensures Correct(token, r)
  {
    var t := Trim(token);
    CarriedIsTrimmed(token, t);
    if B64Token(t) then Some(t)
    else
      assert forall x :: !Carries(token, x) by {
        forall x ensures !Carries(token, x) { CarriedIsTrimmed(token, x); }
      }
      None
  }

  // Rust: the padding is stripped from the back, and what is left must be non-empty token characters.
  function RustSendable(token: string): Option<string>
  {
    var trimmed := Trim(token);
    var body := TrimEnd(trimmed);
    if body != [] && AllToken68(body) then Some(trimmed) else None
  }

  lemma RustSendableIsCorrect(token: string)
    ensures Correct(token, RustSendable(token))
  {
    var t := Trim(token);
    var body := TrimEnd(t);
    StripIsGrammar(t);
    forall x ensures Carries(token, x) <==> x == t && B64Token(x) { CarriedIsTrimmed(token, x); }
  }

  lemma StripIsGrammar(t: string)
    ensures B64Token(t) <==> TrimEnd(t) != [] && AllToken68(TrimEnd(t))
  {
    if B64Token(t) {
      var i :| 1 <= i <= |t| && AllToken68(t[..i]) && AllPadding(t[i..]);
      assert Token68(t[..i][i - 1]);
      assert t == t[..i] + t[i..];
      TrimEndIs(t, t[..i], t[i..]);
    }
    if TrimEnd(t) != [] && AllToken68(TrimEnd(t)) {
      var pad := TrimEndLeaves(t);
      var i := |TrimEnd(t)|;
      assert t[..i] == TrimEnd(t) && t[i..] == pad;
    }
  }

  // .NET: one index runs over the token characters, then over the padding.
  method DotNetSendable(token: Option<string>) returns (r: Option<string>)
    ensures token.None? ==> r.None?
    ensures token.Some? ==> Correct(token.value, r)
  {
    if token.None? {
      return None;
    }
    var t := Trim(token.value);
    forall x ensures Carries(token.value, x) <==> x == t && B64Token(x) { CarriedIsTrimmed(token.value, x); }
    if t == [] {
      return None;
    }
    var i := 0;
    while i < |t| && Token68(t[i])
      invariant i <= |t| && AllToken68(t[..i])
    {
      i := i + 1;
    }
    ghost var first := i;
    ScanIsGrammar(t, first);
    if i == 0 {
      return None;
    }
    while i < |t| && t[i] == '='
      invariant first <= i <= |t| && AllPadding(t[first..i])
    {
      assert t[first..i + 1] == t[first..i] + [t[i]];
      i := i + 1;
    }
    assert i == |t| ==> t[first..i] == t[first..];
    assert i < |t| ==> t[first..][i - first] != '=';
    r := if i == |t| then Some(t) else None;
  }

  // The longest run of token characters decides.
  lemma ScanIsGrammar(t: string, first: nat)
    requires first <= |t| && AllToken68(t[..first]) && (first < |t| ==> !Token68(t[first]))
    ensures B64Token(t) <==> first >= 1 && AllPadding(t[first..])
  {
    if B64Token(t) {
      var i :| 1 <= i <= |t| && AllToken68(t[..i]) && AllPadding(t[i..]);
      assert i < first ==> t[..first][i] == t[i] == t[i..][0];
    }
  }

  // Node: two indices move in from the ends, then the regular expression on what lies between.
  method NodeSendable(text: string) returns (r: Option<string>)
    ensures Correct(text, r)
  {
    var start, end := 0, |text|;
    while start < end && Edge(text[start])
      invariant 0 <= start <= end == |text| && AllEdges(text[..start])
    {
      start := start + 1;
    }
    while end > start && Edge(text[end - 1])
      invariant start <= end <= |text| && AllEdges(text[end..])
    {
      end := end - 1;
    }
    var trimmed := text[start..end];
    NodeTrimIs(text, start, end);
    forall x ensures Carries(text, x) <==> x == trimmed && B64Token(x) { CarriedIsTrimmed(text, x); }
    StripIsGrammar(trimmed);
    r := if MatchesRegExp(trimmed) then Some(trimmed) else None;
  }

  // The regular expression's language, decided by giving the padding back to its second half.
  predicate MatchesRegExp(t: string)
    ensures MatchesRegExp(t) <==> B64Token(t)
  {
    StripIsGrammar(t);
    TrimEnd(t) != [] && AllToken68(TrimEnd(t))
  }

  lemma NodeTrimIs(text: string, start: nat, end: nat)
    requires start <= end <= |text| && AllEdges(text[..start]) && AllEdges(text[end..])
    requires start < end ==> !Edge(text[start]) && !Edge(text[end - 1])
    ensures text[start..end] == Trim(text)
  {
    if start < end {
      assert text == text[..start] + text[start..];
      TrimLeftIs(text, text[..start], text[start..]);
      assert text[start..] == text[start..end] + text[end..];
      TrimRightIs(text[start..], text[start..end], text[end..]);
    } else {
      assert AllEdges(text) by {
        forall k | 0 <= k < |text| ensures Edge(text[k]) {
          if k < start { assert Edge(text[..start][k]); } else { assert Edge(text[end..][k - end]); }
        }
      }
      assert text == text + [];
      TrimLeftIs(text, text, []);
    }
  }

  // A token that passed once passes unchanged: what a provider caches is what every later check sends.
  lemma SendableIsAFixedPoint(token: string, t: string)
    requires Carries(token, t)
    ensures Correct(t, Some(t)) && RustSendable(t) == Some(t) && GoSendable(t) == Some(t)
  {
    assert t == [] + t + [];
    assert AllEdges("");
    RustSendableIsCorrect(t);
    CorrectIsUnique(t, Some(t), RustSendable(t));
    CorrectIsUnique(t, Some(t), GoSendable(t));
  }

  // ---- the characters ----

  // The grammar's characters and the trimmed ones by their code points: + - . / the digits, the letters, _ and ~; and
  // tab, line feed, carriage return and space.
  lemma CharactersAre(c: char)
    ensures var n := c as int;
            && (Token68(c) <==>
                  n == 0x2B || 0x2D <= n <= 0x39 || 0x41 <= n <= 0x5A || n == 0x5F || 0x61 <= n <= 0x7A || n == 0x7E)
            && (Edge(c) <==> n in {0x09, 0x0A, 0x0D, 0x20})
  {
  }
}
