/** Rust's percent-encoding of a path segment, section 2.1 of RFC 3986, and the id read back from a URL. */
module PathSegment {
  import opened Common

  // Control characters, bytes past ASCII, and space " < > ` # ? { } / %
  predicate Escaped(b: byte)
  {
    b < 0x20 || b >= 0x7F ||
    b in {0x20, 0x22, 0x3C, 0x3E, 0x60, 0x23, 0x3F, 0x7B, 0x7D, 0x2F, 0x25}
  }

  const HEX := "0123456789ABCDEF"

  function Piece(b: byte): string
  {
    if Escaped(b) then ['%', HEX[b / 16], HEX[b % 16]] else [b as char]
  }

  function Encoded(segment: seq<byte>): string
  {
    if segment == [] then [] else Encoded(segment[..|segment| - 1]) + Piece(segment[|segment| - 1])
  }

  // The encoder pushes into its output one byte at a time.
  method P(segment: seq<byte>) returns (out: string)
    ensures out == Encoded(segment)
  {
    out := "";
    for i := 0 to |segment|
      invariant out == Encoded(segment[..i])
    {
      assert segment[..i + 1][..i] == segment[..i];
      var b := segment[i];
      if !(0x20 <= b < 0x7F) || b in {0x20, 0x22, 0x3C, 0x3E, 0x60, 0x23, 0x3F, 0x7B, 0x7D, 0x2F, 0x25} {
        out := out + "%";
        out := out + [HEX[b / 16]];
        out := out + [HEX[b % 16]];
      } else {
        out := out + [b as char];
      }
    }
    assert segment[..|segment|] == segment;
  }

  // ---- decoding, as a server does it ----

  function HexValue(c: char): Option<nat>
  {
    if '0' <= c <= '9' then Some(c as int - '0' as int)
    else if 'A' <= c <= 'F' then Some(c as int - 'A' as int + 10)
    else if 'a' <= c <= 'f' then Some(c as int - 'a' as int + 10)
    else None
  }

  // Reads from the front; a stray percent sign or a character past one byte is an error.
  function Decoded(s: string): Option<seq<byte>>
  {
    if s == [] then Some([])
    else if s[0] == '%' then
      if |s| < 3 || HexValue(s[1]).None? || HexValue(s[2]).None? then None
      else
        var rest := Decoded(s[3..]);
        if rest.None? then None else Some([16 * HexValue(s[1]).value + HexValue(s[2]).value] + rest.value)
    else if s[0] as int >= 256 then None
    else
      var rest := Decoded(s[1..]);
      if rest.None? then None else Some([s[0] as int] + rest.value)
  }

  lemma HexDigits(n: nat)
    requires n < 16
    ensures HexValue(HEX[n]) == Some(n)
  {
  }

  lemma PieceDecodes(b: byte, rest: string)
    ensures Decoded(Piece(b) + rest) ==
            if Decoded(rest).None? then None else Some([b] + Decoded(rest).value)
  {
    if Escaped(b) {
      HexDigits(b / 16);
      HexDigits(b % 16);
      assert (Piece(b) + rest)[3..] == rest;
    } else {
      assert (Piece(b) + rest)[1..] == rest;
    }
  }

  lemma {:induction false} EncodedThenDecoded(segment: seq<byte>, tail: string)
    ensures Decoded(Encoded(segment) + tail) ==
            if Decoded(tail).None? then None else Some(segment + Decoded(tail).value)
  {
    if segment == [] {
      assert Encoded(segment) + tail == tail;
      if Decoded(tail).Some? { assert segment + Decoded(tail).value == Decoded(tail).value; }
    } else {
      var pre, b := segment[..|segment| - 1], segment[|segment| - 1];
      assert Encoded(segment) + tail == Encoded(pre) + (Piece(b) + tail);
      PieceDecodes(b, tail);
      EncodedThenDecoded(pre, Piece(b) + tail);
      if Decoded(tail).Some? {
        assert segment + Decoded(tail).value == pre + ([b] + Decoded(tail).value);
      }
    }
  }

  // Decoding gives the segment back, whatever its bytes.
  lemma RoundTrip(segment: seq<byte>)
    ensures Decoded(Encoded(segment)) == Some(segment)
  {
    EncodedThenDecoded(segment, []);
    assert Encoded(segment) + [] == Encoded(segment);
    assert segment + [] == segment;
  }

  // So no two segments share an encoding.
  lemma EncodingIsInjective(a: seq<byte>, b: seq<byte>)
    requires Encoded(a) == Encoded(b)
    ensures a == b
  {
    RoundTrip(a);
    RoundTrip(b);
  }

  // An encoded segment cannot end its path, start a query or a fragment, or carry anything but printable ASCII.
  lemma {:induction false} EncodedIsOneSegment(segment: seq<byte>, k: nat)
    requires k < |Encoded(segment)|
    ensures Encoded(segment)[k] !in "/?# \"<>`{}" && 0x20 < Encoded(segment)[k] as int < 0x7F
  {
    var pre, b := segment[..|segment| - 1], segment[|segment| - 1];
    if k < |Encoded(pre)| {
      EncodedIsOneSegment(pre, k);
    } else {
      assert Encoded(segment)[k] == Piece(b)[k - |Encoded(pre)|];
      PieceIsPlain(b, k - |Encoded(pre)|);
    }
  }

  lemma PieceIsPlain(b: byte, k: nat)
    requires k < |Piece(b)|
    ensures Piece(b)[k] !in "/?# \"<>`{}" && 0x20 < Piece(b)[k] as int < 0x7F
  {
    if Escaped(b) {
      HexIsPlain(b / 16);
      HexIsPlain(b % 16);
    }
  }

  lemma HexIsPlain(n: nat)
    requires n < 16
    ensures '0' <= HEX[n] <= '9' || 'A' <= HEX[n] <= 'F'
  {
  }

  // ---- the id of a created resource ----

  // What follows the last slash of a Location.
  function LastSegment(url: string): string
  {
    if url == [] || url[|url| - 1] == '/' then [] else LastSegment(url[..|url| - 1]) + [url[|url| - 1]]
  }

  lemma {:induction false} LastSegmentIs(prefix: string, tail: string)
    requires forall k :: 0 <= k < |tail| ==> tail[k] != '/'
    ensures LastSegment(prefix + "/" + tail) == tail
  {
    var url := prefix + "/" + tail;
    if tail == [] {
      assert url[|url| - 1] == '/';
    } else {
      assert url[..|url| - 1] == prefix + "/" + tail[..|tail| - 1];
      LastSegmentIs(prefix, tail[..|tail| - 1]);
    }
  }

  // Whatever a server puts before it, the id of a resource created under an encoded name decodes to that name.
  lemma CreatedIdRoundTrip(prefix: string, id: seq<byte>)
    ensures LastSegment(prefix + "/" + Encoded(id)) == Encoded(id)
    ensures Decoded(LastSegment(prefix + "/" + Encoded(id))) == Some(id)
  {
    forall k | 0 <= k < |Encoded(id)| ensures Encoded(id)[k] != '/' { EncodedIsOneSegment(id, k); }
    LastSegmentIs(prefix, Encoded(id));
    RoundTrip(id);
  }

  // ---- which bytes are kept ----

  // ! $ & to . 0 to ; = @ to _ a to z | ~
  predicate Kept(b: byte)
  {
    b == 0x21 || b == 0x24 || 0x26 <= b <= 0x2E || 0x30 <= b <= 0x3B || b == 0x3D || 0x40 <= b <= 0x5F ||
    0x61 <= b <= 0x7A || b == 0x7C || b == 0x7E
  }

  // A byte is written as itself exactly if it is one of these characters, and else as a percent sign and its two
  // upper-case hexadecimal digits.
  lemma BytesAreKeptExactlyWhen(b: byte)
    ensures Piece(b) == [b as char] <==> Kept(b)
    ensures !Kept(b) ==>
              && |Piece(b)| == 3 && Piece(b)[0] == '%'
              && HexValue(Piece(b)[1]) == Some(b / 16) && HexValue(Piece(b)[2]) == Some(b % 16)
              && !('a' <= Piece(b)[1] <= 'f') && !('a' <= Piece(b)[2] <= 'f')
  {
    if Escaped(b) {
      HexDigits(b / 16);
      HexDigits(b % 16);
    }
  }
}
