/** The two percent-encodings the pages put into URLs, and the parser that
    reads them back:
    - `encodeURIComponent` (section 19.2.6.5 of ECMA-262), used by the home
      page's search link;
    - the application/x-www-form-urlencoded serializer behind
      `URLSearchParams.toString()` (section 5.2 of the WHATWG URL Standard),
      used by the browse page's listing query;
    - the application/x-www-form-urlencoded parser behind `new
      URLSearchParams(location.search)` (section 5.1 of the same standard),
      used by the browse page to read its filters back.
    Both encoders write each character that is not left alone as the
    percent-escaped bytes of its UTF-8 form (section 3 of RFC 3629). */
module Uri {
  import opened Js

  type byte = x: int | 0 <= x < 256

  // ---------------------------------------------------------------- UTF-8

  predicate IsContinuation(b: byte) {
    0x80 <= b < 0xC0
  }

  /** The UTF-8 form of one Unicode scalar value. */
  function Utf8(c: char): (bs: seq<byte>)
    ensures 1 <= |bs| <= 4
    ensures |bs| == 1 <==> c as int < 0x80
    ensures |bs| == 1 ==> bs[0] == c as int
    ensures forall i :: 1 <= i < |bs| ==> IsContinuation(bs[i])
  {
    var x := c as int;
    if x < 0x80 then [x]
    else if x < 0x800 then [0xC0 + x / 64, 0x80 + x % 64]
    else if x < 0x10000 then [0xE0 + x / 4096, 0x80 + (x / 64) % 64, 0x80 + x % 64]
    else [0xF0 + x / 0x40000, 0x80 + (x / 4096) % 64, 0x80 + (x / 64) % 64, 0x80 + x % 64]
  }

  function Utf8Str(s: string): (bs: seq<byte>)
    ensures |bs| >= |s|
  {
    if |s| == 0 then [] else Utf8(s[0]) + Utf8Str(s[1..])
  }

  lemma {:induction false} Utf8StrAppend(a: string, b: string)
    ensures Utf8Str(a + b) == Utf8Str(a) + Utf8Str(b)
  {
    if |a| == 0 {
      assert a + b == b;
    } else {
      var ab := a + b;
      assert ab[0] == a[0] && ab[1..] == a[1..] + b;
      assert Utf8Str(ab) == Utf8(a[0]) + Utf8Str(a[1..] + b);
      Utf8StrAppend(a[1..], b);
      assert Utf8(a[0]) + (Utf8Str(a[1..]) + Utf8Str(b)) == (Utf8(a[0]) + Utf8Str(a[1..])) + Utf8Str(b);
    }
  }

  /** Reads one scalar value off the front of `bs`, with how many bytes it
      took; `None` for a malformed, overlong, surrogate or out-of-range
      sequence. */
  function DecodeOne(bs: seq<byte>): (r: Option<(char, nat)>)
    requires |bs| > 0
    ensures r.Some? ==> 1 <= r.value.1 <= |bs|
  {
    var b0: int := bs[0];
    if b0 < 0x80 then Some((b0 as char, 1))
    else if 0xC0 <= b0 < 0xE0 then
      if |bs| < 2 || !IsContinuation(bs[1]) then None
      else
        var x := (b0 - 0xC0) * 64 + (bs[1] as int - 0x80);
        if x < 0x80 then None else Some((x as char, 2))
    else if 0xE0 <= b0 < 0xF0 then
      if |bs| < 3 || !IsContinuation(bs[1]) || !IsContinuation(bs[2]) then None
      else
        var x := (b0 - 0xE0) * 4096 + (bs[1] as int - 0x80) * 64 + (bs[2] as int - 0x80);
        if x < 0x800 || (0xD800 <= x < 0xE000) then None else Some((x as char, 3))
    else if 0xF0 <= b0 < 0xF8 then
      if |bs| < 4 || !IsContinuation(bs[1]) || !IsContinuation(bs[2]) || !IsContinuation(bs[3]) then None
      else
        var x := (b0 - 0xF0) * 0x40000 + (bs[1] as int - 0x80) * 4096 + (bs[2] as int - 0x80) * 64 + (bs[3] as int - 0x80);
        if x < 0x10000 || x >= 0x110000 then None else Some((x as char, 4))
    else None
  }

  /** UTF-8 decoding of a whole byte string; `None` when it is malformed. */
  function Utf8Decode(bs: seq<byte>): Option<string>
    decreases |bs|
  {
    if |bs| == 0 then Some([])
    else
      match DecodeOne(bs)
      case None => None
      case Some((c, n)) =>
        match Utf8Decode(bs[n..])
        case None => None
        case Some(rest) => Some([c] + rest)
  }

  lemma DivMod64(x: nat)
    ensures x / 4096 == (x / 64) / 64
    ensures x / 0x40000 == (x / 4096) / 64
  {
  }

  /** Decoding reads back exactly the bytes one character was encoded to. */
  lemma DecodeOneUtf8(c: char, rest: seq<byte>)
    ensures DecodeOne(Utf8(c) + rest) == Some((c, |Utf8(c)|))
  {
    var x := c as int;
    var bs: seq<int> := Utf8(c) + rest;
    DivMod64(x);
    if x < 0x80 {
    } else if x < 0x800 {
      assert (bs[0] - 0xC0) * 64 + (bs[1] - 0x80) == x;
    } else if x < 0x10000 {
      assert (bs[0] - 0xE0) * 4096 + (bs[1] - 0x80) * 64 + (bs[2] - 0x80) == x;
    } else {
      assert (bs[0] - 0xF0) * 0x40000 + (bs[1] - 0x80) * 4096 + (bs[2] - 0x80) * 64 + (bs[3] - 0x80) == x;
    }
  }

  /** UTF-8 decoding inverts UTF-8 encoding. */
  lemma {:induction false} Utf8RoundTrip(s: string)
    ensures Utf8Decode(Utf8Str(s)) == Some(s)
  {
    if |s| > 0 {
      var e := Utf8(s[0]);
      DecodeOneUtf8(s[0], Utf8Str(s[1..]));
      assert (e + Utf8Str(s[1..]))[|e|..] == Utf8Str(s[1..]);
      Utf8RoundTrip(s[1..]);
      assert [s[0]] + s[1..] == s;
    }
  }

  // ------------------------------------------------------ percent-encoding

  predicate IsHexDigit(b: byte) {
    (0x30 <= b <= 0x39) || (0x41 <= b <= 0x46) || (0x61 <= b <= 0x66)
  }

  function HexValue(b: byte): (v: nat)
    requires IsHexDigit(b)
    ensures v < 16
  {
    if b <= 0x39 then b - 0x30 else if b <= 0x46 then b - 0x41 + 10 else b - 0x61 + 10
  }

  /** The upper-case hexadecimal digit both encoders write. */
  function HexDigit(n: nat): (c: char)
    requires n < 16
    ensures c as int < 0x80 && IsHexDigit(c as int) && HexValue(c as int) == n
  {
    if n < 10 then (0x30 + n) as char else (0x41 + n - 10) as char
  }

  /** `%` and the two hexadecimal digits of a byte. */
  function Escape(b: byte): (s: string)
    ensures |s| == 3
    ensures forall i :: 0 <= i < 3 ==> QuerySafe(s[i]) && s[i] != '+'
  {
    ['%', HexDigit(b / 16), HexDigit(b % 16)]
  }

  function PercentEncode(bs: seq<byte>): (s: string)
    ensures |s| == 3 * |bs|
  {
    if |bs| == 0 then [] else Escape(bs[0]) + PercentEncode(bs[1..])
  }

  datatype Scheme =
    | Component  // encodeURIComponent
    | Form       // application/x-www-form-urlencoded

  predicate IsAlphanumeric(c: char) {
    ('A' <= c <= 'Z') || ('a' <= c <= 'z') || ('0' <= c <= '9')
  }

  /** The characters a scheme writes as themselves. */
  predicate Unescaped(scheme: Scheme, c: char) {
    IsAlphanumeric(c) ||
    match scheme
    case Component => c in "-_.!~*'()"
    case Form => c in "*-._"
  }

  function EncodeChar(scheme: Scheme, c: char): string {
    if scheme == Form && c == ' ' then "+"
    else if Unescaped(scheme, c) then [c]
    else PercentEncode(Utf8(c))
  }

  /** A character that may stand in an encoded name or value: ASCII, and
      neither a pair separator, a name/value separator nor a fragment mark. */
  predicate QuerySafe(c: char) {
    c as int < 0x80 && c != '&' && c != '=' && c != '#'
  }

  function Encode(scheme: Scheme, s: string): (r: string)
    ensures forall i :: 0 <= i < |r| ==> QuerySafe(r[i])
    ensures scheme == Component ==> forall i :: 0 <= i < |r| ==> r[i] != '+'
    ensures |r| >= |s|
  {
    if |s| == 0 then []
    else
      var e := EncodeChar(scheme, s[0]);
      assert forall i :: 0 <= i < |e| ==> QuerySafe(e[i]) && (scheme == Component ==> e[i] != '+') by {
        if !(scheme == Form && s[0] == ' ') && !Unescaped(scheme, s[0]) {
          PercentEncodeSafe(Utf8(s[0]));
        }
      }
      e + Encode(scheme, s[1..])
  }

  lemma {:induction false} PercentEncodeSafe(bs: seq<byte>)
    ensures forall i :: 0 <= i < |PercentEncode(bs)| ==>
      QuerySafe(PercentEncode(bs)[i]) && PercentEncode(bs)[i] != '+'
  {
    if |bs| > 0 {
      PercentEncodeSafe(bs[1..]);
      var e := Escape(bs[0]);
      var t := PercentEncode(bs[1..]);
      assert forall i :: 0 <= i < |e + t| ==> (e + t)[i] == if i < 3 then e[i] else t[i - 3];
    }
  }

  /** A string made only of letters and digits encodes to itself in both
      schemes; parameter names are such strings. */
  lemma {:induction false} EncodeAlphanumeric(scheme: Scheme, s: string)
    requires forall i :: 0 <= i < |s| ==> IsAlphanumeric(s[i])
    ensures Encode(scheme, s) == s
  {
    if |s| > 0 {
      EncodeAlphanumeric(scheme, s[1..]);
      assert [s[0]] + s[1..] == s;
    }
  }

  // ------------------------------------------------------------- decoding

  /** Replaces each 0x2B (+) byte by 0x20 (space), the parser's first step. */
  function SpaceForPlus(bs: seq<byte>): (r: seq<byte>)
    ensures |r| == |bs|
  {
    if |bs| == 0 then [] else [if bs[0] == 0x2B then 0x20 else bs[0]] + SpaceForPlus(bs[1..])
  }

  lemma {:induction false} SpaceForPlusAppend(a: seq<byte>, b: seq<byte>)
    ensures SpaceForPlus(a + b) == SpaceForPlus(a) + SpaceForPlus(b)
  {
    if |a| == 0 {
      assert a + b == b;
    } else {
      assert (a + b)[1..] == a[1..] + b;
      SpaceForPlusAppend(a[1..], b);
    }
  }

  /** Percent-decoding (section 1.3 of the WHATWG URL Standard): `%` and two
      hexadecimal digits become that byte; any other byte, including a `%`
      not followed by two digits, stays as it is. */
  function PercentDecode(bs: seq<byte>): (r: seq<byte>)
    ensures |r| <= |bs|
  {
    if |bs| == 0 then []
    else if bs[0] == 0x25 && |bs| >= 3 && IsHexDigit(bs[1]) && IsHexDigit(bs[2]) then
      [HexValue(bs[1]) * 16 + HexValue(bs[2])] + PercentDecode(bs[3..])
    else [bs[0]] + PercentDecode(bs[1..])
  }

  /** One name or value as the form parser reads it: pluses to spaces,
      percent-decoding of its UTF-8 bytes, then UTF-8 decoding. */
  function DecodeComponent(s: string): Option<string> {
    Utf8Decode(PercentDecode(SpaceForPlus(Utf8Str(s))))
  }

  lemma {:induction false} Utf8StrAscii(s: string)
    requires forall i :: 0 <= i < |s| ==> s[i] as int < 0x80
    ensures |Utf8Str(s)| == |s|
    ensures forall i :: 0 <= i < |s| ==> Utf8Str(s)[i] == s[i] as int
  {
    if |s| > 0 {
      Utf8StrAscii(s[1..]);
    }
  }

  lemma {:induction false} SpaceForPlusNoPlus(bs: seq<byte>)
    requires forall i :: 0 <= i < |bs| ==> bs[i] != 0x2B
    ensures SpaceForPlus(bs) == bs
  {
    if |bs| > 0 {
      SpaceForPlusNoPlus(bs[1..]);
    }
  }

  lemma DecodeEscape(b: byte, more: seq<byte>)
    ensures PercentDecode(SpaceForPlus(Utf8Str(Escape(b))) + more) == [b] + PercentDecode(more)
  {
    var e := Escape(b);
    var hb: seq<byte> := [0x25, e[1] as int, e[2] as int];
    Utf8StrAscii(e);
    assert Utf8Str(e) == hb;
    SpaceForPlusNoPlus(hb);
    assert (hb + more)[3..] == more;
  }

  /** The parser's first two steps distribute over concatenation. */
  lemma PrepareAppend(a: string, b: string)
    ensures SpaceForPlus(Utf8Str(a + b)) == SpaceForPlus(Utf8Str(a)) + SpaceForPlus(Utf8Str(b))
  {
    Utf8StrAppend(a, b);
    SpaceForPlusAppend(Utf8Str(a), Utf8Str(b));
  }

  /** The prepared bytes of an escaped string: the first escape's, then the rest's. */
  lemma PrepareEncode(bs: seq<byte>)
    requires |bs| > 0
    ensures SpaceForPlus(Utf8Str(PercentEncode(bs)))
         == SpaceForPlus(Utf8Str(Escape(bs[0]))) + SpaceForPlus(Utf8Str(PercentEncode(bs[1..])))
  {
    assert PercentEncode(bs) == Escape(bs[0]) + PercentEncode(bs[1..]);
    PrepareAppend(Escape(bs[0]), PercentEncode(bs[1..]));
  }

  /** Bytes `e` that decode to the first byte of `bs` in front of bytes `u`
      that decode to the rest of `bs`, then `tail`, decode to `bs` then `tail`. */
  lemma DecodeStep(bs: seq<byte>, e: seq<byte>, u: seq<byte>, tail: seq<byte>)
    requires |bs| > 0
    requires PercentDecode(e + u) == [bs[0]] + PercentDecode(u)
    requires PercentDecode(u) == bs[1..] + tail
    ensures PercentDecode(e + u) == bs + tail
  {
    assert [bs[0]] + (bs[1..] + tail) == bs + tail;
  }

  /** The escape of a byte string decodes back to that byte string. */
  lemma {:induction false} PercentDecodeEscapes(bs: seq<byte>, rest: seq<byte>)
    ensures PercentDecode(SpaceForPlus(Utf8Str(PercentEncode(bs))) + rest) == bs + PercentDecode(rest)
  {
    if |bs| > 0 {
      var e := SpaceForPlus(Utf8Str(Escape(bs[0])));
      var u := SpaceForPlus(Utf8Str(PercentEncode(bs[1..]))) + rest;
      PrepareEncode(bs);
      assert SpaceForPlus(Utf8Str(PercentEncode(bs))) + rest == e + u;
      PercentDecodeEscapes(bs[1..], rest);
      DecodeEscape(bs[0], u);
      DecodeStep(bs, e, u, PercentDecode(rest));
    } else {
      assert SpaceForPlus(Utf8Str(PercentEncode(bs))) + rest == rest;
    }
  }

  /** What one encoded character decodes to: the UTF-8 bytes of the character. */
  lemma DecodeEncodedChar(scheme: Scheme, c: char, rest: seq<byte>)
    ensures PercentDecode(SpaceForPlus(Utf8Str(EncodeChar(scheme, c))) + rest)
         == Utf8(c) + PercentDecode(rest)
  {
    if scheme == Form && c == ' ' {
      assert Utf8Str("+") == [0x2B];
    } else if Unescaped(scheme, c) {
      assert Utf8Str([c]) == [c as int];
      assert ([c as int] + rest)[1..] == rest;
    } else {
      PercentDecodeEscapes(Utf8(c), rest);
    }
  }

  lemma {:induction false} DecodeEncodedBytes(scheme: Scheme, s: string)
    ensures PercentDecode(SpaceForPlus(Utf8Str(Encode(scheme, s)))) == Utf8Str(s)
  {
    if |s| > 0 {
      var e := EncodeChar(scheme, s[0]);
      var t := Encode(scheme, s[1..]);
      PrepareAppend(e, t);
      DecodeEncodedChar(scheme, s[0], SpaceForPlus(Utf8Str(t)));
      DecodeEncodedBytes(scheme, s[1..]);
    }
  }

  /** The form parser reads back exactly what either encoder wrote. */
  lemma DecodeEncode(scheme: Scheme, s: string)
    ensures DecodeComponent(Encode(scheme, s)) == Some(s)
  {
    DecodeEncodedBytes(scheme, s);
    Utf8RoundTrip(s);
  }

  // ---------------------------------------------------- query strings

  /** The first index of `c` in `s`, or `|s|` when `c` does not occur. */
  function IndexOf(s: string, c: char): (i: nat)
    ensures i <= |s|
    ensures i < |s| ==> s[i] == c
    ensures forall j :: 0 <= j < i ==> s[j] != c
  {
    if |s| == 0 then 0
    else if s[0] == c then 0
    else 1 + IndexOf(s[1..], c)
  }

  /** Splitting on a separator, keeping empty pieces: "" gives [""]. */
  function Split(s: string, sep: char): (r: seq<string>)
    ensures |r| >= 1
  {
    if |s| == 0 then [""]
    else
      var rest := Split(s[1..], sep);
      if s[0] == sep then [""] + rest else [[s[0]] + rest[0]] + rest[1..]
  }

  lemma {:induction false} SplitNoSeparator(s: string, sep: char)
    requires forall i :: 0 <= i < |s| ==> s[i] != sep
    ensures Split(s, sep) == [s]
  {
    if |s| > 0 {
      SplitNoSeparator(s[1..], sep);
      assert [s[0]] + s[1..] == s;
    }
  }

  lemma {:induction false} SplitAtSeparator(a: string, sep: char, b: string)
    requires forall i :: 0 <= i < |a| ==> a[i] != sep
    ensures Split(a + [sep] + b, sep) == [a] + Split(b, sep)
  {
    var s := a + [sep] + b;
    if |a| == 0 {
      assert s == [sep] + b;
      assert s[1..] == b;
    } else {
      assert s[1..] == a[1..] + [sep] + b;
      SplitAtSeparator(a[1..], sep, b);
      assert [a[0]] + a[1..] == a;
    }
  }

  /** One `name=value` piece: split at its first `=` (a piece without one is
      a name with the empty value), each side decoded. */
  function ParsePair(piece: string): Option<(string, string)> {
    var i := IndexOf(piece, '=');
    var name := DecodeComponent(piece[..i]);
    var value := DecodeComponent(if i < |piece| then piece[i + 1..] else "");
    if name.Some? && value.Some? then Some((name.value, value.value)) else None
  }

  function ParsePieces(pieces: seq<string>): Option<seq<(string, string)>> {
    if |pieces| == 0 then Some([])
    else if pieces[0] == "" then ParsePieces(pieces[1..])
    else
      match ParsePair(pieces[0])
      case None => None
      case Some(p) =>
        match ParsePieces(pieces[1..])
        case None => None
        case Some(ps) => Some([p] + ps)
  }

  /** The form parser over a query (the part after `?`): split on `&`, skip
      empty pieces, read each piece as a pair. `None` when some name or
      value does not decode to UTF-8. */
  function ParseQuery(q: string): Option<seq<(string, string)>> {
    ParsePieces(Split(q, '&'))
  }

  /** `params.get(name)`: the value of the first pair with that name. */
  function Lookup(ps: seq<(string, string)>, name: string): (r: Option<string>)
    ensures r.Some? <==> exists i :: 0 <= i < |ps| && ps[i].0 == name
    ensures r.Some? ==> exists i :: (0 <= i < |ps| && ps[i] == (name, r.value)
      && forall j :: 0 <= j < i ==> ps[j].0 != name)
  {
    if |ps| == 0 then None
    else if ps[0].0 == name then Some(ps[0].1)
    else
      var r := Lookup(ps[1..], name);
      if r.Some? then
        var i :| 0 <= i < |ps[1..]| && ps[1..][i] == (name, r.value)
          && forall j :: 0 <= j < i ==> ps[1..][j].0 != name;
        assert ps[i + 1] == (name, r.value);
        r
      else r
  }

  /** `name=value` with both sides encoded by `scheme`. */
  function EncodePair(scheme: Scheme, name: string, value: string): (r: string)
    ensures r != ""
    ensures forall i :: 0 <= i < |r| ==> r[i] != '&'
  {
    Encode(scheme, name) + "=" + Encode(scheme, value)
  }

  /** A pair written by either encoder parses back to itself. */
  lemma ParseEncodedPair(scheme: Scheme, name: string, value: string)
    ensures ParsePair(EncodePair(scheme, name, value)) == Some((name, value))
  {
    var en := Encode(scheme, name);
    var ev := Encode(scheme, value);
    var piece := EncodePair(scheme, name, value);
    assert piece[|en|] == '=';
    assert IndexOf(piece, '=') == |en|;
    assert piece[..|en|] == en;
    assert piece[|en| + 1..] == ev;
    DecodeEncode(scheme, name);
    DecodeEncode(scheme, value);
  }

  /** Each pair form-encoded as one `name=value` piece. */
  function EncodePairs(ps: seq<(string, string)>): (pieces: seq<string>)
    ensures |pieces| == |ps|
    ensures forall i :: 0 <= i < |ps| ==> pieces[i] == EncodePair(Form, ps[i].0, ps[i].1)
  {
    if |ps| == 0 then [] else [EncodePair(Form, ps[0].0, ps[0].1)] + EncodePairs(ps[1..])
  }

  /** The pieces in order with `sep` between neighbours. */
  function Join(pieces: seq<string>, sep: char): string {
    if |pieces| == 0 then ""
    else if |pieces| == 1 then pieces[0]
    else pieces[0] + [sep] + Join(pieces[1..], sep)
  }

  /** `URLSearchParams.toString()`: the pairs form-encoded, in order, joined by `&`. */
  function Serialize(ps: seq<(string, string)>): string {
    Join(EncodePairs(ps), '&')
  }

  /** Splitting undoes joining when no piece holds the separator. */
  lemma {:induction false} SplitJoin(pieces: seq<string>, sep: char)
    requires |pieces| > 0
    requires forall i, j :: 0 <= i < |pieces| && 0 <= j < |pieces[i]| ==> pieces[i][j] != sep
    ensures Split(Join(pieces, sep), sep) == pieces
  {
    if |pieces| == 1 {
      SplitNoSeparator(pieces[0], sep);
    } else {
      SplitJoin(pieces[1..], sep);
      SplitAtSeparator(pieces[0], sep, Join(pieces[1..], sep));
      assert [pieces[0]] + pieces[1..] == pieces;
    }
  }

  /** Every encoded piece parses back to its pair. */
  lemma {:induction false} ParseEncodedPieces(ps: seq<(string, string)>)
    ensures ParsePieces(EncodePairs(ps)) == Some(ps)
  {
    if |ps| > 0 {
      var pieces := EncodePairs(ps);
      ParseEncodedPair(Form, ps[0].0, ps[0].1);
      assert pieces[1..] == EncodePairs(ps[1..]);
      ParseEncodedPieces(ps[1..]);
      assert [ps[0]] + ps[1..] == ps;
    }
  }

  lemma ParsePiecesCons(piece: string, p: (string, string), rest: seq<string>, ps: seq<(string, string)>)
    requires piece != "" && ParsePair(piece) == Some(p) && ParsePieces(rest) == Some(ps)
    ensures ParsePieces([piece] + rest) == Some([p] + ps)
  {
    assert ([piece] + rest)[1..] == rest;
  }

  /** A single piece without `&` is the whole query. */
  lemma ParseQuerySingle(piece: string, p: (string, string))
    requires piece != "" && ParsePair(piece) == Some(p)
    requires forall i :: 0 <= i < |piece| ==> piece[i] != '&'
    ensures ParseQuery(piece) == Some([p])
  {
    SplitNoSeparator(piece, '&');
    ParsePiecesCons(piece, p, [], []);
    assert [piece] + [] == [piece];
    assert [p] + [] == [p];
  }

  /** A piece without `&`, then `&`, then a query: the piece's pair in front
      of the query's pairs. */
  lemma ParseQueryCons(piece: string, p: (string, string), tail: string, ps: seq<(string, string)>)
    requires piece != "" && ParsePair(piece) == Some(p)
    requires forall i :: 0 <= i < |piece| ==> piece[i] != '&'
    requires ParseQuery(tail) == Some(ps)
    ensures ParseQuery(piece + "&" + tail) == Some([p] + ps)
  {
    assert piece + "&" + tail == piece + ['&'] + tail;
    SplitAtSeparator(piece, '&', tail);
    ParsePiecesCons(piece, p, Split(tail, '&'), ps);
  }

  /** Parsing a serialized parameter list gives back the list: every pair, in
      order, names and values intact. */
  lemma ParseSerialize(ps: seq<(string, string)>)
    ensures ParseQuery(Serialize(ps)) == Some(ps)
  {
    if |ps| == 0 {
      assert Split("", '&') == [""];
    } else {
      var pieces := EncodePairs(ps);
      forall i, j | 0 <= i < |pieces| && 0 <= j < |pieces[i]|
        ensures pieces[i][j] != '&'
      {
        assert pieces[i] == EncodePair(Form, ps[i].0, ps[i].1);
      }
      SplitJoin(pieces, '&');
      ParseEncodedPieces(ps);
    }
  }
}
