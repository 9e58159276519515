/** Value-level behaviour of the few JavaScript built-ins the pages lean on:
    the falsy-or default (`a || b`), `substring(0, n)`, `String.prototype.trim`
    and `Array.prototype.map` over a callback that may throw. */
module Js {

  datatype Option<+T> = None | Some(value: T) {
    function GetOr(default: T): T {
      match this
      case Some(v) => v
      case None => default
    }
  }

  /** A string field read through optional chaining is truthy when it is
      present and not the empty string. */
  predicate Truthy(o: Option<string>) {
    o.Some? && o.value != ""
  }

  /** `o || d` for a string that may be absent. */
  function OrElse(o: Option<string>, d: string): (r: string)
    ensures Truthy(o) ==> r == o.value
    ensures !Truthy(o) ==> r == d
    ensures d != "" ==> r != ""
  {
    if Truthy(o) then o.value else d
  }

  function Min(a: nat, b: nat): nat {
    if a <= b then a else b
  }

  /** `s.substring(0, n)` on a string, `s.slice(0, n)` on an array: the
      first `n` elements, or all of `s` when it is shorter. */
  function Prefix<T>(s: seq<T>, n: nat): (r: seq<T>)
    ensures |r| == Min(n, |s|)
    ensures r <= s
  {
    if |s| <= n then s else s[..n]
  }

  /** `${s.substring(0, n)}...`: the card and preview truncation, which appends
      the dots whether or not anything was cut off. */
  function Ellipsis(s: string, n: nat): (r: string)
    ensures |r| == Min(n, |s|) + 3
    ensures r[..|r| - 3] <= s
    ensures r[|r| - 3..] == "..."
    ensures |s| <= n ==> r == s + "..."
  {
    var p := Prefix(s, n);
    assert (p + "...")[..|p|] == p;
    p + "..."
  }

  /** The characters `trim` removes: WhiteSpace and LineTerminator of
      sections 12.2 and 12.3 of ECMA-262 (the Zs category spelled out). */
  predicate IsWhitespace(c: char) {
    c as int in {0x09, 0x0B, 0x0C, 0x20, 0xA0, 0xFEFF,
                 0x0A, 0x0D, 0x2028, 0x2029,
                 0x1680, 0x2000, 0x2001, 0x2002, 0x2003, 0x2004, 0x2005,
                 0x2006, 0x2007, 0x2008, 0x2009, 0x200A, 0x202F, 0x205F, 0x3000}
  }

  predicate AllWhitespace(s: string) {
    forall i :: 0 <= i < |s| ==> IsWhitespace(s[i])
  }

  /** The number of whitespace characters `s` starts with. */
  function LeadingWhitespace(s: string): (k: nat)
    ensures k <= |s| && AllWhitespace(s[..k])
    ensures k == |s| || !IsWhitespace(s[k])
  {
    if |s| > 0 && IsWhitespace(s[0]) then
      var k := 1 + LeadingWhitespace(s[1..]);
      assert forall i :: 1 <= i < k ==> s[..k][i] == s[1..][..k - 1][i - 1];
      k
    else 0
  }

  function TrimEnd(s: string): (r: string)
    ensures r <= s
    ensures AllWhitespace(s[|r|..])
    ensures r == "" || !IsWhitespace(r[|r| - 1])
  {
    if |s| > 0 && IsWhitespace(s[|s| - 1]) then
      var r := TrimEnd(s[..|s| - 1]);
      r
    else s
  }

  /** `s.trim()`: the slice of `s` between its leading and its trailing
      whitespace. */
  function Trim(s: string): (r: string)
    ensures var k := LeadingWhitespace(s);
      k + |r| <= |s| && r == s[k..k + |r|] && AllWhitespace(s[k + |r|..])
    ensures r == "" || (!IsWhitespace(r[0]) && !IsWhitespace(r[|r| - 1]))
  {
    var k := LeadingWhitespace(s);
    var r := TrimEnd(s[k..]);
    assert s[k + |r|..] == s[k..][|r|..];
    r
  }

  /** `trim` leaves nothing exactly when the text is whitespace only; this is
      the "no text" guard of the chat input. */
  lemma {:induction false} TrimEmptyIffWhitespace(s: string)
    ensures Trim(s) == "" <==> AllWhitespace(s)
  {
    var k := LeadingWhitespace(s);
    var r := Trim(s);
    if r == "" {
      assert s[..k] == s;
    } else {
      assert s[k] == r[0];
    }
  }

  /** Trimming twice is trimming once. */
  lemma TrimIdempotent(s: string)
    ensures Trim(Trim(s)) == Trim(s)
  {
    var r := Trim(s);
    if r != "" {
      assert LeadingWhitespace(r) == 0;
      assert TrimEnd(r) == r;
    }
  }

  /** `xs.map(f)` where the callback may throw: `None` stands for the
      exception, which the first failing element raises. */
  function MapAll<A, B>(xs: seq<A>, f: A -> Option<B>): (r: Option<seq<B>>)
    ensures r.Some? <==> forall i :: 0 <= i < |xs| ==> f(xs[i]).Some?
    ensures r.Some? ==> |r.value| == |xs|
    ensures r.Some? ==> forall i :: 0 <= i < |xs| ==> r.value[i] == f(xs[i]).value
  {
    if |xs| == 0 then Some([])
    else
      match f(xs[0])
      case None => None
      case Some(y) =>
        match MapAll(xs[1..], f)
        case None => None
        case Some(ys) => Some([y] + ys)
  }
}
