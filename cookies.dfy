/** The cookie header built from a login response's cookies (`filter_cookie`):
    every cookie becomes `name=value`, and the pieces are joined with "; ". */
module Cookies {

  datatype Cookie = Cookie(name: string, value: string)

  /** One cookie as it appears in the header. */
  function Pair(c: Cookie): string
  {
    c.name + "=" + c.value
  }

  /** Total length of the `name=value` pieces of `cookies`. */
  function PairLengths(cookies: seq<Cookie>): nat
  {
    if cookies == [] then 0 else |Pair(cookies[0])| + PairLengths(cookies[1..])
  }

  /** The header: the pieces in input order, separated by "; ". */
  function FilterCookie(cookies: seq<Cookie>): (header: string)
    ensures header == "" <==> cookies == []
    ensures cookies != [] ==> |header| == PairLengths(cookies) + 2 * (|cookies| - 1)
    ensures cookies != [] ==> header[..|Pair(cookies[0])|] == Pair(cookies[0])
  {
    if cookies == [] then ""
    else if |cookies| == 1 then Pair(cookies[0])
    else Pair(cookies[0]) + "; " + FilterCookie(cookies[1..])
  }

  /** Appending a cookie appends "; name=value" to a non-empty header. */
  lemma {:induction false} FilterCookieSnoc(cookies: seq<Cookie>, c: Cookie)
    requires cookies != []
    ensures FilterCookie(cookies + [c]) == FilterCookie(cookies) + "; " + Pair(c)
  {
    var all := cookies + [c];
    assert all[0] == cookies[0];
    if |cookies| == 1 {
      assert all[1..] == [c];
    } else {
      assert all[1..] == cookies[1..] + [c];
      FilterCookieSnoc(cookies[1..], c);
    }
  }

  /** The first position of `ch` in `s`, or |s| when it does not occur. */
  function IndexOf(s: string, ch: char): (i: nat)
    ensures i <= |s|
    ensures i < |s| ==> s[i] == ch
    ensures forall j :: 0 <= j < i ==> s[j] != ch
  {
    if s == [] then 0
    else if s[0] == ch then 0
    else 1 + IndexOf(s[1..], ch)
  }

  /** Splits one piece at its first '='. */
  function ParsePair(piece: string): Cookie
  {
    var i := IndexOf(piece, '=');
    Cookie(piece[..i], if i < |piece| then piece[i + 1..] else "")
  }

  /** Splits a non-empty header at each ';', dropping the one character
      (the space) that follows each ';'. */
  function SplitPieces(header: string): seq<Cookie>
    decreases |header|
  {
    var i := IndexOf(header, ';');
    if i == |header| then [ParsePair(header)]
    else [ParsePair(header[..i])] + SplitPieces(if i + 2 <= |header| then header[i + 2..] else "")
  }

  /** Reads a header back into cookies: the inverse of FilterCookie. */
  function ParseCookieHeader(header: string): seq<Cookie>
  {
    if header == "" then [] else SplitPieces(header)
  }

  /** Cookie names never hold ';' or '=' and values never hold ';'. */
  predicate WellFormed(cookies: seq<Cookie>)
  {
    forall k :: 0 <= k < |cookies| ==>
      ';' !in cookies[k].name && '=' !in cookies[k].name && ';' !in cookies[k].value
  }

  lemma IndexOfFirst(a: string, ch: char, b: string)
    requires ch !in a
    ensures IndexOf(a + [ch] + b, ch) == |a|
  {
    var s := a + [ch] + b;
    assert s[|a|] == ch;
  }

  lemma IndexOfAbsent(a: string, ch: char)
    requires ch !in a
    ensures IndexOf(a, ch) == |a|
  {
  }

  lemma ParsePairRoundTrip(c: Cookie)
    requires '=' !in c.name
    ensures ParsePair(Pair(c)) == c
  {
    IndexOfFirst(c.name, '=', c.value);
    var p := Pair(c);
    assert p[..|c.name|] == c.name;
    assert p[|c.name| + 1..] == c.value;
  }

  /** Parsing the header gives back exactly the cookies, in order. */
  lemma {:induction false} CookieHeaderRoundTrip(cookies: seq<Cookie>)
    requires WellFormed(cookies)
    ensures ParseCookieHeader(FilterCookie(cookies)) == cookies
  {
    if cookies != [] {
      SplitRoundTrip(cookies);
    }
  }

  lemma {:induction false} SplitRoundTrip(cookies: seq<Cookie>)
    requires cookies != [] && WellFormed(cookies)
    ensures SplitPieces(FilterCookie(cookies)) == cookies
  {
    var c := cookies[0];
    var p := Pair(c);
    assert ';' !in p;
    ParsePairRoundTrip(c);
    if |cookies| == 1 {
      IndexOfAbsent(p, ';');
    } else {
      var rest := FilterCookie(cookies[1..]);
      var header := p + "; " + rest;
      assert header == p + [';'] + (" " + rest);
      IndexOfFirst(p, ';', " " + rest);
      assert header[..|p|] == p;
      assert header[|p| + 2..] == rest;
      assert WellFormed(cookies[1..]) by {
        forall k | 0 <= k < |cookies[1..]|
          ensures ';' !in cookies[1..][k].name && '=' !in cookies[1..][k].name && ';' !in cookies[1..][k].value
        {
          assert cookies[1..][k] == cookies[k + 1];
        }
      }
      SplitRoundTrip(cookies[1..]);
    }
  }
}
