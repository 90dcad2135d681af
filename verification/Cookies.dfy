/**
 * Where the refresh token of a request comes from: a cookie, if cookies are in use and the
 * request has one of the configured name, or else the body. Strings are sequences of code points.
 */
module Cookies {
  import opened Common

  /** unicode.IsSpace */
  predicate IsSpace(c: char) {
    || '\t' <= c <= '\r' || c == ' ' || c == '\U{0085}' || c == '\U{00A0}' || c == '\U{1680}'
    || '\U{2000}' <= c <= '\U{200A}' || c == '\U{2028}' || c == '\U{2029}' || c == '\U{202F}'
    || c == '\U{205F}' || c == '\U{3000}'
  }

  predicate AllSpace(s: string) {
    forall i :: 0 <= i < |s| ==> IsSpace(s[i])
  }

  function TrimLeft(s: string): string {
    if s != "" && IsSpace(s[0]) then TrimLeft(s[1..]) else s
  }

  function TrimRight(s: string): string {
    if s != "" && IsSpace(s[|s| - 1]) then TrimRight(s[..|s| - 1]) else s
  }

  function TrimSpace(s: string): string {
    TrimRight(TrimLeft(s))
  }

  /** The pieces between separators; the empty string has one piece. */
  function Split(s: string, sep: char): (pieces: seq<string>)
    ensures |pieces| >= 1
  {
    if s == "" then [""]
    else
      var rest := Split(s[1..], sep);
      if s[0] == sep then [""] + rest else [[s[0]] + rest[0]] + rest[1..]
  }

  function Join(pieces: seq<string>, sep: char): string {
    if pieces == [] then "" else if |pieces| == 1 then pieces[0] else pieces[0] + [sep] + Join(pieces[1..], sep)
  }

  predicate HasPrefix(s: string, prefix: string) {
    prefix <= s
  }

  /** The value in the first piece that is a cookie of that name. */
  function FirstMatch(pieces: seq<string>, prefix: string): Option<string> {
    if pieces == [] then None
    else if HasPrefix(TrimSpace(pieces[0]), prefix) then Some(TrimSpace(pieces[0])[|prefix|..])
    else FirstMatch(pieces[1..], prefix)
  }

  datatype Settings = Settings(useCookies: bool, cookieName: string)

  /** `metadata` holds the values of the request's cookie headers, if it has metadata at all. */
  function RefreshTokenOf(cfg: Settings, metadata: Option<seq<string>>, bodyToken: string): string {
    if !cfg.useCookies || metadata.None? || metadata.value == [] then bodyToken
    else
      match FirstMatch(Split(metadata.value[0], ';'), cfg.cookieName + "=")
      case Some(v) => v
      case None => bodyToken
  }

  method GetRefreshToken(cfg: Settings, metadata: Option<seq<string>>, bodyToken: string) returns (token: string)
    ensures token == RefreshTokenOf(cfg, metadata, bodyToken)
  {
    if !cfg.useCookies {
      return bodyToken;
    }
    if metadata.None? {
      return bodyToken;
    }
    var cookies := metadata.value;
    if |cookies| == 0 {
      return bodyToken;
    }
    var pieces := Split(cookies[0], ';');
    for i := 0 to |pieces|
      invariant FirstMatch(pieces, cfg.cookieName + "=") == FirstMatch(pieces[i..], cfg.cookieName + "=")
    {
      var c := TrimSpace(pieces[i]);
      if HasPrefix(c, cfg.cookieName + "=") {
        return c[|cfg.cookieName + "="|..];
      }
      assert pieces[i..][1..] == pieces[i + 1..];
    }
    return bodyToken;
  }

  // ----- Splitting and joining -----

  lemma {:induction false} SplitPieces(s: string, sep: char, i: nat)
    ensures i < |Split(s, sep)| ==> sep !in Split(s, sep)[i]
  {
    if s != "" {
      SplitPieces(s[1..], sep, if s[0] == sep && i > 0 then i - 1 else i);
    }
  }

  /** Joining is the inverse of splitting, for every string. */
  lemma {:induction false} JoinOfSplit(s: string, sep: char)
    ensures Join(Split(s, sep), sep) == s
  {
    if s != "" {
      JoinOfSplit(s[1..], sep);
      var rest := Split(s[1..], sep);
      if s[0] == sep {
        assert ([""] + rest)[1..] == rest;
        assert [sep] + s[1..] == s;
      } else {
        var pieces := [[s[0]] + rest[0]] + rest[1..];
        assert pieces[1..] == rest[1..];
        assert Join(pieces, sep) == [s[0]] + Join(rest, sep);
      }
    }
  }

  lemma {:induction false} SplitOne(s: string, sep: char)
    requires sep !in s
    ensures Split(s, sep) == [s]
  {
    if s != "" {
      SplitOne(s[1..], sep);
      assert [s[0]] + s[1..] == s;
    }
  }

  lemma {:induction false} SplitFirst(s: string, sep: char, rest: string)
    requires sep !in s
    ensures Split(s + [sep] + rest, sep) == [s] + Split(rest, sep)
  {
    var whole := s + [sep] + rest;
    if s == "" {
      assert whole[1..] == rest;
    } else {
      SplitFirst(s[1..], sep, rest);
      assert whole[1..] == s[1..] + [sep] + rest;
      assert [s[0]] + s[1..] == s;
    }
  }

  /** Splitting is the inverse of joining, for pieces without the separator. */
  lemma {:induction false} SplitOfJoin(pieces: seq<string>, sep: char)
    requires pieces != [] && forall i :: 0 <= i < |pieces| ==> sep !in pieces[i]
    ensures Split(Join(pieces, sep), sep) == pieces
  {
    if |pieces| == 1 {
      SplitOne(pieces[0], sep);
    } else {
      SplitOfJoin(pieces[1..], sep);
      SplitFirst(pieces[0], sep, Join(pieces[1..], sep));
    }
  }

  // ----- Trimming -----

  lemma {:induction false} TrimLeftPadded(before: string, core: string)
    requires AllSpace(before) && core != "" && !IsSpace(core[0])
    ensures TrimLeft(before + core) == core
  {
    if before == "" {
      assert before + core == core;
    } else {
      TrimLeftPadded(before[1..], core);
      assert (before + core)[1..] == before[1..] + core;
    }
  }

  lemma {:induction false} TrimRightPadded(core: string, after: string)
    requires AllSpace(after) && core != "" && !IsSpace(core[|core| - 1])
    ensures TrimRight(core + after) == core
  {
    if after == "" {
      assert core + after == core;
    } else {
      var n := |after| - 1;
      TrimRightPadded(core, after[..n]);
      assert (core + after)[..|core| + n] == core + after[..n];
    }
  }

  lemma TrimPadded(before: string, core: string, after: string)
    requires AllSpace(before) && AllSpace(after)
    requires core != "" && !IsSpace(core[0]) && !IsSpace(core[|core| - 1])
    ensures TrimSpace(before + core + after) == core
  {
    assert before + core + after == before + (core + after);
    TrimLeftPadded(before, core + after);
    TrimRightPadded(core, after);
  }

  // ----- The cookie-string -----

  /** A pair of a cookie-string (section 4.2.1 of RFC 6265), with the white space around it. */
  datatype Cookie = Cookie(before: string, name: string, value: string, after: string)

  /** No separator in the parts, no '=' in the name, and no white space at the edges of the pair. */
  predicate WellFormed(c: Cookie) {
    && AllSpace(c.before) && AllSpace(c.after) && ';' !in c.name && ';' !in c.value && '=' !in c.name
    && (c.name != "" ==> !IsSpace(c.name[0])) && (c.value != "" ==> !IsSpace(c.value[|c.value| - 1]))
  }

  function Core(c: Cookie): string {
    c.name + "=" + c.value
  }

  function Pieces(cookies: seq<Cookie>): seq<string> {
    if cookies == [] then [] else [cookies[0].before + Core(cookies[0]) + cookies[0].after] + Pieces(cookies[1..])
  }

  function Printed(cookies: seq<Cookie>): string {
    Join(Pieces(cookies), ';')
  }

  function FirstNamed(cookies: seq<Cookie>, name: string): Option<string> {
    if cookies == [] then None
    else if cookies[0].name == name then Some(cookies[0].value)
    else FirstNamed(cookies[1..], name)
  }

  lemma PieceIsPlain(c: Cookie)
    requires WellFormed(c)
    ensures ';' !in c.before + Core(c) + c.after
    ensures TrimSpace(c.before + Core(c) + c.after) == Core(c)
  {
    TrimPadded(c.before, Core(c), c.after);
  }

  /** The text before the first '=' decides. */
  lemma PrefixIsName(c: Cookie, name: string)
    requires '=' !in c.name && '=' !in name
    ensures HasPrefix(Core(c), name + "=") <==> c.name == name
    ensures c.name == name ==> Core(c)[|name + "="|..] == c.value
  {
    var (core, prefix) := (Core(c), name + "=");
    assert core[|c.name|] == '=' && prefix[|name|] == '=';
    if |name| < |c.name| {
      assert core[|name|] == c.name[|name|] != '=';
    } else if |c.name| < |name| {
      assert prefix[|c.name|] == name[|c.name|] != '=';
    } else {
      assert core[..|name|] == c.name && prefix[..|name|] == name;
    }
  }

  lemma {:induction false} MatchIsFirstNamed(cookies: seq<Cookie>, name: string)
    requires '=' !in name && forall i :: 0 <= i < |cookies| ==> WellFormed(cookies[i])
    ensures FirstMatch(Pieces(cookies), name + "=") == FirstNamed(cookies, name)
    ensures |Pieces(cookies)| == |cookies|
    ensures forall i :: 0 <= i < |cookies| ==> ';' !in Pieces(cookies)[i]
  {
    if cookies != [] {
      PieceIsPlain(cookies[0]);
      PrefixIsName(cookies[0], name);
      MatchIsFirstNamed(cookies[1..], name);
    }
  }

  /**
   * The cookie round trip: from any cookies printed as a cookie-string, with cookies in use, the
   * value of the first one of the configured name comes back, and the body token if there is none.
   */
  lemma CookieRoundTrip(cfg: Settings, cookies: seq<Cookie>, more: seq<string>, bodyToken: string)
    requires cfg.useCookies && '=' !in cfg.cookieName
    requires forall i :: 0 <= i < |cookies| ==> WellFormed(cookies[i])
    ensures RefreshTokenOf(cfg, Some([Printed(cookies)] + more), bodyToken) ==
      match FirstNamed(cookies, cfg.cookieName) case Some(v) => v case None => bodyToken
  {
    MatchIsFirstNamed(cookies, cfg.cookieName);
    if cookies != [] {
      SplitOfJoin(Pieces(cookies), ';');
    } else {
      assert FirstMatch([""], cfg.cookieName + "=") == None;
    }
  }

  lemma {:induction false} FirstNamedMeans(cookies: seq<Cookie>, name: string)
    ensures var found := FirstNamed(cookies, name);
      && (found.None? <==> forall i :: 0 <= i < |cookies| ==> cookies[i].name != name)
      && (found.Some? ==> exists i :: 0 <= i < |cookies| && cookies[i].name == name && cookies[i].value == found.value
                                      && forall j :: 0 <= j < i ==> cookies[j].name != name)
  {
    if cookies != [] && cookies[0].name != name {
      FirstNamedMeans(cookies[1..], name);
      var found := FirstNamed(cookies[1..], name);
      if found.Some? {
        var i :| 0 <= i < |cookies[1..]| && cookies[1..][i].name == name && cookies[1..][i].value == found.value
                 && forall j :: 0 <= j < i ==> cookies[1..][j].name != name;
        assert cookies[i + 1].name == name && cookies[i + 1].value == found.value;
        assert forall j :: 0 <= j < i + 1 ==> cookies[j].name != name;
      }
    }
  }

  // ----- The standard form -----

  /** The code points with the property White_Space, by number. */
  predicate IsSpaceCode(n: int) {
    || 9 <= n <= 13 || n == 32 || n == 133 || n == 160 || n == 5760 || 8192 <= n <= 8202
    || n == 8232 || n == 8233 || n == 8239 || n == 8287 || n == 12288
  }

  /** What is trimmed is exactly what has one of these code points. */
  lemma SpacesByCode(c: char)
    ensures IsSpace(c) <==> IsSpaceCode(c as int)
  {
  }

  datatype Pair = Pair(name: string, value: string)

  /** name=value; name=value, as section 4.2.1 of RFC 6265 has it. */
  function CookieString(pairs: seq<Pair>): string {
    if pairs == [] then ""
    else if |pairs| == 1 then pairs[0].name + "=" + pairs[0].value
    else pairs[0].name + "=" + pairs[0].value + "; " + CookieString(pairs[1..])
  }

  /** No ';' in the parts, no '=' in the name, and none of these code points at the two ends. */
  predicate PlainPair(p: Pair) {
    && ';' !in p.name && ';' !in p.value && '=' !in p.name
    && (p.name != "" ==> !IsSpaceCode(p.name[0] as int))
    && (p.value != "" ==> !IsSpaceCode(p.value[|p.value| - 1] as int))
  }

  /** The pairs as cookies: all but the first have a blank before them. */
  function AsCookies(pairs: seq<Pair>, before: string): seq<Cookie> {
    if pairs == [] then [] else [Cookie(before, pairs[0].name, pairs[0].value, "")] + AsCookies(pairs[1..], " ")
  }

  lemma {:induction false} CookieStringIsPrinted(pairs: seq<Pair>, before: string)
    requires pairs != []
    ensures Printed(AsCookies(pairs, before)) == before + CookieString(pairs)
  {
    var (p, cookies) := (pairs[0], AsCookies(pairs, before));
    var piece := before + (p.name + "=" + p.value) + "";
    assert piece == before + (p.name + "=" + p.value);
    if |pairs| == 1 {
      assert AsCookies(pairs[1..], " ") == [] && Pieces(cookies) == [piece];
    } else {
      CookieStringIsPrinted(pairs[1..], " ");
      assert cookies[1..] == AsCookies(pairs[1..], " ");
      assert Pieces(cookies)[1..] == Pieces(cookies[1..]);
      assert ";" + " " == "; ";
      assert Printed(cookies) == piece + [';'] + (" " + CookieString(pairs[1..]));
      assert [';'] + (" " + CookieString(pairs[1..])) == "; " + CookieString(pairs[1..]);
    }
  }

  lemma {:induction false} CookiesOfPlainPairs(pairs: seq<Pair>, before: string, name: string, i: nat)
    requires before == "" || before == " "
    requires forall k :: 0 <= k < |pairs| ==> PlainPair(pairs[k])
    ensures |AsCookies(pairs, before)| == |pairs|
    ensures i < |pairs| ==> WellFormed(AsCookies(pairs, before)[i])
    ensures FirstNamed(AsCookies(pairs, before), name) == FirstValue(pairs, name)
  {
    if pairs != [] {
      CookiesOfPlainPairs(pairs[1..], " ", name, if i == 0 then 0 else i - 1);
      var (p, c) := (pairs[0], AsCookies(pairs, before)[0]);
      SpacesByCode(' ');
      if p.name != "" { SpacesByCode(p.name[0]); }
      if p.value != "" { SpacesByCode(p.value[|p.value| - 1]); }
      assert WellFormed(c);
    }
  }

  function FirstValue(pairs: seq<Pair>, name: string): Option<string> {
    if pairs == [] then None
    else if pairs[0].name == name then Some(pairs[0].value)
    else FirstValue(pairs[1..], name)
  }

  /**
   * From any header in the standard form, with cookies in use, the value of the first pair of the configured name
   * comes back, and the body token if there is none.
   */
  lemma StandardRoundTrip(cfg: Settings, pairs: seq<Pair>, more: seq<string>, bodyToken: string)
    requires cfg.useCookies && '=' !in cfg.cookieName
    requires forall k :: 0 <= k < |pairs| ==> PlainPair(pairs[k])
    ensures RefreshTokenOf(cfg, Some([CookieString(pairs)] + more), bodyToken) ==
      match FirstValue(pairs, cfg.cookieName) case Some(v) => v case None => bodyToken
  {
    var cookies := CookiesFor(pairs, cfg.cookieName);
    CookieRoundTrip(cfg, cookies, more, bodyToken);
  }

  lemma CookiesFor(pairs: seq<Pair>, name: string) returns (cookies: seq<Cookie>)
    requires forall k :: 0 <= k < |pairs| ==> PlainPair(pairs[k])
    ensures forall i :: 0 <= i < |cookies| ==> WellFormed(cookies[i])
    ensures FirstNamed(cookies, name) == FirstValue(pairs, name) && Printed(cookies) == CookieString(pairs)
  {
    cookies := AsCookies(pairs, "");
    forall i | 0 <= i < |cookies| ensures WellFormed(cookies[i]) {
      CookiesOfPlainPairs(pairs, "", name, i);
    }
    CookiesOfPlainPairs(pairs, "", name, 0);
    if pairs != [] {
      CookieStringIsPrinted(pairs, "");
      assert "" + CookieString(pairs) == CookieString(pairs);
    }
  }

  /** The second cookie of a header is found behind its blank. */
  lemma SecondCookieIsFound(bodyToken: string)
    ensures RefreshTokenOf(Settings(true, "r"), Some(["a=b; r=x"]), bodyToken) == "x"
  {
    var pairs := [Pair("a", "b"), Pair("r", "x")];
    assert pairs[1..] == [Pair("r", "x")];
    assert CookieString(pairs) == "a=b; r=x";
    assert ["a=b; r=x"] + [] == ["a=b; r=x"];
    StandardRoundTrip(Settings(true, "r"), pairs, [], bodyToken);
  }

  /** Without cookies in use, without metadata, and without a cookie header the token is the body's. */
  lemma BodyTokenOtherwise(cfg: Settings, metadata: Option<seq<string>>, bodyToken: string)
    requires !cfg.useCookies || metadata == None || metadata == Some([])
    ensures RefreshTokenOf(cfg, metadata, bodyToken) == bodyToken
  {
  }
}
