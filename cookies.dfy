/**
 * Cookies on the request side: the parser that turns a `Cookie:` header into a dictionary,
 * and the test the index gate applies to the `auth` cookie.
 */
module Cookies {
  import opened Common
  import opened Text

  /** The value the login stores for the `auth` cookie. */
  const LoginCookie: string := "true; Path=/"

  /** How many times `c` occurs in `s`. */
  function Count(s: string, c: char): nat {
    multiset(s)[c]
  }

  /** A name or value as the parser leaves it: no `=` inside, no whitespace at its ends. */
  predicate Clean(s: string) {
    '=' !in s && (s == [] || (!IsSpace(s[0]) && !IsSpace(s[|s| - 1])))
  }

  /**
   * One `;`-separated segment: stripped, it must split on `=` into exactly two parts, each of
   * which is stripped again; anything else is dropped.
   */
  function ParsePair(segment: string): Option<(string, string)> {
    var parts := Split(Strip(segment), '=');
    if |parts| == 2 then Some((Strip(parts[0]), Strip(parts[1]))) else None
  }

  /**
   * A segment gives a pair exactly when it holds one `=` (whitespace at its ends ignored);
   * the name and value it gives are clean, and free of `;` when the segment is.
   */
  lemma ParsePairShape(segment: string)
    ensures ParsePair(segment).Some? <==> Count(Strip(segment), '=') == 1
    ensures ParsePair(segment).Some? ==>
      var (k, v) := ParsePair(segment).value;
      Clean(k) && Clean(v) && (';' !in segment ==> ';' !in k && ';' !in v)
  {
    var t := Strip(segment);
    var parts := Split(t, '=');
    SplitCount(t, '=');
    if |parts| == 2 {
      StripKeeps(parts[0], '=');
      StripKeeps(parts[1], '=');
      if ';' !in segment {
        StripKeeps(segment, ';');
        SplitKeeps(t, '=', ';');
        StripKeeps(parts[0], ';');
        StripKeeps(parts[1], ';');
      }
    }
  }

  /** Each segment's pair, or `None` where the parser drops the segment. */
  function Parsed(segments: seq<string>): (ps: seq<Option<(string, string)>>)
    ensures |ps| == |segments|
  {
    if segments == [] then []
    else Parsed(segments[..|segments| - 1]) + [ParsePair(segments[|segments| - 1])]
  }

  lemma {:induction false} ParsedAt(segments: seq<string>, i: nat)
    requires i < |segments|
    ensures Parsed(segments)[i] == ParsePair(segments[i])
  {
    var n := |segments| - 1;
    if i < n {
      ParsedAt(segments[..n], i);
    }
  }

  /** The dictionary the pairs fill in order, a later key overwriting an earlier one. */
  function Store(ps: seq<Option<(string, string)>>): map<string, string> {
    if ps == [] then map[]
    else
      var m := Store(ps[..|ps| - 1]);
      match ps[|ps| - 1]
      case None => m
      case Some((k, v)) => m[k := v]
  }

  /** `extract_cookies` on the `cookie` header's value; an empty header gives no cookies. */
  function ParseCookieHeader(header: string): map<string, string> {
    if header == "" then map[] else Store(Parsed(Split(header, ';')))
  }

  /** The header's value, or `""` when it is absent, as `headers.get('cookie', '')`. */
  function CookieHeader(headers: map<string, string>): string {
    if "cookie" in headers then headers["cookie"] else ""
  }

  /**
   * `extract_cookies`: fills the dictionary one segment at a time, skipping every segment that
   * is not exactly one `key=value`.
   */
  method ExtractCookies(headers: map<string, string>) returns (cookies: map<string, string>)
    ensures cookies == ParseCookieHeader(CookieHeader(headers))
  {
    cookies := map[];
    var header := CookieHeader(headers);
    if header != "" {
      var pairs := Split(header, ';');
      var i := 0;
      while i < |pairs|
        invariant 0 <= i <= |pairs|
        invariant cookies == Store(Parsed(pairs[..i]))
      {
        StoreStep(pairs, i);
        var pair := ParsePair(pairs[i]);
        if pair.Some? {
          cookies := cookies[pair.value.0 := pair.value.1];
        }
        i := i + 1;
      }
      assert pairs[..|pairs|] == pairs;
    }
  }

  lemma StoreStep(segments: seq<string>, i: nat)
    requires i < |segments|
    ensures Store(Parsed(segments[..i + 1])) ==
      match ParsePair(segments[i])
      case None => Store(Parsed(segments[..i]))
      case Some((k, v)) => Store(Parsed(segments[..i]))[k := v]
  {
    assert segments[..i + 1][..i] == segments[..i];
  }

  /** The name a segment gives, if any. */
  function KeyOf(segment: string): Option<string> {
    match ParsePair(segment)
    case None => None
    case Some((k, _)) => Some(k)
  }

  /** The dictionary holds exactly the keys of the pairs. */
  lemma {:induction false} StoreKeys(ps: seq<Option<(string, string)>>, k: string)
    ensures k in Store(ps) <==> exists i :: 0 <= i < |ps| && ps[i].Some? && ps[i].value.0 == k
  {
    if ps != [] {
      var n := |ps| - 1;
      var init := ps[..n];
      StoreKeys(init, k);
      if exists i :: 0 <= i < n && init[i].Some? && init[i].value.0 == k {
        var i :| 0 <= i < n && init[i].Some? && init[i].value.0 == k;
        assert ps[i] == init[i];
      }
      if exists i :: 0 <= i < |ps| && ps[i].Some? && ps[i].value.0 == k {
        var i :| 0 <= i < |ps| && ps[i].Some? && ps[i].value.0 == k;
        if i < n {
          assert init[i] == ps[i];
        }
      }
    }
  }

  /** A key's value is the one given by the last pair with that key. */
  lemma {:induction false} StoreLastWins(ps: seq<Option<(string, string)>>, k: string, v: string, i: nat)
    requires i < |ps| && ps[i] == Some((k, v))
    requires forall j :: i < j < |ps| ==> ps[j].None? || ps[j].value.0 != k
    ensures k in Store(ps) && Store(ps)[k] == v
  {
    var n := |ps| - 1;
    var init := ps[..n];
    if i < n {
      assert init[i] == ps[i];
      StoreLastWins(init, k, v, i);
    }
  }

  /**
   * The cookies of a header are the names of its segments that parse, each with the value of
   * the last segment that names it.
   */
  lemma HeaderCookies(header: string, k: string, i: nat)
    requires header != "" && i < |Split(header, ';')|
    requires ParsePair(Split(header, ';')[i]).Some? && ParsePair(Split(header, ';')[i]).value.0 == k
    requires forall j :: i < j < |Split(header, ';')| ==>
      ParsePair(Split(header, ';')[j]).None? || ParsePair(Split(header, ';')[j]).value.0 != k
    ensures k in ParseCookieHeader(header)
    ensures ParseCookieHeader(header)[k] == ParsePair(Split(header, ';')[i]).value.1
  {
    var segs := Split(header, ';');
    var ps := Parsed(segs);
    ParsedAt(segs, i);
    forall j | i < j < |ps|
      ensures ps[j].None? || ps[j].value.0 != k
    {
      ParsedAt(segs, j);
    }
    StoreLastWins(ps, k, ParsePair(segs[i]).value.1, i);
  }

  /** Only a name some segment gives can be a cookie. */
  lemma HeaderCookieNames(header: string, k: string)
    requires k in ParseCookieHeader(header)
    ensures exists i :: 0 <= i < |Split(header, ';')| && KeyOf(Split(header, ';')[i]) == Some(k)
  {
    var segs := Split(header, ';');
    var ps := Parsed(segs);
    StoreKeys(ps, k);
    var i :| 0 <= i < |ps| && ps[i].Some? && ps[i].value.0 == k;
    ParsedAt(segs, i);
  }

  /** `dict(pairs)`: the pairs stored in order, a later key overwriting an earlier one. */
  function MapOf(pairs: seq<(string, string)>): map<string, string> {
    if pairs == [] then map[] else MapOf(pairs[..|pairs| - 1])[pairs[|pairs| - 1].0 := pairs[|pairs| - 1].1]
  }

  /** The `Cookie:` header a client sends for `pairs`: `k=v` items joined by `;`. */
  function Render(pairs: seq<(string, string)>): (h: string)
    ensures |pairs| > 0 ==> h != ""
  {
    if pairs == [] then ""
    else if |pairs| == 1 then pairs[0].0 + "=" + pairs[0].1
    else Render(pairs[..|pairs| - 1]) + ";" + pairs[|pairs| - 1].0 + "=" + pairs[|pairs| - 1].1
  }

  /** A name or value a client can send: clean and free of `;`. */
  predicate Plain(s: string) {
    Clean(s) && ';' !in s
  }

  /** Parsing the header a client renders gives back the dictionary of its pairs. */
  lemma {:induction false} ParseRender(pairs: seq<(string, string)>)
    requires forall i :: 0 <= i < |pairs| ==> Plain(pairs[i].0) && Plain(pairs[i].1)
    ensures ParseCookieHeader(Render(pairs)) == MapOf(pairs)
  {
    if pairs != [] {
      var segs := Segments(pairs);
      RenderIsJoin(pairs);
      SplitJoin(segs, ';');
      ParseSegments(pairs);
    }
  }

  /** The `k=v` text of each pair. */
  function Segments(pairs: seq<(string, string)>): (segs: seq<string>)
    ensures |segs| == |pairs|
  {
    if pairs == [] then [] else Segments(pairs[..|pairs| - 1]) + [pairs[|pairs| - 1].0 + "=" + pairs[|pairs| - 1].1]
  }

  lemma {:induction false} SegmentsAt(pairs: seq<(string, string)>)
    ensures forall i :: 0 <= i < |pairs| ==> Segments(pairs)[i] == pairs[i].0 + "=" + pairs[i].1
  {
    if pairs != [] {
      SegmentsAt(pairs[..|pairs| - 1]);
    }
  }

  lemma {:induction false} RenderIsJoin(pairs: seq<(string, string)>)
    requires |pairs| >= 1
    requires forall i :: 0 <= i < |pairs| ==> Plain(pairs[i].0) && Plain(pairs[i].1)
    ensures Render(pairs) == Join(Segments(pairs), ";")
    ensures forall i :: 0 <= i < |pairs| ==> ';' !in Segments(pairs)[i]
  {
    SegmentsAt(pairs);
    if |pairs| > 1 {
      var init := pairs[..|pairs| - 1];
      RenderIsJoin(init);
      JoinSnoc(Segments(init), Segments(pairs)[|pairs| - 1], ";");
    }
  }

  /** Joining one more part at the end. */
  lemma {:induction false} JoinSnoc(parts: seq<string>, last: string, sep: string)
    requires |parts| >= 1
    ensures Join(parts + [last], sep) == Join(parts, sep) + sep + last
  {
    if |parts| == 1 {
      assert parts + [last] == [parts[0], last];
    } else {
      assert (parts + [last])[1..] == parts[1..] + [last];
      JoinSnoc(parts[1..], last, sep);
    }
  }

  /** A clean pair's segment parses back to the pair. */
  lemma ParseSegment(k: string, v: string)
    requires Plain(k) && Plain(v)
    ensures ';' !in k + "=" + v
    ensures ParsePair(k + "=" + v) == Some((k, v))
  {
    var s := k + "=" + v;
    assert s[|k|] == '=';
    if |k| > 0 {
      assert s[0] == k[0];
    }
    if |v| > 0 {
      assert s[|s| - 1] == v[|v| - 1];
    }
    StripClean(s);
    assert Join([k, v], ['=']) == s;
    SplitJoin([k, v], '=');
    StripClean(k);
    StripClean(v);
  }

  lemma {:induction false} ParseSegments(pairs: seq<(string, string)>)
    requires forall i :: 0 <= i < |pairs| ==> Plain(pairs[i].0) && Plain(pairs[i].1)
    ensures Store(Parsed(Segments(pairs))) == MapOf(pairs)
  {
    if pairs != [] {
      var n := |pairs| - 1;
      var init := pairs[..n];
      ParseSegments(init);
      assert Segments(pairs)[..n] == Segments(init);
      ParseSegment(pairs[n].0, pairs[n].1);
    }
  }

  /** `strip()` removes whitespace around a text whose ends are not whitespace. */
  lemma {:induction false} SpacesAround(before: string, t: string, after: string)
    requires forall i :: 0 <= i < |before| ==> IsSpace(before[i])
    requires forall i :: 0 <= i < |after| ==> IsSpace(after[i])
    requires t != [] && !IsSpace(t[0]) && !IsSpace(t[|t| - 1])
    ensures Strip(before + t + after) == t
  {
    LStripSpaces(before, t + after);
    assert before + t + after == before + (t + after);
    RStripSpaces(t, after);
    LStripNoSpace(t + after);
    RStripNoSpace(t);
  }

  lemma {:induction false} LStripSpaces(before: string, s: string)
    requires forall i :: 0 <= i < |before| ==> IsSpace(before[i])
    ensures LStrip(before + s) == LStrip(s)
  {
    if before != [] {
      assert (before + s)[0] == before[0] && (before + s)[1..] == before[1..] + s;
      LStripSpaces(before[1..], s);
    } else {
      assert before + s == s;
    }
  }

  lemma {:induction false} RStripSpaces(s: string, after: string)
    requires forall i :: 0 <= i < |after| ==> IsSpace(after[i])
    ensures RStrip(s + after) == RStrip(s)
  {
    if after != [] {
      var n := |after| - 1;
      assert (s + after)[..|s + after| - 1] == s + after[..n];
      RStripSpaces(s, after[..n]);
    } else {
      assert s + after == s;
    }
  }

  /** Stripping only removes characters. */
  lemma StripKeeps(s: string, c: char)
    requires c !in s
    ensures c !in Strip(s)
  {
    var l := LStrip(s);
    LStripSuffix(s);
    RStripPrefix(l);
    assert Strip(s) == s[|s| - |l|..][..|Strip(s)|];
  }

  /** Splitting only removes separators. */
  lemma {:induction false} SplitKeeps(s: string, sep: char, c: char)
    requires c !in s
    ensures forall i :: 0 <= i < |Split(s, sep)| ==> c !in Split(s, sep)[i]
  {
    if s != [] {
      SplitKeeps(s[1..], sep, c);
      assert s[0] != c;
    }
  }

  /** `s.split(c)` has one more part than `s` has `c`s. */
  lemma {:induction false} SplitCount(s: string, c: char)
    ensures |Split(s, c)| == Count(s, c) + 1
  {
    if s != [] {
      SplitCount(s[1..], c);
      assert s == [s[0]] + s[1..];
      assert multiset(s) == multiset([s[0]]) + multiset(s[1..]);
    }
  }

  /**
   * The index gate's test: the `auth` cookie is present and not empty, and its text before
   * the first `;`, stripped, is `true`.
   */
  predicate Authorized(cookies: map<string, string>) {
    var v := if "auth" in cookies then cookies["auth"] else "";
    v != "" && Strip(Before(v, ';')) == "true"
  }

  /** The emptiness test is implied by the comparison: only the text before `;` matters. */
  lemma AuthorizedIff(cookies: map<string, string>)
    ensures Authorized(cookies) <==> "auth" in cookies && Strip(Before(cookies["auth"], ';')) == "true"
  {
    if "auth" in cookies && Strip(Before(cookies["auth"], ';')) == "true" {
      assert cookies["auth"] != "";
    }
  }

  /** The cookie the login stores passes the gate. */
  lemma LoginCookieAuthorizes()
    ensures Authorized(map["auth" := LoginCookie])
  {
    assert LoginCookie == "true" + [';'] + " Path=/";
    BeforeSeparator("true", ';', " Path=/");
    StripClean("true");
  }

  /** Whitespace around `true` and anything after the first `;` do not matter. */
  lemma AuthorizedSpaces(before: string, after: string, rest: string)
    requires forall i :: 0 <= i < |before| ==> IsSpace(before[i])
    requires forall i :: 0 <= i < |after| ==> IsSpace(after[i])
    requires ';' !in before && ';' !in after
    ensures Authorized(map["auth" := before + "true" + after + [';'] + rest])
  {
    var v := before + "true" + after;
    assert before + "true" + after + [';'] + rest == v + [';'] + rest;
    BeforeSeparator(v, ';', rest);
    SpacesAround(before, "true", after);
  }

  /** The comparison is case-sensitive. */
  lemma NotAuthorizedCase()
    ensures !Authorized(map["auth" := "True"])
  {
    assert Before("True", ';') == "True";
    StripClean("True");
  }

  /** A client that echoes the login cookie as `auth=true` passes the gate. */
  lemma EchoedLoginAuthorizes()
    ensures Authorized(ParseCookieHeader(Render([("auth", "true")])))
  {
    assert Plain("auth") && Plain("true");
    ParseRender([("auth", "true")]);
    assert MapOf([("auth", "true")]) == map["auth" := "true"];
    assert Before("true", ';') == "true";
    StripClean("true");
  }
}
