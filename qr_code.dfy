/**
 * The QR-code panel of an event: the check-in link the code encodes, how the
 * check-in page reads the token back out of it, and the name of the
 * downloaded image.
 */
module QrCode {
  import opened Wrappers
  import opened Ascii
  import opened Seqs

  // The check-in link and its query parameter

  const AttendPath := "/attend?event="

  /** `${window.location.origin}/attend?event=${qr_code_token}`; the origin is a parameter. */
  function AttendanceUrl(origin: string, token: string): (url: string)
    ensures StartsWith(url, origin) && EndsWith(url, token)
    ensures |url| == |origin| + |AttendPath| + |token|
  {
    var url := origin + AttendPath + token;
    assert url[..|origin|] == origin;
    assert url[|url| - |token|..] == token;
    url
  }

  /** The position of the first `c` in `s`, or `|s|` when there is none. */
  function IndexOf(s: string, c: char): (i: nat)
    ensures i <= |s|
    ensures forall k :: 0 <= k < i ==> s[k] != c
    ensures i < |s| ==> s[i] == c
  {
    if s == [] then 0
    else if s[0] == c then 0
    else 1 + IndexOf(s[1..], c)
  }

  /** The part of `s` before the first `c`, all of `s` when there is none. */
  function Before(s: string, c: char): (r: string)
    ensures c !in r
    ensures |r| < |s| ==> s[|r|] == c
  {
    s[..IndexOf(s, c)]
  }

  /**
   * The query of a URL: the fragment starts at the first `#`, and the query is
   * the text after the first `?` before it; a `?` inside the fragment starts
   * no query.
   */
  function QueryOf(url: string): (q: Option<string>)
    ensures q.Some? <==> '?' in Before(url, '#')
    ensures q.Some? ==> '#' !in q.value
  {
    var u := Before(url, '#');
    var q := IndexOf(u, '?');
    if q == |u| then None
    else
      assert forall k :: q + 1 <= k < |u| ==> u[q + 1..][k - q - 1] == u[k];
      Some(u[q + 1..])
  }

  /** A `?event=` that follows a `#` is part of the fragment, so the page reads no token. */
  lemma FragmentHidesQuery()
    ensures EventParam("o#x?event=t") == None
  {
    var url := "o#x?event=t";
    assert url == "o" + "#x?event=t";
    IndexOfAfter("o", "#x?event=t", '#');
    assert Before(url, '#') == "o";
  }

  /**
   * `URLSearchParams.get(key)` on a query: the `&`-separated pairs are read
   * left to right, and the value of the first pair whose name (the text before
   * its first `=`) is `key` is returned; a pair without `=` has the empty value.
   */
  function ParamValue(query: string, key: string): (v: Option<string>)
    ensures v.Some? ==> '&' !in v.value
    ensures v.Some? && '#' !in query ==> '#' !in v.value
    decreases |query|
  {
    if query == [] then None
    else
      var pair := Before(query, '&');
      var name := Before(pair, '=');
      if name == key then Some(if |name| < |pair| then pair[|name| + 1..] else "")
      else if |pair| < |query| then ParamValue(query[|pair| + 1..], key)
      else None
  }

  /** `searchParams.get('event')` on the page a link opens. */
  function EventParam(url: string): (token: Option<string>)
    ensures QueryOf(url).None? ==> token.None?
    ensures token.Some? ==> '&' !in token.value && '#' !in token.value
  {
    var query := QueryOf(url);
    if query.Some? then ParamValue(query.value, "event") else None
  }

  /** When `c` does not occur in `a`, its first occurrence in `a + b` is found in `b`. */
  lemma {:induction false} IndexOfAfter(a: string, b: string, c: char)
    requires c !in a
    ensures IndexOf(a + b, c) == |a| + IndexOf(b, c)
    decreases |a|
  {
    if a == [] {
      assert a + b == b;
    } else {
      assert (a + b)[0] == a[0] && (a + b)[1..] == a[1..] + b;
      IndexOfAfter(a[1..], b, c);
    }
  }

  /**
   * The check-in page reads back exactly the token the link was made from,
   * for an origin (scheme, host and port) without `?` or `#` and a token of
   * letters and digits, which is what the token generator produces.
   */
  lemma TokenRoundTrip(origin: string, token: string)
    requires '?' !in origin && '#' !in origin
    requires forall i :: 0 <= i < |token| ==> IsAlphaNumeric(token[i])
    ensures EventParam(AttendanceUrl(origin, token)) == Some(token)
  {
    QueryOfAttendanceUrl(origin, token);
    EventPairValue(token);
  }

  /** A string without `c` is its own part before `c`. */
  lemma BeforeAbsent(s: string, c: char)
    requires c !in s
    ensures Before(s, c) == s
  {
  }

  /** The query of a check-in link is `event=` followed by the token. */
  lemma QueryOfAttendanceUrl(origin: string, token: string)
    requires '?' !in origin && '#' !in origin && '#' !in token
    ensures QueryOf(AttendanceUrl(origin, token)) == Some("event=" + token)
  {
    var url := AttendanceUrl(origin, token);
    assert url == origin + AttendPath + token;
    assert '#' !in url;
    BeforeAbsent(url, '#');
    QuestionMarkAfterPath(origin, token);
    assert url[|origin| + 8..] == "event=" + token;
  }

  /** The first `?` of a check-in link is the one of its path. */
  lemma QuestionMarkAfterPath(origin: string, token: string)
    requires '?' !in origin
    ensures IndexOf(AttendanceUrl(origin, token), '?') == |origin| + 7
  {
    var head := origin + "/attend";
    assert '?' !in head;
    assert AttendanceUrl(origin, token) == head + ("?event=" + token);
    IndexOfAfter(head, "?event=" + token, '?');
  }

  /** The query `event=<token>` holds the token as the value of `event`. */
  lemma EventPairValue(token: string)
    requires '&' !in token
    ensures ParamValue("event=" + token, "event") == Some(token)
  {
    EventPairParts(token);
    assert ("event=" + token)[6..] == token;
  }

  /** The query `event=<token>` is one pair, whose name is `event`. */
  lemma EventPairParts(token: string)
    requires '&' !in token
    ensures Before("event=" + token, '&') == "event=" + token
    ensures Before("event=" + token, '=') == "event"
  {
    var tail := "event=" + token;
    assert '&' !in tail;
    BeforeAbsent(tail, '&');
    assert tail == "event" + ("=" + token);
    IndexOfAfter("event", "=" + token, '=');
  }

  /** Two events with different tokens get different links. */
  lemma DistinctTokensDistinctUrls(origin: string, t1: string, t2: string)
    requires AttendanceUrl(origin, t1) == AttendanceUrl(origin, t2)
    ensures t1 == t2
  {
    var n := |origin| + |AttendPath|;
    assert AttendanceUrl(origin, t1)[n..] == t1;
    assert AttendanceUrl(origin, t2)[n..] == t2;
  }

  // The downloaded file name

  /**
   * `s.replace(/\s+/g, '_')`: every maximal run of whitespace becomes a single
   * underscore; every other character is copied.
   */
  function ReplaceWhitespaceRuns(s: string): (r: string)
    ensures NoSpace(r)
    ensures |r| <= |s|
    decreases |s|
  {
    if s == [] then []
    else if IsSpace(s[0]) then
      var rest := ReplaceWhitespaceRuns(SkipSpaces(s));
      NoSpaceCons('_', rest);
      "_" + rest
    else
      var rest := ReplaceWhitespaceRuns(s[1..]);
      NoSpaceCons(s[0], rest);
      [s[0]] + rest
  }

  /** A non-whitespace character in front of a text without whitespace keeps it so. */
  lemma NoSpaceCons(c: char, t: string)
    requires !IsSpace(c) && NoSpace(t)
    ensures NoSpace([c] + t)
  {
    forall i | 0 <= i < |[c] + t|
      ensures !IsSpace(([c] + t)[i])
    {
      if i > 0 {
        assert ([c] + t)[i] == t[i - 1];
      }
    }
  }

  /** A character that is neither whitespace nor an underscore. */
  predicate Kept(c: char) {
    !IsSpace(c) && c != '_'
  }

  predicate IsUnderscore(c: char) {
    c == '_'
  }

  /** The number of whitespace runs in `s`; `afterSpace` says whether a run is already open. */
  function RunCount(s: string, afterSpace: bool): nat {
    if s == [] then 0
    else (if IsSpace(s[0]) && !afterSpace then 1 else 0) + RunCount(s[1..], IsSpace(s[0]))
  }

  /** Skipping a whitespace run removes no kept character. */
  lemma {:induction false} SkipKeepsKept(s: string)
    ensures Where(SkipSpaces(s), Kept) == Where(s, Kept)
  {
    if s != [] && IsSpace(s[0]) {
      assert Where(s, Kept) == Where(s[1..], Kept);
      SkipKeepsKept(s[1..]);
    }
  }

  /** Skipping a whitespace run removes no underscore. */
  lemma {:induction false} SkipKeepsUnderscores(s: string)
    ensures Where(SkipSpaces(s), IsUnderscore) == Where(s, IsUnderscore)
  {
    if s != [] && IsSpace(s[0]) {
      assert Where(s, IsUnderscore) == Where(s[1..], IsUnderscore);
      SkipKeepsUnderscores(s[1..]);
    }
  }

  /** Inside an open run, the rest of the run starts no new run. */
  lemma {:induction false} SkipKeepsRunCount(s: string)
    ensures RunCount(s, true) == RunCount(SkipSpaces(s), true)
  {
    if s != [] && IsSpace(s[0]) {
      SkipKeepsRunCount(s[1..]);
    }
  }

  /** Right after a run (or at the end) it makes no difference whether a run was open. */
  lemma RunCountAtNonSpace(s: string)
    requires s == [] || !IsSpace(s[0])
    ensures RunCount(s, true) == RunCount(s, false)
  {
  }

  /** The non-whitespace characters other than `_` come through unchanged and in order. */
  lemma {:induction false} KeptCharactersSurvive(s: string)
    ensures Where(ReplaceWhitespaceRuns(s), Kept) == Where(s, Kept)
    decreases |s|
  {
    if s != [] {
      var r := ReplaceWhitespaceRuns(s);
      if IsSpace(s[0]) {
        var rest := ReplaceWhitespaceRuns(SkipSpaces(s));
        assert r == "_" + rest && r[1..] == rest;
        KeptCharactersSurvive(SkipSpaces(s));
        SkipKeepsKept(s);
      } else {
        var rest := ReplaceWhitespaceRuns(s[1..]);
        assert r == [s[0]] + rest && r[1..] == rest;
        KeptCharactersSurvive(s[1..]);
      }
    }
  }

  /** Each whitespace run adds exactly one underscore to those already in `s`. */
  lemma {:induction false} OneUnderscorePerRun(s: string)
    ensures |Where(ReplaceWhitespaceRuns(s), IsUnderscore)| == |Where(s, IsUnderscore)| + RunCount(s, false)
    decreases |s|
  {
    if s != [] {
      var r := ReplaceWhitespaceRuns(s);
      if IsSpace(s[0]) {
        var t := SkipSpaces(s);
        var rest := ReplaceWhitespaceRuns(t);
        assert r == "_" + rest && r[1..] == rest;
        OneUnderscorePerRun(t);
        SkipKeepsUnderscores(s);
        assert Where(s, IsUnderscore) == Where(s[1..], IsUnderscore);
        assert SkipSpaces(s) == SkipSpaces(s[1..]);
        SkipKeepsRunCount(s[1..]);
        RunCountAtNonSpace(t);
      } else {
        var rest := ReplaceWhitespaceRuns(s[1..]);
        assert r == [s[0]] + rest && r[1..] == rest;
        OneUnderscorePerRun(s[1..]);
      }
    }
  }

  /** A name without whitespace is left as it is. */
  lemma {:induction false} NoSpaceUnchanged(s: string)
    requires NoSpace(s)
    ensures ReplaceWhitespaceRuns(s) == s
    decreases |s|
  {
    if s != [] {
      NoSpaceUnchanged(s[1..]);
    }
  }

  /** Replacing a second time changes nothing. */
  lemma ReplaceIdempotent(s: string)
    ensures ReplaceWhitespaceRuns(ReplaceWhitespaceRuns(s)) == ReplaceWhitespaceRuns(s)
  {
    NoSpaceUnchanged(ReplaceWhitespaceRuns(s));
  }

  /** A text made only of whitespace. */
  predicate AllSpace(w: string) {
    forall i :: 0 <= i < |w| ==> IsSpace(w[i])
  }

  /** A whitespace run followed by a non-whitespace character (or nothing) is skipped entirely. */
  lemma {:induction false} SkipWholeRun(w: string, b: string)
    requires AllSpace(w)
    requires b == [] || !IsSpace(b[0])
    ensures SkipSpaces(w + b) == b
  {
    if w == [] {
      assert w + b == b;
    } else {
      assert (w + b)[0] == w[0];
      assert (w + b)[1..] == w[1..] + b;
      SkipWholeRun(w[1..], b);
    }
  }

  /** A text that does not end in whitespace is not skipped entirely. */
  lemma {:induction false} SkipLeavesLast(a: string)
    requires a != [] && !IsSpace(a[|a| - 1])
    ensures SkipSpaces(a) != []
  {
    if IsSpace(a[0]) {
      assert |a| > 1;
      assert a[1..][|a| - 2] == a[|a| - 1];
      SkipLeavesLast(a[1..]);
    }
  }

  /** When `a` is not all whitespace, skipping in `a + t` stops inside `a`. */
  lemma {:induction false} SkipStopsInside(a: string, t: string)
    requires SkipSpaces(a) != []
    ensures SkipSpaces(a + t) == SkipSpaces(a) + t
  {
    assert a != [];
    assert (a + t)[0] == a[0];
    if IsSpace(a[0]) {
      assert (a + t)[1..] == a[1..] + t;
      SkipStopsInside(a[1..], t);
    }
  }

  /**
   * Where the underscore goes: a whitespace run `w` between a text `a` that does
   * not end in whitespace and a text `b` that does not start with it becomes one
   * underscore in that very place, and both sides are replaced on their own.
   */
  lemma {:induction false} RunBecomesUnderscore(a: string, w: string, b: string)
    requires w != [] && AllSpace(w)
    requires a == [] || !IsSpace(a[|a| - 1])
    requires b == [] || !IsSpace(b[0])
    ensures ReplaceWhitespaceRuns(a + w + b) == ReplaceWhitespaceRuns(a) + "_" + ReplaceWhitespaceRuns(b)
    decreases |a|
  {
    if a == [] {
      RunAtStart(a, w, b);
    } else {
      var t, head := LeadingStep(a, w, b);
      RunBecomesUnderscore(t, w, b);
      Regroup(head, ReplaceWhitespaceRuns(t), ReplaceWhitespaceRuns(b));
    }
  }

  /** The first step of the replacement is the same with or without `w + b` after `a`. */
  lemma LeadingStep(a: string, w: string, b: string) returns (t: string, head: string)
    requires a != [] && !IsSpace(a[|a| - 1])
    ensures |t| < |a| && (t == [] || !IsSpace(t[|t| - 1]))
    ensures ReplaceWhitespaceRuns(a + w + b) == head + ReplaceWhitespaceRuns(t + w + b)
    ensures ReplaceWhitespaceRuns(a) == head + ReplaceWhitespaceRuns(t)
  {
    if IsSpace(a[0]) {
      t := LeadingRun(a, w, b);
      head := "_";
    } else {
      t := LeadingKept(a, w, b);
      head := [a[0]];
    }
  }

  /** Moving the first part of a three-part text in and out of the brackets. */
  lemma Regroup(head: string, x: string, y: string)
    ensures head + (x + "_" + y) == (head + x) + "_" + y
  {
  }

  /** With nothing before it, the run becomes a leading underscore. */
  lemma RunAtStart(a: string, w: string, b: string)
    requires a == []
    requires w != [] && AllSpace(w)
    requires b == [] || !IsSpace(b[0])
    ensures ReplaceWhitespaceRuns(a + w + b) == ReplaceWhitespaceRuns(a) + "_" + ReplaceWhitespaceRuns(b)
  {
    var s := a + w + b;
    assert s == w + b;
    assert s[0] == w[0];
    SkipWholeRun(w, b);
  }

  /**
   * A text starting with whitespace, but not ending in it, gives an underscore
   * and then the replacement of its remainder `t`, with or without `w + b` after it.
   */
  lemma LeadingRun(a: string, w: string, b: string) returns (t: string)
    requires a != [] && IsSpace(a[0]) && !IsSpace(a[|a| - 1])
    ensures |t| < |a| && (t == [] || !IsSpace(t[|t| - 1]))
    ensures ReplaceWhitespaceRuns(a + w + b) == "_" + ReplaceWhitespaceRuns(t + w + b)
    ensures ReplaceWhitespaceRuns(a) == "_" + ReplaceWhitespaceRuns(t)
  {
    SkipLeavesLast(a);
    t := SkipSpaces(a);
    SkipSpacesIsSuffix(a);
    assert t[|t| - 1] == a[|a| - 1];
    var rest := w + b;
    SkipStopsInside(a, rest);
    assert (a + rest)[0] == a[0];
    assert a + w + b == a + rest;
    assert t + w + b == t + rest;
  }

  /**
   * A text starting with a character that is not whitespace copies it and then
   * replaces its remainder `t`, with or without `w + b` after it.
   */
  lemma LeadingKept(a: string, w: string, b: string) returns (t: string)
    requires a != [] && !IsSpace(a[0]) && !IsSpace(a[|a| - 1])
    ensures |t| < |a| && (t == [] || !IsSpace(t[|t| - 1]))
    ensures ReplaceWhitespaceRuns(a + w + b) == [a[0]] + ReplaceWhitespaceRuns(t + w + b)
    ensures ReplaceWhitespaceRuns(a) == [a[0]] + ReplaceWhitespaceRuns(t)
  {
    t := a[1..];
    assert t == [] || t[|t| - 1] == a[|a| - 1];
    var s := a + w + b;
    assert s[0] == a[0];
    assert s[1..] == t + w + b;
  }

  const QrSuffix := "_QR.png"

  /** `${event_name.replace(/\s+/g, '_')}_QR.png` */
  function DownloadFileName(eventName: string): (f: string)
    ensures f == ReplaceWhitespaceRuns(eventName) + QrSuffix
    ensures EndsWith(f, QrSuffix)
    ensures NoSpace(f[..|f| - |QrSuffix|])
    ensures NoSpace(eventName) ==> f == eventName + QrSuffix
  {
    var stem := ReplaceWhitespaceRuns(eventName);
    NoSpaceIfUnchanged(eventName);
    assert (stem + QrSuffix)[..|stem|] == stem;
    assert (stem + QrSuffix)[|stem|..] == QrSuffix;
    stem + QrSuffix
  }

  /** `NoSpaceUnchanged`, stated as an implication so that it holds for every name. */
  lemma NoSpaceIfUnchanged(s: string)
    ensures NoSpace(s) ==> ReplaceWhitespaceRuns(s) == s
  {
    if NoSpace(s) {
      NoSpaceUnchanged(s);
    }
  }
}
