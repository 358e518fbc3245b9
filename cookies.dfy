/**
 * Reading the user id out of a raw `Cookie` request header (the syntax of
 * section 4.2.1 of RFC 6265: `name=value` pairs separated by `; `). The routes
 * do not parse that syntax; they split the header text. Two variants exist.
 */
module SessionCookie {
  import opened Wrappers
  import opened Text

  /** The name of the cookie that carries the internal user id. */
  const SessionCookieName: string := "fit1-session"

  /** The text the routes split the header on: the cookie name and `=`. */
  const SessionMarker: string := SessionCookieName + "="

  /**
   * `cookie?.split('fit1-session=')[1] || ''`, then `.split(';')[0]`: used by the
   * nutrition-history, water-history, water-track and weight-track routes.
   * `header` is `None` when the request has no `Cookie` header.
   */
  function SessionIdFromHeader(header: Option<string>): string
  {
    var afterMarker :=
      if header.None? then ""
      else
        var parts := Split(header.value, SessionMarker);
        if |parts| > 1 then parts[1] else "";
    Split(afterMarker, ";")[0]
  }

  /**
   * `cookie?.split('=')[1] || ''`, then `.split(';')[0]`: the nutrition-analyze
   * route's variant, which splits on the first `=` of the whole header.
   */
  function UserIdFromFirstValue(header: Option<string>): string
  {
    var afterEquals :=
      if header.None? then ""
      else
        var parts := Split(header.value, "=");
        if |parts| > 1 then parts[1] else "";
    Split(afterEquals, ";")[0]
  }

  /**
   * The two statements the routes run: `userId` is first the text after the
   * marker (or `''`), then reassigned to its part before the first `;`.
   */
  method ReadSessionId(header: Option<string>) returns (userId: string)
    ensures userId == SessionIdFromHeader(header)
    ensures ';' !in userId
  {
    userId := "";
    if header.Some? {
      var parts := Split(header.value, SessionMarker);
      if |parts| > 1 {
        userId := parts[1];
      }
    }
    userId := Split(userId, ";")[0];
    SessionIdHasNoSemicolon(header);
  }

  /** The same two statements with `=` as the separator, as in the nutrition-analyze route. */
  method ReadFirstValue(header: Option<string>) returns (userId: string)
    ensures userId == UserIdFromFirstValue(header)
    ensures ';' !in userId
  {
    userId := "";
    if header.Some? {
      var parts := Split(header.value, "=");
      if |parts| > 1 {
        userId := parts[1];
      }
    }
    var pieces := Split(userId, ";");
    SplitPiecesAvoidSep(userId, ";");
    ContainsChar(pieces[0], ';');
    userId := pieces[0];
  }

  /** Without a header, or without `fit1-session=` in it, the id is empty. */
  lemma SessionIdAbsent(header: Option<string>)
    requires header.None? || !Contains(header.value, SessionMarker)
    ensures SessionIdFromHeader(header) == ""
  {
    if header.Some? {
      SplitSecond(header.value, SessionMarker);
    }
  }

  /**
   * What the session id is: the text right after the first `fit1-session=`,
   * containing neither `;` nor another `fit1-session=`, and as long as
   * possible, stopping only at the end of the header, at a `;`, or where
   * `fit1-session=` occurs again.
   */
  lemma SessionIdSpec(header: string)
    requires Contains(header, SessionMarker)
    ensures var rest := header[IndexOf(header, SessionMarker).value + |SessionMarker|..];
      var id := SessionIdFromHeader(Some(header));
      && |id| <= |rest| && id == rest[..|id|]
      && ';' !in id && !Contains(id, SessionMarker)
      && (|id| == |rest| || rest[|id|] == ';' || OccursAt(rest, SessionMarker, |id|))
  {
    var i := IndexOf(header, SessionMarker).value;
    var rest := header[i + |SessionMarker|..];
    SplitSecond(header, SessionMarker);
    var after := Split(rest, SessionMarker)[0];
    SplitFirstStops(rest, SessionMarker);
    var id := Split(after, ";")[0];
    assert SessionIdFromHeader(Some(header)) == id;
    SplitFirstStops(after, ";");
    ContainsChar(id, ';');
    PrefixAvoids(after, id, SessionMarker);
    if |id| < |after| {
      assert after[|id|] == ';';
    }
  }

  /** The session id never contains `;`. */
  lemma SessionIdHasNoSemicolon(header: Option<string>)
    ensures ';' !in SessionIdFromHeader(header)
  {
    if header.Some? && Contains(header.value, SessionMarker) {
      SessionIdSpec(header.value);
    } else {
      SessionIdAbsent(header);
    }
  }

  /** Facts about the marker text that the proofs below use. */
  lemma MarkerFacts()
    ensures |SessionMarker| == 13 && SessionMarker[0] == 'f' && SessionMarker[12] == '='
    ensures forall j :: 0 <= j < 12 ==> SessionMarker[j] != '='
    ensures ';' !in SessionMarker
  {
    assert SessionMarker == "fit1-session=";
  }

  /** If `before` does not contain the marker, its first occurrence in `before + marker + t` is right after `before`. */
  lemma MarkerFirstAfter(before: string, t: string)
    requires !Contains(before, SessionMarker)
    ensures IndexOf(before + SessionMarker + t, SessionMarker) == Some(|before|)
  {
    var h := before + SessionMarker + t;
    MarkerFacts();
    assert OccursAt(h, SessionMarker, |before|);
    forall k | 0 <= k < |before| ensures !OccursAt(h, SessionMarker, k) {
      if k + 13 <= |before| {
        assert h[k..k + 13] == before[k..k + 13];
        assert !OccursAt(before, SessionMarker, k);
      } else {
        assert h[k..k + 13][12] == SessionMarker[k + 12 - |before|];
      }
    }
  }

  /**
   * After the marker, a value free of `;` and of the marker, followed by `;` or
   * by nothing, lies whole in the first piece of the split on the marker, with
   * the `;` right after it.
   */
  lemma ValueBeforeNextMarker(v: string, after: string)
    requires ';' !in v && !Contains(v, SessionMarker)
    requires after == "" || after[0] == ';'
    ensures var f := Split(v + after, SessionMarker)[0];
      |v| <= |f| && f[..|v|] == v && (|f| > |v| ==> f[|v|] == ';')
  {
    var rest := v + after;
    SplitFirstStops(rest, SessionMarker);
    forall k | 0 <= k < |v| ensures !OccursAt(rest, SessionMarker, k) {
      NoMarkerStartsInValue(v, after, k);
    }
  }

  /** No occurrence of the marker in `v + after` starts inside `v`. */
  lemma NoMarkerStartsInValue(v: string, after: string, k: nat)
    requires ';' !in v && !Contains(v, SessionMarker)
    requires after == "" || after[0] == ';'
    requires k < |v|
    ensures !OccursAt(v + after, SessionMarker, k)
  {
    MarkerFacts();
    var rest := v + after;
    if k + 13 <= |v| {
      assert rest[k..k + 13] == v[k..k + 13];
      assert !OccursAt(v, SessionMarker, k);
    } else if k + 13 <= |rest| {
      assert rest[k..k + 13][|v| - k] == ';';
    }
  }

  /**
   * When the header is `before`, then `fit1-session=v`, then `;...` or nothing,
   * and `before` does not already hold `fit1-session=`, the id is `v`.
   */
  lemma SessionIdOfCookie(before: string, v: string, after: string)
    requires !Contains(before, SessionMarker)
    requires ';' !in v && !Contains(v, SessionMarker)
    requires after == "" || after[0] == ';'
    ensures SessionIdFromHeader(Some(before + SessionMarker + v + after)) == v
  {
    var h := before + SessionMarker + (v + after);
    assert before + SessionMarker + v + after == h;
    MarkerFirstAfter(before, v + after);
    assert h[|before| + |SessionMarker|..] == v + after;
    SplitSecond(h, SessionMarker);
    ValueBeforeNextMarker(v, after);
    SplitFirstIsPrefix(Split(v + after, SessionMarker)[0], v, ';');
  }

  /** The name is matched as raw text, so `xfit1-session=abc` also yields `abc`. */
  lemma SuffixNameAlsoMatches()
    ensures SessionIdFromHeader(Some("xfit1-session=abc")) == "abc"
  {
    assert "x" + SessionMarker + "abc" + "" == "xfit1-session=abc";
    NoMarkerIn("x");
    NoMarkerIn("abc");
    SessionIdOfCookie("x", "abc", "");
  }

  /** A typical header with several cookies. */
  lemma SessionIdAmongCookies()
    ensures SessionIdFromHeader(Some("theme=dark; fit1-session=u42; lang=en")) == "u42"
  {
    assert "theme=dark; " + SessionMarker + "u42" + "; lang=en" == "theme=dark; fit1-session=u42; lang=en";
    NoMarkerIn("theme=dark; ");
    NoMarkerIn("u42");
    SessionIdOfCookie("theme=dark; ", "u42", "; lang=en");
  }

  /** Without a header, or without `=` in it, the first-`=` variant yields `''`. */
  lemma FirstValueAbsent(header: Option<string>)
    requires header.None? || '=' !in header.value
    ensures UserIdFromFirstValue(header) == ""
  {
    if header.Some? {
      ContainsChar(header.value, '=');
      SplitSecond(header.value, "=");
    }
  }

  /**
   * What the first-`=` variant yields: the text right after the first `=` of
   * the header, containing neither `;` nor `=`, and as long as possible,
   * stopping only at the end of the header, at a `;`, or at the next `=`.
   */
  lemma FirstValueSpec(header: string)
    requires Contains(header, "=")
    ensures var rest := header[IndexOf(header, "=").value + 1..];
      var id := UserIdFromFirstValue(Some(header));
      && |id| <= |rest| && id == rest[..|id|]
      && ';' !in id && '=' !in id
      && (|id| == |rest| || rest[|id|] == ';' || rest[|id|] == '=')
  {
    var i := IndexOf(header, "=").value;
    var rest := header[i + 1..];
    SplitSecond(header, "=");
    var after := Split(rest, "=")[0];
    SplitFirstStops(rest, "=");
    var id := Split(after, ";")[0];
    assert UserIdFromFirstValue(Some(header)) == id;
    SplitFirstStops(after, ";");
    ContainsChar(id, ';');
    PrefixAvoids(after, id, "=");
    ContainsChar(id, '=');
    if |id| < |after| {
      CharAt(after, ';', |id|);
    } else if |id| < |rest| {
      CharAt(rest, '=', |id|);
    }
  }

  /** A one-character pattern occurring at `i` is the character at `i`. */
  lemma CharAt(s: string, c: char, i: nat)
    requires OccursAt(s, [c], i)
    ensures i < |s| && s[i] == c
  {
    assert s[i..i + 1][0] == s[i];
  }

  /**
   * When the header starts with a cookie `name=value` whose value holds
   * neither `;` nor `=`, and the value is followed by the end, a `;` or
   * another `=`, the first-`=` variant yields exactly that value.
   */
  lemma FirstValueOfCookie(name: string, value: string, tail: string)
    requires '=' !in name && '=' !in value && ';' !in value
    requires tail == "" || tail[0] == ';' || tail[0] == '='
    ensures UserIdFromFirstValue(Some(name + "=" + value + tail)) == value
  {
    var h := name + "=" + value + tail;
    assert h == name + ['='] + (value + tail);
    SplitAtFirstChar(name, '=', value + tail);
    var rest := value + tail;
    assert h[|name| + 1..] == rest;
    assert OccursAt(h, "=", |name|);
    FirstValueSpec(h);
    var id := UserIdFromFirstValue(Some(h));
    assert id == rest[..|value|] == value;
  }

  /**
   * The first-`=` variant yields the value of the FIRST cookie in the header,
   * whatever its name, for values without `=`.
   */
  lemma FirstValueIsFirstCookie(name: string, value: string, tail: string)
    requires '=' !in name && '=' !in value && ';' !in value
    requires tail == "" || tail[0] == ';'
    ensures UserIdFromFirstValue(Some(name + "=" + value + tail)) == value
  {
    FirstValueOfCookie(name, value, tail);
  }

  /**
   * A first cookie whose value holds `=` (base64 padding, say, as in
   * `tok=YWJj==`) is cut at that `=`: only the text before it is returned.
   */
  lemma FirstValueCutAtEquals(name: string, value: string, more: string)
    requires '=' !in name && '=' !in value && ';' !in value
    ensures UserIdFromFirstValue(Some(name + "=" + value + "=" + more)) == value
  {
    assert name + "=" + value + "=" + more == name + "=" + value + ("=" + more);
    FirstValueOfCookie(name, value, "=" + more);
  }

  /**
   * The two variants disagree as soon as another cookie precedes the session
   * cookie: the first-`=` variant then returns that cookie's value.
   */
  lemma VariantsDisagree()
    ensures UserIdFromFirstValue(Some("theme=dark; fit1-session=u42")) == "dark"
    ensures SessionIdFromHeader(Some("theme=dark; fit1-session=u42")) == "u42"
  {
    FirstValueOfThemeHeader();
    SessionIdOfThemeHeader();
  }

  lemma FirstValueOfThemeHeader()
    ensures UserIdFromFirstValue(Some("theme=dark; fit1-session=u42")) == "dark"
  {
    assert "theme" + "=" + "dark" + "; fit1-session=u42" == "theme=dark; fit1-session=u42";
    FirstValueIsFirstCookie("theme", "dark", "; fit1-session=u42");
  }

  lemma SessionIdOfThemeHeader()
    ensures SessionIdFromHeader(Some("theme=dark; fit1-session=u42")) == "u42"
  {
    assert "theme=dark; " + SessionMarker + "u42" + "" == "theme=dark; fit1-session=u42";
    NoMarkerIn("theme=dark; ");
    NoMarkerIn("u42");
    SessionIdOfCookie("theme=dark; ", "u42", "");
  }

  /** A string without `f` or without `=` cannot contain the marker. */
  lemma NoMarkerIn(s: string)
    requires 'f' !in s || '=' !in s
    ensures !Contains(s, SessionMarker)
  {
    MarkerFacts();
    forall k | 0 <= k <= |s| ensures !OccursAt(s, SessionMarker, k) {
      if k + 13 <= |s| {
        assert s[k..k + 13][0] == s[k];
        assert s[k..k + 13][12] == s[k + 12];
      }
    }
  }
}
