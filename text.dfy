/** String helpers used by both components: Python's `str.split` on a
    one-character separator, `str.join`, `str.replace` of a single character,
    and the HTML escaping of the mail handler (`EmailHandler._escape_html`). */
module Text {

  /** Python's `s.split(sep)` for a one-character separator: always at least
      one part, and no part contains the separator. */
  function Split(s: string, sep: char): (parts: seq<string>)
    ensures |parts| >= 1
    ensures forall i :: 0 <= i < |parts| ==> sep !in parts[i]
    decreases |s|
  {
    if |s| == 0 then [""]
    else
      var rest := Split(s[1..], sep);
      if s[0] == sep then [""] + rest
      else [[s[0]] + rest[0]] + rest[1..]
  }

  /** Python's `sep.join(parts)`. */
  function Join(parts: seq<string>, sep: string): string
    decreases |parts|
  {
    if |parts| == 0 then ""
    else if |parts| == 1 then parts[0]
    else parts[0] + sep + Join(parts[1..], sep)
  }

  /** Joining the parts of a split with the same separator gives back the
      original string. */
  lemma {:induction false} JoinSplit(s: string, sep: char)
    ensures Join(Split(s, sep), [sep]) == s
    decreases |s|
  {
    if |s| > 0 {
      var rest := Split(s[1..], sep);
      JoinSplit(s[1..], sep);
      if s[0] == sep {
        assert Split(s, sep) == [""] + rest;
        assert s == [sep] + s[1..];
      } else if |rest| == 1 {
        assert s == [s[0]] + rest[0];
      } else {
        var parts := Split(s, sep);
        assert parts == [[s[0]] + rest[0]] + rest[1..];
        assert parts[1..] == rest[1..];
        assert Join(rest, [sep]) == rest[0] + [sep] + Join(rest[1..], [sep]);
        assert s == [s[0]] + s[1..];
      }
    }
  }

  /** Prefixing a string without the separator only extends the first part. */
  lemma {:induction false} SplitPrepend(t: string, s: string, sep: char)
    requires sep !in t
    ensures Split(t + s, sep) == [t + Split(s, sep)[0]] + Split(s, sep)[1..]
    decreases |t|
  {
    if |t| > 0 {
      var q := Split(s, sep);
      SplitPrepend(t[1..], s, sep);
      assert (t + s)[1..] == t[1..] + s;
      var rest := Split(t[1..] + s, sep);
      assert rest == [t[1..] + q[0]] + q[1..];
      assert (t + s)[0] == t[0] != sep;
      assert Split(t + s, sep) == [[t[0]] + rest[0]] + rest[1..];
      assert rest[0] == t[1..] + q[0] && rest[1..] == q[1..];
      assert [t[0]] + (t[1..] + q[0]) == t + q[0] by {
        assert t == [t[0]] + t[1..];
      }
    } else {
      var q := Split(s, sep);
      assert t + s == s && t + q[0] == q[0];
      assert q == [q[0]] + q[1..];
    }
  }

  /** Each string of `xs` with `t` put in front. */
  function Prefixed(xs: seq<string>, t: string): seq<string>
    decreases |xs|
  {
    if |xs| == 0 then [] else [t + xs[0]] + Prefixed(xs[1..], t)
  }

  /** Putting nothing in front changes nothing. */
  lemma {:induction false} PrefixedNothing(xs: seq<string>)
    ensures Prefixed(xs, "") == xs
    decreases |xs|
  {
    if |xs| > 0 {
      PrefixedNothing(xs[1..]);
      assert "" + xs[0] == xs[0];
    }
  }

  /** The first part is kept, each later part carries the separator tail `t`. */
  function Tagged(parts: seq<string>, t: string): seq<string>
    requires |parts| >= 1
  {
    [parts[0]] + Prefixed(parts[1..], t)
  }

  lemma SplitAtSep(x: string, sep: char)
    ensures Split([sep] + x, sep) == [""] + Split(x, sep)
  {
    assert ([sep] + x)[1..] == x;
  }

  /** Splitting `Join(parts, [sep] + t)` on `sep` recovers the parts, each but
      the first still prefixed by `t`, provided neither the parts nor `t`
      contain `sep`. */
  lemma {:induction false} SplitJoin(parts: seq<string>, sep: char, t: string)
    requires |parts| >= 1
    requires sep !in t
    requires forall i :: 0 <= i < |parts| ==> sep !in parts[i]
    ensures Split(Join(parts, [sep] + t), sep) == Tagged(parts, t)
    decreases |parts|
  {
    var p := parts[0];
    if |parts| == 1 {
      SplitPrepend(p, "", sep);
      assert p + "" == p;
    } else {
      var rest := Join(parts[1..], [sep] + t);
      SplitJoin(parts[1..], sep, t);
      var tail := Split(rest, sep);
      SplitPrepend(t, rest, sep);
      var x := [sep] + (t + rest);
      SplitAtSep(t + rest, sep);
      SplitPrepend(p, x, sep);
      assert Join(parts, [sep] + t) == p + x;
      assert p + "" == p;
      assert parts[1..][1..] == parts[2..];
    }
  }

  /** Python's `s.replace(old, new)` where `old` is the single character `c`. */
  function ReplaceChar(s: string, c: char, rep: string): (r: string)
    ensures c !in s ==> r == s
    decreases |s|
  {
    if |s| == 0 then ""
    else (if s[0] == c then rep else [s[0]]) + ReplaceChar(s[1..], c, rep)
  }

  /** Replacement distributes over concatenation. */
  lemma {:induction false} ReplaceAppend(a: string, b: string, c: char, rep: string)
    ensures ReplaceChar(a + b, c, rep) == ReplaceChar(a, c, rep) + ReplaceChar(b, c, rep)
    decreases |a|
  {
    if |a| == 0 {
      assert a + b == b;
    } else {
      ReplaceAppend(a[1..], b, c, rep);
      var h := if a[0] == c then rep else [a[0]];
      assert (a + b)[0] == a[0] && (a + b)[1..] == a[1..] + b;
      calc {
        ReplaceChar(a + b, c, rep);
        h + ReplaceChar(a[1..] + b, c, rep);
        h + (ReplaceChar(a[1..], c, rep) + ReplaceChar(b, c, rep));
        (h + ReplaceChar(a[1..], c, rep)) + ReplaceChar(b, c, rep);
      }
    }
  }

  /** `EmailHandler._escape_html`: five chained replacements, `&` first. */
  function EscapeHtml(text: string): string
  {
    var amp := ReplaceChar(text, '&', "&amp;");
    var lt := ReplaceChar(amp, '<', "&lt;");
    var gt := ReplaceChar(lt, '>', "&gt;");
    var quot := ReplaceChar(gt, '"', "&quot;");
    ReplaceChar(quot, '\'', "&#39;")
  }

  /** Reference definition: the entity each character stands for in HTML
      text, every other character kept as it is. */
  function EscapeChar(ch: char): string
  {
    match ch
    case '&' => "&amp;"
    case '<' => "&lt;"
    case '>' => "&gt;"
    case '"' => "&quot;"
    case '\'' => "&#39;"
    case _ => [ch]
  }

  /** Reference definition: each character escaped on its own, left to right. */
  function EscapeEach(s: string): string
    decreases |s|
  {
    if |s| == 0 then "" else EscapeChar(s[0]) + EscapeEach(s[1..])
  }

  /** Decoding of the five entities back to their characters, as a browser
      displays the escaped text. */
  function Unescape(s: string): string
    decreases |s|
  {
    if |s| == 0 then ""
    else if |s| >= 5 && s[..5] == "&amp;" then "&" + Unescape(s[5..])
    else if |s| >= 4 && s[..4] == "&lt;" then "<" + Unescape(s[4..])
    else if |s| >= 4 && s[..4] == "&gt;" then ">" + Unescape(s[4..])
    else if |s| >= 6 && s[..6] == "&quot;" then "\"" + Unescape(s[6..])
    else if |s| >= 5 && s[..5] == "&#39;" then "'" + Unescape(s[5..])
    else [s[0]] + Unescape(s[1..])
  }

  lemma EscapeAppend(a: string, b: string)
    ensures EscapeHtml(a + b) == EscapeHtml(a) + EscapeHtml(b)
  {
    var a1, b1 := ReplaceChar(a, '&', "&amp;"), ReplaceChar(b, '&', "&amp;");
    ReplaceAppend(a, b, '&', "&amp;");
    var a2, b2 := ReplaceChar(a1, '<', "&lt;"), ReplaceChar(b1, '<', "&lt;");
    ReplaceAppend(a1, b1, '<', "&lt;");
    var a3, b3 := ReplaceChar(a2, '>', "&gt;"), ReplaceChar(b2, '>', "&gt;");
    ReplaceAppend(a2, b2, '>', "&gt;");
    var a4, b4 := ReplaceChar(a3, '"', "&quot;"), ReplaceChar(b3, '"', "&quot;");
    ReplaceAppend(a3, b3, '"', "&quot;");
    ReplaceAppend(a4, b4, '\'', "&#39;");
  }

  lemma ReplaceOne(ch: char, c: char, rep: string)
    ensures ReplaceChar([ch], c, rep) == if ch == c then rep else [ch]
  {
    assert [ch][1..] == "";
  }

  lemma EscapeOne(ch: char)
    ensures EscapeHtml([ch]) == EscapeChar(ch)
  {
    ReplaceOne(ch, '&', "&amp;");
    if ch == '&' {
      assert '<' !in "&amp;" && '>' !in "&amp;" && '"' !in "&amp;" && '\'' !in "&amp;";
      return;
    }
    ReplaceOne(ch, '<', "&lt;");
    if ch == '<' {
      assert '>' !in "&lt;" && '"' !in "&lt;" && '\'' !in "&lt;";
      return;
    }
    ReplaceOne(ch, '>', "&gt;");
    if ch == '>' {
      assert '"' !in "&gt;" && '\'' !in "&gt;";
      return;
    }
    ReplaceOne(ch, '"', "&quot;");
    if ch == '"' {
      assert '\'' !in "&quot;";
      return;
    }
    ReplaceOne(ch, '\'', "&#39;");
  }

  /** The chained replacements escape each character independently: the
      entities introduced for `&` are never escaped a second time, and the
      ones introduced later contain no character a later step replaces. */
  lemma {:induction false} EscapeHtmlPerChar(s: string)
    ensures EscapeHtml(s) == EscapeEach(s)
    decreases |s|
  {
    if |s| == 0 {
      assert EscapeHtml(s) == "";
    } else {
      assert s == [s[0]] + s[1..];
      EscapeAppend([s[0]], s[1..]);
      EscapeOne(s[0]);
      EscapeHtmlPerChar(s[1..]);
    }
  }

  lemma UnescapeAmp(t: string)
    ensures Unescape("&amp;" + t) == "&" + Unescape(t)
  {
    var e := "&amp;" + t;
    assert e[..5] == "&amp;" && e[5..] == t;
  }

  lemma UnescapeLt(t: string)
    ensures Unescape("&lt;" + t) == "<" + Unescape(t)
  {
    var e := "&lt;" + t;
    assert e[1] == 'l';
    assert !(|e| >= 5 && e[..5] == "&amp;");
    assert e[..4] == "&lt;" && e[4..] == t;
  }

  lemma UnescapeGt(t: string)
    ensures Unescape("&gt;" + t) == ">" + Unescape(t)
  {
    var e := "&gt;" + t;
    assert e[1] == 'g';
    assert !(|e| >= 5 && e[..5] == "&amp;");
    assert e[..4] != "&lt;";
    assert e[..4] == "&gt;" && e[4..] == t;
  }

  lemma UnescapeQuot(t: string)
    ensures Unescape("&quot;" + t) == "\"" + Unescape(t)
  {
    var e := "&quot;" + t;
    assert e[1] == 'q';
    assert e[..5] != "&amp;" && e[..4] != "&lt;" && e[..4] != "&gt;";
    assert e[..6] == "&quot;" && e[6..] == t;
  }

  lemma UnescapeApos(t: string)
    ensures Unescape("&#39;" + t) == "'" + Unescape(t)
  {
    var e := "&#39;" + t;
    assert e[1] == '#';
    assert e[..5] != "&amp;" && e[..4] != "&lt;" && e[..4] != "&gt;";
    assert !(|e| >= 6 && e[..6] == "&quot;");
    assert e[..5] == "&#39;" && e[5..] == t;
  }

  lemma UnescapePlain(ch: char, t: string)
    requires !IsSpecial(ch)
    ensures Unescape([ch] + t) == [ch] + Unescape(t)
  {
    var e := [ch] + t;
    assert e[0] == ch && e[1..] == t;
  }

  lemma UnescapeOne(ch: char, t: string)
    ensures Unescape(EscapeChar(ch) + t) == [ch] + Unescape(t)
  {
    if ch == '&' {
      UnescapeAmp(t);
    } else if ch == '<' {
      UnescapeLt(t);
    } else if ch == '>' {
      UnescapeGt(t);
    } else if ch == '"' {
      UnescapeQuot(t);
    } else if ch == '\'' {
      UnescapeApos(t);
    } else {
      UnescapePlain(ch, t);
    }
  }

  /** Decoding the escaped text gives back the original text exactly: no
      character is lost and no entity is escaped twice. */
  lemma {:induction false} EscapeRoundTrip(s: string)
    ensures Unescape(EscapeHtml(s)) == s
    decreases |s|
  {
    EscapeHtmlPerChar(s);
    if |s| > 0 {
      EscapeRoundTrip(s[1..]);
      EscapeHtmlPerChar(s[1..]);
      UnescapeOne(s[0], EscapeEach(s[1..]));
      assert s == [s[0]] + s[1..];
    }
  }

  /** Special characters of HTML text. */
  predicate IsSpecial(ch: char)
  {
    ch == '&' || ch == '<' || ch == '>' || ch == '"' || ch == '\''
  }

  lemma {:induction false} EscapeEachSafe(s: string)
    ensures '<' !in EscapeEach(s) && '>' !in EscapeEach(s)
    ensures '"' !in EscapeEach(s) && '\'' !in EscapeEach(s)
    decreases |s|
  {
    if |s| > 0 {
      EscapeEachSafe(s[1..]);
      var e := EscapeChar(s[0]);
      assert '<' !in e && '>' !in e && '"' !in e && '\'' !in e;
    }
  }

  /** The escaped text contains no raw `<`, `>`, `"` or `'`. */
  lemma EscapeHtmlSafe(s: string)
    ensures '<' !in EscapeHtml(s) && '>' !in EscapeHtml(s)
    ensures '"' !in EscapeHtml(s) && '\'' !in EscapeHtml(s)
  {
    EscapeHtmlPerChar(s);
    EscapeEachSafe(s);
  }

  /** Text without any of the five special characters is left unchanged. */
  lemma {:induction false} EscapeHtmlKeepsPlain(s: string)
    requires forall i :: 0 <= i < |s| ==> !IsSpecial(s[i])
    ensures EscapeHtml(s) == s
    decreases |s|
  {
    EscapeHtmlPerChar(s);
    if |s| > 0 {
      EscapeHtmlKeepsPlain(s[1..]);
      EscapeHtmlPerChar(s[1..]);
      assert s == [s[0]] + s[1..];
    }
  }
}
