/** The two PHP string helpers the report formatter applies to every field:
    `htmlspecialchars` (with the default flags of PHP 8.1 and later, so the
    single quote is escaped too) and `ucfirst` (ASCII only). */
module Html {
  import opened Basics

  /** The characters `htmlspecialchars` rewrites. */
  predicate IsSpecial(c: char) {
    c == '&' || c == '<' || c == '>' || c == '"' || c == '\''
  }

  /** A character that could open or close a tag or an attribute value. */
  predicate IsMarkup(c: char) {
    c == '<' || c == '>' || c == '"' || c == '\''
  }

  predicate NoRawMarkup(s: string) {
    forall i :: 0 <= i < |s| ==> !IsMarkup(s[i])
  }

  /** Nothing for `htmlspecialchars` to rewrite. */
  predicate NoSpecial(s: string) {
    forall i :: 0 <= i < |s| ==> !IsSpecial(s[i])
  }

  /** The replacement `htmlspecialchars` writes for one character. */
  function EscapeChar(c: char): (r: string)
    ensures NoRawMarkup(r)
    ensures IsSpecial(c) ==> |r| >= 4 && r[0] == '&'
    ensures !IsSpecial(c) ==> r == [c]
  {
    match c
    case '&' => "&amp;"
    case '<' => "&lt;"
    case '>' => "&gt;"
    case '"' => "&quot;"
    case '\'' => "&#039;"
    case _ => [c]
  }

  /** `htmlspecialchars(s)`: every special character replaced by its entity. */
  function Escape(s: string): (r: string)
    ensures NoRawMarkup(r)
    ensures |r| >= |s|
  {
    if s == [] then []
    else NoRawMarkupConcat(EscapeChar(s[0]), Escape(s[1..])); EscapeChar(s[0]) + Escape(s[1..])
  }

  /** `ucfirst(s)`: an ASCII lower-case first character becomes upper case. */
  function Ucfirst(s: string): (r: string)
    ensures |r| == |s|
    ensures |s| > 0 ==> r[1..] == s[1..]
    ensures |s| > 0 && 'a' <= s[0] <= 'z' ==> r[0] as int == s[0] as int - ('a' as int - 'A' as int)
    ensures |s| > 0 && !('a' <= s[0] <= 'z') ==> r == s
  {
    if |s| > 0 && 'a' <= s[0] <= 'z' then [(s[0] as int - 32) as char] + s[1..] else s
  }

  /** Decoding of the five entities `Escape` writes, the way a mail client or
      browser reads the escaped text back. A raw special character, or an `&`
      that does not start one of the five entities, is rejected. */
  function Unescape(t: string): (r: Option<string>)
    decreases |t|
  {
    if t == [] then Some([])
    else if t[0] == '&' then
      if "&amp;" <= t then Prepend('&', Unescape(t[5..]))
      else if "&lt;" <= t then Prepend('<', Unescape(t[4..]))
      else if "&gt;" <= t then Prepend('>', Unescape(t[4..]))
      else if "&quot;" <= t then Prepend('"', Unescape(t[6..]))
      else if "&#039;" <= t then Prepend('\'', Unescape(t[6..]))
      else None
    else if IsSpecial(t[0]) then None
    else Prepend(t[0], Unescape(t[1..]))
  }

  function Prepend(c: char, o: Option<string>): Option<string> {
    match o
    case None => None
    case Some(s) => Some([c] + s)
  }

  /** Escaping distributes over concatenation. */
  lemma {:induction false} EscapeConcat(a: string, b: string)
    ensures Escape(a + b) == Escape(a) + Escape(b)
  {
    if a == [] {
      assert a + b == b;
    } else {
      assert (a + b)[0] == a[0];
      assert (a + b)[1..] == a[1..] + b;
      EscapeConcat(a[1..], b);
      ConcatAssoc(EscapeChar(a[0]), Escape(a[1..]), Escape(b));
    }
  }

  /** The escaped string is the escaped prefix, the replacement of the
      character at `i`, and the escaped rest, in that order. */
  lemma {:induction false} EscapeAt(s: string, i: nat)
    requires i < |s|
    ensures Escape(s) == Escape(s[..i]) + EscapeChar(s[i]) + Escape(s[i + 1..])
  {
    var a, b := s[..i], s[i..];
    assert s == a + b;
    EscapeConcat(a, b);
    assert b[0] == s[i] && b[1..] == s[i + 1..];
  }

  /** Every `&` of the input shows up as `&amp;` in the output, at the place
      the surrounding text puts it. */
  lemma {:induction false} EscapeAmpersand(s: string, i: nat)
    requires i < |s| && s[i] == '&'
    ensures Escape(s) == Escape(s[..i]) + "&amp;" + Escape(s[i + 1..])
  {
    EscapeAt(s, i);
  }

  /** A string is left unchanged exactly when it holds no special character. */
  lemma {:induction false} EscapeIdentity(s: string)
    ensures Escape(s) == s <==> NoSpecial(s)
  {
    if s != [] {
      EscapeIdentity(s[1..]);
      if NoSpecial(s) {
        assert NoSpecial(s[1..]) by {
          forall i | 0 <= i < |s[1..]| ensures !IsSpecial(s[1..][i]) {
            assert s[1..][i] == s[i + 1];
          }
        }
        assert s == [s[0]] + s[1..];
      } else {
        var i :| 0 <= i < |s| && IsSpecial(s[i]);
        EscapeAt(s, i);
        assert |Escape(s)| >= |s[..i]| + 4 + |s[i + 1..]|;
      }
    }
  }

  /** Escaping loses nothing: decoding the escaped text gives back the input. */
  lemma {:induction false} UnescapeEscape(s: string)
    ensures Unescape(Escape(s)) == Some(s)
  {
    if s != [] {
      var c, rest := s[0], Escape(s[1..]);
      var e := EscapeChar(c);
      var t := e + rest;
      assert Escape(s) == t;
      assert t[|e|..] == rest;
      assert e <= t;
      assert |e| > 1 ==> t[1] == e[1];
      UnescapeEscape(s[1..]);
      assert s == [c] + s[1..];
      if c == '&' {
        assert Unescape(t) == Prepend('&', Unescape(t[5..]));
      } else if c == '<' {
        assert !("&amp;" <= t);
        assert Unescape(t) == Prepend('<', Unescape(t[4..]));
      } else if c == '>' {
        assert !("&amp;" <= t) && !("&lt;" <= t);
        assert Unescape(t) == Prepend('>', Unescape(t[4..]));
      } else if c == '"' {
        assert !("&amp;" <= t) && !("&lt;" <= t) && !("&gt;" <= t);
        assert Unescape(t) == Prepend('"', Unescape(t[6..]));
      } else if c == '\'' {
        assert !("&amp;" <= t) && !("&lt;" <= t) && !("&gt;" <= t) && !("&quot;" <= t);
        assert Unescape(t) == Prepend('\'', Unescape(t[6..]));
      } else {
        assert t[0] == c;
        assert Unescape(t) == Prepend(c, Unescape(t[1..]));
      }
    }
  }

  /** A CSP report key as the formatter prints it: `document-uri` becomes
      `Document-uri`. */
  lemma {:induction false} UcfirstFieldName()
    ensures Ucfirst("document-uri") == "Document-uri"
  {
  }

  /** `ucfirst` never introduces markup: it only maps `a`..`z` to `A`..`Z`. */
  lemma {:induction false} UcfirstNoRawMarkup(s: string)
    requires NoRawMarkup(s)
    ensures NoRawMarkup(Ucfirst(s))
  {
    var r := Ucfirst(s);
    forall i | 0 <= i < |r| ensures !IsMarkup(r[i]) {
      if i > 0 {
        assert r[i] == r[1..][i - 1] == s[1..][i - 1] == s[i];
      }
    }
  }

  lemma {:induction false} NoRawMarkupConcat(a: string, b: string)
    requires NoRawMarkup(a) && NoRawMarkup(b)
    ensures NoRawMarkup(a + b)
  {
    forall i | 0 <= i < |a + b| ensures !IsMarkup((a + b)[i]) {
      if i >= |a| {
        assert (a + b)[i] == b[i - |a|];
      }
    }
  }
}
