/** `escapeHtml`: the front end assigns text to a detached element's `textContent`
    and reads back its `innerHTML`. The browser serialises a text node by the
    "escaping a string" algorithm of section 13.3 of the WHATWG HTML Living Standard
    (attribute mode off): `&` becomes `&amp;`, U+00A0 becomes `&nbsp;`, `<` becomes
    `&lt;`, `>` becomes `&gt;`; every other character, quotes included, is kept. */
module HtmlEscape {
  import opened Text

  const Nbsp: char := '\U{00A0}'

  /** The characters the serialiser replaces by a character reference. */
  predicate IsSpecial(c: char) { c == '&' || c == Nbsp || c == '<' || c == '>' }

  function EscapeChar(c: char): (r: string)
    ensures |r| >= 1 && r[0] == (if IsSpecial(c) then '&' else c)
  {
    if c == '&' then "&amp;"
    else if c == Nbsp then "&nbsp;"
    else if c == '<' then "&lt;"
    else if c == '>' then "&gt;"
    else [c]
  }

  function EscapeHtml(s: string): (r: string)
    ensures |r| >= |s|
  {
    if |s| == 0 then "" else EscapeChar(s[0]) + EscapeHtml(s[1..])
  }

  /** The entities the serialiser produces. */
  predicate StartsWithEntity(r: string) {
    StartsWith(r, "&amp;") || StartsWith(r, "&nbsp;") || StartsWith(r, "&lt;") || StartsWith(r, "&gt;")
  }

  /** Text that an HTML parser reads back as character data only: no tag can open or
      close in it, and every ampersand begins one of the four entities. */
  predicate WellEscaped(r: string) {
    forall i :: 0 <= i < |r| ==>
      !(r[i] in {'<', '>', Nbsp}) && (r[i] == '&' ==> StartsWithEntity(r[i..]))
  }

  /** The HTML parser's reading of the four entities: the inverse of the serialiser. */
  function UnescapeHtml(s: string): string
    decreases |s|
  {
    if |s| == 0 then ""
    else if StartsWith(s, "&amp;") then "&" + UnescapeHtml(s[5..])
    else if StartsWith(s, "&nbsp;") then [Nbsp] + UnescapeHtml(s[6..])
    else if StartsWith(s, "&lt;") then "<" + UnescapeHtml(s[4..])
    else if StartsWith(s, "&gt;") then ">" + UnescapeHtml(s[4..])
    else [s[0]] + UnescapeHtml(s[1..])
  }

  lemma {:induction false} UnescapeAmp(rest: string)
    ensures UnescapeHtml("&amp;" + rest) == "&" + UnescapeHtml(rest)
  {
    var r := "&amp;" + rest;
    assert r[..5] == "&amp;" && r[5..] == rest;
  }

  lemma {:induction false} UnescapeNbsp(rest: string)
    ensures UnescapeHtml("&nbsp;" + rest) == [Nbsp] + UnescapeHtml(rest)
  {
    var r := "&nbsp;" + rest;
    assert r[..6] == "&nbsp;" && r[6..] == rest;
    assert r[1] == 'n';
  }

  lemma {:induction false} UnescapeLt(rest: string)
    ensures UnescapeHtml("&lt;" + rest) == "<" + UnescapeHtml(rest)
  {
    var r := "&lt;" + rest;
    assert r[..4] == "&lt;" && r[4..] == rest;
    assert !StartsWith(r, "&amp;") by { assert r[1] == 'l'; }
    assert !StartsWith(r, "&nbsp;") by { assert r[1] == 'l'; }
  }

  lemma {:induction false} UnescapeGt(rest: string)
    ensures UnescapeHtml("&gt;" + rest) == ">" + UnescapeHtml(rest)
  {
    var r := "&gt;" + rest;
    assert r[..4] == "&gt;" && r[4..] == rest;
    assert !StartsWith(r, "&amp;") by { assert r[1] == 'g'; }
    assert !StartsWith(r, "&nbsp;") by { assert r[1] == 'g'; }
    assert !StartsWith(r, "&lt;") by { assert r[1] == 'g'; }
  }

  /** The parser reads one serialised character back, whatever follows it. */
  lemma {:induction false} UnescapeEscapeChar(c: char, rest: string)
    ensures UnescapeHtml(EscapeChar(c) + rest) == [c] + UnescapeHtml(rest)
  {
    if c == '&' {
      UnescapeAmp(rest);
    } else if c == Nbsp {
      UnescapeNbsp(rest);
    } else if c == '<' {
      UnescapeLt(rest);
    } else if c == '>' {
      UnescapeGt(rest);
    } else {
      var r := [c] + rest;
      assert r[0] == c && r[1..] == rest;
    }
  }

  /** Reading the escaped text back gives the original text. */
  lemma {:induction false} UnescapeEscape(s: string)
    ensures UnescapeHtml(EscapeHtml(s)) == s
  {
    if |s| > 0 {
      UnescapeEscape(s[1..]);
      UnescapeEscapeChar(s[0], EscapeHtml(s[1..]));
      assert s == [s[0]] + s[1..];
    }
  }

  lemma {:induction false} WellEscapedConcat(a: string, b: string)
    requires WellEscaped(a) && WellEscaped(b)
    requires forall i :: 0 <= i < |a| && a[i] == '&' ==> StartsWithEntity(a[i..])
    ensures WellEscaped(a + b)
  {
    var r := a + b;
    forall i | 0 <= i < |r| && r[i] == '&'
      ensures StartsWithEntity(r[i..])
    {
      if i < |a| {
        assert a[i] == '&';
        var e := a[i..];
        assert StartsWithEntity(e);
        assert r[i..] == e + b;
        assert e[..4] == r[i..][..4] || |e| < 4;
        if StartsWith(e, "&amp;") { assert r[i..][..5] == e[..5]; }
        else if StartsWith(e, "&nbsp;") { assert r[i..][..6] == e[..6]; }
        else if StartsWith(e, "&lt;") { assert r[i..][..4] == e[..4]; }
        else { assert r[i..][..4] == e[..4]; }
      } else {
        assert r[i..] == b[i - |a|..];
      }
    }
    forall i | 0 <= i < |r|
      ensures !(r[i] in {'<', '>', Nbsp})
    {
      if i < |a| { assert r[i] == a[i]; } else { assert r[i] == b[i - |a|]; }
    }
  }

  /** The escaped text is always safe to splice into markup. */
  lemma {:induction false} EscapeIsWellEscaped(s: string)
    ensures WellEscaped(EscapeHtml(s))
  {
    if |s| > 0 {
      EscapeIsWellEscaped(s[1..]);
      var e := EscapeChar(s[0]);
      assert WellEscaped(e) by {
        forall i | 0 <= i < |e| && e[i] == '&' ensures i == 0 { }
      }
      WellEscapedConcat(e, EscapeHtml(s[1..]));
    }
  }

  /** Text without the four special characters, quotes included, is left as it is;
      any of them changes the text. */
  lemma {:induction false} EscapeIdentityIff(s: string)
    ensures EscapeHtml(s) == s <==> forall i :: 0 <= i < |s| ==> !IsSpecial(s[i])
  {
    if |s| > 0 {
      EscapeIdentityIff(s[1..]);
      var e := EscapeChar(s[0]);
      if IsSpecial(s[0]) {
        assert |EscapeHtml(s)| > |s|;
      } else {
        assert EscapeHtml(s) == [s[0]] + EscapeHtml(s[1..]);
        if EscapeHtml(s) == s {
          assert EscapeHtml(s[1..]) == EscapeHtml(s)[1..];
        }
        assert forall i :: 1 <= i < |s| ==> s[i] == s[1..][i - 1];
      }
    }
  }
}
