/** The element-name sanitizer `elementReplace` (jsontoxml.js:13-15) as applied by
    `makeNode` when `removeIllegalNameCharacters` is set (jsontoxml.js:27-29).
    The character classes are ranges of UTF-16 code units, so the halves of a
    surrogate pair belong to neither class. */
module Names {
  import opened JsValues

  const Underscore: Unit := 95

  /** `elementStartChar`: a-z, A-Z, `_` and the listed code-unit ranges. */
  predicate IsStartChar(u: Unit)
  {
    (65 <= u <= 90) || (97 <= u <= 122) || u == 95
    || (0xC0 <= u <= 0xD6) || (0xD8 <= u <= 0xF6) || (0xF8 <= u <= 0xFF)
    || (0x370 <= u <= 0x37D) || (0x37F <= u <= 0x1FFF) || (0x200C <= u <= 0x200D)
    || (0x2070 <= u <= 0x218F) || (0x2C00 <= u <= 0x2FFF) || (0x3001 <= u <= 0xD7FF)
    || (0xF900 <= u <= 0xFDCF) || (0xFDF0 <= u <= 0xFFFD)
  }

  /** `elementNonStartChar`: `-`, `.`, the digits, U+00B7, U+0300-U+036F, U+203F and U+2040. */
  predicate IsNonStartChar(u: Unit)
  {
    u == 45 || u == 46 || (48 <= u <= 57) || u == 0xB7 || (0x300 <= u <= 0x36F) || u == 0x203F || u == 0x2040
  }

  predicate IsNameChar(u: Unit)
  {
    IsStartChar(u) || IsNonStartChar(u)
  }

  /** The name begins with `xml` in any mix of cases. */
  predicate HasXmlPrefix(s: JStr)
  {
    |s| >= 3 && (s[0] == 120 || s[0] == 88) && (s[1] == 109 || s[1] == 77) && (s[2] == 108 || s[2] == 76)
  }

  /** A name in which `elementReplace` finds nothing to replace. */
  predicate IsCleanName(s: JStr)
  {
    (|s| > 0 ==> IsStartChar(s[0])) && !HasXmlPrefix(s) && forall i :: 0 <= i < |s| ==> IsNameChar(s[i])
  }

  /** The third alternative, `[^start non-start]`, matched at every later position. */
  function ReplaceIllegal(s: JStr): (r: JStr)
    ensures |r| == |s|
    ensures forall i :: 0 <= i < |s| ==> r[i] == if IsNameChar(s[i]) then s[i] else Underscore
  {
    if s == [] then [] else [if IsNameChar(s[0]) then s[0] else Underscore] + ReplaceIllegal(s[1..])
  }

  /** `name.replace(elementReplace, '_')`. At index 0 the alternatives are tried in order:
      an illegal first unit is one match, a leading `xml` of any case is one match of
      three units; after that, each unit outside both classes is one match. */
  function SanitizeName(s: JStr): JStr
  {
    if s == [] then []
    else if !IsStartChar(s[0]) then [Underscore] + ReplaceIllegal(s[1..])
    else if HasXmlPrefix(s) then [Underscore] + ReplaceIllegal(s[3..])
    else [s[0]] + ReplaceIllegal(s[1..])
  }

  /** Every unit of a sanitized name is legal, its first unit is a legal start, it never
      begins with `xml`, and it is as long as the name less the two units of a collapsed
      `xml` prefix. */
  lemma SanitizeNameLegal(s: JStr)
    ensures forall i :: 0 <= i < |SanitizeName(s)| ==> IsNameChar(SanitizeName(s)[i])
    ensures |s| > 0 ==> |SanitizeName(s)| > 0 && IsStartChar(SanitizeName(s)[0])
    ensures |SanitizeName(s)| == if HasXmlPrefix(s) then |s| - 2 else |s|
    ensures IsCleanName(SanitizeName(s))
  {
    var r := SanitizeName(s);
    if s != [] {
      var rest := if !IsStartChar(s[0]) || !HasXmlPrefix(s) then s[1..] else s[3..];
      assert r == [r[0]] + ReplaceIllegal(rest);
      assert r[1..] == ReplaceIllegal(rest);
    }
  }

  /** A name is left unchanged exactly when `elementReplace` finds nothing in it. */
  lemma SanitizeUnchangedIff(s: JStr)
    ensures SanitizeName(s) == s <==> IsCleanName(s)
  {
    if IsCleanName(s) && s != [] {
      assert ReplaceIllegal(s[1..]) == s[1..];
      assert s == [s[0]] + s[1..];
    }
    if SanitizeName(s) == s {
      SanitizeNameLegal(s);
    }
  }

  /** Sanitizing twice is sanitizing once. */
  lemma SanitizeIdempotent(s: JStr)
    ensures SanitizeName(SanitizeName(s)) == SanitizeName(s)
  {
    SanitizeNameLegal(s);
    SanitizeUnchangedIff(SanitizeName(s));
  }

  /** An illegal first unit becomes `_`: `1tag` becomes `_tag`. */
  lemma SanitizeDigitStart()
    ensures SanitizeName(Lit("1tag")) == Lit("_tag")
  {
    var s := Lit("1tag");
    assert ReplaceIllegal(s[1..]) == s[1..];
  }

  /** A leading `xml` in any case collapses to one `_`. */
  lemma SanitizeXmlPrefix()
    ensures SanitizeName(Lit("XmLfoo")) == Lit("_foo")
  {
    var s := Lit("XmLfoo");
    assert HasXmlPrefix(s);
    var r := ReplaceIllegal(s[3..]);
    assert r == s[3..];
  }

  /** The colon of `xml:bad` lies outside both classes and is replaced as well: `__bad`. */
  lemma SanitizeXmlColon()
    ensures SanitizeName(Lit("xml:bad")) == Lit("__bad")
  {
    var s := Lit("xml:bad");
    assert HasXmlPrefix(s);
    var r := ReplaceIllegal(s[3..]);
    assert r == Lit("_bad");
  }

  /** A name made of legal units with a legal start and no `xml` prefix is kept: `valid_tag`. */
  lemma SanitizeKeepsValid()
    ensures SanitizeName(Lit("valid_tag")) == Lit("valid_tag")
  {
    var s := Lit("valid_tag");
    assert s == [118, 97, 108, 105, 100, 95, 116, 97, 103];
    SanitizeUnchangedIff(s);
  }

  /** Both halves of a surrogate pair fall outside the classes and become `_` each. */
  lemma SanitizeSurrogatePair(hi: Unit, lo: Unit)
    requires 0xD800 <= hi <= 0xDBFF && 0xDC00 <= lo <= 0xDFFF
    ensures SanitizeName([Lit("a")[0], hi, lo]) == Lit("a__")
  {
    assert [Lit("a")[0], hi, lo][1..] == [hi, lo];
  }
}
