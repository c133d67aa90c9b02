/** `esc` and `cdata` (jsontoxml.js:166-182), the two helpers the module also exports. */
module Escaping {
  import opened JsValues

  const Amp: Unit := 38
  const Lt: Unit := 60
  const Gt: Unit := 62
  const Apos: Unit := 39
  const Quot: Unit := 34

  /** The five entities, spelled out as code units. */
  const AmpEntity: JStr := [Amp, 97, 109, 112, 59]
  const LtEntity: JStr := [Amp, 108, 116, 59]
  const GtEntity: JStr := [Amp, 103, 116, 59]
  const AposEntity: JStr := [Amp, 97, 112, 111, 115, 59]
  const QuotEntity: JStr := [Amp, 113, 117, 111, 116, 59]

  /** The constants above are the entities as written in the source. */
  lemma EntitiesSpelled()
    ensures AmpEntity == Lit("&amp;") && LtEntity == Lit("&lt;") && GtEntity == Lit("&gt;")
    ensures AposEntity == Lit("&apos;") && QuotEntity == Lit("&quot;")
  {
  }

  /** `s.replace(/c/g, rep)` for a one-unit pattern: every occurrence of `c`, left to right. */
  function ReplaceUnit(s: JStr, c: Unit, rep: JStr): JStr
  {
    if s == [] then [] else (if s[0] == c then rep else [s[0]]) + ReplaceUnit(s[1..], c, rep)
  }

  /** The chain of five global replacements of `esc`, in the order the source applies them,
      on the string `String(str)`. */
  function ReplaceChain(s: JStr): JStr
  {
    var s1 := ReplaceUnit(s, Amp, AmpEntity);
    var s2 := ReplaceUnit(s1, Lt, LtEntity);
    var s3 := ReplaceUnit(s2, Gt, GtEntity);
    var s4 := ReplaceUnit(s3, Apos, AposEntity);
    ReplaceUnit(s4, Quot, QuotEntity)
  }

  /** `esc(v)`. */
  function Esc(v: Value): JStr
  {
    ReplaceChain(ToJSString(v))
  }

  predicate IsMarkup(u: Unit)
  {
    u == Amp || u == Lt || u == Gt || u == Apos || u == Quot
  }

  /** The entity that stands for one code unit in escaped text. */
  function Entity(u: Unit): JStr
  {
    if u == Amp then AmpEntity
    else if u == Lt then LtEntity
    else if u == Gt then GtEntity
    else if u == Apos then AposEntity
    else if u == Quot then QuotEntity
    else [u]
  }

  /** Escaping as one pass that maps every code unit to its entity. */
  function EscapeEach(s: JStr): JStr
  {
    if s == [] then [] else Entity(s[0]) + EscapeEach(s[1..])
  }

  /** The reference decoder of the five entities, left to right. */
  function Unescape(t: JStr): JStr
  {
    if t == [] then []
    else if AmpEntity <= t then [Amp] + Unescape(t[5..])
    else if LtEntity <= t then [Lt] + Unescape(t[4..])
    else if GtEntity <= t then [Gt] + Unescape(t[4..])
    else if AposEntity <= t then [Apos] + Unescape(t[6..])
    else if QuotEntity <= t then [Quot] + Unescape(t[6..])
    else [t[0]] + Unescape(t[1..])
  }

  predicate StartsWithEntity(t: JStr)
  {
    AmpEntity <= t || LtEntity <= t || GtEntity <= t || AposEntity <= t || QuotEntity <= t
  }

  lemma {:induction false} ReplaceUnitAppend(a: JStr, b: JStr, c: Unit, rep: JStr)
    ensures ReplaceUnit(a + b, c, rep) == ReplaceUnit(a, c, rep) + ReplaceUnit(b, c, rep)
  {
    if a != [] {
      assert (a + b)[1..] == a[1..] + b;
      ReplaceUnitAppend(a[1..], b, c, rep);
    } else {
      assert a + b == b;
    }
  }

  lemma {:induction false} ReplaceUnitAbsent(s: JStr, c: Unit, rep: JStr)
    requires c !in s
    ensures ReplaceUnit(s, c, rep) == s
  {
    if s != [] {
      ReplaceUnitAbsent(s[1..], c, rep);
    }
  }

  lemma ReplaceChainAppend(a: JStr, b: JStr)
    ensures ReplaceChain(a + b) == ReplaceChain(a) + ReplaceChain(b)
  {
    var a1, b1 := ReplaceUnit(a, Amp, AmpEntity), ReplaceUnit(b, Amp, AmpEntity);
    ReplaceUnitAppend(a, b, Amp, AmpEntity);
    var a2, b2 := ReplaceUnit(a1, Lt, LtEntity), ReplaceUnit(b1, Lt, LtEntity);
    ReplaceUnitAppend(a1, b1, Lt, LtEntity);
    var a3, b3 := ReplaceUnit(a2, Gt, GtEntity), ReplaceUnit(b2, Gt, GtEntity);
    ReplaceUnitAppend(a2, b2, Gt, GtEntity);
    var a4, b4 := ReplaceUnit(a3, Apos, AposEntity), ReplaceUnit(b3, Apos, AposEntity);
    ReplaceUnitAppend(a3, b3, Apos, AposEntity);
    ReplaceUnitAppend(a4, b4, Quot, QuotEntity);
  }

  lemma ReplaceUnitSingle(u: Unit, c: Unit, rep: JStr)
    ensures ReplaceUnit([u], c, rep) == if u == c then rep else [u]
  {
    assert [u][1..] == [];
  }

  lemma ReplaceChainPlain(u: Unit)
    requires !IsMarkup(u)
    ensures ReplaceChain([u]) == [u]
  {
    ReplaceUnitSingle(u, Amp, AmpEntity);
    ReplaceUnitSingle(u, Lt, LtEntity);
    ReplaceUnitSingle(u, Gt, GtEntity);
    ReplaceUnitSingle(u, Apos, AposEntity);
    ReplaceUnitSingle(u, Quot, QuotEntity);
  }

  /** The later four replacements leave `&amp;` alone. */
  lemma AmpEntityStable()
    ensures ReplaceUnit(AmpEntity, Lt, LtEntity) == AmpEntity
    ensures ReplaceUnit(AmpEntity, Gt, GtEntity) == AmpEntity
    ensures ReplaceUnit(AmpEntity, Apos, AposEntity) == AmpEntity
    ensures ReplaceUnit(AmpEntity, Quot, QuotEntity) == AmpEntity
  {
    var e := AmpEntity;
    ReplaceUnitAbsent(e, Lt, LtEntity);
    ReplaceUnitAbsent(e, Gt, GtEntity);
    ReplaceUnitAbsent(e, Apos, AposEntity);
    ReplaceUnitAbsent(e, Quot, QuotEntity);
  }

  lemma ReplaceChainAmp(u: Unit)
    requires u == Amp
    ensures ReplaceChain([u]) == AmpEntity
  {
    ReplaceUnitSingle(u, Amp, AmpEntity);
    AmpEntityStable();
  }

  lemma ReplaceChainLt()
    ensures ReplaceChain([Lt]) == LtEntity
  {
    var e := LtEntity;
    ReplaceUnitSingle(Lt, Amp, AmpEntity);
    var s1 := ReplaceUnit([Lt], Amp, AmpEntity);
    assert s1 == [Lt];
    ReplaceUnitSingle(Lt, Lt, e);
    var s2 := ReplaceUnit(s1, Lt, e);
    assert s2 == e;
    ReplaceUnitAbsent(e, Gt, GtEntity);
    var s3 := ReplaceUnit(s2, Gt, GtEntity);
    assert s3 == e;
    ReplaceUnitAbsent(e, Apos, AposEntity);
    var s4 := ReplaceUnit(s3, Apos, AposEntity);
    assert s4 == e;
    ReplaceUnitAbsent(e, Quot, QuotEntity);
  }

  lemma ReplaceChainGt()
    ensures ReplaceChain([Gt]) == GtEntity
  {
    var e := GtEntity;
    ReplaceUnitSingle(Gt, Amp, AmpEntity);
    ReplaceUnitSingle(Gt, Lt, LtEntity);
    ReplaceUnitSingle(Gt, Gt, e);
    ReplaceUnitAbsent(e, Apos, AposEntity);
    ReplaceUnitAbsent(e, Quot, QuotEntity);
  }

  lemma ReplaceChainApos()
    ensures ReplaceChain([Apos]) == AposEntity
  {
    var e := AposEntity;
    ReplaceUnitSingle(Apos, Amp, AmpEntity);
    ReplaceUnitSingle(Apos, Lt, LtEntity);
    ReplaceUnitSingle(Apos, Gt, GtEntity);
    ReplaceUnitSingle(Apos, Apos, e);
    ReplaceUnitAbsent(e, Quot, QuotEntity);
  }

  lemma ReplaceChainQuot()
    ensures ReplaceChain([Quot]) == QuotEntity
  {
    ReplaceUnitSingle(Quot, Amp, AmpEntity);
    ReplaceUnitSingle(Quot, Lt, LtEntity);
    ReplaceUnitSingle(Quot, Gt, GtEntity);
    ReplaceUnitSingle(Quot, Apos, AposEntity);
    ReplaceUnitSingle(Quot, Quot, QuotEntity);
  }

  /** What the five replacements, one after another, do to a single code unit. */
  lemma ReplaceChainUnit(u: Unit)
    ensures ReplaceChain([u]) == Entity(u)
  {
    if u == Amp { ReplaceChainAmp(u); }
    else if u == Lt { ReplaceChainLt(); }
    else if u == Gt { ReplaceChainGt(); }
    else if u == Apos { ReplaceChainApos(); }
    else if u == Quot { ReplaceChainQuot(); }
    else { ReplaceChainPlain(u); }
  }

  /** Because `&` is replaced first, the chain of replacements is the per-unit map. */
  lemma {:induction false} EscIsPerUnit(s: JStr)
    ensures ReplaceChain(s) == EscapeEach(s)
  {
    if s != [] {
      assert s == [s[0]] + s[1..];
      ReplaceChainAppend([s[0]], s[1..]);
      ReplaceChainUnit(s[0]);
      EscIsPerUnit(s[1..]);
    }
  }

  lemma {:induction false} EscapeEachNoMarkup(s: JStr)
    ensures forall i :: 0 <= i < |EscapeEach(s)| ==>
      EscapeEach(s)[i] != Lt && EscapeEach(s)[i] != Gt && EscapeEach(s)[i] != Apos && EscapeEach(s)[i] != Quot
  {
    if s != [] {
      EscapeEachNoMarkup(s[1..]);
    }
  }

  lemma {:induction false} EscapeEachAmpersands(s: JStr)
    ensures forall i :: 0 <= i < |EscapeEach(s)| && EscapeEach(s)[i] == Amp ==> StartsWithEntity(EscapeEach(s)[i..])
  {
    if s != [] {
      var e, rest := Entity(s[0]), EscapeEach(s[1..]);
      EscapeEachAmpersands(s[1..]);
      var r := EscapeEach(s);
      assert r == e + rest;
      forall i | 0 <= i < |r| && r[i] == Amp
        ensures StartsWithEntity(r[i..])
      {
        if i < |e| {
          assert i == 0;
          assert e <= r[i..];
        } else {
          assert r[i..] == rest[i - |e|..];
        }
      }
    }
  }

  /** The decoder reads one entity (or one plain unit) back as the unit it stands for. */
  lemma UnescapeEntity(u: Unit, rest: JStr)
    ensures Unescape(Entity(u) + rest) == [u] + Unescape(rest)
  {
    var t := Entity(u) + rest;
    assert t[|Entity(u)|..] == rest;
    assert Entity(u) <= t;
    if u == Amp {
    } else if u == Lt {
      assert t[1] == 108 != AmpEntity[1];
    } else if u == Gt {
      assert t[1] == 103 != AmpEntity[1] && t[1] != LtEntity[1];
    } else if u == Apos {
      assert t[1] == 97 && t[2] == 112 != AmpEntity[2];
      assert t[1] != LtEntity[1] && t[1] != GtEntity[1];
    } else if u == Quot {
      assert t[1] == 113;
      assert t[1] != AmpEntity[1] && t[1] != LtEntity[1] && t[1] != GtEntity[1] && t[1] != AposEntity[1];
    } else {
      assert t[0] == u && t[1..] == rest;
      assert t[0] != AmpEntity[0] && t[0] != LtEntity[0] && t[0] != GtEntity[0];
      assert t[0] != AposEntity[0] && t[0] != QuotEntity[0];
    }
  }

  lemma {:induction false} UnescapeEscapeEach(s: JStr)
    ensures Unescape(EscapeEach(s)) == s
  {
    if s != [] {
      UnescapeEntity(s[0], EscapeEach(s[1..]));
      UnescapeEscapeEach(s[1..]);
    }
  }

  /** `esc(v)` leaves no `<`, `>`, `'` or `"`, every `&` it leaves begins one of the five
      entities, and decoding the entities gives back `String(v)`. */
  lemma EscProperties(v: Value)
    ensures forall i :: 0 <= i < |Esc(v)| ==> Esc(v)[i] != Lt && Esc(v)[i] != Gt && Esc(v)[i] != Apos && Esc(v)[i] != Quot
    ensures forall i :: 0 <= i < |Esc(v)| && Esc(v)[i] == Amp ==> StartsWithEntity(Esc(v)[i..])
    ensures Unescape(Esc(v)) == ToJSString(v)
  {
    EscIsPerUnit(ToJSString(v));
    EscapeEachNoMarkup(ToJSString(v));
    EscapeEachAmpersands(ToJSString(v));
    UnescapeEscapeEach(ToJSString(v));
  }

  // ---- cdata ----

  /** `]]>` starts at index `k` of `s`. */
  predicate TerminatorAt(s: JStr, k: int)
  {
    0 <= k && k + 3 <= |s| && s[k] == 93 && s[k + 1] == 93 && s[k + 2] == Gt
  }

  /** `s.replace(/\]\]>/g, '')`: the regex scans left to right, deleting each match
      and resuming after it. */
  function StripTerminators(s: JStr): JStr
  {
    if |s| < 3 then s
    else if TerminatorAt(s, 0) then StripTerminators(s[3..])
    else [s[0]] + StripTerminators(s[1..])
  }

  predicate ContainsTerminator(s: JStr)
  {
    exists k :: 0 <= k < |s| && TerminatorAt(s, k)
  }

  /** `cdata(str)`: a falsy argument gives an empty section; a non-empty string is wrapped
      with every `]]>` deleted; any other truthy value has no `replace` and throws. */
  function Cdata(v: Value): (r: Outcome)
    ensures !Truthy(v) ==> r == Ok(Lit("<![CDATA[]]>"))
    ensures Truthy(v) && v.Str? ==>
              r.Ok? && |r.text| >= 12 && r.text == Lit("<![CDATA[") + r.text[9..|r.text| - 3] + Lit("]]>")
    ensures Truthy(v) && !v.Str? ==> r == Thrown
  {
    if !Truthy(v) then Ok(Lit("<![CDATA[]]>"))
    else if v.Str? then
      var body := StripTerminators(v.s);
      var r := Lit("<![CDATA[") + body + Lit("]]>");
      assert r[9..|r| - 3] == body;
      Ok(r)
    else Thrown
  }

  lemma {:induction false} StripNoLonger(s: JStr)
    ensures |StripTerminators(s)| <= |s|
  {
    if |s| >= 3 {
      if TerminatorAt(s, 0) { StripNoLonger(s[3..]); } else { StripNoLonger(s[1..]); }
    }
  }

  lemma {:induction false} StripShortens(s: JStr, k: nat)
    requires TerminatorAt(s, k)
    ensures |StripTerminators(s)| < |s|
  {
    if TerminatorAt(s, 0) {
      StripNoLonger(s[3..]);
    } else {
      assert TerminatorAt(s[1..], k - 1);
      StripShortens(s[1..], k - 1);
    }
  }

  lemma {:induction false} StripAbsent(s: JStr)
    requires !ContainsTerminator(s)
    ensures StripTerminators(s) == s
  {
    if |s| >= 3 {
      assert !TerminatorAt(s, 0);
      assert !ContainsTerminator(s[1..]) by {
        forall k | 0 <= k < |s[1..]| && TerminatorAt(s[1..], k)
          ensures false
        {
          assert TerminatorAt(s, k + 1);
        }
      }
      StripAbsent(s[1..]);
      assert s == [s[0]] + s[1..];
    }
  }

  /** The content of a section is the argument unchanged exactly when the argument
      holds no `]]>`. */
  lemma StripIdentityIff(s: JStr)
    ensures StripTerminators(s) == s <==> !ContainsTerminator(s)
  {
    if ContainsTerminator(s) {
      var k :| 0 <= k < |s| && TerminatorAt(s, k);
      StripShortens(s, k);
    } else {
      StripAbsent(s);
    }
  }

  /** A string holding no `]]>` is wrapped as it is. */
  lemma CdataWrapsClean(s: JStr)
    requires |s| > 0 && !ContainsTerminator(s)
    ensures Cdata(Str(s)) == Ok(Lit("<![CDATA[") + s + Lit("]]>"))
  {
    StripAbsent(s);
  }

  /** One left-to-right pass can leave a `]]>` behind: `]]]]>>` becomes `]]>`. */
  lemma StripLeavesTerminator()
    ensures StripTerminators(Lit("]]]]>>")) == Lit("]]>")
  {
    var s := Lit("]]]]>>");
    assert StripTerminators(s[2..][3..]) == Lit(">");
    assert StripTerminators(s[2..]) == Lit(">");
    assert StripTerminators(s[1..]) == Lit("]>");
  }

  lemma CdataCanLeaveTerminator()
    ensures Cdata(Str(Lit("]]]]>>"))) == Ok(Lit("<![CDATA[]]>]]>"))
  {
    StripLeavesTerminator();
    assert Cdata(Str(Lit("]]]]>>"))) == Ok(Lit("<![CDATA[") + Lit("]]>") + Lit("]]>"));
    LitJoin("<![CDATA[", "]]>", "<![CDATA[]]>");
    LitJoin("<![CDATA[]]>", "]]>", "<![CDATA[]]>]]>");
  }

  /** Every terminator is deleted, not escaped: `a]]>b]]>c` is wrapped as `abc`. */
  lemma CdataDeletesTerminators()
    ensures Cdata(Str(Lit("a]]>b]]>c"))) == Ok(Lit("<![CDATA[abc]]>"))
  {
    StripDeletesTerminators();
    assert Cdata(Str(Lit("a]]>b]]>c"))) == Ok(Lit("<![CDATA[") + Lit("abc") + Lit("]]>"));
    LitJoin("<![CDATA[", "abc", "<![CDATA[abc");
    LitJoin("<![CDATA[abc", "]]>", "<![CDATA[abc]]>");
  }

  lemma StripDeletesTerminators()
    ensures StripTerminators(Lit("a]]>b]]>c")) == Lit("abc")
  {
    var s := Lit("a]]>b]]>c");
    assert StripTerminators(s[5..][3..]) == Lit("c");
    assert StripTerminators(s[5..]) == Lit("c");
    assert StripTerminators(s[4..]) == Lit("bc");
    assert StripTerminators(s[1..]) == Lit("bc");
  }
}
