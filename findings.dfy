/** Two statements whose operator precedence defeats their evident purpose: the attribute
    entry (jsontoxml.js:72) and the XML declaration (jsontoxml.js:111). For each, what the
    code does is shown on a concrete input, and the evidently intended definition is given
    with the property it was meant to have. */
module Findings {
  import opened JsValues
  import opened Escaping
  import opened Serializer
  import opened Entry

  // ---- attributes (jsontoxml.js:72) ----

  /** As written, no attribute value is ever quoted: whatever `attrs` holds, the attribute
      string of a descriptor contains no `"` at all unless `attrs` is a primitive that
      carries one itself. */
  lemma {:induction false} AttrEntriesNeverQuote(vals: seq<Value>)
    ensures forall i :: 0 <= i < |AttrEntries(vals)| ==> AttrEntries(vals)[i] != Quot
  {
    if vals != [] {
      AttrEntriesNeverQuote(vals[..|vals| - 1]);
      EscProperties(vals[|vals| - 1]);
    }
  }

  /** Property access on a field that is present, the earlier keys being different. */
  lemma GetAt(fields: seq<Field>, k: nat, key: JStr)
    requires k < |fields| && fields[k].key == key
    requires forall i :: 0 <= i < k ==> fields[i].key != key
    ensures Get(fields, key) == fields[k].val
  {
  }

  /** Property access on a key no field has. */
  lemma GetMissing(fields: seq<Field>, key: JStr)
    requires forall i :: 0 <= i < |fields| ==> fields[i].key != key
    ensures Get(fields, key) == Undef
  {
  }

  /** The descriptor `{name: "item", attrs: {id: 1}, text: "hi"}`. */
  function ItemDescriptor(): Value
  {
    Obj([Field(NameKey, Str(Lit("item"))),
         Field(AttrsKey, Obj([Field(Lit("id"), Num(Lit("1")))])),
         Field(TextKey, Str(Lit("hi")))])
  }

  lemma ItemDescriptorLookups()
    ensures Get(ItemDescriptor().fields, NameKey) == Str(Lit("item"))
    ensures Get(ItemDescriptor().fields, AttrsKey) == Obj([Field(Lit("id"), Num(Lit("1")))])
    ensures Get(ItemDescriptor().fields, ValueKey) == Undef
    ensures Get(ItemDescriptor().fields, TextKey) == Str(Lit("hi"))
    ensures Get(ItemDescriptor().fields, ChildrenKey) == Undef
  {
    var fields := ItemDescriptor().fields;
    var name, attrs, value, text, children := NameKey, AttrsKey, ValueKey, TextKey, ChildrenKey;
    assert name[0] == 110 && attrs[0] == 97 && value[0] == 118 && text[0] == 116 && children[0] == 99;
    assert fields[0].key == name && fields[1].key == attrs && fields[2].key == text;
    GetAt(fields, 0, name);
    GetAt(fields, 1, attrs);
    GetAt(fields, 2, text);
    GetMissing(fields, value);
    GetMissing(fields, children);
  }

  lemma ItemAttributesAsWritten()
    ensures Attributes(Obj([Field(Lit("id"), Num(Lit("1")))])) == Lit("1")
  {
    var attrs := Obj([Field(Lit("id"), Num(Lit("1")))]);
    assert OwnValues(attrs) == [Num(Lit("1"))];
    assert [Num(Lit("1"))][..0] == [];
    assert Esc(Num(Lit("1"))) == Lit("1") by {
      EscIsPerUnit(Lit("1"));
      assert Lit("1") == [49];
      assert EscapeEach([49]) == [49] + EscapeEach([]);
    }
  }

  lemma ItemSerializedAsWritten()
    ensures Serialize(Defaults, ItemDescriptor(), true, 1) == Ok(MakeNode(Defaults, Lit("item"), Lit("hi"), Lit("1"), 1, false))
  {
    var fields := ItemDescriptor().fields;
    ItemDescriptorLookups();
    ItemAttributesAsWritten();
    assert Truthy(Get(fields, NameKey)) by { assert Lit("item")[0] == 105; }
    assert !Truthy(Get(fields, ChildrenKey));
    assert LeadingText(Defaults, Get(fields, ValueKey), Get(fields, TextKey)) == Lit("hi");
    DescriptorSerialization(Defaults, fields, 1);
  }

  lemma ItemNodeAsWritten()
    ensures MakeNode(Defaults, Lit("item"), Lit("hi"), Lit("1"), 1, false) == Lit("<item1>hi</item>")
  {
  }

  /** As written, `[{name: "item", attrs: {id: 1}, text: "hi"}]` becomes `<item1>hi</item>`:
      the key, the `=` and the quotes are lost. */
  lemma AttributeKeyDropped()
    ensures Serialize(Defaults, Arr([ItemDescriptor()]), false, 0) == Ok(Lit("<item1>hi</item>"))
  {
    var d := ItemDescriptor();
    ItemSerializedAsWritten();
    ItemNodeAsWritten();
    assert [d][..0] == [];
    assert SerializeElems(Defaults, [d], 1) == Ok(Lit("<item1>hi</item>"));
  }

  /** The decimal digits of an array index, as `forOwn` passes it as the key. */
  function Decimal(n: nat): (r: JStr)
    ensures |r| > 0
    ensures forall i :: 0 <= i < |r| ==> 48 <= r[i] <= 57
    decreases n
  {
    if n < 10 then [48 + n] else Decimal(n / 10) + [48 + n % 10]
  }

  /** The own properties `forOwn` visits, with their keys: an object's fields, an array's
      indices. */
  function OwnFields(v: Value): (r: seq<Field>)
    ensures |r| == |OwnValues(v)|
    ensures forall i :: 0 <= i < |r| ==> r[i].val == OwnValues(v)[i]
  {
    match v
    case Obj(fields) => fields
    case Arr(elems) => seq(|elems|, i requires 0 <= i < |elems| => Field(Decimal(i), elems[i]))
    case _ => []
  }

  /** The entry line 72 evidently means: ` key="value"`, the value escaped when `escape`
      is set. */
  function AttrEntryIntended(o: Options, key: JStr, val: Value): (r: JStr)
    ensures |r| == |key| + |Text(o, val)| + 4
    ensures r[..|key| + 3] == Lit(" ") + key + Lit("=\"") && r[|r| - 1] == Quot
    ensures r[|key| + 3..|r| - 1] == Text(o, val)
  {
    Lit(" ") + key + Lit("=\"") + Text(o, val) + Lit("\"")
  }

  /** With `escape` set, an intended entry is a well-delimited attribute: its value holds no
      quote, so the closing quote is the first after `="`, and unescaping the value gives
      back `String(val)`. */
  lemma AttrEntryIntendedDelimited(o: Options, key: JStr, val: Value)
    requires o.escape
    ensures var r := AttrEntryIntended(o, key, val);
      (forall i :: |key| + 3 <= i < |r| - 1 ==> r[i] != Quot)
      && Unescape(r[|key| + 3..|r| - 1]) == ToJSString(val)
  {
    var r := AttrEntryIntended(o, key, val);
    EscProperties(val);
    forall i | |key| + 3 <= i < |r| - 1
      ensures r[i] != Quot
    {
      assert r[i] == r[|key| + 3..|r| - 1][i - (|key| + 3)];
    }
  }

  /** The intended entries, in `forOwn` order. */
  function AttrEntriesIntended(o: Options, fields: seq<Field>): (r: JStr)
    ensures fields == [] ==> r == []
  {
    if fields == [] then []
    else AttrEntriesIntended(o, fields[..|fields| - 1]) + AttrEntryIntended(o, fields[|fields| - 1].key, fields[|fields| - 1].val)
  }

  /** The intended `attributes` of a descriptor (jsontoxml.js:67-75 with line 72 corrected). */
  function AttributesIntended(o: Options, attrs: Value): (r: JStr)
    ensures !Truthy(attrs) ==> r == []
    ensures Truthy(attrs) && !IsObjectTyped(attrs) ==> r == Attributes(attrs)
  {
    if !Truthy(attrs) then []
    else if !IsObjectTyped(attrs) then Attributes(attrs)
    else AttrEntriesIntended(o, OwnFields(attrs))
  }

  /** The correction changes only object-typed attributes: elsewhere the two agree. */
  lemma AttributesIntendedAgrees(o: Options, attrs: Value)
    ensures !IsObjectTyped(attrs) ==> AttributesIntended(o, attrs) == Attributes(attrs)
    ensures OwnValues(attrs) == [] ==> AttributesIntended(o, attrs) == Attributes(attrs)
  {
    if OwnValues(attrs) == [] {
      assert OwnFields(attrs) == [];
    }
  }

  lemma ItemNodeSpelled()
    ensures Lit("<") + Lit("item") + Lit(" id=\"1\"") + Lit(">") + Lit("hi") + Lit("</") + Lit("item") + Lit(">")
         == Lit("<item id=\"1\">hi</item>")
  {
    LitJoin("<", "item", "<item");
    LitJoin("<item", " id=\"1\"", "<item id=\"1\"");
    LitJoin("<item id=\"1\"", ">", "<item id=\"1\">");
    LitJoin("<item id=\"1\">", "hi", "<item id=\"1\">hi");
    LitJoin("<item id=\"1\">hi", "</", "<item id=\"1\">hi</");
    LitJoin("<item id=\"1\">hi</", "item", "<item id=\"1\">hi</item");
    LitJoin("<item id=\"1\">hi</item", ">", "<item id=\"1\">hi</item>");
  }

  /** With the correction the descriptor above becomes `<item id="1">hi</item>`. */
  lemma AttributeKeyKept()
    ensures MakeNode(Defaults, Lit("item"), Lit("hi"),
              AttributesIntended(Defaults, Obj([Field(Lit("id"), Num(Lit("1")))])), 0, false)
         == Lit("<item id=\"1\">hi</item>")
  {
    ItemAttributesIntended();
    PlainAttributedNode(Lit("item"), Lit("hi"), Lit(" id=\"1\""));
    ItemNodeSpelled();
  }

  lemma IdEntrySpelled()
    ensures Lit(" ") + Lit("id") + Lit("=\"") + Lit("1") + Lit("\"") == Lit(" id=\"1\"")
  {
    LitJoin(" ", "id", " id");
    LitJoin(" id", "=\"", " id=\"");
    LitJoin(" id=\"", "1", " id=\"1");
    LitJoin(" id=\"1", "\"", " id=\"1\"");
  }

  lemma IdEntryIntended()
    ensures AttrEntryIntended(Defaults, Lit("id"), Num(Lit("1"))) == Lit(" id=\"1\"")
  {
    assert Text(Defaults, Num(Lit("1"))) == Lit("1");
    assert AttrEntryIntended(Defaults, Lit("id"), Num(Lit("1"))) == Lit(" ") + Lit("id") + Lit("=\"") + Lit("1") + Lit("\"");
    IdEntrySpelled();
  }

  lemma ItemAttributesIntended()
    ensures AttributesIntended(Defaults, Obj([Field(Lit("id"), Num(Lit("1")))])) == Lit(" id=\"1\"")
  {
    var f := Field(Lit("id"), Num(Lit("1")));
    var attrs := Obj([f]);
    assert Truthy(attrs) && IsObjectTyped(attrs) && OwnFields(attrs) == [f];
    assert AttributesIntended(Defaults, attrs) == AttrEntriesIntended(Defaults, [f]);
    assert [f][..0] == [];
    assert AttrEntriesIntended(Defaults, [f]) == AttrEntryIntended(Defaults, f.key, f.val);
    IdEntryIntended();
  }

  /** A node at the root with content, without options. */
  lemma PlainAttributedNode(n: JStr, content: JStr, attributes: JStr)
    requires |content| > 0
    ensures MakeNode(Defaults, n, content, attributes, 0, false)
         == Lit("<") + n + attributes + Lit(">") + content + Lit("</") + n + Lit(">")
  {
  }

  // ---- XML declaration (jsontoxml.js:111) ----

  const EncodingOpen: JStr := Lit("\" encoding=\"")
  const DeclGap: JStr := Lit("\" ")

  /** No `"` in a string. */
  predicate Unquoted(s: JStr)
  {
    forall i :: 0 <= i < |s| ==> s[i] != Quot
  }

  /** As written, a version without quotes is never closed: after `<?xml version="` the
      header holds no further `"` unless `standalone` adds one. */
  lemma HeaderVersionUnterminated(d: HeaderDecl)
    requires Unquoted(ToJSString(d.version)) && !d.standalone
    ensures XmlHeader(d)[..|VersionOpen|] == VersionOpen
    ensures Unquoted(XmlHeader(d)[|VersionOpen|..])
  {
    var r := XmlHeader(d);
    assert r[|VersionOpen|..] == ToJSString(d.version) + DeclClose;
  }

  /** `options.version || '1.0'`. */
  function VersionText(d: HeaderDecl): JStr
  {
    if Truthy(d.version) then ToJSString(d.version) else Lit("1.0")
  }

  /** `options.encoding || 'utf-8'`. */
  function EncodingText(d: HeaderDecl): JStr
  {
    if Truthy(d.encoding) then ToJSString(d.encoding) else Lit("utf-8")
  }

  /** The declaration line 111 evidently means: version and encoding defaulting to `1.0` and
      `utf-8`, both quoted. */
  function XmlHeaderIntended(d: HeaderDecl): (r: JStr)
    ensures VersionOpen <= r
  {
    VersionOpen + VersionText(d) + EncodingOpen + EncodingText(d) + DeclGap + (if d.standalone then Standalone else []) + DeclClose
  }

  /** Two quote-free texts, each followed by a piece that opens with a quote, can be read
      back between the quotes. */
  lemma QuotedPair(p: JStr, v: JStr, q: JStr, e: JStr, t: JStr)
    requires Unquoted(v) && Unquoted(e)
    requires |q| > 0 && q[0] == Quot && |t| > 0 && t[0] == Quot
    ensures var r := p + v + q + e + t;
      var vEnd := |p| + |v|;
      var eStart := vEnd + |q|;
      var eEnd := eStart + |e|;
      eEnd < |r|
      && r[|p|..vEnd] == v && r[vEnd] == Quot
      && r[vEnd..eStart] == q
      && r[eStart..eEnd] == e && r[eEnd] == Quot
  {
    var r := p + v + q + e + t;
    assert r[|p| + |v|] == q[0];
    assert r[|p| + |v| + |q| + |e|] == t[0];
  }

  /** With the correction both pseudo-attributes are well delimited: for a version and an
      encoding without quotes, the version is exactly the text between `version="` and the
      next `"`, followed by ` encoding="`, the encoding and its closing `"`. */
  lemma XmlHeaderIntendedDelimited(d: HeaderDecl)
    requires Unquoted(ToJSString(d.version)) && Unquoted(ToJSString(d.encoding))
    ensures var r := XmlHeaderIntended(d);
      var vEnd := |VersionOpen| + |VersionText(d)|;
      var eStart := vEnd + |EncodingOpen|;
      var eEnd := eStart + |EncodingText(d)|;
      eEnd < |r|
      && r[|VersionOpen|..vEnd] == VersionText(d) && Unquoted(r[|VersionOpen|..vEnd]) && r[vEnd] == Quot
      && r[vEnd..eStart] == EncodingOpen
      && r[eStart..eEnd] == EncodingText(d) && Unquoted(r[eStart..eEnd]) && r[eEnd] == Quot
  {
    var tail := DeclGap + (if d.standalone then Standalone else []) + DeclClose;
    assert XmlHeaderIntended(d) == VersionOpen + VersionText(d) + EncodingOpen + EncodingText(d) + tail;
    assert Unquoted(Lit("1.0")) && Unquoted(Lit("utf-8"));
    assert EncodingOpen[0] == Quot && tail[0] == DeclGap[0] == Quot;
    QuotedPair(VersionOpen, VersionText(d), EncodingOpen, EncodingText(d), tail);
  }

  /** With the correction, `xmlHeader()` is `<?xml version="1.0" encoding="utf-8" ?>`. */
  lemma HeaderDefaultIntended()
    ensures XmlHeaderIntended(EmptyDecl) == Lit("<?xml version=\"1.0\" encoding=\"utf-8\" ?>")
  {
    LitJoin("<?xml version=\"", "1.0", "<?xml version=\"1.0");
    LitJoin("<?xml version=\"1.0", "\" encoding=\"", "<?xml version=\"1.0\" encoding=\"");
    LitJoin("<?xml version=\"1.0\" encoding=\"", "utf-8", "<?xml version=\"1.0\" encoding=\"utf-8");
    LitJoin("<?xml version=\"1.0\" encoding=\"utf-8", "\" ", "<?xml version=\"1.0\" encoding=\"utf-8\" ");
    LitJoin("<?xml version=\"1.0\" encoding=\"utf-8\" ", "?>", "<?xml version=\"1.0\" encoding=\"utf-8\" ?>");
  }
}
