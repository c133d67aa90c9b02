/** Small documents worked through the serializer, one step at a time. */
module Scenarios {
  import opened JsValues
  import opened Escaping
  import opened Serializer
  import opened Entry
  import Findings

  /** With no header and no doctype, the exported function returns the serializer's text. */
  lemma BareEntry(v: Value, arg: OptionsArg)
    requires arg.NoOptions? || (arg.AnObject? && arg.opts.xmlHeader.None? && arg.opts.docType.Undef?)
    requires Serialize(Effective(arg), v, false, 0).Ok?
    ensures JsonToXml(Some(v), arg) == Xml(Serialize(Effective(arg), v, false, 0).text)
  {
  }

  /** An element with content, without pretty-printing or sanitizing and without attributes:
      its opening tag, the content and its closing tag. */
  lemma PlainNode(o: Options, n: JStr, content: JStr, level: nat)
    requires !o.prettyPrint && !o.removeIllegalNameCharacters && |content| > 0
    ensures MakeNode(o, n, content, [], level, false) == (Lit("<") + n + Lit(">")) + content + (Lit("</") + n + Lit(">"))
  {
  }

  /** A keyed object with one field is that field's node. */
  lemma OneField(o: Options, f: Field, level: nat)
    ensures SerializeFields(o, [f], level) == FieldNode(o, f, level)
  {
    assert [f][..0] == [];
  }

  /** A keyed object with two fields is their nodes one after the other. */
  lemma TwoFields(o: Options, f1: Field, f2: Field, level: nat)
    ensures SerializeFields(o, [f1, f2], level) == Cat(FieldNode(o, f1, level), FieldNode(o, f2, level))
  {
    assert [f1, f2][..1] == [f1];
    OneField(o, f1, level);
  }

  /** `{a: 1, b: "x"}`. */
  function KeyedScalars(): Value
  {
    Obj([Field(Lit("a"), Num(Lit("1"))), Field(Lit("b"), Str(Lit("x")))])
  }

  lemma FirstKeyNode()
    ensures FieldNode(Defaults, Field(Lit("a"), Num(Lit("1"))), 0) == Ok(Lit("<a>1</a>"))
  {
    assert FieldNode(Defaults, Field(Lit("a"), Num(Lit("1"))), 0) == Ok(MakeNode(Defaults, Lit("a"), Lit("1"), [], 1, false));
    PlainNode(Defaults, Lit("a"), Lit("1"), 1);
    LitJoin("<", "a", "<a");
    LitJoin("<a", ">", "<a>");
    LitJoin("</", "a", "</a");
    LitJoin("</a", ">", "</a>");
    LitJoin("<a>", "1", "<a>1");
    LitJoin("<a>1", "</a>", "<a>1</a>");
  }

  lemma SecondKeyNode()
    ensures FieldNode(Defaults, Field(Lit("b"), Str(Lit("x"))), 0) == Ok(Lit("<b>x</b>"))
  {
    assert FieldNode(Defaults, Field(Lit("b"), Str(Lit("x"))), 0) == Ok(MakeNode(Defaults, Lit("b"), Lit("x"), [], 1, false));
    PlainNode(Defaults, Lit("b"), Lit("x"), 1);
    LitJoin("<", "b", "<b");
    LitJoin("<b", ">", "<b>");
    LitJoin("</", "b", "</b");
    LitJoin("</b", ">", "</b>");
    LitJoin("<b>", "x", "<b>x");
    LitJoin("<b>x", "</b>", "<b>x</b>");
  }

  lemma KeyedScalarsBody()
    ensures Serialize(Defaults, KeyedScalars(), false, 0) == Ok(Lit("<a>1</a><b>x</b>"))
  {
    FirstKeyNode();
    SecondKeyNode();
    TwoFields(Defaults, Field(Lit("a"), Num(Lit("1"))), Field(Lit("b"), Str(Lit("x"))), 0);
    LitJoin("<a>1</a>", "<b>x</b>", "<a>1</a><b>x</b>");
  }

  /** Without options, `{a: 1, b: "x"}` is `<a>1</a><b>x</b>`: one element per key, in order,
      text unescaped. */
  lemma KeyedScalarsSerialized()
    ensures JsonToXml(Some(KeyedScalars()), NoOptions) == Xml(Lit("<a>1</a><b>x</b>"))
  {
    KeyedScalarsBody();
    BareEntry(KeyedScalars(), NoOptions);
  }

  const EscapeOn: Options := Defaults.(escape := true)

  lemma EscapedMarkup()
    ensures Esc(Str(Lit("<b>"))) == Lit("&lt;b&gt;")
  {
    var s := Lit("<b>");
    EscIsPerUnit(s);
    assert s == [Lt] + [98] + [Gt];
    assert EscapeEach(s) == Entity(Lt) + EscapeEach([98] + [Gt]);
    assert [98] + [Gt] == [98, Gt];
    assert EscapeEach([98, Gt]) == Entity(98) + EscapeEach([Gt]);
    assert EscapeEach([Gt]) == Entity(Gt) + EscapeEach([]);
    EntitiesSpelled();
  }

  lemma EscapedTextNode()
    ensures FieldNode(EscapeOn, Field(Lit("a"), Str(Lit("<b>"))), 0) == Ok(Lit("<a>&lt;b&gt;</a>"))
  {
    EscapedMarkup();
    assert FieldNode(EscapeOn, Field(Lit("a"), Str(Lit("<b>"))), 0) == Ok(MakeNode(EscapeOn, Lit("a"), Lit("&lt;b&gt;"), [], 1, false));
    PlainNode(EscapeOn, Lit("a"), Lit("&lt;b&gt;"), 1);
    EscapedTextSpelled();
  }

  lemma EscapedTextSpelled()
    ensures (Lit("<") + Lit("a") + Lit(">")) + Lit("&lt;b&gt;") + (Lit("</") + Lit("a") + Lit(">"))
         == Lit("<a>&lt;b&gt;</a>")
  {
    LitJoin("<", "a", "<a");
    LitJoin("<a", ">", "<a>");
    LitJoin("</", "a", "</a");
    LitJoin("</a", ">", "</a>");
    LitJoin("<a>", "&lt;b&gt;", "<a>&lt;b&gt;");
    LitJoin("<a>&lt;b&gt;", "</a>", "<a>&lt;b&gt;</a>");
  }

  /** With `escape`, `{a: "<b>"}` is `<a>&lt;b&gt;</a>`. */
  lemma EscapedTextSerialized()
    ensures JsonToXml(Some(Obj([Field(Lit("a"), Str(Lit("<b>")))])), AnObject(EscapeOn))
         == Xml(Lit("<a>&lt;b&gt;</a>"))
  {
    EscapedTextNode();
    OneField(EscapeOn, Field(Lit("a"), Str(Lit("<b>"))), 0);
    BareEntry(Obj([Field(Lit("a"), Str(Lit("<b>")))]), AnObject(EscapeOn));
  }

  lemma ListNodeAsWritten()
    ensures MakeNode(Defaults, Lit("list"), Lit("<item1>hi</item>"), [], 1, false) == Lit("<list><item1>hi</item></list>")
  {
    PlainNode(Defaults, Lit("list"), Lit("<item1>hi</item>"), 1);
    ListNodeSpelled();
  }

  lemma ListNodeSpelled()
    ensures (Lit("<") + Lit("list") + Lit(">")) + Lit("<item1>hi</item>") + (Lit("</") + Lit("list") + Lit(">"))
         == Lit("<list><item1>hi</item></list>")
  {
    calc {
      (Lit("<") + Lit("list") + Lit(">")) + Lit("<item1>hi</item>") + (Lit("</") + Lit("list") + Lit(">"));
      == { ListTagsSpelled(); }
      Lit("<list>") + Lit("<item1>hi</item>") + Lit("</list>");
      == { LitJoin("<list>", "<item1>hi</item>", "<list><item1>hi</item>"); }
      Lit("<list><item1>hi</item>") + Lit("</list>");
      == { LitJoin("<list><item1>hi</item>", "</list>", "<list><item1>hi</item></list>"); }
      Lit("<list><item1>hi</item></list>");
    }
  }

  lemma ListTagsSpelled()
    ensures Lit("<") + Lit("list") + Lit(">") == Lit("<list>")
    ensures Lit("</") + Lit("list") + Lit(">") == Lit("</list>")
  {
    LitJoin("<", "list", "<list");
    LitJoin("<list", ">", "<list>");
    LitJoin("</", "list", "</list");
    LitJoin("</list", ">", "</list>");
  }

  lemma ListOfItemsNode()
    ensures FieldNode(Defaults, Field(Lit("list"), Arr([Findings.ItemDescriptor()])), 0) == Ok(Lit("<list><item1>hi</item></list>"))
  {
    var items := Arr([Findings.ItemDescriptor()]);
    Findings.AttributeKeyDropped();
    LevelIrrelevant(Defaults, items, false, 0, 1);
    ListNodeAsWritten();
  }

  /** `{list: [{name: "item", attrs: {id: 1}, text: "hi"}]}` as written is
      `<list><item1>hi</item></list>`. */
  lemma ListOfItemsSerialized()
    ensures JsonToXml(Some(Obj([Field(Lit("list"), Arr([Findings.ItemDescriptor()]))])), NoOptions)
         == Xml(Lit("<list><item1>hi</item></list>"))
  {
    var f := Field(Lit("list"), Arr([Findings.ItemDescriptor()]));
    ListOfItemsNode();
    OneField(Defaults, f, 0);
    BareEntry(Obj([f]), NoOptions);
  }

  /** The descriptor `{name: "n", value: "", text: "hi"}`. */
  function EmptyValueDescriptor(): Value
  {
    Obj([Field(NameKey, Str(Lit("n"))), Field(ValueKey, Str([])), Field(TextKey, Str(Lit("hi")))])
  }

  lemma EmptyValueLookups()
    ensures Get(EmptyValueDescriptor().fields, NameKey) == Str(Lit("n"))
    ensures Get(EmptyValueDescriptor().fields, AttrsKey) == Undef
    ensures Get(EmptyValueDescriptor().fields, ValueKey) == Str([])
    ensures Get(EmptyValueDescriptor().fields, TextKey) == Str(Lit("hi"))
    ensures Get(EmptyValueDescriptor().fields, ChildrenKey) == Undef
  {
    var fields := EmptyValueDescriptor().fields;
    var name, attrs, value, text, children := NameKey, AttrsKey, ValueKey, TextKey, ChildrenKey;
    assert name[0] == 110 && attrs[0] == 97 && value[0] == 118 && text[0] == 116 && children[0] == 99;
    assert fields[0].key == name && fields[1].key == value && fields[2].key == text;
    Findings.GetAt(fields, 0, name);
    Findings.GetAt(fields, 1, value);
    Findings.GetAt(fields, 2, text);
    Findings.GetMissing(fields, attrs);
    Findings.GetMissing(fields, children);
  }

  lemma EmptyValueNode()
    ensures Serialize(Defaults, EmptyValueDescriptor(), true, 1) == Ok(Lit("<n/>"))
  {
    var fields := EmptyValueDescriptor().fields;
    EmptyValueLookups();
    assert Truthy(Get(fields, NameKey)) by { assert Lit("n")[0] == 110; }
    assert LeadingText(Defaults, Get(fields, ValueKey), Get(fields, TextKey)) == [];
    DescriptorSerialization(Defaults, fields, 1);
    assert MakeNode(Defaults, Lit("n"), [], [], 1, false) == Lit("<") + Lit("n") + Lit("/>");
    LitJoin("<", "n", "<n");
    LitJoin("<n", "/>", "<n/>");
  }

  /** `value` is chosen over `text` by being defined, not by being truthy:
      `[{name: "n", value: "", text: "hi"}]` is the empty element `<n/>`, and `hi` is lost. */
  lemma EmptyValueWins()
    ensures Serialize(Defaults, Arr([EmptyValueDescriptor()]), false, 0) == Ok(Lit("<n/>"))
  {
    var d := EmptyValueDescriptor();
    EmptyValueNode();
    assert [d][..0] == [];
    assert SerializeElems(Defaults, [d], 1) == Ok(Lit("<n/>"));
  }

  /** With `removeIllegalNameCharacters`, `{"1tag": null}` is `<_tag/>`: a null outside an
      array is an empty element. */
  lemma SanitizedEmptyElement()
    ensures Serialize(Defaults.(removeIllegalNameCharacters := true), Obj([Field(Lit("1tag"), Null)]), false, 0)
         == Ok(Lit("<_tag/>"))
  {
    var o := Defaults.(removeIllegalNameCharacters := true);
    var fields := [Field(Lit("1tag"), Null)];
    Names.SanitizeDigitStart();
    assert FieldNode(o, fields[0], 0) == Ok(MakeNode(o, Lit("1tag"), [], [], 1, false));
    assert MakeNode(o, Lit("1tag"), [], [], 1, false) == Lit("<") + Lit("_tag") + Lit("/>");
    LitJoin("<", "_tag", "<_tag");
    LitJoin("<_tag", "/>", "<_tag/>");
    OneField(o, fields[0], 0);
  }
}
