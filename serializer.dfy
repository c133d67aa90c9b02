/** `processToXml` (jsontoxml.js:17-105): `makeNode` and the recursive serializer `fn`. */
module Serializer {
  import opened JsValues
  import opened Escaping
  import opened Names

  /** The `xmlHeader` option when it is truthy: an object's `version`, `encoding` and
      `standalone` fields (any other truthy value has none, so all three are `undefined`). */
  datatype HeaderDecl = HeaderDecl(version: Value, encoding: Value, standalone: bool)

  /** The options object. The flags stand for the truthiness of the option; `indent` and
      `docType` keep the value given (`undefined` when absent). */
  datatype Options = Options(
    indent: Value,
    prettyPrint: bool,
    removeIllegalNameCharacters: bool,
    escape: bool,
    xmlHeader: Option<HeaderDecl>,
    docType: Value)

  /** What the serializer reads from `{}` or from an options argument that is not an object. */
  const Defaults: Options := Options(Undef, false, false, false, None, Undef)

  /** The properties a descriptor is read by. */
  const NameKey: JStr := Lit("name")
  const AttrsKey: JStr := Lit("attrs")
  const ValueKey: JStr := Lit("value")
  const TextKey: JStr := Lit("text")
  const ChildrenKey: JStr := Lit("children")

  const NewLine: JStr := [10]
  const Tab: JStr := [9]

  /** mout's `repeat(unit, n)`: `n` copies of `unit`. */
  function Repeat(unit: JStr, n: nat): (r: JStr)
    ensures |r| == n * |unit|
  {
    if n == 0 then [] else unit + Repeat(unit, n - 1)
  }

  /** `options.indent || "\t"`. */
  function IndentUnit(o: Options): JStr
  {
    if Truthy(o.indent) then ToJSString(o.indent) else Tab
  }

  /** `options.prettyPrint ? '\n' + repeat(indentValue, level) : ''`. */
  function Indent(o: Options, level: nat): JStr
  {
    if o.prettyPrint then NewLine + Repeat(IndentUnit(o), level) else []
  }

  /** The name `makeNode` writes: sanitized when `removeIllegalNameCharacters` is set. */
  function TagName(o: Options, name: JStr): JStr
  {
    if o.removeIllegalNameCharacters then SanitizeName(name) else name
  }

  /** `makeNode(name, content, attributes, level, hasSubNodes)`. */
  function MakeNode(o: Options, name: JStr, content: JStr, attributes: JStr, level: nat, hasSubNodes: bool): JStr
  {
    var indent := Indent(o, level);
    var n := TagName(o, name);
    if |content| > 0 then
      indent + Lit("<") + n + attributes + Lit(">") + content + (if hasSubNodes then indent else []) + Lit("</") + n + Lit(">")
    else
      indent + Lit("<") + n + attributes + Lit("/>")
  }

  /** `options.escape ? esc(x) : String(x)`, the rendering of scalar text. */
  function Text(o: Options, v: Value): JStr
  {
    if o.escape then Esc(v) else ToJSString(v)
  }

  /** One entry of `attributes` as the source builds it (jsontoxml.js:72). The statement parses
      as `(' ' + key + '="' + options.escape) ? esc(val) : (val + '"')`; its condition is a
      non-empty string, hence truthy, so an entry is `esc(val)` alone, whatever `escape` is. */
  function AttrEntry(val: Value): JStr
  {
    Esc(val)
  }

  /** The values `forOwn` visits: an object's fields, an array's elements; a date has none. */
  function OwnValues(v: Value): seq<Value>
  {
    match v
    case Obj(fields) => seq(|fields|, i requires 0 <= i < |fields| => fields[i].val)
    case Arr(elems) => elems
    case _ => []
  }

  /** `attributes` after `forOwn(attrs, ...)`: the entries in order. */
  function AttrEntries(vals: seq<Value>): JStr
  {
    if vals == [] then [] else AttrEntries(vals[..|vals| - 1]) + AttrEntry(vals[|vals| - 1])
  }

  /** The `attributes` string of an element descriptor (jsontoxml.js:67-75). */
  function Attributes(attrs: Value): JStr
  {
    if !Truthy(attrs) then []
    else if !IsObjectTyped(attrs) then Lit(" ") + ToJSString(attrs)
    else AttrEntries(OwnValues(attrs))
  }

  /** The text that starts a descriptor's content: `value` when it is defined, else `text`
      when it is defined (jsontoxml.js:78-82). */
  function LeadingText(o: Options, value: Value, text: Value): JStr
  {
    if !value.Undef? then Text(o, value) else if !text.Undef? then Text(o, text) else []
  }

  /** A descriptor, that is an object with a truthy `name` directly under an array. */
  predicate IsDescriptor(fields: seq<Field>, inArray: bool)
  {
    inArray && Truthy(Get(fields, NameKey))
  }

  /** `fn(nodeData, nodeDescriptor, level)`, with `inArray` for `nodeDescriptor === 1`.
      The branches are tried in the source's order: array, date, object (a descriptor or a
      keyed object), function, anything else. `null` is an object: under an array reading
      its `name` throws, elsewhere `forOwn` visits nothing. */
  function Serialize(o: Options, v: Value, inArray: bool, level: nat): Outcome
    decreases v, 1
  {
    match v
    case Arr(elems) => Cat(SerializeElems(o, elems, level + 1), Ok(if o.prettyPrint then NewLine else []))
    case Date(iso, _) => Ok(iso)
    case Null => if inArray then Thrown else Ok([])
    case Obj(fields) =>
      if IsDescriptor(fields, inArray) then SerializeDescriptor(o, v, level)
      else
        var nodes := SerializeFields(o, fields, level);
        if nodes.Ok? && o.prettyPrint && |nodes.text| > 0 then Ok(nodes.text + NewLine) else nodes
    case Thunk(result, _) => Ok(result)
    case _ => Ok(Text(o, v))
  }

  /** `ret` after `map(nodeData, val => ret += fn(val, 1, level + 1))` over the elements. */
  function SerializeElems(o: Options, elems: seq<Value>, level: nat): Outcome
    decreases elems
  {
    if elems == [] then Ok([])
    else Cat(SerializeElems(o, elems[..|elems| - 1], level), Serialize(o, elems[|elems| - 1], true, level))
  }

  /** `nodes` after `forOwn(nodeData, (val, key) => nodes += makeNode(...))`. */
  function SerializeFields(o: Options, fields: seq<Field>, level: nat): Outcome
    decreases fields
  {
    if fields == [] then Ok([])
    else Cat(SerializeFields(o, fields[..|fields| - 1], level), FieldNode(o, fields[|fields| - 1], level))
  }

  /** `makeNode(key, fn(val, 0, level + 1), null, level + 1)`. */
  function FieldNode(o: Options, f: Field, level: nat): Outcome
    decreases f
  {
    match Serialize(o, f.val, false, level + 1)
    case Ok(content) => Ok(MakeNode(o, f.key, content, [], level + 1, false))
    case Thrown => Thrown
  }

  /** The descriptor branch (jsontoxml.js:66-88). `name.replace` exists only on strings, so
      a name of another type throws when names are sanitized. */
  function SerializeDescriptor(o: Options, v: Value, level: nat): Outcome
    requires v.Obj?
    decreases v, 0
  {
    var fields := v.fields;
    var name := Get(fields, NameKey);
    var ci := Find(fields, ChildrenKey);
    var children := if ci >= 0 then fields[ci].val else Undef;
    var leading := LeadingText(o, Get(fields, ValueKey), Get(fields, TextKey));
    var content := if Truthy(children) then Cat(Ok(leading), Serialize(o, children, false, level + 1)) else Ok(leading);
    if content.Thrown? || (o.removeIllegalNameCharacters && !name.Str?) then Thrown
    else Ok(MakeNode(o, ToJSString(name), content.text, Attributes(Get(fields, AttrsKey)), level, Truthy(children)))
  }

  // ---- indentation ----

  lemma {:induction false} RepeatSnoc(unit: JStr, n: nat)
    ensures Repeat(unit, n + 1) == Repeat(unit, n) + unit
  {
    if n > 0 {
      RepeatSnoc(unit, n - 1);
    }
  }

  /** Pretty-printed indentation is a newline at the root and grows by one indent unit per
      level, the unit being a tab unless `indent` is truthy; without pretty-printing there
      is none at any level. */
  lemma IndentShape(o: Options, level: nat)
    ensures !o.prettyPrint ==> Indent(o, level) == []
    ensures o.prettyPrint ==> Indent(o, 0) == NewLine
    ensures o.prettyPrint ==> Indent(o, level + 1) == Indent(o, level) + IndentUnit(o)
    ensures o.prettyPrint ==> |Indent(o, level)| == 1 + level * |IndentUnit(o)|
    ensures !Truthy(o.indent) ==> IndentUnit(o) == Tab
  {
    RepeatSnoc(IndentUnit(o), level);
  }

  // ---- makeNode ----

  /** With `removeIllegalNameCharacters` every tag name is a legal name; without it the name
      is written as given. */
  lemma TagNameLegal(o: Options, name: JStr)
    ensures o.removeIllegalNameCharacters ==> IsCleanName(TagName(o, name)) && (|name| > 0 ==> |TagName(o, name)| > 0)
    ensures !o.removeIllegalNameCharacters ==> TagName(o, name) == name
  {
    SanitizeNameLegal(name);
  }

  /** With `removeIllegalNameCharacters` and a non-empty key, a node ends in `/>` exactly
      when its content is empty: otherwise it ends in the closing tag, whose name cannot end
      in `/`. */
  lemma MakeNodeSelfClosing(o: Options, name: JStr, content: JStr, attributes: JStr, level: nat, hasSubNodes: bool)
    requires o.removeIllegalNameCharacters && |name| > 0
    ensures var r := MakeNode(o, name, content, attributes, level, hasSubNodes);
            |r| >= 2 && (r[|r| - 2..] == Lit("/>") <==> |content| == 0)
  {
    var r := MakeNode(o, name, content, attributes, level, hasSubNodes);
    var n := TagName(o, name);
    TagNameLegal(o, name);
    if |content| > 0 {
      var front := Indent(o, level) + Lit("<") + n + attributes + Lit(">") + content
                   + (if hasSubNodes then Indent(o, level) else []) + Lit("</");
      assert r == front + n + Lit(">");
      assert r[|r| - 2] == n[|n| - 1];
      assert IsNameChar(n[|n| - 1]);
      assert r[|r| - 2..] != Lit("/>") by {
        assert Lit("/>")[0] == 47;
      }
    }
  }

  /** No node is the empty string. */
  lemma MakeNodeNonEmpty(o: Options, name: JStr, content: JStr, attributes: JStr, level: nat, hasSubNodes: bool)
    ensures |MakeNode(o, name, content, attributes, level, hasSubNodes)| > 0
  {
  }

  // ---- scalars ----

  /** A scalar (`undefined`, a boolean, a number or a string) becomes its text, escaped
      exactly when `escape` is set: then it is `esc(x)`, holds no markup but the `&` that opens
      an entity, and decodes back to `String(x)`. */
  lemma ScalarSerialization(o: Options, v: Value, inArray: bool, level: nat)
    requires v.Undef? || v.Bool? || v.Num? || v.Str?
    ensures Serialize(o, v, inArray, level).Ok?
    ensures !o.escape ==> Serialize(o, v, inArray, level).text == ToJSString(v)
    ensures o.escape ==> Unescape(Serialize(o, v, inArray, level).text) == ToJSString(v)
    ensures o.escape ==> Serialize(o, v, inArray, level).text == Esc(v)
    ensures o.escape ==> forall i :: 0 <= i < |Serialize(o, v, inArray, level).text| ==>
              !IsMarkup(Serialize(o, v, inArray, level).text[i]) || Serialize(o, v, inArray, level).text[i] == Amp
    ensures o.escape ==> forall i :: 0 <= i < |Serialize(o, v, inArray, level).text| && Serialize(o, v, inArray, level).text[i] == Amp ==>
              StartsWithEntity(Serialize(o, v, inArray, level).text[i..])
  {
    EscProperties(v);
  }

  // ---- arrays and keyed objects ----

  lemma {:induction false} CatAllSnoc(outs: seq<Outcome>, x: Outcome)
    ensures CatAll(outs + [x]) == Cat(CatAll(outs), x)
  {
    if outs == [] {
      assert outs + [x] == [x];
      assert [x][1..] == [];
    } else {
      assert (outs + [x])[1..] == outs[1..] + [x];
      CatAllSnoc(outs[1..], x);
    }
  }

  function ElemOutcomes(o: Options, elems: seq<Value>, level: nat): seq<Outcome>
  {
    seq(|elems|, i requires 0 <= i < |elems| => Serialize(o, elems[i], true, level))
  }

  lemma {:induction false} ElemsAsCatAll(o: Options, elems: seq<Value>, level: nat)
    ensures SerializeElems(o, elems, level) == CatAll(ElemOutcomes(o, elems, level))
  {
    if elems != [] {
      var init := elems[..|elems| - 1];
      ElemsAsCatAll(o, init, level);
      assert ElemOutcomes(o, elems, level) == ElemOutcomes(o, init, level) + [Serialize(o, elems[|elems| - 1], true, level)];
      CatAllSnoc(ElemOutcomes(o, init, level), Serialize(o, elems[|elems| - 1], true, level));
    }
  }

  /** An array adds no element of its own: it is its elements, each serialized in order at
      the next level in array position, and then one newline when pretty-printing, even
      when it is empty. It throws exactly when one of its elements does. */
  lemma ArraySerialization(o: Options, elems: seq<Value>, inArray: bool, level: nat)
    ensures Serialize(o, Arr(elems), inArray, level)
         == Cat(CatAll(ElemOutcomes(o, elems, level + 1)), Ok(if o.prettyPrint then NewLine else []))
    ensures Serialize(o, Arr(elems), inArray, level).Ok?
        <==> forall i :: 0 <= i < |elems| ==> Serialize(o, elems[i], true, level + 1).Ok?
  {
    ElemsAsCatAll(o, elems, level + 1);
    assert forall i :: 0 <= i < |elems| ==> ElemOutcomes(o, elems, level + 1)[i] == Serialize(o, elems[i], true, level + 1);
  }

  /** `null` directly under an array makes the whole array throw. */
  lemma NullElementThrows(o: Options, elems: seq<Value>, inArray: bool, level: nat, k: nat)
    requires k < |elems| && elems[k] == Null
    ensures Serialize(o, Arr(elems), inArray, level) == Thrown
  {
    ArraySerialization(o, elems, inArray, level);
  }

  function FieldOutcomes(o: Options, fields: seq<Field>, level: nat): seq<Outcome>
  {
    seq(|fields|, i requires 0 <= i < |fields| => FieldNode(o, fields[i], level))
  }

  lemma {:induction false} FieldsAsCatAll(o: Options, fields: seq<Field>, level: nat)
    ensures SerializeFields(o, fields, level) == CatAll(FieldOutcomes(o, fields, level))
  {
    if fields != [] {
      var init := fields[..|fields| - 1];
      FieldsAsCatAll(o, init, level);
      assert FieldOutcomes(o, fields, level) == FieldOutcomes(o, init, level) + [FieldNode(o, fields[|fields| - 1], level)];
      CatAllSnoc(FieldOutcomes(o, init, level), FieldNode(o, fields[|fields| - 1], level));
    }
  }

  lemma {:induction false} FieldsNonEmpty(o: Options, fields: seq<Field>, level: nat)
    requires SerializeFields(o, fields, level).Ok?
    ensures |SerializeFields(o, fields, level).text| == 0 <==> |fields| == 0
  {
    if fields != [] {
      var f := fields[|fields| - 1];
      var c := Serialize(o, f.val, false, level + 1);
      MakeNodeNonEmpty(o, f.key, c.text, [], level + 1, false);
    }
  }

  /** A keyed object (any object not in descriptor position, so every object at the root or
      under a key, whatever its `name`) is one node per field, in order, each named after
      its key with the field's value serialized one level down as content and no attributes,
      followed by a newline exactly when pretty-printing and there is at least one field. */
  lemma ObjectSerialization(o: Options, fields: seq<Field>, inArray: bool, level: nat)
    requires !IsDescriptor(fields, inArray)
    ensures
      var nodes := CatAll(FieldOutcomes(o, fields, level));
      Serialize(o, Obj(fields), inArray, level)
        == if nodes.Ok? && o.prettyPrint && |fields| > 0 then Ok(nodes.text + NewLine) else nodes
    ensures forall i :: 0 <= i < |fields| ==>
      FieldNode(o, fields[i], level) ==
        match Serialize(o, fields[i].val, false, level + 1)
        case Ok(content) => Ok(MakeNode(o, fields[i].key, content, [], level + 1, false))
        case Thrown => Thrown
  {
    FieldsAsCatAll(o, fields, level);
    if SerializeFields(o, fields, level).Ok? {
      FieldsNonEmpty(o, fields, level);
    }
  }

  // ---- element descriptors ----

  /** A descriptor is one element at its own level named by its `name`: `value` when defined
      (even when falsy), else `text` when defined, is its leading text; the serialized
      `children`, one level down, follow when truthy and then also ask for the closing
      indentation. It throws when the children do, or when its name is not a string and
      names are sanitized. */
  lemma DescriptorSerialization(o: Options, fields: seq<Field>, level: nat)
    requires IsDescriptor(fields, true)
    ensures var r := Serialize(o, Obj(fields), true, level);
            var name := Get(fields, NameKey);
            var children := Get(fields, ChildrenKey);
            var leading := LeadingText(o, Get(fields, ValueKey), Get(fields, TextKey));
            var sub := Serialize(o, children, false, level + 1);
            (r.Ok? <==> (!Truthy(children) || sub.Ok?) && (!o.removeIllegalNameCharacters || name.Str?))
            && (r.Ok? ==> r.text == MakeNode(o, ToJSString(name), leading + (if Truthy(children) then sub.text else []),
                                             Attributes(Get(fields, AttrsKey)), level, Truthy(children)))
  {
    var children := Get(fields, ChildrenKey);
    var ci := Find(fields, ChildrenKey);
    assert children == if ci >= 0 then fields[ci].val else Undef;
    var leading := LeadingText(o, Get(fields, ValueKey), Get(fields, TextKey));
    var sub := Serialize(o, children, false, level + 1);
    var content := if Truthy(children) then Cat(Ok(leading), sub) else Ok(leading);
    assert content.Ok? ==> content.text == leading + (if Truthy(children) then sub.text else []);
    assert SerializeDescriptor(o, Obj(fields), level)
        == if content.Thrown? || (o.removeIllegalNameCharacters && !Get(fields, NameKey).Str?) then Thrown
           else Ok(MakeNode(o, ToJSString(Get(fields, NameKey)), content.text, Attributes(Get(fields, AttrsKey)), level, Truthy(children)));
    assert Serialize(o, Obj(fields), true, level) == SerializeDescriptor(o, Obj(fields), level);
  }

  // ---- indentation is the only use of the level ----

  /** Without pretty-printing the output does not depend on the level. */
  lemma {:induction false} LevelIrrelevant(o: Options, v: Value, inArray: bool, l1: nat, l2: nat)
    requires !o.prettyPrint
    ensures Serialize(o, v, inArray, l1) == Serialize(o, v, inArray, l2)
    decreases v, 1
  {
    match v
    case Arr(elems) => ElemsLevelIrrelevant(o, elems, l1 + 1, l2 + 1);
    case Obj(fields) =>
      if IsDescriptor(fields, inArray) {
        DescriptorLevelIrrelevant(o, v, l1, l2);
      } else {
        FieldsLevelIrrelevant(o, fields, l1, l2);
      }
    case _ =>
  }

  lemma {:induction false} ElemsLevelIrrelevant(o: Options, elems: seq<Value>, l1: nat, l2: nat)
    requires !o.prettyPrint
    ensures SerializeElems(o, elems, l1) == SerializeElems(o, elems, l2)
    decreases elems
  {
    if elems != [] {
      ElemsLevelIrrelevant(o, elems[..|elems| - 1], l1, l2);
      LevelIrrelevant(o, elems[|elems| - 1], true, l1, l2);
    }
  }

  lemma {:induction false} FieldsLevelIrrelevant(o: Options, fields: seq<Field>, l1: nat, l2: nat)
    requires !o.prettyPrint
    ensures SerializeFields(o, fields, l1) == SerializeFields(o, fields, l2)
    decreases fields
  {
    if fields != [] {
      var f := fields[|fields| - 1];
      FieldsLevelIrrelevant(o, fields[..|fields| - 1], l1, l2);
      LevelIrrelevant(o, f.val, false, l1 + 1, l2 + 1);
      assert FieldNode(o, f, l1) == FieldNode(o, f, l2);
    }
  }

  lemma {:induction false} DescriptorLevelIrrelevant(o: Options, v: Value, l1: nat, l2: nat)
    requires !o.prettyPrint && v.Obj?
    ensures SerializeDescriptor(o, v, l1) == SerializeDescriptor(o, v, l2)
    decreases v, 0
  {
    var ci := Find(v.fields, ChildrenKey);
    if ci >= 0 {
      LevelIrrelevant(o, v.fields[ci].val, false, l1 + 1, l2 + 1);
    }
  }
}
