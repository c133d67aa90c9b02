/** `makeNode` and `fn` (jsontoxml.js:19-104) in the source's own form: strings built up by
    `+=` in loops over the elements, the fields and the attributes, each method proved to
    produce what the serializer functions define. */
module Renderer {
  import opened JsValues
  import opened Escaping
  import opened Names
  import opened Serializer

  /** Once a prefix of the elements throws, the whole array throws. */
  lemma {:induction false} ElemsThrownExtends(o: Options, elems: seq<Value>, k: nat, level: nat)
    requires k <= |elems|
    requires SerializeElems(o, elems[..k], level).Thrown?
    ensures SerializeElems(o, elems, level).Thrown?
    decreases |elems|
  {
    if k < |elems| {
      var init := elems[..|elems| - 1];
      assert init[..k] == elems[..k];
      ElemsThrownExtends(o, init, k, level);
    } else {
      assert elems[..k] == elems;
    }
  }

  /** Once a prefix of the fields throws, the whole object throws. */
  lemma {:induction false} FieldsThrownExtends(o: Options, fields: seq<Field>, k: nat, level: nat)
    requires k <= |fields|
    requires SerializeFields(o, fields[..k], level).Thrown?
    ensures SerializeFields(o, fields, level).Thrown?
    decreases |fields|
  {
    if k < |fields| {
      var init := fields[..|fields| - 1];
      assert init[..k] == fields[..k];
      FieldsThrownExtends(o, init, k, level);
    } else {
      assert fields[..k] == fields;
    }
  }

  /** `makeNode`: `name` and `node` are rebound as in the source. */
  method RenderNode(o: Options, name: JStr, content: JStr, attributes: JStr, level: nat, hasSubNodes: bool)
    returns (node: JStr)
    ensures node == MakeNode(o, name, content, attributes, level, hasSubNodes)
  {
    var indentValue := if Truthy(o.indent) then ToJSString(o.indent) else Tab;
    var indent := if o.prettyPrint then NewLine + Repeat(indentValue, level) else [];
    var n := name;
    if o.removeIllegalNameCharacters {
      n := SanitizeName(n);
    }
    node := indent + Lit("<") + n + attributes;
    if |content| > 0 {
      node := node + Lit(">") + content + (if hasSubNodes then indent else []) + Lit("</") + n + Lit(">");
    } else {
      node := node + Lit("/>");
    }
  }

  /** `fn(nodeData, nodeDescriptor, level)`; a TypeError ends the whole call. */
  method Render(o: Options, v: Value, inArray: bool, level: nat) returns (r: Outcome)
    ensures r == Serialize(o, v, inArray, level)
    decreases v, 1
  {
    match v {
      case Arr(elems) =>
        var ret := RenderElems(o, elems, level + 1);
        if ret.Thrown? {
          return Thrown;
        }
        if o.prettyPrint {
          return Ok(ret.text + NewLine);
        }
        return ret;
      case Date(iso, _) =>
        return Ok(iso);
      case Null =>
        if inArray {
          return Thrown;
        }
        return Ok([]);
      case Obj(fields) =>
        if inArray && Truthy(Get(fields, NameKey)) {
          r := RenderDescriptor(o, v, level);
          return;
        }
        var nodes := RenderFields(o, fields, level);
        if nodes.Ok? && o.prettyPrint && |nodes.text| > 0 {
          return Ok(nodes.text + NewLine);
        }
        return nodes;
      case Thunk(result, _) =>
        return Ok(result);
      case _ =>
        if o.escape {
          return Ok(Esc(v));
        }
        return Ok(ToJSString(v));
    }
  }

  /** The array branch: `ret += fn(val, 1, level + 1)` for each element in turn. */
  method RenderElems(o: Options, elems: seq<Value>, level: nat) returns (r: Outcome)
    ensures r == SerializeElems(o, elems, level)
    decreases elems
  {
    var ret: JStr := [];
    var i := 0;
    while i < |elems|
      invariant 0 <= i <= |elems|
      invariant SerializeElems(o, elems[..i], level) == Ok(ret)
    {
      var part := Render(o, elems[i], true, level);
      assert elems[..i + 1][..i] == elems[..i];
      if part.Thrown? {
        ElemsThrownExtends(o, elems, i + 1, level);
        return Thrown;
      }
      ret := ret + part.text;
      i := i + 1;
    }
    assert elems[..i] == elems;
    return Ok(ret);
  }

  /** The keyed-object branch: `nodes += makeNode(key, fn(val, 0, level + 1), null, level + 1)`
      for each field in turn. */
  method RenderFields(o: Options, fields: seq<Field>, level: nat) returns (r: Outcome)
    ensures r == SerializeFields(o, fields, level)
    decreases fields
  {
    var nodes: JStr := [];
    var i := 0;
    while i < |fields|
      invariant 0 <= i <= |fields|
      invariant SerializeFields(o, fields[..i], level) == Ok(nodes)
    {
      var content := Render(o, fields[i].val, false, level + 1);
      assert fields[..i + 1][..i] == fields[..i];
      if content.Thrown? {
        FieldsThrownExtends(o, fields, i + 1, level);
        return Thrown;
      }
      var node := RenderNode(o, fields[i].key, content.text, [], level + 1, false);
      nodes := nodes + node;
      i := i + 1;
    }
    assert fields[..i] == fields;
    return Ok(nodes);
  }

  /** `attributes` of a descriptor (jsontoxml.js:67-75): one `+=`, or one per own value. */
  method RenderAttributes(attrs: Value) returns (attributes: JStr)
    ensures attributes == Attributes(attrs)
  {
    attributes := [];
    if Truthy(attrs) {
      if !IsObjectTyped(attrs) {
        attributes := attributes + Lit(" ") + ToJSString(attrs);
      } else {
        var vals := OwnValues(attrs);
        var i := 0;
        while i < |vals|
          invariant 0 <= i <= |vals|
          invariant attributes == AttrEntries(vals[..i])
        {
          assert vals[..i + 1][..i] == vals[..i];
          attributes := attributes + AttrEntry(vals[i]);
          i := i + 1;
        }
        assert vals[..i] == vals;
      }
    }
  }

  /** The descriptor branch of `fn`: `attributes` and `content` built up, then `makeNode`. */
  method RenderDescriptor(o: Options, v: Value, level: nat) returns (r: Outcome)
    requires v.Obj?
    ensures r == SerializeDescriptor(o, v, level)
    decreases v, 0
  {
    var fields := v.fields;
    var attributes := RenderAttributes(Get(fields, AttrsKey));
    var content: JStr := [];
    var value := Get(fields, ValueKey);
    var text := Get(fields, TextKey);
    if !value.Undef? {
      content := content + Text(o, value);
    } else if !text.Undef? {
      content := content + Text(o, text);
    }
    assert content == LeadingText(o, value, text);
    var ci := Find(fields, ChildrenKey);
    var children := if ci >= 0 then fields[ci].val else Undef;
    if Truthy(children) {
      var sub := Render(o, children, false, level + 1);
      if sub.Thrown? {
        assert SerializeDescriptor(o, v, level) == Thrown;
        return Thrown;
      }
      content := content + sub.text;
    }
    ghost var expected := if Truthy(children) then Cat(Ok(LeadingText(o, value, text)), Serialize(o, children, false, level + 1))
                          else Ok(LeadingText(o, value, text));
    assert expected == Ok(content);
    var name := Get(fields, NameKey);
    if o.removeIllegalNameCharacters && !name.Str? {
      assert SerializeDescriptor(o, v, level) == Thrown;
      return Thrown;
    }
    var node := RenderNode(o, ToJSString(name), content, attributes, level, Truthy(children));
    return Ok(node);
  }
}
