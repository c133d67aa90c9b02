/** The part of the JavaScript runtime that the serializer leans on:
    strings as UTF-16 code units, the shapes of the values it is given,
    `String(x)`, truthiness, property lookup, and a thrown TypeError. */
module JsValues {

  /** One UTF-16 code unit; a JavaScript string is a sequence of them. */
  type Unit = x: int | 0 <= x < 0x1_0000

  type JStr = seq<Unit>

  datatype Option<T> = None | Some(value: T)

  /** The code unit of a character of a Dafny literal (only ASCII literals are used). */
  function CodeUnit(c: char): Unit
  {
    if c as int < 0x1_0000 then c as int else 0xFFFD
  }

  /** A Dafny string literal as a JavaScript string. */
  function Lit(s: string): (r: JStr)
    ensures |r| == |s|
    ensures forall i :: 0 <= i < |s| ==> r[i] == CodeUnit(s[i])
  {
    seq(|s|, i requires 0 <= i < |s| => CodeUnit(s[i]))
  }

  /** Literals concatenate as their strings do. */
  lemma LitJoin(a: string, b: string, ab: string)
    requires a + b == ab
    ensures Lit(a) + Lit(b) == Lit(ab)
  {
  }

  /** The values the serializer is handed, after JSON parsing or as built by a caller.
      Numbers, dates and functions carry what the runtime would render for them:
      `repr` is `String(x)`, `iso` is what `toJSON()` returns and `text` is `String(d)`,
      `result` is what calling the function returns and `source` is `String(f)`. */
  datatype Value =
    | Undef
    | Null
    | Bool(b: bool)
    | Num(repr: JStr)
    | Str(s: JStr)
    | Date(iso: JStr, text: JStr)
    | Arr(elems: seq<Value>)
    | Obj(fields: seq<Field>)
    | Thunk(result: JStr, source: JStr)

  /** An own enumerable property of an object, in insertion order. */
  datatype Field = Field(key: JStr, val: Value)

  /** What the serializer produces: a string, or a TypeError thrown part way. */
  datatype Outcome = Ok(text: JStr) | Thrown

  /** `a + b` on two results computed one after the other: a throw in either is a throw. */
  function Cat(a: Outcome, b: Outcome): (r: Outcome)
    ensures r.Ok? <==> a.Ok? && b.Ok?
    ensures r.Ok? ==> r.text == a.text + b.text
  {
    if a.Ok? && b.Ok? then Ok(a.text + b.text) else Thrown
  }

  /** JavaScript truthiness: `undefined`, `null`, `false`, `0`, `NaN` and `""` are falsy. */
  predicate Truthy(v: Value)
  {
    match v
    case Undef => false
    case Null => false
    case Bool(b) => b
    case Num(repr) => repr != Lit("0") && repr != Lit("NaN")
    case Str(s) => |s| > 0
    case _ => true
  }

  /** `typeof v === 'object'`: null, dates, arrays and plain objects. */
  predicate IsObjectTyped(v: Value)
  {
    v.Null? || v.Date? || v.Arr? || v.Obj?
  }

  /** `String(v)`. Arrays join their elements with ",", rendering `undefined` and
      `null` elements as ""; a plain object renders as "[object Object]". */
  function ToJSString(v: Value): JStr
    decreases v
  {
    match v
    case Undef => Lit("undefined")
    case Null => Lit("null")
    case Bool(b) => if b then Lit("true") else Lit("false")
    case Num(repr) => repr
    case Str(s) => s
    case Date(_, text) => text
    case Arr(elems) => Join(elems)
    case Obj(_) => Lit("[object Object]")
    case Thunk(_, source) => source
  }

  /** `elems.join(",")`. */
  function Join(elems: seq<Value>): JStr
    decreases elems
  {
    if elems == [] then []
    else
      var last := elems[|elems| - 1];
      var part := if last.Undef? || last.Null? then [] else ToJSString(last);
      if |elems| == 1 then part else Join(elems[..|elems| - 1]) + Lit(",") + part
  }

  /** The index of the first field with the given key, or -1 when there is none. */
  function Find(fields: seq<Field>, key: JStr): (k: int)
    ensures -1 <= k < |fields|
    ensures k >= 0 ==> fields[k].key == key && forall i :: 0 <= i < k ==> fields[i].key != key
    ensures k == -1 <==> forall i :: 0 <= i < |fields| ==> fields[i].key != key
  {
    if fields == [] then -1
    else if fields[0].key == key then 0
    else var k := Find(fields[1..], key); if k == -1 then -1 else k + 1
  }

  /** Property access `obj[key]` on an object's own fields: the value of the field
      with that key, or `undefined` when there is none. Keys are taken to be distinct,
      as they are in a JavaScript object. */
  function Get(fields: seq<Field>, key: JStr): Value
  {
    var k := Find(fields, key);
    if k >= 0 then fields[k].val else Undef
  }

  /** Concatenation of a sequence of results, computed left to right:
      the first throw makes the whole a throw. */
  function CatAll(outs: seq<Outcome>): (r: Outcome)
    ensures r.Ok? <==> forall i :: 0 <= i < |outs| ==> outs[i].Ok?
  {
    if outs == [] then Ok([]) else Cat(outs[0], CatAll(outs[1..]))
  }
}
