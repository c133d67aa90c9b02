/** The exported function (jsontoxml.js:121-158) and `xmlHeader` (jsontoxml.js:108-118). */
module Entry {
  import opened JsValues
  import opened Serializer
  import Renderer

  /** The `options` argument: falsy, truthy but not an object (`true`, a non-empty string,
      a number, a function), or an object. */
  datatype OptionsArg = NoOptions | NotAnObject | AnObject(opts: Options)

  /** What the exported function gives back: the XML text, `false` when the input text was
      not JSON, or the TypeError the serializer threw. */
  datatype Returned = Xml(text: JStr) | False | Threw

  const VersionOpen: JStr := Lit("<?xml version=\"")
  const Standalone: JStr := Lit("standalone=\"yes\"")
  const DeclClose: JStr := Lit("?>")

  /** `xmlHeader(options)` as written. Line 111 parses as
      `('<?xml version="' + options.version) || ...`, whose left operand is a non-empty
      string, so the rest of the line, and with it the encoding and both defaults, is never
      evaluated: the header is `<?xml version="` and `String(version)`, `standalone="yes"`
      when `standalone` is truthy, and `?>`. */
  function XmlHeader(d: HeaderDecl): JStr
  {
    VersionOpen + ToJSString(d.version) + (if d.standalone then Standalone else []) + DeclClose
  }

  /** `xmlHeader()` reads `{}`: nothing is set. */
  const EmptyDecl: HeaderDecl := HeaderDecl(Undef, Undef, false)

  /** `header`: built from `options.xmlHeader` when that is truthy, from nothing when
      `options` is truthy but not an object, and empty otherwise. */
  function Header(arg: OptionsArg): JStr
  {
    match arg
    case NoOptions => []
    case NotAnObject => XmlHeader(EmptyDecl)
    case AnObject(o) => if o.xmlHeader.Some? then XmlHeader(o.xmlHeader.value) else []
  }

  /** `docType`: `<!DOCTYPE d>` whenever `options.docType !== undefined`. */
  function DocType(arg: OptionsArg): JStr
  {
    if arg.AnObject? && !arg.opts.docType.Undef? then Lit("<!DOCTYPE ") + ToJSString(arg.opts.docType) + Lit(">")
    else []
  }

  /** The options `processToXml` reads: the object when there is one, else nothing set. */
  function Effective(arg: OptionsArg): Options
  {
    if arg.AnObject? then arg.opts else Defaults
  }

  /** The exported function on an input already parsed (`None` when `JSON.parse` failed):
      header, a newline when pretty-printing with a doctype, the doctype, and the body
      serialized from the root position at level 0. */
  function JsonToXml(obj: Option<Value>, arg: OptionsArg): Returned
  {
    if obj.None? then False
    else
      var body := Serialize(Effective(arg), obj.value, false, 0);
      if body.Thrown? then Threw
      else
        var docType := DocType(arg);
        Xml(Header(arg) + (if Effective(arg).prettyPrint && |docType| > 0 then NewLine else []) + docType + body.text)
  }

  /** A header is emitted exactly when `xmlHeader` is truthy in an options object, or when
      `options` is truthy but not an object; it always opens with `<?xml version="` and
      closes with `?>`. */
  lemma HeaderPresence(arg: OptionsArg)
    ensures |Header(arg)| > 0 <==> arg.NotAnObject? || (arg.AnObject? && arg.opts.xmlHeader.Some?)
    ensures |Header(arg)| > 0 ==> VersionOpen <= Header(arg) && Header(arg)[|Header(arg)| - 2..] == DeclClose
  {
  }

  /** As written, the header never carries an encoding and a missing version renders as
      `undefined`: `xmlHeader()` is `<?xml version="undefined?>`, and a declaration with
      version 1.0 and encoding utf-8 loses both its closing quote and its encoding. */
  lemma HeaderAsWritten()
    ensures Header(NotAnObject) == Lit("<?xml version=\"undefined?>")
    ensures XmlHeader(HeaderDecl(Str(Lit("1.0")), Str(Lit("utf-8")), true))
         == Lit("<?xml version=\"1.0standalone=\"yes\"?>")
  {
    LitJoin("<?xml version=\"", "undefined", "<?xml version=\"undefined");
    LitJoin("<?xml version=\"undefined", "?>", "<?xml version=\"undefined?>");
    LitJoin("<?xml version=\"", "1.0", "<?xml version=\"1.0");
    LitJoin("<?xml version=\"1.0", "standalone=\"yes\"", "<?xml version=\"1.0standalone=\"yes\"");
    LitJoin("<?xml version=\"1.0standalone=\"yes\"", "?>", "<?xml version=\"1.0standalone=\"yes\"?>");
  }

  /** A doctype is emitted whenever `docType` is defined, also when it is the empty string,
      and it is the only thing a newline is put before. */
  lemma DocTypeWhenDefined(arg: OptionsArg)
    ensures |DocType(arg)| > 0 <==> arg.AnObject? && !arg.opts.docType.Undef?
    ensures arg.AnObject? && arg.opts.docType == Str([]) ==> DocType(arg) == Lit("<!DOCTYPE >")
  {
  }

  /** Input that did not parse gives `false`; parsed input gives the serializer's TypeError
      when it throws, and otherwise the header, the doctype and then exactly the serializer's
      output for the root, with a newline between header and doctype exactly when an options
      object sets `prettyPrint` and defines `docType`. */
  lemma EntryAssembly(obj: Option<Value>, arg: OptionsArg)
    ensures obj.None? <==> JsonToXml(obj, arg) == False
    ensures obj.Some? ==> (JsonToXml(obj, arg) == Threw <==> Serialize(Effective(arg), obj.value, false, 0).Thrown?)
    ensures obj.Some? && Serialize(Effective(arg), obj.value, false, 0).Ok? && arg.AnObject?
            && arg.opts.prettyPrint && !arg.opts.docType.Undef? ==>
      JsonToXml(obj, arg) == Xml(Header(arg) + NewLine + DocType(arg) + Serialize(Effective(arg), obj.value, false, 0).text)
    ensures obj.Some? && Serialize(Effective(arg), obj.value, false, 0).Ok?
            && !(arg.AnObject? && arg.opts.prettyPrint && !arg.opts.docType.Undef?) ==>
      JsonToXml(obj, arg) == Xml(Header(arg) + DocType(arg) + Serialize(Effective(arg), obj.value, false, 0).text)
  {
    DocTypeWhenDefined(arg);
    if obj.Some? && Serialize(Effective(arg), obj.value, false, 0).Ok?
       && !(arg.AnObject? && arg.opts.prettyPrint && !arg.opts.docType.Undef?) {
      assert Header(arg) + [] == Header(arg);
    }
  }

  /** A truthy non-object `options` changes nothing but the header: the body is the one
      produced with no options at all. */
  lemma NonObjectOptionsUseDefaults(v: Value)
    ensures JsonToXml(Some(v), NoOptions).Xml? <==> JsonToXml(Some(v), NotAnObject).Xml?
    ensures JsonToXml(Some(v), NoOptions).Xml? ==>
      JsonToXml(Some(v), NotAnObject).text == XmlHeader(EmptyDecl) + JsonToXml(Some(v), NoOptions).text
  {
  }

  /** The exported function in the source's form: `docType` and `header` start empty and are
      set from the options, then the pieces are concatenated around `processToXml`. */
  method Convert(obj: Option<Value>, arg: OptionsArg) returns (r: Returned)
    ensures r == JsonToXml(obj, arg)
  {
    var docType: JStr := [];
    var header: JStr := [];
    if obj.None? {
      return False;
    }
    match arg {
      case AnObject(o) =>
        if o.xmlHeader.Some? {
          header := XmlHeader(o.xmlHeader.value);
        }
        if !o.docType.Undef? {
          docType := Lit("<!DOCTYPE ") + ToJSString(o.docType) + Lit(">");
        }
      case NotAnObject =>
        header := XmlHeader(EmptyDecl);
      case NoOptions =>
    }
    var options := Effective(arg);
    var body := Renderer.Render(options, obj.value, false, 0);
    if body.Thrown? {
      return Threw;
    }
    return Xml(header + (if options.prettyPrint && |docType| > 0 then NewLine else []) + docType + body.text);
  }
}
