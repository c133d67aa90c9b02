# jsontoxml in Dafny

A model of `jsontoxml`, a JavaScript library that turns a JSON value (or JSON text) into
XML text, together with its two exported helpers `escape` and `cdata`.

- **Strings.** Strings are sequences of UTF-16 code units (`JsValues.JStr`), as JavaScript
  strings are. The name sanitizer's character classes are ranges of code units, so the
  halves of a surrogate pair belong to neither class.
- **Values.** Values (`JsValues.Value`) are `undefined`, `null`, booleans, numbers, strings,
  dates, arrays, objects (their own fields in order) and functions. Numbers, dates and
  functions carry the text the runtime would produce for them.
- **TypeErrors** raised part way through serialization are modelled as the outcome
  `Thrown`. They are raised by three inputs:
  - reading `name` of a `null` under an array;
  - calling `replace` on a non-string descriptor name while sanitizing;
  - calling `replace` on a truthy non-string given to `cdata`.

Modules:

- `JsValues`: strings, values, `String(x)`, truthiness and property lookup.
- `Escaping`: `esc` and `cdata`.
- `Names`: the name sanitizer.
- `Serializer`: `makeNode` and the recursive serializer `fn`, as functions.
- `Renderer`: the same two in their imperative form, with loops building strings by `+=`,
  each proved equal to the function.
- `Entry`: `xmlHeader` and the exported function, and its imperative form `Convert`.
- `Findings`: two precedence defects and their corrections.
- `Scenarios`: small documents worked through.

The main line follows the code as written, including both precedence defects listed under
Findings.

Where the code and the library's documented behaviour differ, the model follows the code:

- With sanitizing on, `xml:bad` becomes `__bad` rather than `_:bad`, because the colon is in
  neither character class and is replaced as well (`Names.SanitizeXmlColon`).
- Malformed JSON text is not the only failure: the three TypeErrors above are thrown too.

## Model

| member | source | states |
|---|---|---|
| Escaping.EscIsPerUnit | jsontoxml.js:166-172 | the chain of five global replacements equals replacing each code unit by its own entity, because `&` is replaced first and no later replacement touches `&amp;` |
| Escaping.EscProperties | jsontoxml.js:166-172 | the escaped text holds no `<`, `>`, `'` or `"`; every `&` in it starts one of the five entities; decoding the entities gives back `String(x)` |
| Escaping.UnescapeEscapeEach | jsontoxml.js:166-172 | decoding the per-unit escaping of any string returns that string |
| Escaping.Cdata | jsontoxml.js:177-182 | a falsy argument gives `<![CDATA[]]>`; a truthy string gives `<![CDATA[` + content + `]]>`; a truthy non-string throws |
| Escaping.StripIdentityIff | jsontoxml.js:179 | removing `]]>` leaves the string unchanged exactly when it contains no `]]>` |
| Escaping.StripShortens | jsontoxml.js:179 | a string containing `]]>` gets strictly shorter |
| Escaping.CdataWrapsClean | jsontoxml.js:177-182 | a non-empty string without `]]>` is wrapped unchanged |
| Escaping.CdataDeletesTerminators | jsontoxml.js:179 | `a]]>b]]>c` gives `<![CDATA[abc]]>`: terminators are deleted, not escaped |
| Escaping.CdataCanLeaveTerminator | jsontoxml.js:179 | a single left-to-right pass can leave a terminator behind: `]]]]>>` gives `<![CDATA[]]>]]>` |
| Names.ReplaceIllegal | jsontoxml.js:15 | the third alternative of the pattern: same length, and each unit kept when it is a name character, otherwise `_` |
| Names.SanitizeNameLegal | jsontoxml.js:13-15 | a sanitized name consists of name characters and starts with a start character; it never begins with `xml`; it is the input's length less 2 when a leading `xml` was collapsed |
| Names.SanitizeUnchangedIff | jsontoxml.js:13-15 | the sanitizer leaves a name unchanged exactly when the name is already clean |
| Names.SanitizeIdempotent | jsontoxml.js:13-15 | sanitizing twice is sanitizing once |
| Names.SanitizeDigitStart | jsontoxml.js:15 | `1tag` becomes `_tag` |
| Names.SanitizeXmlPrefix | jsontoxml.js:15 | a leading `xml` in any mix of cases collapses to one `_`: `XmLfoo` becomes `_foo` |
| Names.SanitizeXmlColon | jsontoxml.js:15 | `xml:bad` becomes `__bad` |
| Names.SanitizeKeepsValid | jsontoxml.js:15 | `valid_tag` is kept |
| Names.SanitizeSurrogatePair | jsontoxml.js:13-15 | each half of a surrogate pair becomes `_` |
| Serializer.IndentShape | jsontoxml.js:23-25 | without pretty-printing there is no indentation. With it, a newline, then one indent unit per level; the unit is a tab unless `indent` is truthy |
| Serializer.TagNameLegal | jsontoxml.js:27-29 | with `removeIllegalNameCharacters` set, every tag name is clean and non-empty for a non-empty key; otherwise the name is written as given |
| Serializer.MakeNodeSelfClosing | jsontoxml.js:27-36 | with `removeIllegalNameCharacters` set and a non-empty key, a node ends in `/>` exactly when its content is empty |
| Serializer.MakeNodeNonEmpty | jsontoxml.js:31-37 | no node is empty |
| Serializer.ScalarSerialization | jsontoxml.js:100-101 | a scalar never throws. It becomes `String(x)` without `escape`. With it, it becomes `esc(x)`: no `<`, `>`, `'` or `"`, every `&` opening an entity, and decoding gives back `String(x)` |
| Serializer.ArraySerialization | jsontoxml.js:50-59 | an array is its elements serialized in order at the next level in array position, then a newline when pretty-printing. It throws exactly when an element throws |
| Serializer.NullElementThrows | jsontoxml.js:65-66 | a `null` directly under an array makes the array throw |
| Serializer.ObjectSerialization | jsontoxml.js:90-97 | a keyed object is one node per field in order, each named by its key with the value serialized one level down as its content. A newline follows exactly when pretty-printing and there is a field |
| Serializer.DescriptorSerialization | jsontoxml.js:66-88 | a descriptor is one node named by `name`, with `attrs` rendered as attributes. Its content is `value` if defined, else `text` if defined, then its truthy `children` one level down. It throws exactly when the children throw, or when names are sanitized and `name` is not a string |
| Serializer.LevelIrrelevant | jsontoxml.js:40-104 | without pretty-printing, the output of any value does not depend on the level |
| Renderer.RenderNode | jsontoxml.js:19-38 | the imperative `makeNode` yields the node `Serializer.MakeNode` defines |
| Renderer.Render | jsontoxml.js:40-104 | the imperative `fn` (`ret +=` over the elements, `nodes +=` over the fields) yields the outcome `Serializer.Serialize` defines |
| Renderer.RenderAttributes | jsontoxml.js:67-75 | the `attributes +=` loop yields the attribute string `Serializer.Attributes` defines |
| Renderer.RenderDescriptor | jsontoxml.js:66-88 | the imperative descriptor branch yields the outcome `Serializer.SerializeDescriptor` defines |
| Renderer.ElemsThrownExtends | jsontoxml.js:52-54 | once a prefix of the elements throws, the whole array throws |
| Renderer.FieldsThrownExtends | jsontoxml.js:90-92 | once a prefix of the fields throws, the whole object throws |
| Entry.HeaderPresence | jsontoxml.js:134-153 | a header is emitted exactly when `xmlHeader` is truthy in an options object, or when `options` is truthy but not an object. It opens with `<?xml version="` and closes with `?>` |
| Entry.HeaderAsWritten | jsontoxml.js:111 | the header built without arguments is `<?xml version="undefined?>`. With version 1.0, encoding utf-8 and standalone it is `<?xml version="1.0standalone="yes"?>` |
| Entry.DocTypeWhenDefined | jsontoxml.js:146-149 | a doctype is emitted exactly when `docType` is defined; the empty string gives `<!DOCTYPE >` |
| Entry.EntryAssembly | jsontoxml.js:121-158 | unparsable input gives `false`. Otherwise the TypeError if the serializer throws, else header, doctype and the serialized root, with a newline before the doctype exactly when an options object sets `prettyPrint` and defines `docType` |
| Entry.NonObjectOptionsUseDefaults | jsontoxml.js:150-154 | a truthy non-object `options` only adds a header; the body is the one produced with no options |
| Entry.Convert | jsontoxml.js:121-158 | the imperative exported function returns what `Entry.JsonToXml` defines |
| Findings.AttrEntriesNeverQuote | jsontoxml.js:72 | as written, the attribute entries of an object never contain `"` |
| Findings.AttributeKeyDropped | jsontoxml.js:72 | as written, `[{name: "item", attrs: {id: 1}, text: "hi"}]` becomes `<item1>hi</item>` |
| Findings.AttrEntryIntended | jsontoxml.js:72 | the corrected entry is ` key="` + value + `"` |
| Findings.AttrEntryIntendedDelimited | jsontoxml.js:72 | with `escape`, the corrected entry's value holds no `"` and decodes back to `String(val)` |
| Findings.AttributesIntendedAgrees | jsontoxml.js:67-75 | the correction changes nothing for primitive `attrs` or empty ones |
| Findings.AttributeKeyKept | jsontoxml.js:72 | with the correction the same descriptor becomes `<item id="1">hi</item>` |
| Findings.HeaderVersionUnterminated | jsontoxml.js:111 | as written, a version without quotes is never closed by a `"` unless `standalone` adds one |
| Findings.XmlHeaderIntendedDelimited | jsontoxml.js:111 | the corrected header holds the version (default `1.0`) between quotes, then ` encoding="`, the encoding (default `utf-8`) and its closing quote |
| Findings.HeaderDefaultIntended | jsontoxml.js:111 | the corrected header without options is `<?xml version="1.0" encoding="utf-8" ?>` |
| Scenarios.KeyedScalarsSerialized | jsontoxml.js:90-101 | `{a: 1, b: "x"}` without options is `<a>1</a><b>x</b>` |
| Scenarios.EscapedTextSerialized | jsontoxml.js:101 | `{a: "<b>"}` with `escape` is `<a>&lt;b&gt;</a>` |
| Scenarios.ListOfItemsSerialized | jsontoxml.js:50-97 | `{list: [{name: "item", attrs: {id: 1}, text: "hi"}]}` as written is `<list><item1>hi</item></list>` |
| Scenarios.EmptyValueWins | jsontoxml.js:78-82 | `value` wins over `text` by being defined: `[{name: "n", value: "", text: "hi"}]` is the empty element `<n/>` |
| Scenarios.SanitizedEmptyElement | jsontoxml.js:27-35 | with names sanitized, `{"1tag": null}` is `<_tag/>` |

## Left out

- `JSON.parse` of a string or `Buffer` argument (jsontoxml.js:124-132): the input is taken parsed (`Some(v)`) or as having failed to parse (`None`, giving `false`).
- mout's `isArray`, `map`, `forOwn` and `repeat`: modelled by their effect; `forOwn` visits an object's fields in the order the model is given them, so the order JavaScript uses for integer-like keys is not modelled.
- `Date.prototype.toJSON`, number formatting and `String()` of a function: these come in as the pre-rendered text the `Value` carries; an invalid date, whose `toJSON()` is `null`, is not modelled.
- Calling a function value (jsontoxml.js:99): its result is taken as a string carried by the value; a function returning a non-string, or one with side effects, is not modelled.
- Objects with repeated keys and cyclic structures cannot arise: keys are taken to be distinct and values are finite trees.
- The export aliases `jsonToXml`, `objToXml`, `escape` and `cdata` (jsontoxml.js:161-175) only add names.
- The `this.Buffer` lookup (jsontoxml.js:124): the model assumes the function is called with a receiver. The module is in strict mode, so a call without one reads `.Buffer` of `undefined` and throws a TypeError before anything else happens; that case is not modelled. The module system itself is not modelled either.
- Options are reduced to what the code reads from them: `indent` and `docType` keep their value, the other entries their truthiness. An `xmlHeader` object keeps `version`, `encoding` and the truthiness of `standalone`.

## Findings

| source | as written | input that shows it | evidently intended | confidence | as-written member | corrected member |
|---|---|---|---|---|---|---|
| jsontoxml.js:72 | the statement parses as `(' ' + key + '="' + options.escape) ? esc(val) : (val + '"')`; the condition is a non-empty string, so each attribute appends only `esc(val)` | `[{name: "item", attrs: {id: 1}, text: "hi"}]` gives `<item1>hi</item>` | ` key="value"`, the value escaped when `escape` is set: `<item id="1">hi</item>` | not executed | Findings.AttributeKeyDropped | Findings.AttrEntryIntendedDelimited |
| jsontoxml.js:111 | the statement parses as `('<?xml version="' + options.version) \|\| ...`; the left operand is a non-empty string, so the encoding, both defaults and the closing quote are never added | `xmlHeader()` gives `<?xml version="undefined?>` | `<?xml version="1.0" encoding="utf-8" ?>`, with the given version and encoding when present | not executed | Entry.HeaderAsWritten | Findings.XmlHeaderIntendedDelimited |
