/** The compile hooks of the tag library (`tags.js`): each `parse` reads a
    node's attributes, its `isEmpty` flag and a little of its parent or parser,
    and either rewrites the node's template (and sometimes the parent's) or
    returns an `Error`. Templates are opaque strings carrying the markers
    `/*!code*/`, `/*@attr*/` and `/*!context*/`; expanding the markers is not
    part of this library. */
module Tags {
  import opened Wrappers
  import opened TextUtil

  /** A node's decoded attributes, keyed by lower-cased name. */
  type Attrs = map<string, string>

  /** The `Error`s the hooks return; the message text is not modelled. */
  datatype TagError =
    | InvalidFormat       // echo: `format` outside the format table
    | InvalidEscape       // echo: `escape` outside the escape table
    | ElseWithoutIf       // else: the parent is neither `if` nor `unless`
    | SecondElse          // else: the parent already has its plain `else`
    | ElseNotSingle       // else: the `else` tag has content
    | NoCollection        // each: neither `array` nor `object`
    | NameMissing         // data, template: no `name`
    | NameEmpty           // template: `name` is ""
    | NameOrSrcMissing    // include: neither `src` nor `name`

  // ---------------------------------------------------------------------------
  // Templates and the code slot
  // ---------------------------------------------------------------------------

  const CodeMarker: string := "/*!code*/"

  /** No slash, star, bang sequence occurs inside `s`: a code marker can only
      begin with one. */
  predicate NoMarkerStart(s: string) {
    forall k :: 2 <= k < |s| && s[k] == '!' ==> !(s[k - 2] == '/' && s[k - 1] == '*')
  }

  /** The first code marker of `t` begins at `k`: this is where the node's
      code goes, and what `else` splices at. */
  predicate SlotAt(t: string, k: nat) {
    IndexOf(t, CodeMarker) == Some(k)
  }

  lemma NoBangNoMarkerStart(s: string)
    requires '!' !in s
    ensures NoMarkerStart(s)
  {
    forall k | 0 <= k < |s| ensures s[k] != '!' {
      assert s[k] in s;
    }
  }

  /** A template `before`, marker, `after` has its slot right after
      `before` when no marker starts inside `before`. */
  lemma SlotAfter(before: string, after: string)
    requires NoMarkerStart(before)
    ensures SlotAt(before + CodeMarker + after, |before|)
  {
    var t := before + CodeMarker + after;
    assert t[|before|..|before| + |CodeMarker|] == CodeMarker;
    forall j | 0 <= j < |before| && j + |CodeMarker| <= |t| ensures !MatchAt(t, CodeMarker, j) {
      if j + 2 < |before| {
        assert t[j] == before[j] && t[j + 1] == before[j + 1] && t[j + 2] == before[j + 2];
      } else {
        assert t[j + 2] == CodeMarker[j + 2 - |before|];
      }
      assert !(t[j] == '/' && t[j + 1] == '*' && t[j + 2] == '!');
      assert t[j..j + |CodeMarker|][2] == t[j + 2];
      assert t[j..j + |CodeMarker|][1] == t[j + 1];
      assert t[j..j + |CodeMarker|][0] == t[j];
    }
    assert MatchAt(t, CodeMarker, |before|);
    var r := IndexOfFrom(t, CodeMarker, 0);
    assert r.Some?;
    assert r.value <= |before|;
  }

  /** A string without `!` holds no code marker at all. */
  lemma NoSlot(t: string)
    requires '!' !in t
    ensures IndexOf(t, CodeMarker).None?
  {
    forall j | 0 <= j && j + |CodeMarker| <= |t| ensures !MatchAt(t, CodeMarker, j) {
      assert t[j + 2] in t;
      assert t[j..j + |CodeMarker|][2] == t[j + 2];
    }
  }

  const CommentTemplate: string := ""
  const ContextHead: string := "(function () {"
  const RootContextTemplate: string := ContextHead + CodeMarker + "}).call(/*!context*/);"
  const ContextObjectTemplate: string := ContextHead + CodeMarker + "}).call(/*@object*/);"
  const DataValueTemplate: string := "_data[\"/*@name*/\"] = (/*@value*/);"
  const DataScopeHead: string := "_data[\"/*@name*/\"] = (function (__output, __text) {" + "var __hasStream = false;"
  const DataScopeTemplate: string := DataScopeHead + CodeMarker + "return __output;}).call(/*!context*/, \"\", \"\");"
  const IfHead: string := "if (/*@test*/) {"
  const IfTemplate: string := IfHead + CodeMarker + "}"
  const UnlessHead: string := "if (!(/*@test*/)) {"
  const UnlessTemplate: string := UnlessHead + CodeMarker + "}"
  const ElseHead: string := "} else {"
  const ElseTemplate: string := ElseHead + CodeMarker
  const ArrayHead: string := "(function (_array) {" + "var _length = _array.length;" + "var _index = 0;" + "while (_index < _length) {"
  const ArrayItem: string := "var /*@item*/ = _array[_index];"
  const ArrayTail: string := "_index++;}}).call(/*!context*/, /*@array*/);"
  const ObjectHead: string := "(function (_object) {" + "for (var _property in _object) {" + "if (_object.hasOwnProperty(_property)) {"
  const ObjectItem: string := "var /*@item*/ = _object[_property];"
  const ObjectTail: string := "}}}).call(/*!context*/, /*@object*/);"

  /** `attrs` with `key` set to `value` unless it is already present: the
      defaulting the hooks do by assignment. */
  function Defaulted(attrs: Attrs, key: string, value: string): (r: Attrs)
    ensures key in r && r.Keys == attrs.Keys + {key}
    ensures key in attrs ==> r == attrs
    ensures key !in attrs ==> r[key] == value
    ensures forall k :: k in attrs && k != key ==> r[k] == attrs[k]
  {
    if key in attrs then attrs else attrs[key := value]
  }

  lemma DefaultedIdempotent(attrs: Attrs, key: string, value: string)
    ensures Defaulted(Defaulted(attrs, key, value), key, value) == Defaulted(attrs, key, value)
  {
  }

  // ---------------------------------------------------------------------------
  // root, comment, context
  // ---------------------------------------------------------------------------

  /** `root`: with a `context` attribute the code runs in that context,
      otherwise the template is the bare code marker. */
  function Root(attrs: Attrs): (t: string)
    ensures "context" in attrs ==> SlotAt(t, |ContextHead|) && t[|ContextHead| + |CodeMarker|..] == "}).call(/*!context*/);"
    ensures "context" !in attrs ==> t == CodeMarker && SlotAt(t, 0)
  {
    NoBangNoMarkerStart(ContextHead);
    SlotAfter(ContextHead, "}).call(/*!context*/);");
    SlotAfter("", "");
    assert "" + CodeMarker + "" == CodeMarker;
    if "context" in attrs then RootContextTemplate else CodeMarker
  }

  /** `context`: without an `object` attribute it reduces to the bare code
      marker. */
  function Context(attrs: Attrs): (t: string)
    ensures "object" in attrs ==> SlotAt(t, |ContextHead|) && t[|ContextHead| + |CodeMarker|..] == "}).call(/*@object*/);"
    ensures "object" !in attrs ==> t == CodeMarker && SlotAt(t, 0)
  {
    NoBangNoMarkerStart(ContextHead);
    SlotAfter(ContextHead, "}).call(/*@object*/);");
    SlotAfter("", "");
    assert "" + CodeMarker + "" == CodeMarker;
    if "object" in attrs then ContextObjectTemplate else CodeMarker
  }

  // ---------------------------------------------------------------------------
  // echo
  // ---------------------------------------------------------------------------

  const TextMarker: string := "/*text*/"

  /** The format table: each entry wraps the data expression. */
  const Formats: map<string, string> := map[
    "text" := "String(" + TextMarker + ")",
    "json" := "JSON.stringify(" + TextMarker + ")"]

  /** What stands before the data expression in each format entry. */
  const FormatHeads: map<string, string> := map["text" := "String(", "json" := "JSON.stringify("]

  /** The escape table: suffixes appended literally to the formatted
      expression. */
  const Escapes: map<string, string> := map[
    "js" := ".replace(/('|\"|(?:\\r\\n)|\\r|\\n|\\\\)/g, \"\\\\$1\")",
    "url" := "encodeURI(/*text*/)",
    "html" := ".replace(/&/g, \"&amp;\").replace(/</g, \"&lt;\").replace(/>/g, \"&gt;\").replace(/\"/g, \"&quot;\")",
    "htmlDec" := ".replace(/&/g, \"&#38;\").replace(/</g, \"&#60;\").replace(/>/g, \"&#62;\").replace(/\"/g, \"&#34;\")",
    "htmlHex" := ".replace(/&/g, \"&#x26;\").replace(/</g, \"&#x3c;\").replace(/>/g, \"&#x3e;\").replace(/\"/g, \"&#x22;\")"]

  /** An `echo` after `parse`: its attributes (with `format` written back
      even on error) and its template, or the error. */
  datatype EchoOutcome = EchoOutcome(attributes: Attrs, template: Result<string, TagError>)

  /** The data expression: `data`, or `this` when absent. */
  function EchoData(attrs: Attrs): string {
    if "data" in attrs then attrs["data"] else "this"
  }

  function Echo(attrs: Attrs): (r: EchoOutcome)
    ensures r.attributes == Defaulted(attrs, "format", "text")
    ensures var format := r.attributes["format"];
            && (r.template.Success? <==>
                  format in Formats && ("escape" in attrs ==> attrs["escape"] in Escapes))
            && (format !in Formats ==> r.template == Failure(InvalidFormat))
            && (format in Formats && "escape" in attrs && attrs["escape"] !in Escapes ==>
                  r.template == Failure(InvalidEscape))
    ensures r.template.Success? ==>
              var format := r.attributes["format"];
              var suffix := if "escape" in attrs then Escapes[attrs["escape"]] else "";
              && |r.template.value| >= |suffix|
              && r.template.value[|r.template.value| - |suffix|..] == suffix
              && r.template.value[..|r.template.value| - |suffix|]
                 == ReplaceFirst(Formats[format], TextMarker, EchoData(attrs))
  {
    var a := Defaulted(attrs, "format", "text");
    var format := a["format"];
    if format !in Formats then EchoOutcome(a, Failure(InvalidFormat))
    else
      var t := ReplaceFirst(Formats[format], TextMarker, EchoData(attrs));
      if "escape" in attrs then
        if attrs["escape"] in Escapes then
          var t1 := t + Escapes[attrs["escape"]];
          assert t1[..|t1| - |Escapes[attrs["escape"]]|] == t;
          EchoOutcome(a, Success(t1))
        else EchoOutcome(a, Failure(InvalidEscape))
      else
        assert t[..|t|] == t;
        EchoOutcome(a, Success(t))
  }

  /** Each format entry is its head, the data marker and a closing `)`, and
      no data marker starts inside the head. */
  lemma FormatShape(format: string)
    requires format in Formats
    ensures format in FormatHeads
    ensures Formats[format] == FormatHeads[format] + TextMarker + ")"
    ensures '/' !in FormatHeads[format]
  {
  }

  /** With a `$`-free data expression the data expression is placed between
      the format's head and its closing `)`, then the escape suffix follows. */
  lemma EchoLiteral(attrs: Attrs)
    requires '$' !in EchoData(attrs)
    requires Echo(attrs).template.Success?
    ensures var format := Echo(attrs).attributes["format"];
            var suffix := if "escape" in attrs then Escapes[attrs["escape"]] else "";
            Echo(attrs).template.value == FormatHeads[format] + EchoData(attrs) + ")" + suffix
  {
    var format := Echo(attrs).attributes["format"];
    FormatFill(format, EchoData(attrs));
    var t := Echo(attrs).template.value;
    var suffix := if "escape" in attrs then Escapes[attrs["escape"]] else "";
    assert t == t[..|t| - |suffix|] + t[|t| - |suffix|..];
  }

  /** Filling a format entry with a `$`-free expression puts the expression
      between the entry's head and its closing `)`. */
  lemma FormatFill(format: string, data: string)
    requires format in Formats && '$' !in data
    ensures format in FormatHeads
    ensures ReplaceFirst(Formats[format], TextMarker, data) == FormatHeads[format] + data + ")"
  {
    FormatShape(format);
    var head := FormatHeads[format];
    var entry := Formats[format];
    assert MatchAt(entry, TextMarker, |head|) by {
      assert entry[|head|..|head| + |TextMarker|] == TextMarker;
    }
    forall j | 0 <= j < |head| && j + |TextMarker| <= |entry| ensures !MatchAt(entry, TextMarker, j) {
      assert head[j] in head;
      assert entry[j] == head[j];
      assert entry[j..j + |TextMarker|][0] == entry[j];
    }
    forall k | 0 <= k < |data| ensures data[k] != '$' {
      assert data[k] in data;
    }
    ReplaceFirstLiteral(entry, TextMarker, data, |head|);
    assert entry[..|head|] == head;
    assert entry[|head| + |TextMarker|..] == ")";
  }


  /** `parse` is idempotent on `echo`: running it on the attributes it wrote
      back changes nothing. */
  lemma EchoIdempotent(attrs: Attrs)
    ensures Echo(Echo(attrs).attributes) == Echo(attrs)
  {
    var a := Echo(attrs).attributes;
    assert "data" in a <==> "data" in attrs;
    assert "data" in a ==> a["data"] == attrs["data"];
    assert "escape" in a <==> "escape" in attrs;
    assert "escape" in a ==> a["escape"] == attrs["escape"];
  }

  // ---------------------------------------------------------------------------
  // data, if, unless
  // ---------------------------------------------------------------------------

  /** `data`: a `name` is required; with a `value` the entry is that
      expression, otherwise the entry is the output of the tag's code. */
  function Data(attrs: Attrs): (r: Result<string, TagError>)
    ensures r.Failure? <==> "name" !in attrs
    ensures r.Failure? ==> r.error == NameMissing
    ensures r.Success? && "value" in attrs ==> r.value == DataValueTemplate && IndexOf(r.value, CodeMarker).None?
    ensures r.Success? && "value" !in attrs ==>
              && SlotAt(r.value, |DataScopeHead|)
              && r.value[|DataScopeHead| + |CodeMarker|..] == "return __output;}).call(/*!context*/, \"\", \"\");"
  {
    if "name" !in attrs then Failure(NameMissing)
    else if "value" in attrs then
      NoSlot(DataValueTemplate);
      Success(DataValueTemplate)
    else
      NoBangNoMarkerStart(DataScopeHead);
      SlotAfter(DataScopeHead, "return __output;}).call(/*!context*/, \"\", \"\");");
      Success(DataScopeTemplate)
  }

  /** `if` and `unless`: a missing `test` becomes `this`. */
  function Conditional(attrs: Attrs): (r: Attrs)
    ensures "test" in r && r.Keys == attrs.Keys + {"test"}
    ensures r["test"] == if "test" in attrs then attrs["test"] else "this"
    ensures forall k :: k in attrs && k != "test" ==> r[k] == attrs[k]
  {
    Defaulted(attrs, "test", "this")
  }

  /** The `if` and `unless` templates have their slot right after the head,
      followed by the closing brace. */
  lemma ConditionalSlots()
    ensures SlotAt(IfTemplate, |IfHead|)
    ensures SlotAt(UnlessTemplate, |UnlessHead|)
  {
    NoBangNoMarkerStart(IfHead);
    SlotAfter(IfHead, "}");
    assert NoMarkerStart(UnlessHead) by {
      forall k | 2 <= k < |UnlessHead| ensures !(UnlessHead[k - 2] == '/' && UnlessHead[k - 1] == '*' && UnlessHead[k] == '!') {
      }
    }
    SlotAfter(UnlessHead, "}");
  }

  // ---------------------------------------------------------------------------
  // else
  // ---------------------------------------------------------------------------

  /** What `else` reads and writes of its parent. The root has no name and is
      passed with `name == ""`, which no tag name equals. */
  datatype Parent = Parent(name: string, template: string, code: string, hasElse: bool)

  /** JavaScript `s.slice(0, -1)`. */
  function DropLast(s: string): (r: string)
    ensures |s| > 0 ==> r + [s[|s| - 1]] == s
    ensures |s| == 0 ==> r == ""
  {
    if |s| > 0 then s[..|s| - 1] else ""
  }

  /** The parent's accumulated code goes into its first code slot (through
      `String.prototype.replace`, so `$` patterns in the code are expanded),
      the last character is dropped and a new slot and brace are added. */
  function Splice(template: string, code: string): (r: string)
    ensures |r| >= |CodeMarker| + 1
    ensures r[|r| - |CodeMarker| - 1..] == CodeMarker + "}"
  {
    var r := DropLast(ReplaceFirst(template, CodeMarker, code)) + CodeMarker + "}";
    assert r[|r| - |CodeMarker| - 1..] == CodeMarker + "}";
    r
  }

  /** The `else` after `parse`: the rewritten parent and the `else` node's
      own template. */
  datatype ElseOutcome = ElseOutcome(parent: Parent, template: string)

  function Else(attrs: Attrs, isEmpty: bool, parent: Parent): (r: Result<ElseOutcome, TagError>)
    // the checks happen in this order
    ensures parent.name != "if" && parent.name != "unless" ==> r == Failure(ElseWithoutIf)
    ensures (parent.name == "if" || parent.name == "unless") && parent.hasElse ==> r == Failure(SecondElse)
    ensures (parent.name == "if" || parent.name == "unless") && !parent.hasElse && !isEmpty ==>
              r == Failure(ElseNotSingle)
    ensures r.Success? <==> (parent.name == "if" || parent.name == "unless") && !parent.hasElse && isEmpty
    // the parent's code moves into its template, and only the plain form marks it
    ensures r.Success? ==>
              && r.value.parent.name == parent.name
              && r.value.parent.template == Splice(parent.template, parent.code)
              && r.value.parent.code == ""
              && (r.value.parent.hasElse <==> "if" !in attrs && "unless" !in attrs)
    // the else branch: `if` wins over `unless`, and the plain form keeps its template
    ensures r.Success? && "if" in attrs ==>
              r.value.template == "} else if (" + attrs["if"] + ") {" + CodeMarker
    ensures r.Success? && "if" !in attrs && "unless" in attrs ==>
              r.value.template == "} else if (!(" + attrs["unless"] + ")) {" + CodeMarker
    ensures r.Success? && "if" !in attrs && "unless" !in attrs ==>
              r.value.template == ElseTemplate && SlotAt(r.value.template, |ElseHead|)
  {
    if !(parent.name == "if" || parent.name == "unless") then Failure(ElseWithoutIf)
    else if parent.hasElse then Failure(SecondElse)
    else if isEmpty then
      var p := parent.(template := Splice(parent.template, parent.code), code := "");
      if "if" in attrs then
        Success(ElseOutcome(p, "} else if (" + attrs["if"] + ") {" + CodeMarker))
      else if "unless" in attrs then
        Success(ElseOutcome(p, "} else if (!(" + attrs["unless"] + ")) {" + CodeMarker))
      else
        NoBangNoMarkerStart(ElseHead);
        SlotAfter(ElseHead, "");
        assert ElseHead + CodeMarker + "" == ElseTemplate;
        Success(ElseOutcome(p.(hasElse := true), ElseTemplate))
    else Failure(ElseNotSingle)
  }

  /** On a fresh `if` or `unless` template, a `$`-free code becomes the
      then-branch and the new slot follows it, before the closing brace. */
  lemma ElseAfterConditional(head: string, code: string)
    requires head == IfHead || head == UnlessHead
    requires '$' !in code
    ensures Splice(head + CodeMarker + "}", code) == head + code + CodeMarker + "}"
    ensures NoMarkerStart(head + code) ==> SlotAt(head + code + CodeMarker + "}", |head + code|)
  {
    ConditionalSlots();
    var t := head + CodeMarker + "}";
    assert t == IfTemplate || t == UnlessTemplate;
    forall k | 0 <= k < |code| ensures code[k] != '$' {
      assert code[k] in code;
    }
    ReplaceFirstLiteral(t, CodeMarker, code, |head|);
    assert t[..|head|] == head && t[|head| + |CodeMarker|..] == "}";
    var s := head + code + "}";
    assert DropLast(s) == head + code;
    var u := head + code + CodeMarker + "}";
    if NoMarkerStart(head + code) {
      SlotAfter(head + code, "}");
    }
  }

  /** A parent gets at most one plain `else`: once one succeeded, the next is
      rejected whatever its form. */
  lemma OneElse(attrs: Attrs, parent: Parent, attrs2: Attrs, isEmpty2: bool)
    requires "if" !in attrs && "unless" !in attrs
    requires Else(attrs, true, parent).Success?
    ensures Else(attrs2, isEmpty2, Else(attrs, true, parent).value.parent) == Failure(SecondElse)
  {
  }

  /** `else if` keeps the parent open for further branches. */
  lemma ElseIfChains(attrs: Attrs, parent: Parent, attrs2: Attrs)
    requires "if" in attrs || "unless" in attrs
    requires Else(attrs, true, parent).Success?
    ensures Else(attrs2, true, Else(attrs, true, parent).value.parent).Success?
  {
  }

  // ---------------------------------------------------------------------------
  // each
  // ---------------------------------------------------------------------------

  function EachTemplate(head: string, item: string, tail: string, hasItem: bool): string {
    head + (if hasItem then item else "") + CodeMarker + tail
  }

  /** A loop template that starts with `head`, holds `item` right after it
      when `hasItem`, and has its code slot after both. */
  predicate LoopShaped(t: string, head: string, item: string, hasItem: bool) {
    && StartsWith(t, head)
    && SlotAt(t, |head| + if hasItem then |item| else 0)
    && (hasItem ==> |head| + |item| <= |t| && t[|head|..|head| + |item|] == item)
  }

  /** `each`: an `array` attribute wins over `object`; the item declaration
      precedes the code slot exactly when `item` is given. */
  function Each(attrs: Attrs): (r: Result<string, TagError>)
    ensures r.Failure? <==> "array" !in attrs && "object" !in attrs
    ensures r.Failure? ==> r.error == NoCollection
    ensures r.Success? && "array" in attrs ==> LoopShaped(r.value, ArrayHead, ArrayItem, "item" in attrs)
    ensures r.Success? && "array" !in attrs ==> LoopShaped(r.value, ObjectHead, ObjectItem, "item" in attrs)
    ensures r.Success? ==> (StartsWith(r.value, ArrayHead) <==> "array" in attrs)
  {
    var hasItem := "item" in attrs;
    if "array" in attrs then
      ArrayForm(hasItem);
      Success(EachTemplate(ArrayHead, ArrayItem, ArrayTail, hasItem))
    else if "object" in attrs then
      ObjectForm(hasItem);
      Success(EachTemplate(ObjectHead, ObjectItem, ObjectTail, hasItem))
    else Failure(NoCollection)
  }

  /** The heads and item lines of `each` hold no `!`. */
  lemma ArrayPieces()
    ensures '!' !in ArrayHead && '!' !in ArrayItem
  {
    assert '!' !in "(function (_array) {" && '!' !in "var _length = _array.length;";
    assert '!' !in "var _index = 0;" && '!' !in "while (_index < _length) {";
  }

  lemma ObjectPieces()
    ensures '!' !in ObjectHead && '!' !in ObjectItem
  {
    assert '!' !in "(function (_object) {" && '!' !in "for (var _property in _object) {";
    assert '!' !in "if (_object.hasOwnProperty(_property)) {";
  }

  /** The two heads differ at the collection's name. */
  lemma HeadsDiffer()
    ensures |ArrayHead| > 12 && |ObjectHead| > 12 && ArrayHead[12] == 'a' && ObjectHead[12] == 'o'
  {
    assert ArrayHead[..20] == "(function (_array) {";
    assert ObjectHead[..21] == "(function (_object) {";
  }

  lemma ArrayForm(hasItem: bool)
    ensures var t := EachTemplate(ArrayHead, ArrayItem, ArrayTail, hasItem);
            LoopShaped(t, ArrayHead, ArrayItem, hasItem) && StartsWith(t, ArrayHead)
  {
    ArrayPieces();
    EachShape(ArrayHead, ArrayItem, ArrayTail, hasItem);
  }

  lemma ObjectForm(hasItem: bool)
    ensures var t := EachTemplate(ObjectHead, ObjectItem, ObjectTail, hasItem);
            LoopShaped(t, ObjectHead, ObjectItem, hasItem) && !StartsWith(t, ArrayHead)
  {
    ObjectPieces();
    HeadsDiffer();
    EachShape(ObjectHead, ObjectItem, ObjectTail, hasItem);
    var t := EachTemplate(ObjectHead, ObjectItem, ObjectTail, hasItem);
    assert t[..|ObjectHead|][12] == t[12];
    if |t| >= |ArrayHead| {
      assert t[..|ArrayHead|][12] == t[12];
    }
  }

  lemma EachShape(head: string, item: string, tail: string, hasItem: bool)
    requires '!' !in head && '!' !in item
    ensures LoopShaped(EachTemplate(head, item, tail, hasItem), head, item, hasItem)
  {
    var before := head + (if hasItem then item else "");
    assert '!' !in before;
    NoBangNoMarkerStart(before);
    SlotAfter(before, tail);
    var t := EachTemplate(head, item, tail, hasItem);
    assert t == before + CodeMarker + tail;
    assert t[..|head|] == head;
    if hasItem {
      assert t[|head|..|head| + |item|] == item;
    }
  }

  // ---------------------------------------------------------------------------
  // escape, addCode, template, include
  // ---------------------------------------------------------------------------

  /** A character `escape` puts a backslash before. */
  predicate Special(c: char) {
    c == '\'' || c == '"' || c == '\r' || c == '\n' || c == '\\'
  }

  /** `escape`: one backslash before each quote, backslash and line
      terminator, a CRLF pair getting a single backslash. */
  function Escape(s: string): (r: string)
    ensures |r| >= |s|
    decreases |s|
  {
    if s == [] then []
    else if |s| >= 2 && s[0] == '\r' && s[1] == '\n' then "\\\r\n" + Escape(s[2..])
    else if Special(s[0]) then ['\\', s[0]] + Escape(s[1..])
    else [s[0]] + Escape(s[1..])
  }

  /** The inverse: drops the backslash `escape` put before each unit. */
  function Unescape(s: string): string
    decreases |s|
  {
    if |s| >= 3 && s[0] == '\\' && s[1] == '\r' && s[2] == '\n' then "\r\n" + Unescape(s[3..])
    else if |s| >= 2 && s[0] == '\\' then [s[1]] + Unescape(s[2..])
    else if s == [] then []
    else [s[0]] + Unescape(s[1..])
  }

  lemma {:induction false} EscapeRoundTrip(s: string)
    ensures Unescape(Escape(s)) == s
    decreases |s|
  {
    if s == [] {
    } else if |s| >= 2 && s[0] == '\r' && s[1] == '\n' {
      EscapeRoundTrip(s[2..]);
      var e := Escape(s[2..]);
      assert ("\\\r\n" + e)[3..] == e;
      assert s == "\r\n" + s[2..];
    } else if Special(s[0]) {
      EscapeRoundTrip(s[1..]);
      var e := Escape(s[1..]);
      assert (['\\', s[0]] + e)[2..] == e;
    } else {
      EscapeRoundTrip(s[1..]);
      var e := Escape(s[1..]);
      assert ([s[0]] + e)[1..] == e;
    }
  }

  /** `escape` changes a text exactly when it holds a special character. */
  lemma {:induction false} EscapeIdentity(s: string)
    ensures Escape(s) == s <==> forall i :: 0 <= i < |s| ==> !Special(s[i])
    decreases |s|
  {
    if s == [] {
    } else {
      EscapeIdentity(s[1..]);
      if |s| >= 2 && s[0] == '\r' && s[1] == '\n' {
        EscapeLonger(s);
      } else if Special(s[0]) {
        EscapeLonger(s);
      } else {
        assert Escape(s) == [s[0]] + Escape(s[1..]);
        assert (forall i :: 0 <= i < |s| ==> !Special(s[i])) <==>
               (forall i :: 0 <= i < |s[1..]| ==> !Special(s[1..][i])) by {
          forall i | 0 < i < |s| ensures s[i] == s[1..][i - 1] { }
        }
        if Escape(s) == s {
          assert Escape(s)[1..] == Escape(s[1..]);
        }
      }
    }
  }

  /** A text starting with a special character grows by its backslash. */
  lemma EscapeLonger(s: string)
    requires |s| > 0 && Special(s[0])
    ensures |Escape(s)| > |s|
  {
    if |s| >= 2 && s[0] == '\r' && s[1] == '\n' {
      assert |Escape(s)| == 3 + |Escape(s[2..])|;
    } else {
      assert |Escape(s)| == 2 + |Escape(s[1..])|;
    }
  }

  /** The parser fields `addCode` reads and writes. */
  datatype ParserFlags = ParserFlags(hasTemplates: bool, rootCode: string)

  const TemplatesPrologue: string :=
    ";function __Template () {}__Template.prototype = TSN.parentTemplate;var __template = new __Template;delete TSN.parentTemplate;"

  /** `addCode`: the prologue is appended to the root code once per parser;
      applied again it changes nothing. */
  function AddCode(p: ParserFlags): (r: ParserFlags)
    ensures r.hasTemplates
    ensures p.hasTemplates ==> r == p
    ensures !p.hasTemplates ==> r.rootCode == p.rootCode + TemplatesPrologue
  {
    if p.hasTemplates then p else ParserFlags(true, p.rootCode + TemplatesPrologue)
  }

  lemma AddCodeOnce(p: ParserFlags)
    ensures AddCode(AddCode(p)) == AddCode(p)
    ensures |AddCode(p).rootCode| <= |p.rootCode| + |TemplatesPrologue|
  {
  }

  /** What `template` and `include` return: the new parser flags and the
      node's template, or the error. */
  datatype HookOutcome = HookOutcome(parser: ParserFlags, template: Result<string, TagError>)

  /** `template`: a non-empty `name` is required; the template defines the
      named function with the tag's code as its body. */
  function Template(attrs: Attrs, code: string, encoding: string, p: ParserFlags): (r: HookOutcome)
    ensures "name" !in attrs ==> r == HookOutcome(p, Failure(NameMissing))
    ensures "name" in attrs && attrs["name"] == "" ==> r == HookOutcome(p, Failure(NameEmpty))
    ensures r.template.Success? <==> "name" in attrs && attrs["name"] != ""
    ensures r.template.Success? ==>
              var head := TemplateHead(attrs["name"]);
              && r.parser == AddCode(p)
              && StartsWith(r.template.value, head)
              && |r.template.value| >= |head| + |code|
              && r.template.value[|head|..|head| + |code|] == code
  {
    if "name" !in attrs then HookOutcome(p, Failure(NameMissing))
    else if attrs["name"] == "" then HookOutcome(p, Failure(NameEmpty))
    else
      var head := TemplateHead(attrs["name"]);
      var t := head + code + TemplateFoot(encoding);
      assert t[..|head|] == head;
      assert t[|head|..|head| + |code|] == code;
      HookOutcome(AddCode(p), Success(t))
  }

  /** The start of the function `template` defines, up to its body. */
  function TemplateHead(name: string): string {
    "__template[\"" + Escape(name) + "\"] = function (__output, __text) {"
  }

  /** What follows the body: the pending text is flushed and the output
      returned. */
  function TemplateFoot(encoding: string): string {
    ";__output += __text;__hasStream && __text !== \"\" && __stream.write(__text, \"" + encoding
    + "\");; return __output;};"
  }

  /** `template.end`: a template loaded by another one flushes its text. */
  function TemplateEnd(hasParent: bool, encoding: string): (r: Option<string>)
    ensures r.Some? <==> hasParent
  {
    if hasParent then
      Some(";__output += __text;__hasStream && __text !== \"\" && __stream.write(__text, \"" + encoding
           + "\");__hasStream = false;")
    else None
  }

  /** `include` with a `src` loads another template; that branch is not
      modelled and is reported as a request. */
  datatype Include = Included(template: string) | LoadRequest(src: string)

  const IncludeHead: string := ";__output += __template[\""
  const IncludeTail: string := "\"].call(/*!context*/, \"\", \"\");"

  /** `include`: the prologue is added first, whatever follows; `src` takes
      priority over `name`. */
  function IncludeHook(attrs: Attrs, p: ParserFlags): (r: (ParserFlags, Result<Include, TagError>))
    ensures r.0 == AddCode(p)
    ensures r.1.Failure? <==> "src" !in attrs && "name" !in attrs
    ensures r.1.Failure? ==> r.1.error == NameOrSrcMissing
    ensures "src" in attrs ==> r.1 == Success(LoadRequest(attrs["src"]))
    ensures "src" !in attrs && "name" in attrs ==>
              && r.1.Success? && r.1.value.Included?
              && var t := r.1.value.template;
              && |t| >= |IncludeHead| + |IncludeTail|
              && StartsWith(t, IncludeHead)
              && t[|t| - |IncludeTail|..] == IncludeTail
              // the name between them is escaped, and escaping loses nothing
              && Unescape(t[|IncludeHead|..|t| - |IncludeTail|]) == attrs["name"]
  {
    var p1 := AddCode(p);
    if "src" in attrs then (p1, Success(LoadRequest(attrs["src"])))
    else if "name" in attrs then
      var e := Escape(attrs["name"]);
      var t := IncludeHead + e + IncludeTail;
      assert t[|IncludeHead|..|t| - |IncludeTail|] == e;
      assert t[..|IncludeHead|] == IncludeHead;
      assert t[|t| - |IncludeTail|..] == IncludeTail;
      EscapeRoundTrip(attrs["name"]);
      (p1, Success(Included(t)))
    else (p1, Failure(NameOrSrcMissing))
  }
}
