/**
 * The older template builder of tsn.js: the namespace fallback, the
 * `TSN.extend` registration guard, the entity split of attribute values
 * (`attribute`) and its inverse (`toString`), and the tree-building scan of
 * the constructor with its end-of-input loop. As for lib/Parser.js, the
 * composite regular expressions are not modelled: their matches are the input.
 */
module Tsn {
  import opened Wrappers
  import opened TextUtil
  import Js

  // ---------------------------------------------------------------------------
  // Namespace fallback
  // ---------------------------------------------------------------------------

  const DefaultNamespace: string := "tsn"

  /** `/[a-z0-9-_]+/i.test(s)`: some character of `s` is a name character. */
  function HasNameChar(s: string): (r: bool)
    ensures r <==> exists i :: 0 <= i < |s| && IsNameChar(s[i])
    decreases |s|
  {
    if s == [] then false
    else if IsNameChar(s[0]) then true
    else
      assert forall i :: 1 <= i < |s| ==> s[i] == s[1..][i - 1];
      HasNameChar(s[1..])
  }

  /** A configured namespace the constructor accepts as it is. */
  predicate Usable(ns: Js.Value) {
    ns.Str? && |ns.s| > 0 && exists i :: 0 <= i < |ns.s| && IsNameChar(ns.s[i])
  }

  function Namespace(configured: Js.Value): (ns: string)
    ensures Usable(configured) ==> ns == configured.s
    ensures !Usable(configured) ==> ns == DefaultNamespace
    ensures Usable(Js.Str(ns))
  {
    assert IsNameChar(DefaultNamespace[0]);
    if configured.Str? && |configured.s| > 0 && HasNameChar(configured.s) then configured.s
    else DefaultNamespace
  }

  // ---------------------------------------------------------------------------
  // Tag registry and `TSN.extend`
  // ---------------------------------------------------------------------------

  /** What the guard inspects of a tag description: whether its `in` and `out`
      members are functions. A truthy value that is not an object has
      neither. */
  datatype TagData = TagData(inIsFunction: bool, outIsFunction: bool)

  /** The `tag` object: tag definitions by local name. */
  type Registry = map<string, TagData>

  predicate Renders(d: TagData) {
    d.inIsFunction || d.outIsFunction
  }

  /** `TSN.extend(name, data)`; `data` is `None` when it is falsy. A tag
      description that passes the guard is an object, so under the name
      `__proto__` it becomes the prototype of `tag` and no entry. */
  function Extend(registry: Registry, name: Js.Value, data: Option<TagData>): (r: Registry)
    ensures r.Keys == if name.Str? && name.s != Js.ProtoKey && data.Some? && Renders(data.value)
                      then registry.Keys + {name.s} else registry.Keys
    ensures forall k :: k in registry && !(name.Str? && k == name.s) ==> k in r && r[k] == registry[k]
    ensures name.Str? && name.s in r ==>
              r[name.s] == (if name.s != Js.ProtoKey && data.Some? && Renders(data.value) then data.value else registry[name.s])
  {
    if name.Str? && data.Some? && (data.value.inIsFunction || data.value.outIsFunction) && name.s != Js.ProtoKey then
      registry[name.s := data.value]
    else
      registry
  }

  // ---------------------------------------------------------------------------
  // Attribute values: `attribute` and `toString`
  // ---------------------------------------------------------------------------

  /** One match of the entity pattern `&ns.name;` inside an attribute value. */
  datatype Hit = Hit(index: nat, source: string, name: string)

  function HitEnd(h: Hit): nat {
    h.index + |h.source|
  }

  /** The entity matches of `value` at or after `from`, in order, as the global
      pattern finds them. */
  predicate HitsFrom(value: string, hits: seq<Hit>, from: nat)
    decreases |hits|
  {
    from <= |value| &&
    (hits != [] ==>
      && from <= hits[0].index
      && |hits[0].source| > 0
      && HitEnd(hits[0]) <= |value|
      && value[hits[0].index..HitEnd(hits[0])] == hits[0].source
      && HitsFrom(value, hits[1..], HitEnd(hits[0])))
  }

  /** An attribute as stored on a node: absent value, the plain string, or the
      alternating list `[text0, name1, text1, ..., namek, textk]`. */
  datatype AttrValue = Undefined | Plain(s: string) | Pieces(pieces: seq<string>)

  /** Where the scan of `value` stops: the end of the last match (`lastIndex`
      in tsn.js), or `from` when there is none. */
  function Reach(value: string, hits: seq<Hit>, from: nat): (e: nat)
    requires HitsFrom(value, hits, from)
    ensures from <= e <= |value|
    ensures hits != [] ==> e == HitEnd(hits[|hits| - 1]) && e > hits[0].index
    decreases |hits|
  {
    if hits == [] then from else Reach(value, hits[1..], HitEnd(hits[0]))
  }

  /** The text and name segments of `value` from `from` on. */
  function Segments(value: string, hits: seq<Hit>, from: nat): (r: seq<string>)
    requires HitsFrom(value, hits, from)
    ensures |r| == 2 * |hits| + 1 && |r| % 2 == 1
    ensures forall k :: 0 <= k < |hits| ==> r[2 * k + 1] == hits[k].name
    ensures r[0] == value[from..if hits == [] then |value| else hits[0].index]
    ensures r[|r| - 1] == value[Reach(value, hits, from)..]
    decreases |hits|
  {
    if hits == [] then [value[from..]]
    else
      var rest := Segments(value, hits[1..], HitEnd(hits[0]));
      assert forall k :: 1 <= k < |hits| ==> hits[k] == hits[1..][k - 1];
      [value[from..hits[0].index], hits[0].name] + rest
  }

  /** `attribute(result, name, value)`: the segment list when the scan moved
      past position 0, the value itself otherwise. A match is never empty, so
      that happens exactly when some entity occurs. */
  function Attribute(value: string, hits: seq<Hit>): (r: AttrValue)
    requires HitsFrom(value, hits, 0)
    ensures r.Plain? <==> hits == []
    ensures r.Plain? ==> r.s == value
    ensures r.Pieces? ==> |r.pieces| == 2 * |hits| + 1
    ensures r.Pieces? ==> forall k :: 0 <= k < |hits| ==> r.pieces[2 * k + 1] == hits[k].name
    ensures r.Pieces? ==> r.pieces[0] == value[..hits[0].index]
    ensures r.Pieces? ==> r.pieces[|r.pieces| - 1] == value[Reach(value, hits, 0)..]
  {
    if Reach(value, hits, 0) != 0 then Pieces(Segments(value, hits, 0)) else Plain(value)
  }

  /** `vars[name] + s` in JavaScript, with `vars` holding own string
      properties only: a name that is neither an own property nor a member
      of `Object.prototype` reads as "undefined". */
  function VarText(vars: map<string, string>, name: string): string {
    if name in vars then vars[name] else "undefined"
  }

  /** Reference reading of a segment list, front to back. */
  function Joined(pieces: seq<string>, vars: map<string, string>): string
    requires |pieces| % 2 == 1
    decreases |pieces|
  {
    if |pieces| == 1 then pieces[0]
    else pieces[0] + VarText(vars, pieces[1]) + Joined(pieces[2..], vars)
  }

  /** `toString`: builds the string back to front, as tsn.js does. */
  method ToString(pieces: seq<string>, vars: map<string, string>) returns (r: string)
    requires |pieces| % 2 == 1
    ensures r == Joined(pieces, vars)
  {
    var length := |pieces| - 1;
    r := pieces[length];
    while length > 0
      invariant 0 <= length < |pieces| && length % 2 == 0
      invariant r == Joined(pieces[length..], vars)
      decreases length
    {
      JoinedStep(pieces, length, vars);
      r := VarText(vars, pieces[length - 1]) + r;
      r := pieces[length - 2] + r;
      length := length - 2;
    }
  }

  /** Reading one more variable and the text before it, from the back. */
  lemma JoinedStep(pieces: seq<string>, i: nat, vars: map<string, string>)
    requires |pieces| % 2 == 1 && 0 < i < |pieces| && i % 2 == 0
    ensures 2 <= i && (i - 2) % 2 == 0 && |pieces[i..]| % 2 == 1 && |pieces[i - 2..]| % 2 == 1
    ensures Joined(pieces[i - 2..], vars) == pieces[i - 2] + (VarText(vars, pieces[i - 1]) + Joined(pieces[i..], vars))
  {
    assert pieces[i - 2..][2..] == pieces[i..];
  }

  // ---------------------------------------------------------------------------
  // Tokens of the scan
  // ---------------------------------------------------------------------------

  /** One attribute of an opening tag: its name, whether its value was
      single-quoted, the text between the quotes and the entity matches in
      that text. */
  datatype TAttr = TAttr(name: string, singleQuoted: bool, raw: string, hits: seq<Hit>)

  /** Which alternative of the composite tag pattern matched. */
  datatype TToken =
    | EntityTok(name: string)
    | CommentTok
    | CDataTok
    | CloseTok(name: string)
    | OpenTok(name: string, attributes: seq<TAttr>, selfClosing: bool)

  datatype TMatch = TMatch(index: nat, source: string, token: TToken)

  function End(m: TMatch): nat {
    m.index + |m.source|
  }

  predicate AttrOk(a: TAttr) {
    |a.name| > 0 && HitsFrom(a.raw, a.hits, 0)
  }

  /** What the pattern guarantees about one match inside `path`: it is not
      empty, it is the text at its index, and its captured names are not
      empty. */
  predicate MatchOk(path: string, m: TMatch) {
    && |m.source| > 0
    && End(m) <= |path|
    && path[m.index..End(m)] == m.source
    && match m.token
       case EntityTok(name) => |name| > 0
       case CloseTok(name) => |name| > 0
       case OpenTok(name, attrs, _) => |name| > 0 && forall i :: 0 <= i < |attrs| ==> AttrOk(attrs[i])
       case _ => true
  }

  /** The matches of the global pattern over `path` from position `from` on:
      in order and not overlapping. */
  predicate Matches(path: string, ms: seq<TMatch>, from: nat)
    decreases |ms|
  {
    ms != [] ==> from <= ms[0].index && MatchOk(path, ms[0]) && Matches(path, ms[1..], End(ms[0]))
  }

  // ---------------------------------------------------------------------------
  // Attribute maps of a node
  // ---------------------------------------------------------------------------

  /** The value stored for one attribute when single-quoted values are read
      like double-quoted ones (the corrected reading). `AttrValueAsWritten` is
      the value tsn.js stores. */
  function StoredValue(a: TAttr): (r: AttrValue)
    requires AttrOk(a)
    ensures r != Undefined
  {
    Attribute(a.raw, a.hits)
  }

  /** The value tsn.js stores: its attribute pattern captures the text of a
      double-quoted value only, so a single-quoted one reaches `attribute` as
      `undefined`, which has no entity in it and is stored as it is. */
  function AttrValueAsWritten(a: TAttr): (r: AttrValue)
    requires AttrOk(a)
    ensures r == Undefined <==> a.singleQuoted
    ensures !a.singleQuoted ==> r == StoredValue(a)
  {
    if a.singleQuoted then Undefined else Attribute(a.raw, a.hits)
  }

  /** The attribute that decides the value stored under its name: a later
      attribute of the same name overwrites an earlier one. */
  predicate LastOfName(attrs: seq<TAttr>, i: nat)
    requires i < |attrs|
  {
    forall j :: i < j < |attrs| ==> attrs[j].name != attrs[i].name
  }

  /** The value stored for one attribute under either reading of the
      attribute pattern: `fixed` is the corrected one. */
  function ValueOf(fixed: bool, a: TAttr): AttrValue
    requires AttrOk(a)
  {
    if fixed then StoredValue(a) else AttrValueAsWritten(a)
  }

  /** The attribute map of a node: each attribute in turn is stored under its
      name (`AttributesKeys` and `AttributesLast` state the result). An
      assignment to `__proto__` creates no own key, whatever the value. */
  function Attributes(fixed: bool, attrs: seq<TAttr>): map<string, AttrValue>
    requires forall i :: 0 <= i < |attrs| ==> AttrOk(attrs[i])
    decreases |attrs|
  {
    if attrs == [] then map[]
    else
      var n := |attrs| - 1;
      var front := Attributes(fixed, attrs[..n]);
      if attrs[n].name == Js.ProtoKey then front else front[attrs[n].name := ValueOf(fixed, attrs[n])]
  }

  /** The keys of the attribute map are the attribute names other than
      `__proto__`. */
  lemma {:induction false} AttributesKeys(fixed: bool, attrs: seq<TAttr>)
    requires forall i :: 0 <= i < |attrs| ==> AttrOk(attrs[i])
    ensures Attributes(fixed, attrs).Keys == set i | 0 <= i < |attrs| && attrs[i].name != Js.ProtoKey :: attrs[i].name
    decreases |attrs|
  {
    if attrs != [] {
      var n := |attrs| - 1;
      var front := attrs[..n];
      AttributesKeys(fixed, front);
      KeptNamesStep(attrs);
    }
  }

  /** The names an attribute list keeps as keys, one attribute at a time. */
  lemma KeptNamesStep(attrs: seq<TAttr>)
    requires |attrs| > 0
    ensures var n := |attrs| - 1;
            (set i | 0 <= i < |attrs| && attrs[i].name != Js.ProtoKey :: attrs[i].name)
            == (set i | 0 <= i < n && attrs[..n][i].name != Js.ProtoKey :: attrs[..n][i].name)
               + (if attrs[n].name == Js.ProtoKey then {} else {attrs[n].name})
  {
    var n := |attrs| - 1;
    var front := attrs[..n];
    var before := set i | 0 <= i < n && front[i].name != Js.ProtoKey :: front[i].name;
    var all := set i | 0 <= i < |attrs| && attrs[i].name != Js.ProtoKey :: attrs[i].name;
    var last: set<string> := if attrs[n].name == Js.ProtoKey then {} else {attrs[n].name};
    forall k | k in all ensures k in before + last {
      var i :| 0 <= i < |attrs| && attrs[i].name != Js.ProtoKey && attrs[i].name == k;
      if i < n {
        assert front[i] == attrs[i];
      }
    }
    forall k | k in before ensures k in all {
      var i :| 0 <= i < n && front[i].name != Js.ProtoKey && front[i].name == k;
      assert front[i] == attrs[i];
    }
  }

  /** Each name holds the value of its last attribute: as tsn.js reads it,
      `undefined` when that attribute is single-quoted; as corrected, always
      the value passed through `attribute`. */
  lemma {:induction false} AttributesLast(fixed: bool, attrs: seq<TAttr>, i: nat)
    requires forall k :: 0 <= k < |attrs| ==> AttrOk(attrs[k])
    requires i < |attrs| && LastOfName(attrs, i)
    ensures attrs[i].name == Js.ProtoKey ==> attrs[i].name !in Attributes(fixed, attrs)
    ensures attrs[i].name != Js.ProtoKey ==> attrs[i].name in Attributes(fixed, attrs)
    ensures attrs[i].name != Js.ProtoKey && !fixed ==> Attributes(fixed, attrs)[attrs[i].name] == AttrValueAsWritten(attrs[i])
    ensures attrs[i].name != Js.ProtoKey && !fixed ==>
              (Attributes(fixed, attrs)[attrs[i].name] == Undefined <==> attrs[i].singleQuoted)
    ensures attrs[i].name != Js.ProtoKey && fixed ==> Attributes(fixed, attrs)[attrs[i].name] == StoredValue(attrs[i])
    decreases |attrs|
  {
    var n := |attrs| - 1;
    if i < n {
      var front := attrs[..n];
      assert front[i] == attrs[i];
      assert LastOfName(front, i) by {
        forall j | i < j < n ensures front[j].name != front[i].name {
          assert front[j] == attrs[j];
        }
      }
      AttributesLast(fixed, front, i);
      assert attrs[n].name != attrs[i].name;
    } else if attrs[i].name == Js.ProtoKey {
      AttributesKeys(fixed, attrs[..n]);
    }
  }

  // ---------------------------------------------------------------------------
  // The tree under construction
  // ---------------------------------------------------------------------------

  /** A node of the template tree. Nodes live in one sequence and refer to each
      other by position; position 0 is the template object itself, which has
      no name and no start. `children` is absent on leaves. */
  datatype TNode = TNode(
    name: Option<string>,
    attributes: map<string, AttrValue>,
    start: Option<nat>,
    end: Option<nat>,
    children: Option<seq<nat>>,
    parent: nat)

  const RootNode: TNode := TNode(None, map[], None, None, Some([]), 0)

  datatype TErrorKind =
    | UnknownTag          // an unknown self-closing tag
    | UnknownTagOpening   // an unknown opening tag
    | MissingStartTag     // a known closing tag that does not close the cursor
    | UnknownTagClosing   // an unknown closing tag
    | TagNotClosed        // reported at the end of input

  /** One entry of `errors`: its kind, the tag name it cites (`None` stands for
      the template object's missing name), and the index and match text that
      `getErrorData` receives to compute the line (`ErrorLine`). */
  datatype TError = TError(kind: TErrorKind, name: Option<string>, at: Option<nat>, result: string)

  /** The inputs of one construction: the path with the XML declaration cut
      off, that declaration, the names of the known tags, whether comments
      are kept (`saveComments === true`) and which reading of the attribute
      pattern applies (`fixed`: single-quoted values are read like
      double-quoted ones; otherwise they are lost, as tsn.js:149 is written). */
  datatype Input = Input(path: string, declaration: string, known: set<string>, saveComments: bool, fixed: bool)

  /** The constructor's working variables: the nodes, the cursor `current`,
      the `stack` of enclosing nodes, `this.text`, `resultLength` (the length
      of the matches removed from the text so far), `lastIndex` and `errors`. */
  datatype Builder = Builder(
    nodes: seq<TNode>,
    current: nat,
    stack: seq<nat>,
    text: string,
    resultLength: nat,
    lastIndex: nat,
    errors: seq<TError>)

  /** The open nodes, outermost first: the stack followed by the cursor. */
  function Open(b: Builder): seq<nat> {
    b.stack + [b.current]
  }

  /** Start and end of a non-root node lie in the text built so far. */
  predicate NodeShape(n: TNode, textLength: nat) {
    && n.name.Some?
    && n.start.Some?
    && n.start.value <= textLength
    && (n.end.Some? ==> n.start.value <= n.end.value <= textLength)
  }

  /** The tree invariant: the open nodes form a chain of parent links from the
      template object to the cursor, each with a children list, and a node
      other than the template object has an end exactly when it is closed. */
  predicate Shape(b: Builder) {
    && |b.nodes| >= 1
    && b.nodes[0].name.None?
    && b.nodes[0].start.None?
    && Chain(b.nodes, Open(b))
    && Placed(b.nodes, Open(b), |b.text|)
  }

  /** `open` runs from the template object down a path of parent links, and
      every node on it has a children list. */
  predicate Chain(nodes: seq<TNode>, open: seq<nat>) {
    && |open| >= 1
    && open[0] == 0
    && (forall i :: 0 <= i < |open| ==> open[i] < |nodes|)
    && (forall i, j :: 0 <= i < j < |open| ==> open[i] < open[j])
    && (forall i :: 1 <= i < |open| ==> nodes[open[i]].parent == open[i - 1])
    && (forall i :: 0 <= i < |open| ==> nodes[open[i]].children.Some?)
  }

  /** Every node but the template object lies in the text, and has an end
      exactly when it is not open. */
  predicate Placed(nodes: seq<TNode>, open: seq<nat>, textLength: nat) {
    && (forall k :: 1 <= k < |nodes| ==> NodeShape(nodes[k], textLength))
    && (forall k :: 1 <= k < |nodes| ==> (nodes[k].end.None? <==> k in open))
  }

  /** The offset invariant of the scan: everything before `lastIndex` is
      either in the text or counted in `resultLength`. */
  predicate Valid(inp: Input, b: Builder) {
    && Shape(b)
    && b.lastIndex == |b.text| + b.resultLength
    && b.lastIndex <= |inp.path|
  }

  function Start(): (b: Builder)
    ensures forall inp: Input :: Valid(inp, b)
  {
    Builder([RootNode], 0, [], "", 0, 0, [])
  }

  /** The text `getErrorData` counts lines in: the path up to `index`, the
      declaration and the match. An undefined index takes the whole path
      (`substr(0, undefined)`). */
  function ErrorText(inp: Input, index: Option<nat>, result: string): string {
    var upTo := if index.Some? && index.value < |inp.path| then inp.path[..index.value] else inp.path;
    upTo + inp.declaration + result
  }

  /** The line `getErrorData` reports: one more than the number of `\r` and
      `\n` characters, each counted on its own. */
  function LineAt(inp: Input, index: Option<nat>, result: string): (line: nat)
    ensures line >= 1
  {
    BreakChars(ErrorText(inp, index, result)) + 1
  }

  /** Every error cites a tag name. */
  predicate Named(errors: seq<TError>) {
    forall i :: 0 <= i < |errors| ==> errors[i].name.Some?
  }

  /** The line an error reports. */
  function ErrorLine(inp: Input, e: TError): nat {
    LineAt(inp, e.at, e.result)
  }

  /** What `Shape` says about the cursor and the stack. */
  lemma CursorFacts(b: Builder)
    requires Shape(b)
    ensures b.current < |b.nodes| && b.nodes[b.current].children.Some?
    ensures b.stack == [] <==> b.current == 0
    ensures b.stack != [] ==> b.nodes[b.current].parent == b.stack[|b.stack| - 1]
    ensures forall i :: 0 <= i < |b.stack| ==> b.stack[i] < b.current
  {
    var open := Open(b);
    assert open[|open| - 1] == b.current;
    forall i | 0 <= i < |b.stack|
      ensures b.stack[i] < b.current
    {
      assert open[i] == b.stack[i];
    }
    if b.stack != [] {
      assert open[|open| - 2] == b.stack[|b.stack| - 1];
      assert open[0] == b.stack[0];
    }
  }

  /** Appends `node` as the last child of the cursor. */
  function AddChild(b: Builder, node: TNode): (r: seq<TNode>)
    requires b.current < |b.nodes| && b.nodes[b.current].children.Some?
    ensures |r| == |b.nodes| + 1 && r[|b.nodes|] == node
    ensures r[b.current].children == Some(b.nodes[b.current].children.value + [|b.nodes|])
    ensures forall k :: 0 <= k < |b.nodes| ==> r[k] == b.nodes[k].(children := r[k].children)
    ensures forall k :: 0 <= k < |b.nodes| ==> r[k].children.Some? == b.nodes[k].children.Some?
    ensures forall k :: 0 <= k < |b.nodes| && k != b.current ==> r[k] == b.nodes[k]
  {
    var cur := b.nodes[b.current];
    b.nodes[b.current := cur.(children := Some(cur.children.value + [|b.nodes|]))] + [node]
  }

  /** A node created at the current position of the text, under the cursor. */
  predicate Fresh(b: Builder, node: TNode) {
    node.name.Some? && node.start == Some(|b.text|) && node.parent == b.current
  }

  /** Adding a closed leaf keeps the tree invariant. */
  lemma ShapeLeaf(b: Builder, node: TNode)
    requires Shape(b) && Fresh(b, node) && node.end == node.start
    ensures b.current < |b.nodes| && b.nodes[b.current].children.Some?
    ensures Shape(b.(nodes := AddChild(b, node)))
  {
    CursorFacts(b);
    var r := b.(nodes := AddChild(b, node));
    assert Open(r) == Open(b);
    assert |b.nodes| !in Open(b) by {
      forall i | 0 <= i < |Open(b)| ensures Open(b)[i] != |b.nodes| { }
    }
  }

  /** A new open node under the last open one extends the chain. */
  lemma ChainExtend(nodes: seq<TNode>, open: seq<nat>, nodes2: seq<TNode>)
    requires Chain(nodes, open) && |nodes2| == |nodes| + 1
    requires forall k :: 0 <= k < |nodes| ==>
               nodes2[k].parent == nodes[k].parent && nodes2[k].children.Some? == nodes[k].children.Some?
    requires nodes2[|nodes|].parent == open[|open| - 1] && nodes2[|nodes|].children.Some?
    ensures Chain(nodes2, open + [|nodes|])
  {
    var o2 := open + [|nodes|];
    forall i | 1 <= i < |o2| ensures nodes2[o2[i]].parent == o2[i - 1] {
      if i < |open| {
        assert o2[i] == open[i] && o2[i - 1] == open[i - 1];
      }
    }
  }

  /** A new open node placed in the text keeps every node placed. */
  lemma PlacedExtend(nodes: seq<TNode>, open: seq<nat>, nodes2: seq<TNode>, textLength: nat)
    requires Placed(nodes, open, textLength) && |nodes2| == |nodes| + 1
    requires forall i :: 0 <= i < |open| ==> open[i] < |nodes|
    requires forall k :: 0 <= k < |nodes| ==>
               nodes2[k].name == nodes[k].name && nodes2[k].start == nodes[k].start && nodes2[k].end == nodes[k].end
    requires NodeShape(nodes2[|nodes|], textLength) && nodes2[|nodes|].end.None?
    ensures Placed(nodes2, open + [|nodes|], textLength)
  {
    var o2 := open + [|nodes|];
    forall k | 1 <= k < |nodes2| ensures nodes2[k].end.None? <==> k in o2 {
      if k < |nodes| {
        assert k in o2 <==> k in open;
      } else {
        assert o2[|o2| - 1] == k;
      }
    }
  }

  /** Adding an open node and descending into it keeps the tree invariant. */
  lemma ShapeDescend(b: Builder, node: TNode)
    requires Shape(b) && Fresh(b, node) && node.end.None? && node.children.Some?
    ensures b.current < |b.nodes| && b.nodes[b.current].children.Some?
    ensures Shape(b.(nodes := AddChild(b, node), stack := b.stack + [b.current], current := |b.nodes|))
  {
    CursorFacts(b);
    var nodes := AddChild(b, node);
    var r := b.(nodes := nodes, stack := b.stack + [b.current], current := |b.nodes|);
    assert Open(r) == Open(b) + [|b.nodes|];
    forall k | 0 <= k < |b.nodes|
      ensures nodes[k].parent == b.nodes[k].parent && nodes[k].children.Some? == b.nodes[k].children.Some?
      ensures nodes[k].name == b.nodes[k].name && nodes[k].start == b.nodes[k].start && nodes[k].end == b.nodes[k].end
    {
      assert nodes[k] == b.nodes[k].(children := nodes[k].children);
    }
    ChainExtend(b.nodes, Open(b), nodes);
    PlacedExtend(b.nodes, Open(b), nodes, |b.text|);
  }

  /** Closing the cursor and returning to its parent keeps the tree invariant. */
  lemma ShapeClose(b: Builder, closed: TNode)
    requires Shape(b) && b.stack != [] && b.current < |b.nodes|
    requires closed == b.nodes[b.current].(end := closed.end, children := closed.children)
    requires closed.start.Some? && closed.end.Some? && closed.start.value <= closed.end.value <= |b.text|
    ensures Shape(b.(nodes := b.nodes[b.current := closed], current := b.stack[|b.stack| - 1], stack := b.stack[..|b.stack| - 1]))
  {
    CursorFacts(b);
    var n := |b.stack| - 1;
    var r := b.(nodes := b.nodes[b.current := closed], current := b.stack[n], stack := b.stack[..n]);
    assert Open(b) == Open(r) + [b.current];
    ChainClose(b.nodes, Open(r), b.current, closed);
    PlacedClose(b.nodes, Open(r), |b.text|, b.current, closed);
  }

  /** Dropping the last node of a chain, and changing it, leaves a chain. */
  lemma ChainClose(nodes: seq<TNode>, open: seq<nat>, c: nat, closed: TNode)
    requires Chain(nodes, open + [c]) && |open| >= 1 && c < |nodes|
    ensures Chain(nodes[c := closed], open)
  {
    var whole := open + [c];
    assert forall i :: 0 <= i < |open| ==> open[i] == whole[i];
    assert forall i :: 0 <= i < |open| ==> whole[i] < whole[|open|];
  }

  /** Giving the last node of a chain an end inside the text keeps every
      node placed. */
  lemma PlacedClose(nodes: seq<TNode>, open: seq<nat>, textLength: nat, c: nat, closed: TNode)
    requires Chain(nodes, open + [c]) && Placed(nodes, open + [c], textLength) && |open| >= 1
    requires c < |nodes| && closed == nodes[c].(end := closed.end, children := closed.children)
    requires closed.start.Some? && closed.end.Some? && closed.start.value <= closed.end.value <= textLength
    ensures Placed(nodes[c := closed], open, textLength)
  {
    var whole := open + [c];
    assert whole[0] < whole[|open|];
    assert NodeShape(nodes[c], textLength);
    forall k | 1 <= k < |nodes|
      ensures nodes[c := closed][k].end.None? <==> k in open
    {
      if k != c {
        assert k in whole <==> k in open;
      } else {
        forall i | 0 <= i < |open| ensures open[i] != c {
          assert open[i] == whole[i] && whole[i] < whole[|open|];
        }
      }
    }
  }

  /** Appending to the text keeps the tree invariant. */
  lemma ShapeGrow(b: Builder, t: string)
    requires Shape(b)
    ensures Shape(b.(text := b.text + t))
  {
    var r := b.(text := b.text + t);
    assert Open(r) == Open(b);
    forall k | 1 <= k < |b.nodes|
      ensures NodeShape(r.nodes[k], |r.text|)
    {
      assert NodeShape(b.nodes[k], |b.text|);
    }
  }

  /** An entity `&ns.name;` becomes an `echo` leaf at the current position. */
  function OnEntity(b: Builder, name: string, length: nat): (r: Builder)
    requires Shape(b)
    ensures b.current < |b.nodes| && b.nodes[b.current].children.Some?
    ensures Shape(r)
    ensures |r.nodes| == |b.nodes| + 1
    ensures r.nodes[|b.nodes|] == TNode(Some("echo"), map["var" := Plain(name)], Some(|b.text|), Some(|b.text|), None, b.current)
    ensures r.nodes[b.current].children == Some(b.nodes[b.current].children.value + [|b.nodes|])
    ensures r == b.(nodes := r.nodes, resultLength := b.resultLength + length)
  {
    var node := TNode(Some("echo"), map["var" := Plain(name)], Some(|b.text|), Some(|b.text|), None, b.current);
    ShapeLeaf(b, node);
    b.(nodes := AddChild(b, node), resultLength := b.resultLength + length)
  }

  /** The node a known opening tag creates. */
  function OpenedNode(inp: Input, b: Builder, m: TMatch): (node: TNode)
    requires m.token.OpenTok?
    requires forall i :: 0 <= i < |m.token.attributes| ==> AttrOk(m.token.attributes[i])
    ensures Fresh(b, node)
    ensures node.end.None? <==> !m.token.selfClosing
    ensures node.children.Some? <==> !m.token.selfClosing
  {
    var start := |b.text|;
    TNode(Some(m.token.name), Attributes(inp.fixed, m.token.attributes), Some(start),
          if m.token.selfClosing then Some(start) else None,
          if m.token.selfClosing then None else Some([]), b.current)
  }

  function OnOpen(inp: Input, b: Builder, m: TMatch): (r: Builder)
    requires Shape(b) && m.token.OpenTok?
    requires forall i :: 0 <= i < |m.token.attributes| ==> AttrOk(m.token.attributes[i])
    ensures b.current < |b.nodes| && b.nodes[b.current].children.Some?
    ensures Shape(r)
    ensures r.text == b.text && r.resultLength == b.resultLength + |m.source|
    ensures m.token.name !in inp.known ==>
      r == b.(resultLength := r.resultLength,
               errors := b.errors + [TError(if m.token.selfClosing then UnknownTag else UnknownTagOpening,
                                            Some(m.token.name), Some(m.index), m.source)])
    ensures m.token.name in inp.known ==>
      && r.errors == b.errors
      && |r.nodes| == |b.nodes| + 1
      && r.nodes[|b.nodes|] == OpenedNode(inp, b, m)
      && r.nodes[b.current].children == Some(b.nodes[b.current].children.value + [|b.nodes|])
      && (m.token.selfClosing ==> r.current == b.current && r.stack == b.stack)
      && (!m.token.selfClosing ==> r.current == |b.nodes| && r.stack == b.stack + [b.current])
  {
    CursorFacts(b);
    var length := b.resultLength + |m.source|;
    if m.token.name in inp.known then
      var node := OpenedNode(inp, b, m);
      if m.token.selfClosing then
        ShapeLeaf(b, node);
        b.(nodes := AddChild(b, node), resultLength := length)
      else
        ShapeDescend(b, node);
        b.(nodes := AddChild(b, node), stack := b.stack + [b.current], current := |b.nodes|, resultLength := length)
    else
      var kind := if m.token.selfClosing then UnknownTag else UnknownTagOpening;
      b.(errors := b.errors + [TError(kind, Some(m.token.name), Some(m.index), m.source)], resultLength := length)
  }

  /** The closing tag closes the cursor: it is known and names the cursor. The
      template object has no name, so it is never closed. */
  predicate Closes(inp: Input, b: Builder, m: TMatch)
    requires m.token.CloseTok? && b.current < |b.nodes|
  {
    m.token.name in inp.known && b.nodes[b.current].name == Some(m.token.name)
  }

  function OnClose(inp: Input, b: Builder, m: TMatch): (r: Builder)
    requires Shape(b) && m.token.CloseTok?
    ensures b.current < |b.nodes|
    ensures Shape(r)
    ensures r.text == b.text && r.resultLength == b.resultLength + |m.source|
    ensures Closes(inp, b, m) ==>
      && b.stack != []
      && r.current == b.nodes[b.current].parent
      && r.stack == b.stack[..|b.stack| - 1]
      && r.errors == b.errors
      && |r.nodes| == |b.nodes|
      && r.nodes[b.current].end == Some(|b.text|)
      && (r.nodes[b.current].children.None? <==> b.nodes[b.current].children == Some([]))
      && (forall k :: 0 <= k < |b.nodes| && k != b.current ==> r.nodes[k] == b.nodes[k])
    ensures !Closes(inp, b, m) ==>
      r == b.(resultLength := r.resultLength,
               errors := b.errors + [TError(if m.token.name in inp.known then MissingStartTag else UnknownTagClosing,
                                            Some(m.token.name), Some(m.index), m.source)])
  {
    CursorFacts(b);
    var name := m.token.name;
    var length := b.resultLength + |m.source|;
    if name in inp.known then
      if b.nodes[b.current].name == Some(name) then
        var cur := b.nodes[b.current];
        var closed := cur.(children := if cur.children == Some([]) then None else cur.children, end := Some(|b.text|));
        ShapeClose(b, closed);
        var n := |b.stack| - 1;
        b.(nodes := b.nodes[b.current := closed], current := b.stack[n], stack := b.stack[..n], resultLength := length)
      else
        b.(errors := b.errors + [TError(MissingStartTag, Some(name), Some(m.index), m.source)], resultLength := length)
    else
      b.(errors := b.errors + [TError(UnknownTagClosing, Some(name), Some(m.index), m.source)], resultLength := length)
  }


  /** The part of a match that stays in the text: a comment when comments are
      kept, a CDATA section always, nothing of an entity or a tag. */
  function Kept(inp: Input, m: TMatch): string {
    match m.token
    case CommentTok => if inp.saveComments then m.source else ""
    case CDataTok => m.source
    case _ => ""
  }

  /** The match itself, once the gap before it is in the text. */
  function OnMatch(inp: Input, b: Builder, m: TMatch): (r: Builder)
    requires Shape(b) && MatchOk(inp.path, m)
    ensures Shape(r)
    ensures r.text == b.text + Kept(inp, m)
    ensures |r.text| + r.resultLength == |b.text| + b.resultLength + |m.source|
    ensures Named(b.errors) ==> Named(r.errors)
  {
    match m.token
    case EntityTok(name) => OnEntity(b, name, |m.source|)
    case OpenTok(_, _, _) => OnOpen(inp, b, m)
    case CloseTok(_) => OnClose(inp, b, m)
    case CommentTok =>
      if inp.saveComments then ShapeGrow(b, m.source); b.(text := b.text + m.source)
      else b.(resultLength := b.resultLength + |m.source|)
    case CDataTok => ShapeGrow(b, m.source); b.(text := b.text + m.source)
  }

  /** One iteration of the scan loop: the gap before the match goes to the
      text, then the match is handled and `lastIndex` moves past it. */
  function Step(inp: Input, b: Builder, m: TMatch): (r: Builder)
    requires Valid(inp, b) && MatchOk(inp.path, m) && b.lastIndex <= m.index
    ensures Valid(inp, r)
    ensures r.lastIndex == End(m)
    ensures r.text == b.text + inp.path[b.lastIndex..m.index] + Kept(inp, m)
    ensures Named(b.errors) ==> Named(r.errors)
  {
    var gap := inp.path[b.lastIndex..m.index];
    ShapeGrow(b, gap);
    OnMatch(inp, b.(text := b.text + gap), m).(lastIndex := End(m))
  }

  // ---------------------------------------------------------------------------
  // End of input
  // ---------------------------------------------------------------------------

  /** What a report about a node uses of it: its name and its start. */
  datatype Head = Head(name: Option<string>, start: Option<nat>)

  function Heads(nodes: seq<TNode>): (r: seq<Head>)
    ensures |r| == |nodes|
    ensures forall k :: 0 <= k < |nodes| ==> r[k] == Head(nodes[k].name, nodes[k].start)
  {
    seq(|nodes|, k requires 0 <= k < |nodes| => Head(nodes[k].name, nodes[k].start))
  }

  /** The error reported for a node left open. */
  function NotClosed(inp: Input, h: Head, result: string): TError {
    TError(TagNotClosed, h.name, h.start, result)
  }

  /** A sequence back to front: the order in which `pop` visits a stack. */
  function Reversed(s: seq<nat>): (r: seq<nat>)
    ensures |r| == |s|
    ensures forall i :: 0 <= i < |s| ==> r[i] == s[|s| - 1 - i]
    decreases |s|
  {
    if s == [] then [] else [s[|s| - 1]] + Reversed(s[..|s| - 1])
  }

  /** The head at position `k`; positions past the end, which the callers
      never use, read as a nameless head. */
  function HeadAt(heads: seq<Head>, k: nat): Head {
    if k < |heads| then heads[k] else Head(None, None)
  }

  /** One `TagNotClosed` report per node of `order`, in that order. */
  function Reports(inp: Input, heads: seq<Head>, order: seq<nat>, result: string): (r: seq<TError>)
    ensures |r| == |order|
    ensures forall i :: 0 <= i < |order| ==> r[i] == NotClosed(inp, HeadAt(heads, order[i]), result)
    decreases |order|
  {
    if order == [] then [] else [NotClosed(inp, HeadAt(heads, order[0]), result)] + Reports(inp, heads, order[1..], result)
  }

  /** One iteration of the corrected end-of-input loop: the cursor is
      reported, ends where it starts, and the cursor returns to its parent. */
  function PopOpen(inp: Input, b: Builder, result: string): (r: Builder)
    requires Shape(b) && b.stack != []
    ensures Shape(r)
    ensures b.current < |b.nodes| && |r.stack| == |b.stack| - 1 && r.lastIndex == b.lastIndex
    ensures Open(b) == Open(r) + [b.current]
    ensures Heads(r.nodes) == Heads(b.nodes) && r.text == b.text
    ensures r.errors == b.errors + [NotClosed(inp, Heads(b.nodes)[b.current], result)]
    ensures b.nodes[b.current].name.Some?
    ensures r.nodes[b.current].end == b.nodes[b.current].start
    ensures forall k :: 0 <= k < |b.nodes| && k != b.current ==> r.nodes[k] == b.nodes[k]
  {
    CursorFacts(b);
    var n := b.nodes[b.current];
    assert NodeShape(n, |b.text|);
    var closed := n.(end := n.start);
    ShapeClose(b, closed);
    var last := |b.stack| - 1;
    var nodes := b.nodes[b.current := closed];
    assert Heads(nodes) == Heads(b.nodes);
    b.(nodes := nodes, current := b.stack[last], stack := b.stack[..last],
       errors := b.errors + [NotClosed(inp, Heads(b.nodes)[b.current], result)])
  }

  /** The end-of-input loop as evidently intended: every open node, innermost
      first, is reported and given `end = start`, and the cursor returns to
      the template object. `result` is the last match. */
  function CloseOpen(inp: Input, b: Builder, result: string): (r: Builder)
    requires Shape(b)
    ensures Shape(r)
    ensures r.stack == [] && r.current == 0
    ensures Heads(r.nodes) == Heads(b.nodes) && r.text == b.text && r.lastIndex == b.lastIndex
    ensures Named(b.errors) ==> Named(r.errors)
    decreases |b.stack|
  {
    CursorFacts(b);
    if b.stack == [] then b
    else CloseOpen(inp, PopOpen(inp, b, result), result)
  }

  /** The corrected loop reports the open nodes other than the template
      object, innermost first. */
  lemma {:induction false} CloseOpenReports(inp: Input, b: Builder, result: string)
    requires Shape(b)
    ensures CloseOpen(inp, b, result).errors == b.errors + Reports(inp, Heads(b.nodes), Reversed(Open(b)[1..]), result)
    decreases |b.stack|
  {
    CursorFacts(b);
    if b.stack != [] {
      var next := PopOpen(inp, b, result);
      CloseOpenReports(inp, next, result);
      ReportsAfterPop(inp, b, next, result);
    }
  }

  /** The reports still due after one pop, together with the one it made, are
      the reports due before it. */
  lemma ReportsAfterPop(inp: Input, b: Builder, next: Builder, result: string)
    requires b.current < |b.nodes| && |Open(next)| >= 1
    requires Open(b) == Open(next) + [b.current]
    requires Heads(next.nodes) == Heads(b.nodes)
    requires next.errors == b.errors + [NotClosed(inp, Heads(b.nodes)[b.current], result)]
    ensures next.errors + Reports(inp, Heads(next.nodes), Reversed(Open(next)[1..]), result)
         == b.errors + Reports(inp, Heads(b.nodes), Reversed(Open(b)[1..]), result)
  {
    var heads := Heads(b.nodes);
    ReportsPop(inp, heads, Open(next), b.current, result);
    var first := [NotClosed(inp, heads[b.current], result)];
    var rest := Reports(inp, heads, Reversed(Open(next)[1..]), result);
    assert next.errors + rest == b.errors + (first + rest);
  }

  /** Once only the template object is open, every other node has an end. */
  lemma AllEnded(b: Builder)
    requires Shape(b) && b.stack == []
    ensures forall k :: 1 <= k < |b.nodes| ==> b.nodes[k].end.Some?
  {
    CursorFacts(b);
    assert Open(b) == [0];
  }

  lemma ReportsCons(inp: Input, heads: seq<Head>, x: nat, order: seq<nat>, result: string)
    ensures Reports(inp, heads, [x] + order, result) == [NotClosed(inp, HeadAt(heads, x), result)] + Reports(inp, heads, order, result)
  {
    assert ([x] + order)[1..] == order;
  }

  /** Popping the innermost open node puts its report first. */
  lemma ReportsPop(inp: Input, heads: seq<Head>, open: seq<nat>, x: nat, result: string)
    requires |open| >= 1 && x < |heads|
    ensures Reports(inp, heads, Reversed((open + [x])[1..]), result)
         == [NotClosed(inp, heads[x], result)] + Reports(inp, heads, Reversed(open[1..]), result)
  {
    assert (open + [x])[1..] == open[1..] + [x];
    assert Reversed(open[1..] + [x]) == [x] + Reversed(open[1..]);
    ReportsCons(inp, heads, x, Reversed(open[1..]), result);
  }

  /** One iteration of the loop as tsn.js writes it: pop the last stack
      entry, give that node `end = start` and report it. */
  function PopOnce(inp: Input, b: Builder, result: string): Builder
    requires b.stack != []
  {
    var last := |b.stack| - 1;
    var s := b.stack[last];
    var nodes := if s < |b.nodes| then b.nodes[s := b.nodes[s].(end := b.nodes[s].start)] else b.nodes;
    b.(nodes := nodes, stack := b.stack[..last],
       errors := b.errors + [NotClosed(inp, HeadAt(Heads(b.nodes), s), result)])
  }

  /** What one iteration keeps, and how its report joins the later ones. */
  lemma PopOnceFacts(inp: Input, b: Builder, result: string)
    requires b.stack != []
    ensures var next := PopOnce(inp, b, result);
      && next.stack == b.stack[..|b.stack| - 1] && next.current == b.current
      && |next.nodes| == |b.nodes| && Heads(next.nodes) == Heads(b.nodes) && next.text == b.text
      && next.errors + Reports(inp, Heads(b.nodes), Reversed(next.stack), result)
         == b.errors + Reports(inp, Heads(b.nodes), Reversed(b.stack), result)
      && forall k :: 0 <= k < |b.nodes| && k !in b.stack ==> k !in next.stack && next.nodes[k] == b.nodes[k]
  {
    var next := PopOnce(inp, b, result);
    var s := b.stack[|b.stack| - 1];
    assert Heads(next.nodes) == Heads(b.nodes);
    var first := NotClosed(inp, HeadAt(Heads(b.nodes), s), result);
    var rest := Reports(inp, Heads(b.nodes), Reversed(next.stack), result);
    assert Reversed(b.stack) == [s] + Reversed(next.stack);
    ReportsCons(inp, Heads(b.nodes), s, Reversed(next.stack), result);
    assert next.errors + rest == b.errors + ([first] + rest);
  }

  /** The end-of-input loop as tsn.js writes it: it pops the stack, which
      holds the node enclosing each open tag, so the reports name those
      enclosing nodes (the last one the template object) and the cursor, the
      innermost open node, keeps no end. */
  function PopStackAsWritten(inp: Input, b: Builder, result: string): (r: Builder)
    ensures r.stack == [] && r.current == b.current
    ensures |r.nodes| == |b.nodes| && Heads(r.nodes) == Heads(b.nodes) && r.text == b.text
    ensures r.errors == b.errors + Reports(inp, Heads(b.nodes), Reversed(b.stack), result)
    ensures forall k :: 0 <= k < |b.nodes| && k !in b.stack ==> r.nodes[k] == b.nodes[k]
    decreases |b.stack|
  {
    if b.stack == [] then b
    else
      PopOnceFacts(inp, b, result);
      PopStackAsWritten(inp, PopOnce(inp, b, result), result)
  }

  /** One pop of the loop as written: ending node `s` and then every node
      left in `rest` ends every node of `rest + [s]`. */
  lemma EndsAfterPop(before: seq<TNode>, rest: seq<nat>, s: nat, after: seq<TNode>)
    requires |after| == |before|
    requires var nodes := if s < |before| then before[s := before[s].(end := before[s].start)] else before;
      && (forall k :: 0 <= k < |nodes| && k in rest ==> after[k] == nodes[k].(end := nodes[k].start))
      && (forall k :: 0 <= k < |nodes| && k !in rest ==> after[k] == nodes[k])
    ensures forall k :: 0 <= k < |before| && k in rest + [s] ==> after[k] == before[k].(end := before[k].start)
  {
    var nodes := if s < |before| then before[s := before[s].(end := before[s].start)] else before;
    forall k | 0 <= k < |before| && k in rest + [s]
      ensures after[k] == before[k].(end := before[k].start)
    {
      assert nodes[k].start == before[k].start;
      if k in rest {
        assert nodes[k].(end := nodes[k].start) == before[k].(end := before[k].start);
      } else {
        assert k == s;
      }
    }
  }

  /** The loop as written gives every node it pops `end = start`. */
  lemma {:induction false} PopStackEnds(inp: Input, b: Builder, result: string)
    ensures var r := PopStackAsWritten(inp, b, result);
            forall k :: 0 <= k < |b.nodes| && k in b.stack ==> r.nodes[k] == b.nodes[k].(end := b.nodes[k].start)
    decreases |b.stack|
  {
    if b.stack != [] {
      var last := |b.stack| - 1;
      var s := b.stack[last];
      assert b.stack == b.stack[..last] + [s];
      var next := PopOnce(inp, b, result);
      var r := PopStackAsWritten(inp, next, result);
      assert PopStackAsWritten(inp, b, result) == r;
      PopStackEnds(inp, next, result);
      EndsAfterPop(b.nodes, next.stack, s, r.nodes);
    }
  }

  /** What the loop as written leaves of `b` in `r`. */
  predicate EndsAsWritten(b: Builder, r: Builder, result: string) {
    && |r.errors| == |b.errors| + |b.stack|
    && (b.stack == [] ==> r.errors == b.errors)
    && |r.nodes| >= 1 && r.nodes[0].name.None?
    && (forall k :: 1 <= k < |r.nodes| ==> NodeShape(r.nodes[k], |b.text|))
    && (forall k :: 1 <= k < |r.nodes| && k != b.current ==> r.nodes[k].end.Some?)
    && b.current < |r.nodes|
    && (b.current == 0 <==> b.stack == [])
    && (b.current != 0 ==> r.nodes[b.current].end.None?)
    && (b.current != 0 ==> |r.errors| > 0 && r.errors[|r.errors| - 1] == TError(TagNotClosed, None, None, result))
  }

  /** The loop as written on a builder at the end of the scan: one report per
      entry of the stack; every node but the cursor ends up with an end; the
      cursor, when it is an open tag, keeps none and the last report names the
      template object instead of it. */
  lemma AsWrittenEnd(inp: Input, b: Builder, result: string)
    requires Shape(b)
    ensures EndsAsWritten(b, PopStackAsWritten(inp, b, result), result)
  {
    CursorFacts(b);
    var r := PopStackAsWritten(inp, b, result);
    PopStackEnds(inp, b, result);
    assert Heads(r.nodes)[0] == Heads(b.nodes)[0];
    assert b.current !in b.stack;
    forall k | 1 <= k < |r.nodes|
      ensures NodeShape(r.nodes[k], |b.text|)
      ensures k != b.current ==> r.nodes[k].end.Some?
    {
      assert NodeShape(b.nodes[k], |b.text|);
      if k !in b.stack && k != b.current {
        assert k !in Open(b);
      }
    }
    if b.current != 0 {
      assert Open(b)[|b.stack|] == b.current;
      assert Open(b)[0] == b.stack[0];
      var order := Reversed(b.stack);
      assert order[|order| - 1] == 0;
      assert r.errors[|r.errors| - 1] == Reports(inp, Heads(b.nodes), order, result)[|order| - 1];
    }
  }

  /** The text the scan produces from the matches up to the end of the last
      one: the gaps between matches and the kept matches. */
  function KeptText(inp: Input, ms: seq<TMatch>, from: nat): string
    requires Matches(inp.path, ms, from) && from <= |inp.path|
    decreases |ms|
  {
    if ms == [] then ""
    else inp.path[from..ms[0].index] + Kept(inp, ms[0]) + KeptText(inp, ms[1..], End(ms[0]))
  }

  /** Where the scan stops: the end of the last match, or `from`. */
  function LastEnd(path: string, ms: seq<TMatch>, from: nat): (e: nat)
    requires Matches(path, ms, from) && from <= |path|
    ensures from <= e <= |path|
    decreases |ms|
  {
    if ms == [] then from else LastEnd(path, ms[1..], End(ms[0]))
  }

  /** One iteration moves the first pending match from `KeptText` into the
      text. */
  lemma KeptTextMoves(inp: Input, whole: string, ms: seq<TMatch>, text: string, from: nat, next: string)
    requires ms != [] && Matches(inp.path, ms, from) && from <= |inp.path|
    requires whole == text + KeptText(inp, ms, from)
    requires next == text + inp.path[from..ms[0].index] + Kept(inp, ms[0])
    ensures whole == next + KeptText(inp, ms[1..], End(ms[0]))
  {
    var gap, kept := inp.path[from..ms[0].index], Kept(inp, ms[0]);
    var rest := KeptText(inp, ms[1..], End(ms[0]));
    assert KeptText(inp, ms, from) == gap + kept + rest;
    ConcatRegroup(text, gap, kept, rest);
  }

  lemma ConcatRegroup(a: string, b: string, c: string, d: string)
    ensures a + (b + c + d) == (a + b + c) + d
  {
  }

  /** The scan loop of the constructor. */
  method Scan(inp: Input, ms: seq<TMatch>) returns (b: Builder)
    requires Matches(inp.path, ms, 0)
    ensures Valid(inp, b)
    ensures b.lastIndex == LastEnd(inp.path, ms, 0)
    ensures b.text == KeptText(inp, ms, 0)
    ensures Named(b.errors)
  {
    b := Start();
    var i := 0;
    assert ms[0..] == ms;
    while i < |ms|
      invariant 0 <= i <= |ms|
      invariant Valid(inp, b)
      invariant Matches(inp.path, ms[i..], b.lastIndex)
      invariant LastEnd(inp.path, ms, 0) == LastEnd(inp.path, ms[i..], b.lastIndex)
      invariant KeptText(inp, ms, 0) == b.text + KeptText(inp, ms[i..], b.lastIndex)
      invariant Named(b.errors)
    {
      var before := b;
      b := Step(inp, b, ms[i]);
      KeptTextMoves(inp, KeptText(inp, ms, 0), ms[i..], before.text, before.lastIndex, b.text);
      assert ms[i..][1..] == ms[i + 1..];
      i := i + 1;
    }
  }

  // ---------------------------------------------------------------------------
  // The constructor
  // ---------------------------------------------------------------------------

  /** What the constructor leaves on the template object. */
  datatype Template = Template(namespace: string, xmlDeclaration: string, nodes: seq<TNode>, text: string, errors: seq<TError>)

  /** The inputs of the scan once the `xml` pattern has cut `declaration`
      characters off the front of `source`; `fixed` picks the reading of the
      attribute pattern. */
  function InputOf(source: string, declaration: nat, registry: Registry, saveComments: bool, fixed: bool): (inp: Input)
    requires declaration <= |source|
    ensures inp.declaration + inp.path == source
  {
    Input(source[declaration..], source[..declaration], registry.Keys, saveComments, fixed)
  }

  /** The last match, which the end-of-input reports pass to `getErrorData`. */
  function LastSource(ms: seq<TMatch>): string {
    if ms == [] then "" else ms[|ms| - 1].source
  }

  /** The constructor as tsn.js writes it: namespace, declaration split, scan
      with single-quoted values lost, the end-of-input loop that pops the
      enclosing nodes, and the trailing text. At most one tag stays without an
      end, and when one does, the last report names the template object. */
  method Construct(source: string, configured: Js.Value, registry: Registry, saveComments: bool,
                   declaration: nat, ms: seq<TMatch>) returns (t: Template)
    requires declaration <= |source|
    requires Matches(source[declaration..], ms, 0)
    ensures Usable(configured) ==> t.namespace == configured.s
    ensures !Usable(configured) ==> t.namespace == DefaultNamespace
    ensures t.xmlDeclaration + source[declaration..] == source
    ensures var inp := InputOf(source, declaration, registry, saveComments, false);
            t.text == KeptText(inp, ms, 0) + inp.path[LastEnd(inp.path, ms, 0)..]
    ensures |t.text| <= |source| - declaration
    ensures |t.nodes| >= 1 && t.nodes[0].name.None?
    ensures forall k :: 1 <= k < |t.nodes| ==> NodeShape(t.nodes[k], |t.text|)
    ensures forall k, j :: 1 <= k < |t.nodes| && 1 <= j < |t.nodes| && t.nodes[k].end.None? && t.nodes[j].end.None? ==> k == j
    ensures forall k :: 1 <= k < |t.nodes| && t.nodes[k].end.None? ==>
              |t.errors| > 0 && t.errors[|t.errors| - 1] == TError(TagNotClosed, None, None, LastSource(ms))
    ensures (forall k :: 1 <= k < |t.nodes| ==> t.nodes[k].end.Some?) ==> Named(t.errors)
  {
    var inp := InputOf(source, declaration, registry, saveComments, false);
    var b := Scan(inp, ms);
    var e := EndOfInput(inp, b, LastSource(ms));
    t := Template(Namespace(configured), inp.declaration, e.nodes, e.text, e.errors);
  }

  /** The end of input as tsn.js writes it: the loop pops the stack, then the
      path after the last match joins the text. Every tag node lies within
      the text, at most one lacks an end, the last report is the nameless
      "not closed" one when a node does, and when every node ends no report
      is added. */
  function EndOfInput(inp: Input, b: Builder, result: string): (r: Builder)
    requires Valid(inp, b)
    ensures r.text == b.text + inp.path[b.lastIndex..]
    ensures |r.nodes| >= 1 && r.nodes[0].name.None?
    ensures forall k :: 1 <= k < |r.nodes| ==> NodeShape(r.nodes[k], |r.text|)
    ensures forall k, j :: 1 <= k < |r.nodes| && 1 <= j < |r.nodes| && r.nodes[k].end.None? && r.nodes[j].end.None? ==> k == j
    ensures forall k :: 1 <= k < |r.nodes| && r.nodes[k].end.None? ==>
              |r.errors| > 0 && r.errors[|r.errors| - 1] == TError(TagNotClosed, None, None, result)
    ensures (forall k :: 1 <= k < |r.nodes| ==> r.nodes[k].end.Some?) ==> r.errors == b.errors
  {
    var popped := PopStackAsWritten(inp, b, result);
    var done := popped.(text := popped.text + inp.path[b.lastIndex..]);
    AsWrittenEnd(inp, b, result);
    SingleOpen(b, popped, done, result);
    done
  }

  /** A builder whose nodes and reports are those the loop as written leaves
      of `b`, and whose text extends `b`'s, has every tag node within its
      text, at most one node without an end, a nameless last report when one
      lacks it, and the scan's own reports when none does. */
  lemma SingleOpen(b: Builder, popped: Builder, r: Builder, result: string)
    requires EndsAsWritten(b, popped, result)
    requires r.nodes == popped.nodes && r.errors == popped.errors && |b.text| <= |r.text|
    ensures |r.nodes| >= 1 && r.nodes[0].name.None?
    ensures forall k :: 1 <= k < |r.nodes| ==> NodeShape(r.nodes[k], |r.text|)
    ensures forall k, j :: 1 <= k < |r.nodes| && 1 <= j < |r.nodes| && r.nodes[k].end.None? && r.nodes[j].end.None? ==> k == j
    ensures forall k :: 1 <= k < |r.nodes| && r.nodes[k].end.None? ==>
              |r.errors| > 0 && r.errors[|r.errors| - 1] == TError(TagNotClosed, None, None, result)
    ensures (forall k :: 1 <= k < |r.nodes| ==> r.nodes[k].end.Some?) ==> r.errors == b.errors
  {
    forall k | 1 <= k < |r.nodes| ensures NodeShape(r.nodes[k], |r.text|) {
      assert NodeShape(popped.nodes[k], |b.text|);
    }
  }

  /** The constructor as evidently intended: single-quoted values are kept
      and the end-of-input loop reports and ends every open tag. */
  method ConstructCorrected(source: string, configured: Js.Value, registry: Registry, saveComments: bool,
                            declaration: nat, ms: seq<TMatch>) returns (t: Template)
    requires declaration <= |source|
    requires Matches(source[declaration..], ms, 0)
    ensures Usable(configured) ==> t.namespace == configured.s
    ensures !Usable(configured) ==> t.namespace == DefaultNamespace
    ensures t.xmlDeclaration + source[declaration..] == source
    ensures var inp := InputOf(source, declaration, registry, saveComments, true);
            t.text == KeptText(inp, ms, 0) + inp.path[LastEnd(inp.path, ms, 0)..]
    ensures |t.text| <= |source| - declaration
    ensures |t.nodes| >= 1 && t.nodes[0].name.None?
    ensures forall k :: 1 <= k < |t.nodes| ==> t.nodes[k].end.Some? && NodeShape(t.nodes[k], |t.text|)
    ensures Named(t.errors)
  {
    var inp := InputOf(source, declaration, registry, saveComments, true);
    var b := Scan(inp, ms);
    var e := CloseOpen(inp, b, LastSource(ms));
    AllEnded(e);
    var tail := inp.path[b.lastIndex..];
    ShapeGrow(e, tail);
    var grown := e.(text := e.text + tail);
    assert Open(grown) == [0];
    t := Template(Namespace(configured), inp.declaration, grown.nodes, grown.text, grown.errors);
  }
}
