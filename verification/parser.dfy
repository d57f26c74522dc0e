/**
 * The tree builder of lib/Parser.js as a state machine over the token
 * matches. The composite regular expression is not modelled: its matches are
 * the input, one `Match` per `regExp.exec` result, in increasing,
 * non-overlapping order. The callbacks `onStart`, `onText`, `onEntity`,
 * `onOpen`, `onClose`, `onError` and `onEnd` become the emitted event trace.
 */
module TenParser {
  import opened Wrappers
  import opened TextUtil
  import Cfg = ParserConfig
  import Js

  // ---------------------------------------------------------------------------
  // Tokens
  // ---------------------------------------------------------------------------

  /** One `name="value"` or `name='value'` pair of an opening tag, before
      decoding; `value` is the capture group of the attribute pattern
      (lib/Parser.js:6), see `CaptureGroup`. */
  datatype RawAttribute = RawAttribute(name: string, value: string, singleQuoted: bool)

  /** The capture group of a quoted value, given the text between the quotes
      (which holds no quote of its kind). The pattern lets an optional
      backslash precede either quote, and the lazy group leaves a backslash
      before the closing quote to it: so `"x\"` captures `x`, and `"\"`
      captures the empty string. */
  function CaptureGroup(between: string): (r: string)
    ensures |r| == |between| || |r| == |between| - 1
    ensures r == between[..|r|]
    ensures |r| < |between| <==> between != [] && between[|between| - 1] == '\\'
  {
    if between != [] && between[|between| - 1] == '\\' then between[..|between| - 1] else between
  }

  /** Which alternative of the composite pattern matched. */
  datatype Token =
    | EntityTok(name: string)          // `&ns.name;`; "" when the optional name group is absent
    | CommentTok
    | CDataTok
    | DtdTok(declaration: string)      // the DOCTYPE capture, without leading line breaks
    | CloseTok(name: string)
    | OpenTok(name: string, attributes: seq<RawAttribute>, selfClosing: bool)

  datatype Match = Match(index: nat, source: string, token: Token)

  function EndOf(m: Match): nat {
    m.index + |m.source|
  }

  /** What the pattern guarantees about a single match inside `content`. */
  predicate MatchOk(content: string, m: Match, cdata: bool) {
    && |m.source| > 0
    && EndOf(m) <= |content|
    && content[m.index..EndOf(m)] == m.source
    && (m.token.OpenTok? ==> |m.token.name| > 0)
    && (m.token.CloseTok? ==> |m.token.name| > 0)
    && (m.token.DtdTok? ==> |m.token.declaration| > 0)
    && (m.token.CDataTok? ==> cdata)
  }

  /** Matches lie in `content`, start at or after `from` and do not overlap.
      `cdata` is false when CDATA sections are not a token of the pattern. */
  predicate WellFormed(content: string, ms: seq<Match>, from: nat, cdata: bool) {
    && (forall i :: 0 <= i < |ms| ==> MatchOk(content, ms[i], cdata))
    && (|ms| > 0 ==> from <= ms[0].index)
    && (forall i :: 0 <= i < |ms| - 1 ==> EndOf(ms[i]) <= ms[i + 1].index)
  }

  lemma WellFormedTail(content: string, ms: seq<Match>, from: nat, cdata: bool)
    requires |ms| > 0 && WellFormed(content, ms, from, cdata)
    ensures WellFormed(content, ms[1..], EndOf(ms[0]), cdata)
  {
    assert forall i :: 0 <= i < |ms| - 1 ==> ms[1..][i] == ms[i + 1];
  }

  // ---------------------------------------------------------------------------
  // Nodes, events and the builder state
  // ---------------------------------------------------------------------------

  /** An opened tag: its offset and text in the content, lower-cased name,
      self-closing flag and decoded attributes. */
  datatype Node = Node(index: nat, source: string, name: string, selfClosing: bool, attributes: map<string, string>)

  /** The node a callback is told about: the synthetic root or a tag. */
  datatype Owner = Root | Tag(node: Node)

  datatype ErrorKind = TagNotClosed | ClosingMatchesNothing

  datatype Event =
    | ConfigWarning(issue: Cfg.Issue)
    | Start
    | Text(text: string, owner: Owner)
    | Entity(index: nat, source: string, name: string, owner: Owner)
    | Open(node: Node, owner: Owner)
    | Close(index: nat, source: string, name: string, parent: Owner)
    | MergeCode(child: Node, into: Node)     // `parent.code += current.code`
    | CompileError(kind: ErrorKind, nodeName: string, line: nat)
    | End

  /** `stack` holds the open non-root tags, outermost first; `current` is its
      last element, or the root when it is empty. `depth` is the separate
      counter lib/Parser.js keeps. */
  datatype State = State(stack: seq<Node>, depth: int, lastIndex: nat, events: seq<Event>)

  /** What the scan needs besides the state: the stripped declaration (for
      line numbers), the content being scanned and `saveComments === true`. */
  datatype Env = Env(declaration: string, content: string, saveComments: bool)

  predicate Inv(env: Env, st: State) {
    st.depth == |st.stack| && st.lastIndex <= |env.content|
  }

  function Current(st: State): Owner {
    if |st.stack| == 0 then Root else Tag(st.stack[|st.stack| - 1])
  }

  /** `current.parent` for a non-root `current`. */
  function ParentOf(stack: seq<Node>): Owner
    requires |stack| > 0
  {
    if |stack| == 1 then Root else Tag(stack[|stack| - 2])
  }

  function CountErrors(evs: seq<Event>, k: ErrorKind): nat {
    if evs == [] then 0
    else (if evs[0].CompileError? && evs[0].kind == k then 1 else 0) + CountErrors(evs[1..], k)
  }

  lemma CountErrorsAppend(a: seq<Event>, b: seq<Event>, k: ErrorKind)
    ensures CountErrors(a + b, k) == CountErrors(a, k) + CountErrors(b, k)
  {
    if a == [] {
      assert a + b == b;
    } else {
      assert (a + b)[1..] == a[1..] + b;
      CountErrorsAppend(a[1..], b, k);
    }
  }

  // ---------------------------------------------------------------------------
  // Diagnostics (`Parser.prototype._error`)
  // ---------------------------------------------------------------------------

  /** 1-based line of a node: the full text (declaration included) up to the
      node's offset, followed by the node's own source, split into lines. */
  function ErrorLine(env: Env, index: nat, source: string): (line: nat)
    ensures line >= 1
  {
    var full := env.declaration + env.content;
    var cut := if index + |env.declaration| <= |full| then index + |env.declaration| else |full|;
    |Lines(full[..cut] + source)|
  }

  // ---------------------------------------------------------------------------
  // Attribute decoding
  // ---------------------------------------------------------------------------

  /** The five predefined XML entities, replaced one after the other. */
  function DecodeEntities(v: string): (r: string)
    ensures (forall i :: 0 <= i < |v| ==> v[i] != '&') ==> r == v
  {
    var a := ReplaceAll(v, "&amp;", "&");
    var b := ReplaceAll(a, "&lt;", "<");
    var c := ReplaceAll(b, "&gt;", ">");
    var d := ReplaceAll(c, "&quot;", "\"");
    var e := ReplaceAll(d, "&apos;", "'");
    if forall i :: 0 <= i < |v| ==> v[i] != '&' then
      ReplaceAllAbsent(v, "&amp;", "&");
      ReplaceAllAbsent(a, "&lt;", "<");
      ReplaceAllAbsent(b, "&gt;", ">");
      ReplaceAllAbsent(c, "&quot;", "\"");
      ReplaceAllAbsent(d, "&apos;", "'");
      e
    else e
  }

  /** No later attribute of the list has the same lower-cased name. */
  predicate LastOfName(raws: seq<RawAttribute>, i: nat)
    requires i < |raws|
  {
    forall j :: i < j < |raws| ==> Lower(raws[j].name) != Lower(raws[i].name)
  }

  /** `attribute[2] || attribute[3]` (lib/Parser.js:128): the double-quoted
      capture when it is non-empty, otherwise the single-quoted one. For
      `a=""` both are falsy and the result is `undefined`. */
  function Captured(a: RawAttribute): (r: Option<string>)
    ensures r.None? <==> !a.singleQuoted && a.value == ""
    ensures r.Some? ==> r.value == a.value
  {
    if a.value != "" || a.singleQuoted then Some(a.value) else None
  }

  predicate HasUndefinedValue(raws: seq<RawAttribute>) {
    exists i :: 0 <= i < |raws| && Captured(raws[i]).None?
  }

  /** Whether the assignment creates an own key: every lower-cased name does
      except `__proto__`, whose string value the object ignores. */
  predicate Stored(a: RawAttribute) {
    Lower(a.name) != Js.ProtoKey
  }

  /** The attribute map of a new node, or `None` when some value is
      `undefined`: lib/Parser.js:128 then calls `.replace` on it and the
      constructor throws. */
  function DecodeAttributes(raws: seq<RawAttribute>): (r: Option<map<string, string>>)
    ensures r.None? <==> HasUndefinedValue(raws)
    ensures r.Some? ==> r.value.Keys == set i | 0 <= i < |raws| && Stored(raws[i]) :: Lower(raws[i].name)
    ensures r.Some? ==> forall i :: 0 <= i < |raws| && LastOfName(raws, i) && Stored(raws[i]) ==>
                          r.value[Lower(raws[i].name)] == DecodeEntities(raws[i].value)
    decreases |raws|
  {
    if |raws| == 0 then Some(map[])
    else
      var prev := DecodeAttributes(raws[..|raws| - 1]);
      var a := raws[|raws| - 1];
      UndefinedValueExtend(raws);
      if prev.None? || Captured(a).None? then None
      else if !Stored(a) then
        DecodeAttributesSkip(raws, prev.value);
        Some(prev.value)
      else
        DecodeAttributesExtend(raws, prev.value);
        Some(prev.value[Lower(a.name) := DecodeEntities(a.value)])
  }

  lemma UndefinedValueExtend(raws: seq<RawAttribute>)
    requires |raws| > 0
    ensures HasUndefinedValue(raws) <==> HasUndefinedValue(raws[..|raws| - 1]) || Captured(raws[|raws| - 1]).None?
  {
    if HasUndefinedValue(raws) {
      var i :| 0 <= i < |raws| && Captured(raws[i]).None?;
      if i < |raws| - 1 {
        assert raws[..|raws| - 1][i] == raws[i];
      }
    }
  }

  /** The inductive step of `DecodeAttributes`: adding the last attribute to
      the map of the others. */
  lemma DecodeAttributesExtend(raws: seq<RawAttribute>, prev: map<string, string>)
    requires |raws| > 0 && Stored(raws[|raws| - 1])
    requires var init := raws[..|raws| - 1];
             && prev.Keys == (set i | 0 <= i < |init| && Stored(init[i]) :: Lower(init[i].name))
             && (forall i :: 0 <= i < |init| && LastOfName(init, i) && Stored(init[i]) ==>
                   prev[Lower(init[i].name)] == DecodeEntities(init[i].value))
    ensures var a := raws[|raws| - 1];
            var m := prev[Lower(a.name) := DecodeEntities(a.value)];
            && m.Keys == (set i | 0 <= i < |raws| && Stored(raws[i]) :: Lower(raws[i].name))
            && forall i :: 0 <= i < |raws| && LastOfName(raws, i) && Stored(raws[i]) ==>
                 m[Lower(raws[i].name)] == DecodeEntities(raws[i].value)
  {
    ExtendKeys(raws, prev.Keys);
    ExtendValues(raws, prev);
  }

  /** The step for a last attribute named `__proto__`: the map stays as it is. */
  lemma DecodeAttributesSkip(raws: seq<RawAttribute>, prev: map<string, string>)
    requires |raws| > 0 && !Stored(raws[|raws| - 1])
    requires var init := raws[..|raws| - 1];
             && prev.Keys == (set i | 0 <= i < |init| && Stored(init[i]) :: Lower(init[i].name))
             && (forall i :: 0 <= i < |init| && LastOfName(init, i) && Stored(init[i]) ==>
                   prev[Lower(init[i].name)] == DecodeEntities(init[i].value))
    ensures prev.Keys == (set i | 0 <= i < |raws| && Stored(raws[i]) :: Lower(raws[i].name))
    ensures forall i :: 0 <= i < |raws| && LastOfName(raws, i) && Stored(raws[i]) ==>
              prev[Lower(raws[i].name)] == DecodeEntities(raws[i].value)
  {
    SkipKeys(raws, prev.Keys);
    SkipValues(raws, prev);
  }

  lemma SkipValues(raws: seq<RawAttribute>, prev: map<string, string>)
    requires |raws| > 0 && !Stored(raws[|raws| - 1])
    requires forall i :: 0 <= i < |raws| - 1 && Stored(raws[i]) ==> Lower(raws[i].name) in prev
    requires forall i :: 0 <= i < |raws| - 1 && LastOfName(raws[..|raws| - 1], i) && Stored(raws[i]) ==>
               prev[Lower(raws[i].name)] == DecodeEntities(raws[i].value)
    ensures forall i :: 0 <= i < |raws| && LastOfName(raws, i) && Stored(raws[i]) ==>
              prev[Lower(raws[i].name)] == DecodeEntities(raws[i].value)
  {
    forall i | 0 <= i < |raws| && LastOfName(raws, i) && Stored(raws[i])
      ensures prev[Lower(raws[i].name)] == DecodeEntities(raws[i].value)
    {
      assert LastOfName(raws[..|raws| - 1], i);
    }
  }

  lemma SkipKeys(raws: seq<RawAttribute>, keys: set<string>)
    requires |raws| > 0 && !Stored(raws[|raws| - 1])
    requires keys == (set i | 0 <= i < |raws| - 1 && Stored(raws[i]) :: Lower(raws[i].name))
    ensures keys == (set i | 0 <= i < |raws| && Stored(raws[i]) :: Lower(raws[i].name))
  {
    var all := set i | 0 <= i < |raws| && Stored(raws[i]) :: Lower(raws[i].name);
    forall k | k in all ensures k in keys {
      var i :| 0 <= i < |raws| && Stored(raws[i]) && Lower(raws[i].name) == k;
      assert i < |raws| - 1;
    }
  }

  lemma ExtendKeys(raws: seq<RawAttribute>, keys: set<string>)
    requires |raws| > 0 && Stored(raws[|raws| - 1])
    requires keys == (set i | 0 <= i < |raws| - 1 && Stored(raws[i]) :: Lower(raws[i].name))
    ensures keys + {Lower(raws[|raws| - 1].name)} == (set i | 0 <= i < |raws| && Stored(raws[i]) :: Lower(raws[i].name))
  {
    var all := set i | 0 <= i < |raws| && Stored(raws[i]) :: Lower(raws[i].name);
    forall k | k in all ensures k in keys + {Lower(raws[|raws| - 1].name)} {
      var i :| 0 <= i < |raws| && Stored(raws[i]) && Lower(raws[i].name) == k;
      if i < |raws| - 1 {
        assert k in keys;
      }
    }
  }

  lemma ExtendValues(raws: seq<RawAttribute>, prev: map<string, string>)
    requires |raws| > 0
    requires forall i :: 0 <= i < |raws| - 1 && Stored(raws[i]) ==> Lower(raws[i].name) in prev
    requires forall i :: 0 <= i < |raws| - 1 && LastOfName(raws[..|raws| - 1], i) && Stored(raws[i]) ==>
               prev[Lower(raws[i].name)] == DecodeEntities(raws[i].value)
    ensures var a := raws[|raws| - 1];
            var m := prev[Lower(a.name) := DecodeEntities(a.value)];
            forall i :: 0 <= i < |raws| && LastOfName(raws, i) && Stored(raws[i]) ==>
              m[Lower(raws[i].name)] == DecodeEntities(raws[i].value)
  {
    var a := raws[|raws| - 1];
    var m := prev[Lower(a.name) := DecodeEntities(a.value)];
    forall i | 0 <= i < |raws| && LastOfName(raws, i) && Stored(raws[i])
      ensures m[Lower(raws[i].name)] == DecodeEntities(raws[i].value)
    {
      if i < |raws| - 1 {
        assert Lower(a.name) != Lower(raws[i].name);
        assert LastOfName(raws[..|raws| - 1], i);
      }
    }
  }

  // ---------------------------------------------------------------------------
  // One iteration of the scan loop
  // ---------------------------------------------------------------------------

  /** Every reported text is non-empty, and `onEnd` has not been called. */
  predicate Proper(evs: seq<Event>) {
    forall i :: 0 <= i < |evs| ==> !evs[i].End? && (evs[i].Text? ==> evs[i].text != "")
  }

  /** Reports the text between the previous match and this one, to the
      current node, when it is not empty. */
  function Flush(env: Env, st: State, m: Match): (r: State)
    requires st.lastIndex <= m.index <= |env.content|
    ensures r.stack == st.stack && r.depth == st.depth && r.lastIndex == st.lastIndex
    ensures var gap := env.content[st.lastIndex..m.index];
            && (gap == "" ==> r.events == st.events)
            && (gap != "" ==> r.events == st.events + [Text(gap, Current(st))])
  {
    var gap := env.content[st.lastIndex..m.index];
    if gap == "" then st else st.(events := st.events + [Text(gap, Current(st))])
  }

  /** A match that is not a tag: entity, comment, CDATA or DTD. */
  function OnOther(env: Env, st: State, m: Match): (r: State)
    requires !m.token.OpenTok? && !m.token.CloseTok?
    requires MatchOk(env.content, m, true)
    ensures r.stack == st.stack && r.depth == st.depth && r.lastIndex == EndOf(m)
    ensures st.events <= r.events && |r.events| <= |st.events| + 1
    ensures Proper(r.events[|st.events|..])
    ensures forall e :: e in r.events[|st.events|..] ==> !e.CompileError?
    // an entity with a name is reported as such, one without a name as text
    ensures m.token.EntityTok? && m.token.name != "" ==>
              r.events == st.events + [Entity(m.index, m.source, m.token.name, Current(st))]
    ensures m.token.EntityTok? && m.token.name == "" ==>
              r.events == st.events + [Text(m.source, Current(st))]
    // a comment reaches the text only when comments are saved
    ensures m.token.CommentTok? ==>
              r.events == st.events + (if env.saveComments then [Text(m.source, Current(st))] else [])
    // CDATA is text as matched; a DTD is text as captured
    ensures m.token.CDataTok? ==> r.events == st.events + [Text(m.source, Current(st))]
    ensures m.token.DtdTok? ==> r.events == st.events + [Text(m.token.declaration, Current(st))]
  {
    var owner := Current(st);
    var e := match m.token
      case EntityTok(name) => if name != "" then [Entity(m.index, m.source, name, owner)] else [Text(m.source, owner)]
      case CommentTok => if env.saveComments then [Text(m.source, owner)] else []
      case CDataTok => [Text(m.source, owner)]
      case DtdTok(d) => [Text(d, owner)];
    assert (st.events + e)[|st.events|..] == e;
    st.(lastIndex := EndOf(m), events := st.events + e)
  }

  /** An opening tag. `None` when an attribute value is `undefined` (the
      constructor throws before `onOpen`). */
  function OnOpen(st: State, m: Match): (r: Option<State>)
    requires m.token.OpenTok?
    ensures r.None? <==> DecodeAttributes(m.token.attributes).None?
    ensures r.Some? ==>
              var node := Node(m.index, m.source, Lower(m.token.name), m.token.selfClosing,
                               DecodeAttributes(m.token.attributes).value);
              && r.value.lastIndex == EndOf(m)
              && r.value.events == st.events + [Open(node, Current(st))]
              // a self-closing tag leaves the cursor where it is
              && (m.token.selfClosing ==> r.value.stack == st.stack && r.value.depth == st.depth)
              // any other tag becomes the current node, one level deeper
              && (!m.token.selfClosing ==> r.value.stack == st.stack + [node] && r.value.depth == st.depth + 1)
  {
    var decoded := DecodeAttributes(m.token.attributes);
    if decoded.None? then None
    else
      var node := Node(m.index, m.source, Lower(m.token.name), m.token.selfClosing, decoded.value);
      var ev := st.events + [Open(node, Current(st))];
      if m.token.selfClosing then Some(st.(lastIndex := EndOf(m), events := ev))
      else Some(State(st.stack + [node], st.depth + 1, EndOf(m), ev))
  }

  /** A closing tag: it closes the current node, or the current node and its
      parent (recovery), or nothing. */
  function OnClose(env: Env, st: State, m: Match): (r: State)
    requires m.token.CloseTok?
    ensures r.lastIndex == EndOf(m) && st.events <= r.events
    ensures Proper(r.events[|st.events|..])
    // the current node is closed and its parent becomes current
    ensures |st.stack| > 0 && st.stack[|st.stack| - 1].name == Lower(m.token.name) ==>
              && r.stack == st.stack[..|st.stack| - 1]
              && r.depth == st.depth - 1
              && r.events == st.events + [Close(m.index, m.source, Lower(m.token.name), ParentOf(st.stack))]
    // the parent is named: the current node is reported unclosed, its code is
    // merged into the parent, the parent is closed and the grandparent becomes current
    ensures |st.stack| >= 2
            && st.stack[|st.stack| - 1].name != Lower(m.token.name)
            && st.stack[|st.stack| - 2].name == Lower(m.token.name) ==>
              var cur := st.stack[|st.stack| - 1];
              var par := st.stack[|st.stack| - 2];
              && r.stack == st.stack[..|st.stack| - 2]
              && r.depth == st.depth - 2
              && r.events == st.events + [CompileError(TagNotClosed, cur.name, ErrorLine(env, cur.index, cur.source)),
                                          MergeCode(cur, par),
                                          Close(m.index, m.source, Lower(m.token.name), Tag(par))]
    // neither is named: one diagnostic and nothing else changes
    ensures !(|st.stack| > 0 && st.stack[|st.stack| - 1].name == Lower(m.token.name))
            && !(|st.stack| >= 2 && st.stack[|st.stack| - 2].name == Lower(m.token.name)) ==>
              && r.stack == st.stack
              && r.depth == st.depth
              && r.events == st.events + [CompileError(ClosingMatchesNothing, Lower(m.token.name),
                                                       ErrorLine(env, m.index, m.source))]
  {
    var lname := Lower(m.token.name);
    var n := |st.stack|;
    var added :=
      if n > 0 && st.stack[n - 1].name == lname then
        [Close(m.index, m.source, lname, ParentOf(st.stack))]
      else if n >= 2 && st.stack[n - 2].name == lname then
        var cur := st.stack[n - 1];
        [CompileError(TagNotClosed, cur.name, ErrorLine(env, cur.index, cur.source)),
         MergeCode(cur, st.stack[n - 2]),
         Close(m.index, m.source, lname, Tag(st.stack[n - 2]))]
      else
        [CompileError(ClosingMatchesNothing, lname, ErrorLine(env, m.index, m.source))];
    assert (st.events + added)[|st.events|..] == added;
    var stack :=
      if n > 0 && st.stack[n - 1].name == lname then st.stack[..n - 1]
      else if n >= 2 && st.stack[n - 2].name == lname then st.stack[..n - 2]
      else st.stack;
    var depth :=
      if n > 0 && st.stack[n - 1].name == lname then st.depth - 1
      else if n >= 2 && st.stack[n - 2].name == lname then st.depth - 2
      else st.depth;
    State(stack, depth, EndOf(m), st.events + added)
  }

  /** One iteration of the scan loop. `Failure` carries the events emitted
      before the constructor throws on an `undefined` attribute value. */
  function Step(env: Env, st: State, m: Match): (r: Result<State, seq<Event>>)
    requires Inv(env, st)
    requires MatchOk(env.content, m, true) && st.lastIndex <= m.index
    ensures r.Success? ==> Inv(env, r.value) && r.value.lastIndex == EndOf(m)
    ensures r.Success? ==> Flush(env, st, m).events <= r.value.events
    ensures r.Failure? ==> r.error == Flush(env, st, m).events
    ensures r.Failure? <==> m.token.OpenTok? && DecodeAttributes(m.token.attributes).None?
    ensures Proper(st.events) ==> Proper(if r.Success? then r.value.events else r.error)
  {
    var st0 := Flush(env, st, m);
    assert Proper(st.events) ==> Proper(if m.token.OpenTok? then st0.events else []) by {
      if Proper(st.events) {
        ProperExtend(st.events, st0.events);
      }
    }
    assert Proper(st.events) && m.token.OpenTok? && OnOpen(st0, m).Some? ==> Proper(OnOpen(st0, m).value.events) by {
      if Proper(st.events) && m.token.OpenTok? && OnOpen(st0, m).Some? {
        ProperExtend(st.events, st0.events);
        var e := OnOpen(st0, m).value.events;
        assert e[|st0.events|..] == [e[|e| - 1]];
        ProperExtend(st0.events, e);
      }
    }
    assert Proper(st.events) && m.token.CloseTok? ==> Proper(OnClose(env, st0, m).events) by {
      if Proper(st.events) && m.token.CloseTok? {
        ProperExtend(st.events, st0.events);
        ProperExtend(st0.events, OnClose(env, st0, m).events);
      }
    }
    assert Proper(st.events) && !m.token.OpenTok? && !m.token.CloseTok? ==> Proper(OnOther(env, st0, m).events) by {
      if Proper(st.events) && !m.token.OpenTok? && !m.token.CloseTok? {
        ProperExtend(st.events, st0.events);
        ProperExtend(st0.events, OnOther(env, st0, m).events);
      }
    }
    if m.token.OpenTok? then
      match OnOpen(st0, m)
      case None => Failure(st0.events)
      case Some(st1) => Success(st1)
    else if m.token.CloseTok? then Success(OnClose(env, st0, m))
    else Success(OnOther(env, st0, m))
  }

  lemma ProperExtend(a: seq<Event>, b: seq<Event>)
    requires a <= b && Proper(a) && Proper(b[|a|..])
    ensures Proper(b)
  {
    forall i | 0 <= i < |b| && b[i].Text? ensures b[i].text != "" {
      if i >= |a| {
        assert b[i] == b[|a|..][i - |a|];
      }
    }
  }

  // ---------------------------------------------------------------------------
  // The whole scan
  // ---------------------------------------------------------------------------

  /** The `while (parseResult = regExp.exec(source))` loop. */
  function Scan(env: Env, st: State, ms: seq<Match>, cdata: bool): (r: Result<State, seq<Event>>)
    requires Inv(env, st)
    requires WellFormed(env.content, ms, st.lastIndex, cdata)
    ensures r.Success? ==> Inv(env, r.value) && st.events <= r.value.events
    ensures r.Failure? ==> st.events <= r.error
    ensures r.Success? ==> r.value.lastIndex == if ms == [] then st.lastIndex else EndOf(ms[|ms| - 1])
    ensures Proper(st.events) ==> Proper(if r.Success? then r.value.events else r.error)
    decreases |ms|
  {
    if ms == [] then Success(st)
    else
      WellFormedTail(env.content, ms, st.lastIndex, cdata);
      StepExtends(env, st, ms[0]);
      match Step(env, st, ms[0])
      case Failure(evs) => Failure(evs)
      case Success(st1) =>
        var r := Scan(env, st1, ms[1..], cdata);
        if r.Success? then PrefixTrans(st.events, st1.events, r.value.events); r
        else PrefixTrans(st.events, st1.events, r.error); r
  }

  lemma StepExtends(env: Env, st: State, m: Match)
    requires Inv(env, st)
    requires MatchOk(env.content, m, true) && st.lastIndex <= m.index
    ensures var s := Step(env, st, m);
            st.events <= if s.Success? then s.value.events else s.error
  {
    PrefixTrans(st.events, Flush(env, st, m).events,
                if Step(env, st, m).Success? then Step(env, st, m).value.events else Step(env, st, m).error);
  }

  /** `Tag is not closed.` for every open non-root node, innermost first. */
  function UnclosedErrors(env: Env, stack: seq<Node>): (r: seq<Event>)
    ensures |r| == |stack|
    ensures forall i :: 0 <= i < |r| ==>
              var n := stack[|stack| - 1 - i];
              r[i] == CompileError(TagNotClosed, n.name, ErrorLine(env, n.index, n.source))
    ensures CountErrors(r, TagNotClosed) == |stack|
    ensures CountErrors(r, ClosingMatchesNothing) == 0
    decreases |stack|
  {
    if stack == [] then []
    else
      var n := stack[|stack| - 1];
      var rest := UnclosedErrors(env, stack[..|stack| - 1]);
      var r := [CompileError(TagNotClosed, n.name, ErrorLine(env, n.index, n.source))] + rest;
      assert r[1..] == rest;
      r
  }

  /** The events `Finish` appends after the loop. */
  function Epilogue(env: Env, st: State): (r: seq<Event>)
    requires Inv(env, st)
    ensures |r| > 0 && r[|r| - 1] == End
    ensures var tail := env.content[st.lastIndex..];
            && (tail != "" <==> r[0] == Text(tail, Current(st)))
            && CountErrors(r, TagNotClosed) == st.depth
            && CountErrors(r, ClosingMatchesNothing) == 0
            && Proper(r[..|r| - 1])
  {
    var tail := env.content[st.lastIndex..];
    var text := if tail != "" then [Text(tail, Current(st))] else [];
    var errs := if st.depth != 0 then UnclosedErrors(env, st.stack) else [];
    EpilogueCounts(text, errs, TagNotClosed);
    EpilogueCounts(text, errs, ClosingMatchesNothing);
    EpilogueProper(text, errs, tail, Current(st));
    text + errs + [End]
  }

  lemma EpilogueProper(text: seq<Event>, errs: seq<Event>, tail: string, owner: Owner)
    requires text == if tail != "" then [Text(tail, owner)] else []
    requires forall i :: 0 <= i < |errs| ==> errs[i].CompileError?
    ensures (text + errs + [End])[..|text + errs + [End]| - 1] == text + errs
    ensures Proper(text + errs)
    ensures tail != "" <==> (text + errs + [End])[0] == Text(tail, owner)
  {
    var r := text + errs + [End];
    assert r[..|r| - 1] == text + errs;
    if tail == "" {
      assert r[0] == if errs != [] then errs[0] else End;
    }
    forall i | 0 <= i < |text + errs| ensures (text + errs)[i].CompileError? || (text + errs)[i] == Text(tail, owner) {
      if i >= |text| {
        assert (text + errs)[i] == errs[i - |text|];
      }
    }
  }

  lemma EpilogueCounts(text: seq<Event>, errs: seq<Event>, k: ErrorKind)
    ensures CountErrors(text + errs + [End], k) == CountErrors(text, k) + CountErrors(errs, k)
  {
    CountErrorsAppend(text + errs, [End], k);
    CountErrorsAppend(text, errs, k);
  }

  /** After the loop: the trailing text, one diagnostic per unclosed tag, and
      `onEnd`. */
  function Finish(env: Env, st: State): (r: seq<Event>)
    requires Inv(env, st)
    ensures st.events <= r && |r| > |st.events| && r[|r| - 1] == End
    ensures Proper(st.events) ==> Terminated(r, true)
    ensures var tail := env.content[st.lastIndex..];
            var added := r[|st.events|..];
            && (tail != "" <==> added[0] == Text(tail, Current(st)))
            && CountErrors(added, TagNotClosed) == st.depth
            && CountErrors(added, ClosingMatchesNothing) == 0
  {
    var added := Epilogue(env, st);
    var r := st.events + added;
    assert r[|st.events|..] == added;
    assert Proper(st.events) ==> Proper(r[..|r| - 1]) by {
      if Proper(st.events) {
        assert r[..|r| - 1] == st.events + added[..|added| - 1];
        ProperExtend(st.events, r[..|r| - 1]);
      }
    }
    r
  }

  // ---------------------------------------------------------------------------
  // The constructor
  // ---------------------------------------------------------------------------

  /** `xmlDeclaration`, `content`, the normalised configuration, the event
      trace, and whether the constructor returned (false when it threw). */
  datatype Outcome = Outcome(xmlDeclaration: string, content: string, config: Cfg.Config,
                             events: seq<Event>, completed: bool)

  /** Separates a leading XML declaration (and DTD) from the content. `decl` is
      the length of the declaration pattern's match at the start of the
      source, `None` when it does not match. */
  function SplitDeclaration(source: string, config: Cfg.Config, decl: Option<nat>): (r: (string, string))
    requires decl.Some? ==> decl.value <= |source|
    ensures r.0 + r.1 == source
    ensures Cfg.StripsDeclaration(config) && decl.Some? ==> r.0 == source[..decl.value]
    ensures !(Cfg.StripsDeclaration(config) && decl.Some?) ==> r.0 == "" && r.1 == source
  {
    if Cfg.StripsDeclaration(config) && decl.Some? then
      assert source[..decl.value] + source[decl.value..] == source;
      (source[..decl.value], source[decl.value..])
    else ("", source)
  }

  function Warnings(issues: seq<Cfg.Issue>): (r: seq<Event>)
    ensures |r| == |issues|
    ensures forall i :: 0 <= i < |r| ==> r[i] == ConfigWarning(issues[i])
  {
    seq(|issues|, i requires 0 <= i < |issues| => ConfigWarning(issues[i]))
  }

  /** Tokens are only required to be well formed against the content left
      after the declaration is split off. */
  predicate ParseInput(source: string, config: Cfg.Config, decl: Option<nat>, ms: seq<Match>) {
    && (decl.Some? ==> decl.value <= |source|)
    && WellFormed(SplitDeclaration(source, config, decl).1, ms, 0, !Cfg.ParsesCDATA(config))
  }

  /** A completed trace ends with its only `onEnd`; an aborted one has none.
      No reported text is empty. */
  predicate Terminated(evs: seq<Event>, completed: bool) {
    if completed then |evs| > 0 && Proper(evs[..|evs| - 1]) && evs[|evs| - 1] == End
    else Proper(evs)
  }

  lemma StartProper(w: seq<Cfg.Issue>)
    ensures Proper(Warnings(w) + [Start])
  {
    var start := Warnings(w) + [Start];
    forall i | 0 <= i < |start| ensures !start[i].End? && !start[i].Text? {
      if i < |w| {
        assert start[i] == ConfigWarning(w[i]);
      }
    }
  }

  /** The loop followed by the epilogue, from a state whose events are
      `start`. The result is the trace and whether the run completed. */
  function Run(env: Env, start: seq<Event>, ms: seq<Match>, cdata: bool): (r: (seq<Event>, bool))
    requires WellFormed(env.content, ms, 0, cdata)
    requires Proper(start)
    ensures start <= r.0
    ensures Terminated(r.0, r.1)
  {
    var st := State([], 0, 0, start);
    var scanned := Scan(env, st, ms, cdata);
    if scanned.Failure? then (scanned.error, false)
    else
      var fin := Finish(env, scanned.value);
      PrefixTrans(start, scanned.value.events, fin);
      (fin, true)
  }

  lemma PrefixOf(a: seq<Event>, b: seq<Event>)
    requires a <= b
    ensures |a| <= |b| && b[..|a|] == a
  {
  }

  lemma PrefixTrans(a: seq<Event>, b: seq<Event>, c: seq<Event>)
    requires a <= b && b <= c
    ensures a <= c
  {
  }

  function Parse(source: string, config: Cfg.Config, decl: Option<nat>, ms: seq<Match>): (r: Outcome)
    requires ParseInput(source, config, decl, ms)
    ensures r.xmlDeclaration + r.content == source
    ensures r.config == Cfg.Normalise(config).config
    // configuration warnings come first, then `onStart`
    ensures var w := Cfg.Normalise(config).issues;
            |r.events| > |w| && r.events[..|w| + 1] == Warnings(w) + [Start]
    // `onEnd` is the last event of a completed run and absent otherwise
    ensures Terminated(r.events, r.completed)
  {
    var split := SplitDeclaration(source, config, decl);
    var n := Cfg.Normalise(config).issues;
    var start := Warnings(n) + [Start];
    StartProper(n);
    var run := Run(Env(split.0, split.1, Cfg.SavesComments(config)), start, ms, !Cfg.ParsesCDATA(config));
    PrefixOf(start, run.0);
    Outcome(split.0, split.1, Cfg.Normalise(config).config, run.0, run.1)
  }
}
