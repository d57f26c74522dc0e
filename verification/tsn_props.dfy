/**
 * Properties of the tsn.js builder: `toString` undoes `attribute`, each kind
 * of match does what the constructor's loop body promises to the tree and
 * the offsets, the two readings of the end-of-input loop, the lost
 * single-quoted attribute values, and the line numbers of `getErrorData`.
 */
module TsnProperties {
  import opened Wrappers
  import opened TextUtil
  import Js
  import opened Tsn

  // ---------------------------------------------------------------------------
  // `toString` undoes `attribute`
  // ---------------------------------------------------------------------------

  /** The template's variables map every entity name to the text it stood for. */
  predicate VarsMatch(vars: map<string, string>, hits: seq<Hit>) {
    forall k :: 0 <= k < |hits| ==> hits[k].name in vars && vars[hits[k].name] == hits[k].source
  }

  lemma {:induction false} SegmentsRoundTrip(value: string, hits: seq<Hit>, from: nat, vars: map<string, string>)
    requires HitsFrom(value, hits, from) && VarsMatch(vars, hits)
    ensures Joined(Segments(value, hits, from), vars) == value[from..]
    decreases |hits|
  {
    if hits != [] {
      var h := hits[0];
      SegmentsCons(value, hits, from);
      VarsMatchTail(vars, hits);
      SegmentsRoundTrip(value, hits[1..], HitEnd(h), vars);
      SegmentsStep(value, h, from, Segments(value, hits[1..], HitEnd(h)), vars);
    }
  }

  lemma SegmentsCons(value: string, hits: seq<Hit>, from: nat)
    requires HitsFrom(value, hits, from) && hits != []
    ensures HitsFrom(value, hits[1..], HitEnd(hits[0]))
    ensures from <= hits[0].index && HitEnd(hits[0]) <= |value| && value[hits[0].index..HitEnd(hits[0])] == hits[0].source
    ensures Segments(value, hits, from)
         == [value[from..hits[0].index], hits[0].name] + Segments(value, hits[1..], HitEnd(hits[0]))
  {
  }

  lemma VarsMatchTail(vars: map<string, string>, hits: seq<Hit>)
    requires hits != [] && VarsMatch(vars, hits)
    ensures VarsMatch(vars, hits[1..])
    ensures VarText(vars, hits[0].name) == hits[0].source
  {
    forall k | 0 <= k < |hits| - 1
      ensures hits[1..][k].name in vars && vars[hits[1..][k].name] == hits[1..][k].source
    {
      assert hits[1..][k] == hits[k + 1];
    }
  }

  /** One entity in front of an already joined remainder. */
  lemma SegmentsStep(value: string, h: Hit, from: nat, rest: seq<string>, vars: map<string, string>)
    requires from <= h.index && HitEnd(h) <= |value| && value[h.index..HitEnd(h)] == h.source
    requires VarText(vars, h.name) == h.source
    requires |rest| % 2 == 1 && Joined(rest, vars) == value[HitEnd(h)..]
    ensures Joined([value[from..h.index], h.name] + rest, vars) == value[from..]
  {
    assert ([value[from..h.index], h.name] + rest)[2..] == rest;
    assert value[from..] == value[from..h.index] + value[h.index..HitEnd(h)] + value[HitEnd(h)..];
  }

  /** The string a stored attribute reads as through `toString`, given the
      template's variables; an undefined value reads as nothing. */
  function Read(a: AttrValue, vars: map<string, string>): Option<string> {
    match a
    case Undefined => None
    case Plain(s) => Some(s)
    case Pieces(p) => if |p| % 2 == 1 then Some(Joined(p, vars)) else None
  }

  /** Reading an attribute back through variables that hold each entity's own
      text gives the original value, whether it was stored as it is or as a
      segment list. */
  lemma {:induction false} AttributeRoundTrip(value: string, hits: seq<Hit>, vars: map<string, string>)
    requires HitsFrom(value, hits, 0) && VarsMatch(vars, hits)
    ensures Read(Attribute(value, hits), vars) == Some(value)
  {
    if hits != [] {
      StoredAsSegments(value, hits);
      SegmentsRoundTrip(value, hits, 0, vars);
      assert value[0..] == value;
    }
  }

  /** With at least one entity, the stored value is the segment list. */
  lemma StoredAsSegments(value: string, hits: seq<Hit>)
    requires HitsFrom(value, hits, 0) && hits != []
    ensures Attribute(value, hits) == Pieces(Segments(value, hits, 0))
  {
    assert Reach(value, hits, 0) > 0;
  }

  /** A variable that is neither an own nor an inherited property of `vars`
      reads as "undefined" between the segments. */
  lemma MissingVariable(vars: map<string, string>)
    requires "x" !in vars
    ensures Joined(["a", "x", "b"], vars) == "aundefinedb"
  {
    assert ["a", "x", "b"][2..] == ["b"];
  }

  // ---------------------------------------------------------------------------
  // The loop body: offsets and the tree
  // ---------------------------------------------------------------------------

  /** A node created by a match starts at the current length of the text, and
      a matched closing tag ends its node there: offsets count characters of
      the text with tags and entities removed. */
  lemma StepOffsets(inp: Input, b: Builder, m: TMatch)
    requires Valid(inp, b) && MatchOk(inp.path, m) && b.lastIndex <= m.index
    ensures var r := Step(inp, b, m);
      && (m.token.EntityTok? || (m.token.OpenTok? && m.token.name in inp.known) ==>
            |r.nodes| == |b.nodes| + 1 && r.nodes[|b.nodes|].start == Some(|r.text|))
      && (m.token.CloseTok? && |r.nodes| == |b.nodes| && r.errors == b.errors ==>
            b.current < |r.nodes| && r.nodes[b.current].end == Some(|r.text|))
  {
    var r := Step(inp, b, m);
    var grown := b.(text := b.text + inp.path[b.lastIndex..m.index]);
    ShapeGrow(b, inp.path[b.lastIndex..m.index]);
    assert r == OnMatch(inp, grown, m).(lastIndex := End(m));
    if m.token.CloseTok? {
      CursorFacts(grown);
    }
  }

  /** An entity becomes an `echo` leaf under the cursor that holds its name in
      `var` and starts and ends at the same offset; nothing else changes. */
  lemma EntityLeaf(inp: Input, b: Builder, m: TMatch)
    requires Valid(inp, b) && MatchOk(inp.path, m) && b.lastIndex <= m.index && m.token.EntityTok?
    ensures var r := Step(inp, b, m);
      && |r.nodes| == |b.nodes| + 1
      && r.nodes[|b.nodes|].name == Some("echo")
      && r.nodes[|b.nodes|].attributes == map["var" := Plain(m.token.name)]
      && r.nodes[|b.nodes|].start == r.nodes[|b.nodes|].end
      && r.nodes[|b.nodes|].parent == b.current
      && r.current == b.current && r.stack == b.stack && r.errors == b.errors
  {
    var grown := b.(text := b.text + inp.path[b.lastIndex..m.index]);
    ShapeGrow(b, inp.path[b.lastIndex..m.index]);
    assert Step(inp, b, m) == OnMatch(inp, grown, m).(lastIndex := End(m));
  }

  /** An opening tag that is not registered adds no node and one error; a
      self-closing registered one adds a closed leaf and keeps the cursor; any
      other registered one is entered, the old cursor going on the stack. */
  lemma OpenOutcomes(inp: Input, b: Builder, m: TMatch)
    requires Valid(inp, b) && MatchOk(inp.path, m) && b.lastIndex <= m.index && m.token.OpenTok?
    ensures var r := Step(inp, b, m);
      && (m.token.name !in inp.known ==>
            r.nodes == b.nodes && r.current == b.current && r.stack == b.stack
            && |r.errors| == |b.errors| + 1
            && r.errors[|b.errors|].kind == (if m.token.selfClosing then UnknownTag else UnknownTagOpening))
      && (m.token.name in inp.known && m.token.selfClosing ==>
            |r.nodes| == |b.nodes| + 1 && r.nodes[|b.nodes|].end == r.nodes[|b.nodes|].start
            && r.nodes[|b.nodes|].children.None?
            && r.current == b.current && r.stack == b.stack && r.errors == b.errors)
      && (m.token.name in inp.known && !m.token.selfClosing ==>
            |r.nodes| == |b.nodes| + 1 && r.nodes[|b.nodes|].end.None?
            && r.nodes[|b.nodes|].children == Some([])
            && r.current == |b.nodes| && r.stack == b.stack + [b.current] && r.errors == b.errors)
  {
    var grown := b.(text := b.text + inp.path[b.lastIndex..m.index]);
    ShapeGrow(b, inp.path[b.lastIndex..m.index]);
    assert Step(inp, b, m) == OnMatch(inp, grown, m).(lastIndex := End(m));
  }

  /** A closing tag either closes the cursor (registered and naming it),
      reports a missing start tag (registered, other name) or reports an
      unknown tag; only the first changes the tree or the cursor. */
  lemma CloseOutcomes(inp: Input, b: Builder, m: TMatch)
    requires Valid(inp, b) && MatchOk(inp.path, m) && b.lastIndex <= m.index && m.token.CloseTok?
    ensures b.current < |b.nodes|
    ensures var r := Step(inp, b, m);
      && (m.token.name in inp.known && b.nodes[b.current].name == Some(m.token.name) ==>
            b.stack != [] && r.current == b.nodes[b.current].parent && r.stack == b.stack[..|b.stack| - 1]
            && r.nodes[b.current].end == Some(|r.text|) && r.errors == b.errors)
      && (m.token.name in inp.known && b.nodes[b.current].name != Some(m.token.name) ==>
            r.nodes == b.nodes && r.current == b.current && r.stack == b.stack
            && r.errors == b.errors + [TError(MissingStartTag, Some(m.token.name), Some(m.index), m.source)])
      && (m.token.name !in inp.known ==>
            r.nodes == b.nodes && r.current == b.current && r.stack == b.stack
            && r.errors == b.errors + [TError(UnknownTagClosing, Some(m.token.name), Some(m.index), m.source)])
  {
    var grown := b.(text := b.text + inp.path[b.lastIndex..m.index]);
    ShapeGrow(b, inp.path[b.lastIndex..m.index]);
    CursorFacts(b);
    assert Step(inp, b, m) == OnMatch(inp, grown, m).(lastIndex := End(m));
  }

  /** A comment stays in the text exactly when comments are kept; otherwise
      its length is counted as removed. */
  lemma CommentRouting(inp: Input, b: Builder, m: TMatch)
    requires Valid(inp, b) && MatchOk(inp.path, m) && b.lastIndex <= m.index && m.token.CommentTok?
    ensures var r := Step(inp, b, m);
      && (inp.saveComments ==> r.text == b.text + inp.path[b.lastIndex..m.index] + m.source && r.resultLength == b.resultLength)
      && (!inp.saveComments ==> r.text == b.text + inp.path[b.lastIndex..m.index] && r.resultLength == b.resultLength + |m.source|)
      && r.nodes == b.nodes && r.errors == b.errors
  {
  }

  /** The scan's text is the path without the removed matches: its length and
      the removed length add up to where the scan stopped. */
  lemma ScanLengths(inp: Input, b: Builder)
    requires Valid(inp, b)
    ensures |b.text| + b.resultLength == b.lastIndex <= |inp.path|
    ensures forall k :: 1 <= k < |b.nodes| ==> b.nodes[k].start.value <= |b.text|
  {
    forall k | 1 <= k < |b.nodes| ensures b.nodes[k].start.value <= |b.text| {
      assert NodeShape(b.nodes[k], |b.text|);
    }
  }

  // ---------------------------------------------------------------------------
  // End of input: the loop as written and as intended
  // ---------------------------------------------------------------------------

  /** The loop as intended makes as many reports, every one naming an open
      tag, and leaves every node other than the template object with an end. */
  lemma IntendedReportsOpen(inp: Input, b: Builder, result: string)
    requires Shape(b) && Named(b.errors)
    ensures var r := CloseOpen(inp, b, result);
      && |r.errors| == |b.errors| + |b.stack|
      && Named(r.errors)
      && forall k :: 1 <= k < |r.nodes| ==> r.nodes[k].end.Some?
  {
    CloseOpenReports(inp, b, result);
    AllEnded(CloseOpen(inp, b, result));
  }

  /** The template `<tsn:comment>` with no closing tag. `comment` is the
      built-in tag without a `parse` hook, so the scan reaches the end of
      input on it. */
  function UnclosedComment(): Input {
    Input("<tsn:comment>", "", {"comment"}, true, false)
  }

  function OpenComment(): TMatch {
    TMatch(0, "<tsn:comment>", OpenTok("comment", [], false))
  }

  /** The builder after the only match of that template. */
  function OpenedComment(): (b: Builder)
    ensures Valid(UnclosedComment(), b)
  {
    assert MatchOk(UnclosedComment().path, OpenComment());
    Step(UnclosedComment(), Start(), OpenComment())
  }

  /** The match opens a `comment` node at offset 0 and descends into it. */
  lemma CommentOpened()
    ensures var b := OpenedComment();
      && b.stack == [0] && b.current == 1 && |b.nodes| == 2 && b.errors == []
      && b.nodes[0].name.None? && b.nodes[0].start.None?
      && b.nodes[1].name == Some("comment") && b.nodes[1].start == Some(0) && b.nodes[1].end.None?
  {
    var inp, m := UnclosedComment(), OpenComment();
    assert MatchOk(inp.path, m);
    OpenOutcomes(inp, Start(), m);
    StepOffsets(inp, Start(), m);
    var b := OpenedComment();
    assert b.nodes[0] == Start().nodes[0].(children := b.nodes[0].children);
  }

  /** As written, the end of input reports the nameless template object and
      leaves `comment` without an end. */
  lemma CommentAsWritten()
    ensures var r := PopStackAsWritten(UnclosedComment(), OpenedComment(), OpenComment().source);
      && r.errors == [TError(TagNotClosed, None, None, OpenComment().source)]
      && 1 < |r.nodes| && r.nodes[1].end.None?
  {
    CommentOpened();
    var b := OpenedComment();
    assert Reversed([0]) == [0];
    assert Heads(b.nodes)[0] == Head(None, None);
    assert 1 !in b.stack;
  }

  /** As intended, it reports `comment` at offset 0 and ends it there. */
  lemma CommentIntended()
    ensures var r := CloseOpen(UnclosedComment(), OpenedComment(), OpenComment().source);
      && r.errors == [TError(TagNotClosed, Some("comment"), Some(0), OpenComment().source)]
      && 1 < |r.nodes| && r.nodes[1].end.Some?
  {
    CommentOpened();
    var b := OpenedComment();
    CloseOpenReports(UnclosedComment(), b, OpenComment().source);
    assert Open(b)[1..] == [1];
    assert Reversed([1]) == [1];
    assert Heads(b.nodes)[1] == Head(Some("comment"), Some(0));
    AllEnded(CloseOpen(UnclosedComment(), b, OpenComment().source));
  }

  /** On that template tsn.js reports the template object and leaves the
      `comment` node open; the intended loop reports `comment` and ends it. */
  lemma UnclosedCommentReports()
    ensures OpenedComment().stack == [0] && OpenedComment().current == 1
    ensures PopStackAsWritten(UnclosedComment(), OpenedComment(), OpenComment().source).errors
         == [TError(TagNotClosed, None, None, OpenComment().source)]
    ensures var r := PopStackAsWritten(UnclosedComment(), OpenedComment(), OpenComment().source);
            1 < |r.nodes| && r.nodes[1].end.None?
    ensures CloseOpen(UnclosedComment(), OpenedComment(), OpenComment().source).errors
         == [TError(TagNotClosed, Some("comment"), Some(0), OpenComment().source)]
    ensures var r := CloseOpen(UnclosedComment(), OpenedComment(), OpenComment().source);
            1 < |r.nodes| && r.nodes[1].end.Some?
  {
    CommentOpened();
    CommentAsWritten();
    CommentIntended();
  }

  // ---------------------------------------------------------------------------
  // Single-quoted attribute values
  // ---------------------------------------------------------------------------

  /** The template `<tsn:comment test='a'/>`, read as written or as fixed. */
  function QuotedComment(fixed: bool): Input {
    Input("<tsn:comment test='a'/>", "", {"comment"}, true, fixed)
  }

  function QuotedTag(): TMatch {
    TMatch(0, "<tsn:comment test='a'/>", OpenTok("comment", [TAttr("test", true, "a", [])], true))
  }

  /** The `comment` node the only match of that template adds. */
  function QuotedNode(fixed: bool): (n: TNode)
  {
    assert MatchOk(QuotedComment(fixed).path, QuotedTag());
    var b := Step(QuotedComment(fixed), Start(), QuotedTag());
    if |b.nodes| == 2 then b.nodes[1] else Start().nodes[0]
  }

  /** On `<tsn:comment test='a'/>` tsn.js stores `test` as undefined, while
      the corrected reading stores the value it evidently means, `a`. */
  lemma SingleQuotedLost()
    ensures QuotedNode(false).name == Some("comment")
    ensures "test" in QuotedNode(false).attributes && QuotedNode(false).attributes["test"] == Undefined
    ensures "test" in QuotedNode(true).attributes && QuotedNode(true).attributes["test"] == Plain("a")
  {
    var m := QuotedTag();
    forall fixed: bool
      ensures QuotedNode(fixed) == OpenedNode(QuotedComment(fixed), Start(), m)
    {
      var inp := QuotedComment(fixed);
      assert MatchOk(inp.path, m);
      var grown := Start().(text := Start().text + inp.path[0..0]);
      ShapeGrow(Start(), inp.path[0..0]);
      assert grown == Start();
      assert Step(inp, Start(), m) == OnMatch(inp, grown, m).(lastIndex := End(m));
    }
    assert m.token.attributes[0].name != Js.ProtoKey;
    AttributesLast(false, m.token.attributes, 0);
    AttributesLast(true, m.token.attributes, 0);
  }

  // ---------------------------------------------------------------------------
  // Line numbers
  // ---------------------------------------------------------------------------

  /** `getErrorData` counts every `\r` and `\n` character, so a CRLF pair
      counts twice where splitting into lines (as lib/Parser.js does) counts
      it once. */
  lemma LineCountsCrlfTwice(inp: Input, index: Option<nat>, result: string)
    ensures LineAt(inp, index, result) == |Lines(ErrorText(inp, index, result))| + CrlfPairs(ErrorText(inp, index, result))
  {
    LinesCount(ErrorText(inp, index, result));
  }

  /** A match on the second line of a CRLF text is reported on line 3. */
  lemma CrlfExample()
    ensures LineAt(Input("\r\nx", "", {}, true, false), Some(2), "x") == 3
  {
    var inp := Input("\r\nx", "", {}, true, false);
    assert ErrorText(inp, Some(2), "x") == "\r\nx";
    assert "\r\nx"[1..] == "\nx";
    assert "\nx"[1..] == "x";
    assert "x"[1..] == "";
  }
}
