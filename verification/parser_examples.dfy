/** The recovery path of the constructor: an unclosed tag inside a tag whose
    closing tag is found is reported once, its code is merged into the parent,
    and the parent is closed. */
module ParserRecovery {
  import opened Wrappers
  import opened TextUtil
  import opened TenParser
  import opened ParserProperties

  /** A non-self-closing opening tag with no empty double-quoted value, the one
      case lib/Parser.js:128 throws on. */
  predicate Descends(m: Match) {
    m.token.OpenTok? && !m.token.selfClosing && !HasUndefinedValue(m.token.attributes)
  }

  /** The node the constructor builds for such a tag. */
  function Opened(m: Match): (n: Node)
    requires Descends(m)
    ensures n.name == Lower(m.token.name) && n.index == m.index && n.source == m.source
  {
    Node(m.index, m.source, Lower(m.token.name), false, DecodeAttributes(m.token.attributes).value)
  }

  /** Descending: the new node is pushed and no diagnostic is reported. */
  lemma OpenExact(env: Env, st: State, o: Match)
    requires Inv(env, st) && MatchOk(env.content, o, true) && st.lastIndex <= o.index
    requires Descends(o)
    ensures var s := Step(env, st, o);
            && s.Success?
            && s.value.stack == st.stack + [Opened(o)]
            && s.value.lastIndex == EndOf(o)
            && st.events <= s.value.events
            && ErrorFree(s.value.events[|st.events|..])
  {
    OpenStep(env, st, o);
    assert Step(env, st, o) == Success(OnOpen(Flush(env, st, o), o).value);
  }

  /** Closing the parent of the current node: the current node is reported,
      merged and the parent closed. */
  lemma RecoverExact(env: Env, st: State, c: Match)
    requires Inv(env, st) && MatchOk(env.content, c, true) && st.lastIndex <= c.index
    requires c.token.CloseTok? && |st.stack| >= 2
    requires st.stack[|st.stack| - 1].name != Lower(c.token.name)
    requires st.stack[|st.stack| - 2].name == Lower(c.token.name)
    ensures var s := Step(env, st, c);
            var cur := st.stack[|st.stack| - 1];
            var par := st.stack[|st.stack| - 2];
            && s.Success?
            && s.value.stack == st.stack[..|st.stack| - 2]
            && s.value.lastIndex == EndOf(c)
            && st.events <= s.value.events
            && ErrorFree(s.value.events[|st.events|..|s.value.events| - 3])
            && s.value.events[|s.value.events| - 3..]
               == [CompileError(TagNotClosed, cur.name, ErrorLine(env, cur.index, cur.source)),
                   MergeCode(cur, par),
                   Close(c.index, c.source, Lower(c.token.name), Tag(par))]
  {
    var t0 := Flush(env, st, c);
    FlushErrorFree(env, st, c);
    var s := OnClose(env, t0, c);
    assert Step(env, st, c) == Success(s);
    assert s.events[|st.events|..|s.events| - 3] == t0.events[|st.events|..];
  }

  /** The two scanned levels of the scenario: after both opening tags the stack
      holds both nodes and nothing has been reported. */
  lemma TwoLevels(env: Env, o1: Match, o2: Match, rest: seq<Match>, cdata: bool)
    requires WellFormed(env.content, [o1, o2] + rest, 0, cdata)
    requires Descends(o1) && Descends(o2)
    ensures WellFormed(env.content, [o1, o2], 0, cdata)
    ensures var st := State([], 0, 0, [Start]);
            var s2 := Scan(env, st, [o1, o2], cdata);
            && s2.Success?
            && s2.value.stack == [Opened(o1), Opened(o2)]
            && [Start] <= s2.value.events
            && ErrorFree(s2.value.events)
            && WellFormed(env.content, rest, s2.value.lastIndex, cdata)
            && Scan(env, st, [o1, o2] + rest, cdata) == Scan(env, s2.value, rest, cdata)
  {
    ScanAppend(env, State([], 0, 0, [Start]), [o1, o2], rest, cdata);
    TwoOpens(env, o1, o2, cdata);
  }

  /** Both opening tags descend, and nothing is reported on the way. */
  lemma TwoOpens(env: Env, o1: Match, o2: Match, cdata: bool)
    requires WellFormed(env.content, [o1, o2], 0, cdata)
    requires Descends(o1) && Descends(o2)
    ensures var s2 := Scan(env, State([], 0, 0, [Start]), [o1, o2], cdata);
            && s2.Success?
            && s2.value.stack == [Opened(o1), Opened(o2)]
            && [Start] <= s2.value.events
            && ErrorFree(s2.value.events)
  {
    var st := State([], 0, 0, [Start]);
    var ms := [o1, o2];
    ScanUnfold(env, st, ms, cdata);
    OpenExact(env, st, o1);
    var s1 := Step(env, st, o1).value;
    assert ms[1..] == [o2];
    ScanSingle(env, s1, o2, cdata);
    OpenExact(env, s1, o2);
    var s2 := Step(env, s1, o2).value;
    assert ErrorFree(st.events[0..]);
    var none: seq<Event> := [];
    ErrorFreeChain(none, st.events, s1.events);
    ErrorFreeChain(none, s1.events, s2.events);
    assert s2.events[0..] == s2.events;
  }

  /** An error-free prefix followed by an error-free stretch is error free. */
  lemma ErrorFreeJoin(a: seq<Event>, c: seq<Event>, k: nat)
    requires a <= c && |a| <= k <= |c|
    requires ErrorFree(a) && ErrorFree(c[|a|..k])
    ensures ErrorFree(c[..k])
  {
    forall i | 0 <= i < k ensures !c[..k][i].CompileError? {
      if i < |a| {
        assert c[..k][i] == a[i];
      } else {
        assert c[..k][i] == c[|a|..k][i - |a|];
      }
    }
  }

  /** The scan of `<a><b></a>` ends at the root, with the three recovery
      events last and no diagnostic before them. */
  lemma RecoveryScan(env: Env, o1: Match, o2: Match, c: Match, cdata: bool)
    requires WellFormed(env.content, [o1, o2, c], 0, cdata)
    requires Descends(o1) && Descends(o2)
    requires c.token.CloseTok?
    requires Lower(c.token.name) == Lower(o1.token.name) != Lower(o2.token.name)
    ensures var s := Scan(env, State([], 0, 0, [Start]), [o1, o2, c], cdata);
            && s.Success?
            && s.value.stack == []
            && |s.value.events| >= 3
            && ErrorFree(s.value.events[..|s.value.events| - 3])
            && s.value.events[|s.value.events| - 3..]
               == [CompileError(TagNotClosed, Opened(o2).name, ErrorLine(env, o2.index, o2.source)),
                   MergeCode(Opened(o2), Opened(o1)),
                   Close(c.index, c.source, Opened(o1).name, Tag(Opened(o1)))]
  {
    var st := State([], 0, 0, [Start]);
    assert [o1, o2, c] == [o1, o2] + [c];
    TwoLevels(env, o1, o2, [c], cdata);
    var s2 := Scan(env, st, [o1, o2], cdata).value;
    ScanSingle(env, s2, c, cdata);
    RecoverExact(env, s2, c);
    var s3 := Step(env, s2, c).value;
    ScanSingle(env, s2, c, cdata);
    ErrorFreeJoin(s2.events, s3.events, |s3.events| - 3);
  }

  /** The three recovery events hold one "not closed" report and no
      "closing matches nothing" report. */
  lemma RecoveryCounts(e: seq<Event>, a: Node, b: Node, index: nat, source: string, line: nat)
    requires e == [CompileError(TagNotClosed, b.name, line), MergeCode(b, a), Close(index, source, a.name, Tag(a))]
    ensures CountErrors(e, TagNotClosed) == 1 && CountErrors(e, ClosingMatchesNothing) == 0
  {
    var e1 := e[1..];
    var e2 := e1[1..];
    assert e1 == [MergeCode(b, a), Close(index, source, a.name, Tag(a))];
    assert e2 == [Close(index, source, a.name, Tag(a))];
    assert e2[1..] == [];
    assert CountErrors(e2[1..], TagNotClosed) == 0 && CountErrors(e2[1..], ClosingMatchesNothing) == 0;
    assert CountErrors(e2, TagNotClosed) == 0 && CountErrors(e2, ClosingMatchesNothing) == 0;
    assert CountErrors(e1, TagNotClosed) == 0 && CountErrors(e1, ClosingMatchesNothing) == 0;
  }

  /** The epilogue after the recovery adds no diagnostic: the stack is empty. */
  lemma RecoveryFinish(env: Env, st: State, a: Node, b: Node, index: nat, source: string, line: nat)
    requires Inv(env, st) && st.stack == [] && |st.events| >= 3
    requires ErrorFree(st.events[..|st.events| - 3])
    requires st.events[|st.events| - 3..]
             == [CompileError(TagNotClosed, b.name, line), MergeCode(b, a), Close(index, source, a.name, Tag(a))]
    ensures var fin := Finish(env, st);
            && CountErrors(fin, TagNotClosed) == 1
            && CountErrors(fin, ClosingMatchesNothing) == 0
            && CompileError(TagNotClosed, b.name, line) in fin
            && MergeCode(b, a) in fin
            && Close(index, source, a.name, Tag(a)) in fin
  {
    var fin := Finish(env, st);
    var added := fin[|st.events|..];
    assert fin == st.events + added;
    assert CountErrors(added, TagNotClosed) == 0 && CountErrors(added, ClosingMatchesNothing) == 0;
    RecoveryTrace(st.events, added, a, b, index, source, line);
  }

  /** A trace that is error-free up to the three recovery events, followed by
      events without diagnostics, holds exactly the recovery's diagnostic. */
  lemma RecoveryTrace(evs: seq<Event>, added: seq<Event>, a: Node, b: Node, index: nat, source: string, line: nat)
    requires |evs| >= 3 && ErrorFree(evs[..|evs| - 3])
    requires evs[|evs| - 3..]
             == [CompileError(TagNotClosed, b.name, line), MergeCode(b, a), Close(index, source, a.name, Tag(a))]
    requires CountErrors(added, TagNotClosed) == 0 && CountErrors(added, ClosingMatchesNothing) == 0
    ensures CountErrors(evs + added, TagNotClosed) == 1
    ensures CountErrors(evs + added, ClosingMatchesNothing) == 0
    ensures CompileError(TagNotClosed, b.name, line) in evs + added
    ensures MergeCode(b, a) in evs + added
    ensures Close(index, source, a.name, Tag(a)) in evs + added
  {
    RecoveryTraceCounts(evs, a, b, index, source, line);
    CountErrorsAppend(evs, added, TagNotClosed);
    CountErrorsAppend(evs, added, ClosingMatchesNothing);
    var k := |evs| - 3;
    assert evs[k] == evs[k..][0] && evs[k + 1] == evs[k..][1] && evs[k + 2] == evs[k..][2];
    assert (evs + added)[k] == evs[k] && (evs + added)[k + 1] == evs[k + 1] && (evs + added)[k + 2] == evs[k + 2];
  }

  lemma RecoveryTraceCounts(evs: seq<Event>, a: Node, b: Node, index: nat, source: string, line: nat)
    requires |evs| >= 3 && ErrorFree(evs[..|evs| - 3])
    requires evs[|evs| - 3..]
             == [CompileError(TagNotClosed, b.name, line), MergeCode(b, a), Close(index, source, a.name, Tag(a))]
    ensures CountErrors(evs, TagNotClosed) == 1
    ensures CountErrors(evs, ClosingMatchesNothing) == 0
  {
    var k := |evs| - 3;
    var before := evs[..k];
    var tail3 := evs[k..];
    assert evs == before + tail3;
    ErrorFreeCounts(before);
    RecoveryCounts(tail3, a, b, index, source, line);
    CountErrorsAppend(before, tail3, TagNotClosed);
    CountErrorsAppend(before, tail3, ClosingMatchesNothing);
  }

  /** `<a><b></a>` with `b` distinct from `a`: one `Tag is not closed.` for
      `b`, `b` merged into `a`, `a` closed, and the run completes with no
      other diagnostic. */
  lemma RecoveryRun(env: Env, o1: Match, o2: Match, c: Match, cdata: bool)
    requires WellFormed(env.content, [o1, o2, c], 0, cdata)
    requires Descends(o1) && Descends(o2)
    requires c.token.CloseTok?
    requires Lower(c.token.name) == Lower(o1.token.name) != Lower(o2.token.name)
    ensures var r := Run(env, [Start], [o1, o2, c], cdata);
            && r.1
            && CountErrors(r.0, TagNotClosed) == 1
            && CountErrors(r.0, ClosingMatchesNothing) == 0
            && CompileError(TagNotClosed, Opened(o2).name, ErrorLine(env, o2.index, o2.source)) in r.0
            && MergeCode(Opened(o2), Opened(o1)) in r.0
            && Close(c.index, c.source, Opened(o1).name, Tag(Opened(o1))) in r.0
  {
    RecoveryScan(env, o1, o2, c, cdata);
    var s3 := Scan(env, State([], 0, 0, [Start]), [o1, o2, c], cdata).value;
    RecoveryFinish(env, s3, Opened(o1), Opened(o2), c.index, c.source, ErrorLine(env, o2.index, o2.source));
  }
}
