/**
 * Properties of the whole scan of lib/Parser.js: running it over a
 * concatenation, the balanced-input theorem, the recovery example and the
 * behaviour of the sequential entity decoding.
 */
module ParserProperties {
  import opened Wrappers
  import opened TextUtil
  import opened TenParser
  import Cfg = ParserConfig
  import Js

  // ---------------------------------------------------------------------------
  // Scanning a concatenation
  // ---------------------------------------------------------------------------

  lemma WellFormedSplit(content: string, a: seq<Match>, b: seq<Match>, from: nat, cdata: bool)
    requires WellFormed(content, a + b, from, cdata)
    ensures WellFormed(content, a, from, cdata)
    ensures WellFormed(content, b, if a == [] then from else EndOf(a[|a| - 1]), cdata)
  {
    assert forall i :: 0 <= i < |a| ==> a[i] == (a + b)[i];
    assert forall i :: 0 <= i < |b| ==> b[i] == (a + b)[|a| + i];
    if a != [] && b != [] {
      assert EndOf((a + b)[|a| - 1]) <= (a + b)[|a|].index;
    }
  }

  /** After a successful scan of `a`, `b` is well formed from where it stopped. */
  lemma AfterPrefix(env: Env, st: State, a: seq<Match>, b: seq<Match>, cdata: bool)
    requires Inv(env, st)
    requires WellFormed(env.content, a + b, st.lastIndex, cdata)
    ensures WellFormed(env.content, a, st.lastIndex, cdata)
    ensures Scan(env, st, a, cdata).Success? ==>
              WellFormed(env.content, b, Scan(env, st, a, cdata).value.lastIndex, cdata)
  {
    WellFormedSplit(env.content, a, b, st.lastIndex, cdata);
  }

  /** One step of `Scan`: the first match, then the rest from where it ended. */
  lemma ScanUnfold(env: Env, st: State, ms: seq<Match>, cdata: bool)
    requires Inv(env, st) && ms != []
    requires WellFormed(env.content, ms, st.lastIndex, cdata)
    ensures WellFormed(env.content, ms[1..], EndOf(ms[0]), cdata)
    ensures var s := Step(env, st, ms[0]);
            && (s.Failure? ==> Scan(env, st, ms, cdata) == Failure(s.error))
            && (s.Success? ==> Inv(env, s.value) && s.value.lastIndex == EndOf(ms[0]))
            && (s.Success? ==> Scan(env, st, ms, cdata) == Scan(env, s.value, ms[1..], cdata))
  {
    WellFormedTail(env.content, ms, st.lastIndex, cdata);
  }

  /** `Scan` over a stream that starts with `m`. */
  lemma ScanCons(env: Env, st: State, m: Match, rest: seq<Match>, cdata: bool)
    requires Inv(env, st)
    requires WellFormed(env.content, [m] + rest, st.lastIndex, cdata)
    ensures WellFormed(env.content, rest, EndOf(m), cdata)
    ensures var s := Step(env, st, m);
            && (s.Failure? ==> Scan(env, st, [m] + rest, cdata) == Failure(s.error))
            && (s.Success? ==> Inv(env, s.value) && s.value.lastIndex == EndOf(m))
            && (s.Success? ==> Scan(env, st, [m] + rest, cdata) == Scan(env, s.value, rest, cdata))
  {
    var ms := [m] + rest;
    assert ms[0] == m && ms[1..] == rest;
    ScanUnfold(env, st, ms, cdata);
  }

  /** The first step of two scans that start with the same match: both fail
      with the same trace, or both go on from the same state. */
  lemma ScanConsPair(env: Env, st: State, m: Match, r1: seq<Match>, r2: seq<Match>, cdata: bool)
    returns (s: Result<State, seq<Event>>)
    requires Inv(env, st)
    requires WellFormed(env.content, [m] + r1, st.lastIndex, cdata)
    requires WellFormed(env.content, [m] + r2, st.lastIndex, cdata)
    ensures s.Failure? ==> Scan(env, st, [m] + r1, cdata) == s && Scan(env, st, [m] + r2, cdata) == s
    ensures s.Success? ==> Inv(env, s.value)
    ensures s.Success? ==> WellFormed(env.content, r1, s.value.lastIndex, cdata)
    ensures s.Success? ==> WellFormed(env.content, r2, s.value.lastIndex, cdata)
    ensures s.Success? ==> Scan(env, st, [m] + r1, cdata) == Scan(env, s.value, r1, cdata)
    ensures s.Success? ==> Scan(env, st, [m] + r2, cdata) == Scan(env, s.value, r2, cdata)
  {
    ScanCons(env, st, m, r1, cdata);
    ScanCons(env, st, m, r2, cdata);
    s := Step(env, st, m);
  }

  lemma ConsAppend<T>(a: seq<T>, b: seq<T>)
    requires a != []
    ensures a == [a[0]] + a[1..] && a + b == [a[0]] + (a[1..] + b)
  {
    assert a == [a[0]] + a[1..];
  }

  /** Scanning `a + b` is scanning `a`, then `b` from where `a` stopped. */
  lemma ScanAppend(env: Env, st: State, a: seq<Match>, b: seq<Match>, cdata: bool)
    requires Inv(env, st)
    requires WellFormed(env.content, a + b, st.lastIndex, cdata)
    ensures WellFormed(env.content, a, st.lastIndex, cdata)
    ensures var ra := Scan(env, st, a, cdata);
            && (ra.Success? ==> WellFormed(env.content, b, ra.value.lastIndex, cdata))
            && (ra.Success? ==> Scan(env, st, a + b, cdata) == Scan(env, ra.value, b, cdata))
            && (ra.Failure? ==> Scan(env, st, a + b, cdata) == ra)
  {
    AfterPrefix(env, st, a, b, cdata);
    if Scan(env, st, a, cdata).Success? {
      ScanAppendSuccess(env, st, a, b, cdata);
    } else {
      ScanAppendFailure(env, st, a, b, cdata);
    }
  }

  lemma {:induction false} ScanAppendSuccess(env: Env, st: State, a: seq<Match>, b: seq<Match>, cdata: bool)
    requires Inv(env, st)
    requires WellFormed(env.content, a + b, st.lastIndex, cdata)
    requires WellFormed(env.content, a, st.lastIndex, cdata)
    requires Scan(env, st, a, cdata).Success?
    ensures WellFormed(env.content, b, Scan(env, st, a, cdata).value.lastIndex, cdata)
    ensures Scan(env, st, a + b, cdata) == Scan(env, Scan(env, st, a, cdata).value, b, cdata)
    decreases |a|
  {
    if a == [] {
      assert a + b == b;
    } else {
      var m, t := a[0], a[1..];
      ConsAppend(a, b);
      var s := ScanConsPair(env, st, m, t, t + b, cdata);
      ScanAppendSuccess(env, s.value, t, b, cdata);
    }
  }

  lemma {:induction false} ScanAppendFailure(env: Env, st: State, a: seq<Match>, b: seq<Match>, cdata: bool)
    requires Inv(env, st)
    requires WellFormed(env.content, a + b, st.lastIndex, cdata)
    requires WellFormed(env.content, a, st.lastIndex, cdata)
    requires Scan(env, st, a, cdata).Failure?
    ensures Scan(env, st, a + b, cdata) == Scan(env, st, a, cdata)
    decreases |a|
  {
    var m, t := a[0], a[1..];
    ConsAppend(a, b);
    WellFormedSplit(env.content, a, b, st.lastIndex, cdata);
    var s := ScanConsPair(env, st, m, t, t + b, cdata);
    if s.Success? {
      ScanAppendFailure(env, s.value, t, b, cdata);
    }
  }


  // ---------------------------------------------------------------------------
  // Balanced input
  // ---------------------------------------------------------------------------

  /** A token stream shaped as a forest: a leaf is any match other than a
      closing or a non-empty opening tag; an element is an opening tag, its
      body and the closing tag that names it. */
  datatype Item = Leaf(m: Match) | Element(open: Match, body: seq<Item>, close: Match)

  function Flatten(items: seq<Item>): seq<Match>
    decreases items
  {
    if items == [] then [] else FlattenItem(items[0]) + Flatten(items[1..])
  }

  function FlattenItem(it: Item): seq<Match>
    decreases it
  {
    match it
    case Leaf(m) => [m]
    case Element(o, b, c) => [o] + Flatten(b) + [c]
  }

  predicate Nested(items: seq<Item>)
    decreases items
  {
    forall i :: 0 <= i < |items| ==> NestedItem(items[i])
  }

  predicate NestedItem(it: Item)
    decreases it
  {
    match it
    case Leaf(m) =>
      && !m.token.CloseTok?
      && (m.token.OpenTok? ==> m.token.selfClosing && !HasUndefinedValue(m.token.attributes))
    case Element(o, b, c) =>
      && o.token.OpenTok? && !o.token.selfClosing && !HasUndefinedValue(o.token.attributes)
      && c.token.CloseTok? && Lower(c.token.name) == Lower(o.token.name)
      && Nested(b)
  }

  predicate ErrorFree(evs: seq<Event>) {
    forall i :: 0 <= i < |evs| ==> !evs[i].CompileError?
  }

  /** The scan over a balanced stream succeeds, reports no diagnostic and
      leaves the cursor and the depth where they were. */
  predicate Restores(st: State, r: Result<State, seq<Event>>) {
    && r.Success?
    && r.value.stack == st.stack
    && r.value.depth == st.depth
    && st.events <= r.value.events
    && ErrorFree(r.value.events[|st.events|..])
  }

  lemma ErrorFreeChain(a: seq<Event>, b: seq<Event>, c: seq<Event>)
    requires a <= b <= c
    requires ErrorFree(b[|a|..]) && ErrorFree(c[|b|..])
    ensures ErrorFree(c[|a|..])
  {
    forall i | 0 <= i < |c| - |a| ensures !c[|a|..][i].CompileError? {
      if |a| + i < |b| {
        assert c[|a|..][i] == b[|a|..][i];
      } else {
        assert c[|a|..][i] == c[|b|..][|a| + i - |b|];
      }
    }
  }

  lemma FlushErrorFree(env: Env, st: State, m: Match)
    requires st.lastIndex <= m.index <= |env.content|
    ensures ErrorFree(Flush(env, st, m).events[|st.events|..])
  {
    var f := Flush(env, st, m);
    if f.events != st.events {
      assert f.events[|st.events|..] == [f.events[|f.events| - 1]];
    }
  }

  /** A leaf is one error-free step that keeps the cursor. */
  lemma LeafStep(env: Env, st: State, m: Match)
    requires Inv(env, st) && MatchOk(env.content, m, true) && st.lastIndex <= m.index
    requires NestedItem(Leaf(m))
    ensures Restores(st, Step(env, st, m))
  {
    var st0 := Flush(env, st, m);
    FlushErrorFree(env, st, m);
    var r := Step(env, st, m);
    if m.token.OpenTok? {
      var e := OnOpen(st0, m).value.events;
      assert e[|st0.events|..] == [e[|e| - 1]];
      ErrorFreeChain(st.events, st0.events, r.value.events);
    } else {
      ErrorFreeChain(st.events, st0.events, r.value.events);
    }
  }

  /** The opening tag of an element: one error-free step one level down. */
  lemma OpenPrefix(env: Env, st: State, o: Match, rest: seq<Match>, cdata: bool) returns (s1: State)
    requires Inv(env, st) && WellFormed(env.content, [o] + rest, st.lastIndex, cdata)
    requires o.token.OpenTok? && !o.token.selfClosing && !HasUndefinedValue(o.token.attributes)
    ensures Inv(env, s1) && WellFormed(env.content, rest, s1.lastIndex, cdata)
    ensures Scan(env, st, [o] + rest, cdata) == Scan(env, s1, rest, cdata)
    ensures |s1.stack| == |st.stack| + 1 && s1.stack[..|st.stack|] == st.stack
    ensures s1.stack[|st.stack|].name == Lower(o.token.name)
    ensures st.events <= s1.events && ErrorFree(s1.events[|st.events|..])
  {
    ScanAppend(env, st, [o], rest, cdata);
    ScanSingle(env, st, o, cdata);
    OpenStep(env, st, o);
    s1 := Step(env, st, o).value;
  }

  /** The closing tag of an element whose body restored the stack: the scan
      from before the opening tag ends where it started, error free. */
  lemma CloseSuffix(env: Env, st: State, s1: State, body: seq<Match>, c: Match, cdata: bool)
    requires Inv(env, st) && Inv(env, s1) && WellFormed(env.content, body + [c], s1.lastIndex, cdata)
    requires |s1.stack| == |st.stack| + 1 && s1.stack[..|st.stack|] == st.stack
    requires c.token.CloseTok? && s1.stack[|st.stack|].name == Lower(c.token.name)
    requires st.events <= s1.events && ErrorFree(s1.events[|st.events|..])
    requires WellFormed(env.content, body, s1.lastIndex, cdata)
    requires Restores(s1, Scan(env, s1, body, cdata))
    requires WellFormed(env.content, [c], Scan(env, s1, body, cdata).value.lastIndex, cdata)
    requires Scan(env, s1, body + [c], cdata) == Scan(env, Scan(env, s1, body, cdata).value, [c], cdata)
    ensures Restores(st, Scan(env, s1, body + [c], cdata))
  {
    var s2 := Scan(env, s1, body, cdata).value;
    ErrorFreeChain(st.events, s1.events, s2.events);
    ScanSingle(env, s2, c, cdata);
    CloseStep(env, s2, c);
    var s3 := Step(env, s2, c).value;
    assert s2.stack[..|s2.stack| - 1] == st.stack;
    ErrorFreeChain(st.events, s2.events, s3.events);
  }

  lemma {:induction false} BalancedScan(env: Env, st: State, items: seq<Item>, cdata: bool)
    requires Inv(env, st)
    requires Nested(items)
    requires WellFormed(env.content, Flatten(items), st.lastIndex, cdata)
    ensures Restores(st, Scan(env, st, Flatten(items), cdata))
    decreases items
  {
    if items == [] {
    } else {
      var first := FlattenItem(items[0]);
      var rest := items[1..];
      assert Nested(rest) by {
        forall i | 0 <= i < |rest| ensures NestedItem(rest[i]) {
          assert rest[i] == items[i + 1];
        }
      }
      ScanAppend(env, st, first, Flatten(rest), cdata);
      BalancedItem(env, st, items[0], cdata);
      var mid := Scan(env, st, first, cdata).value;
      BalancedScan(env, mid, rest, cdata);
      ErrorFreeChain(st.events, mid.events, Scan(env, mid, Flatten(rest), cdata).value.events);
    }
  }

  /** Scanning one match is taking one step. */
  lemma ScanSingle(env: Env, st: State, m: Match, cdata: bool)
    requires Inv(env, st) && WellFormed(env.content, [m], st.lastIndex, cdata)
    ensures MatchOk(env.content, m, true) && st.lastIndex <= m.index
    ensures Scan(env, st, [m], cdata) == Step(env, st, m)
  {
    assert [m][0] == m;
    ScanUnfold(env, st, [m], cdata);
    assert [m][1..] == [];
  }

  /** A non-self-closing opening tag without `undefined` values descends one level. */
  lemma OpenStep(env: Env, st: State, o: Match)
    requires Inv(env, st) && MatchOk(env.content, o, true) && st.lastIndex <= o.index
    requires o.token.OpenTok? && !o.token.selfClosing && !HasUndefinedValue(o.token.attributes)
    ensures var s := Step(env, st, o);
            && s.Success?
            && |s.value.stack| == |st.stack| + 1
            && s.value.stack[..|st.stack|] == st.stack
            && s.value.stack[|st.stack|].name == Lower(o.token.name)
            && st.events <= s.value.events
            && ErrorFree(s.value.events[|st.events|..])
  {
    var st0 := Flush(env, st, o);
    FlushErrorFree(env, st, o);
    var s1 := Step(env, st, o).value;
    assert s1 == OnOpen(st0, o).value;
    assert s1.events[|st0.events|..] == [s1.events[|s1.events| - 1]];
    ErrorFreeChain(st.events, st0.events, s1.events);
  }

  /** A closing tag naming the current node returns to its parent. */
  lemma CloseStep(env: Env, st: State, c: Match)
    requires Inv(env, st) && MatchOk(env.content, c, true) && st.lastIndex <= c.index
    requires c.token.CloseTok? && |st.stack| > 0 && st.stack[|st.stack| - 1].name == Lower(c.token.name)
    ensures var s := Step(env, st, c);
            && s.Success?
            && s.value.stack == st.stack[..|st.stack| - 1]
            && st.events <= s.value.events
            && ErrorFree(s.value.events[|st.events|..])
  {
    var t0 := Flush(env, st, c);
    FlushErrorFree(env, st, c);
    var s3 := Step(env, st, c).value;
    assert s3 == OnClose(env, t0, c);
    assert s3.events[|t0.events|..] == [s3.events[|s3.events| - 1]];
    ErrorFreeChain(st.events, t0.events, s3.events);
  }

  lemma {:induction false} BalancedItem(env: Env, st: State, it: Item, cdata: bool)
    requires Inv(env, st)
    requires NestedItem(it)
    requires WellFormed(env.content, FlattenItem(it), st.lastIndex, cdata)
    ensures Restores(st, Scan(env, st, FlattenItem(it), cdata))
    decreases it
  {
    match it
    case Leaf(m) =>
      ScanSingle(env, st, m, cdata);
      LeafStep(env, st, m);
    case Element(o, b, c) =>
      assert [o] + Flatten(b) + [c] == [o] + (Flatten(b) + [c]);
      var s1 := OpenPrefix(env, st, o, Flatten(b) + [c], cdata);
      ScanAppend(env, s1, Flatten(b), [c], cdata);
      BalancedScan(env, s1, b, cdata);
      CloseSuffix(env, st, s1, Flatten(b), c, cdata);
  }
  /** Every diagnostic is counted under one of the two kinds. */
  lemma {:induction false} ErrorFreeCounts(evs: seq<Event>)
    ensures ErrorFree(evs) <==> CountErrors(evs, TagNotClosed) == 0 && CountErrors(evs, ClosingMatchesNothing) == 0
  {
    if evs != [] {
      ErrorFreeCounts(evs[1..]);
      assert ErrorFree(evs) <==> !evs[0].CompileError? && ErrorFree(evs[1..]) by {
        assert forall i :: 0 < i < |evs| ==> evs[i] == evs[1..][i - 1];
      }
    }
  }

  /** From an error-free start, a balanced stream runs to completion without
      any diagnostic. */
  lemma BalancedRun(env: Env, start: seq<Event>, items: seq<Item>, cdata: bool)
    requires Proper(start) && ErrorFree(start)
    requires Nested(items)
    requires WellFormed(env.content, Flatten(items), 0, cdata)
    ensures var r := Run(env, start, Flatten(items), cdata);
            r.1 && ErrorFree(r.0)
  {
    var st := State([], 0, 0, start);
    BalancedScan(env, st, items, cdata);
    var done := Scan(env, st, Flatten(items), cdata).value;
    var fin := Finish(env, done);
    ErrorFreeCounts(fin[|done.events|..]);
    assert start[0..] == start;
    var none: seq<Event> := [];
    ErrorFreeChain(none, start, done.events);
    ErrorFreeChain(none, done.events, fin);
    assert fin[0..] == fin;
  }

  /** A balanced template parses to completion without any diagnostic. */
  lemma BalancedParse(source: string, config: Cfg.Config, decl: Option<nat>, items: seq<Item>)
    requires Nested(items)
    requires ParseInput(source, config, decl, Flatten(items))
    ensures var r := Parse(source, config, decl, Flatten(items));
            r.completed && ErrorFree(r.events)
  {
    var split := SplitDeclaration(source, config, decl);
    var w := Cfg.Normalise(config).issues;
    var start := Warnings(w) + [Start];
    StartProper(w);
    assert ErrorFree(start) by {
      forall i | 0 <= i < |start| ensures !start[i].CompileError? {
        if i < |w| {
          assert start[i] == ConfigWarning(w[i]);
        }
      }
    }
    BalancedRun(Env(split.0, split.1, Cfg.SavesComments(config)), start, items, !Cfg.ParsesCDATA(config));
  }

  /** The line `_error` reports is one more than the number of line
      terminators before the end of the node's source, a CRLF pair counting
      once. */
  lemma ErrorLineTerminators(env: Env, index: nat, source: string)
    ensures var full := env.declaration + env.content;
            var cut := if index + |env.declaration| <= |full| then index + |env.declaration| else |full|;
            var t := full[..cut] + source;
            ErrorLine(env, index, source) + CrlfPairs(t) == 1 + BreakChars(t)
  {
    var full := env.declaration + env.content;
    var cut := if index + |env.declaration| <= |full| then index + |env.declaration| else |full|;
    LinesCount(full[..cut] + source);
  }

  /** A node on the second line of a CRLF text is reported on line 2. */
  lemma ErrorLineCrlf()
    ensures ErrorLine(Env("", "\r\nx", true), 2, "x") == 2
  {
    var t := "\r\nx";
    assert "" + t == t;
    assert t[..2] + "x" == t;
    ErrorLineTerminators(Env("", t, true), 2, "x");
    assert t[1..] == "\nx" && t[1..][1..] == "x" && "x"[1..] == "";
    assert BreakChars(t) == 2;
    assert CrlfPairs("x") == 0 && CrlfPairs("\nx") == 0;
    assert CrlfPairs(t) == 1;
  }

  /** `a=''` is stored as the empty string; only `a=""` leaves `undefined`
      for `.replace` to fail on. */
  lemma EmptyQuotedValues()
    ensures DecodeAttributes([RawAttribute("a", "", true)]) == Some(map["a" := ""])
    ensures DecodeAttributes([RawAttribute("a", "", false)]).None?
  {
    var single := [RawAttribute("a", "", true)];
    assert single[..0] == [];
    ReplaceAllAbsent("", "&amp;", "&");
    ReplaceAllAbsent("", "&lt;", "<");
    ReplaceAllAbsent("", "&gt;", ">");
    ReplaceAllAbsent("", "&quot;", "\"");
    ReplaceAllAbsent("", "&apos;", "'");
    assert DecodeEntities("") == "";
    assert Lower("a") == "a";
    assert DecodeAttributes(single[..0]) == Some(map[]);
    assert DecodeAttributes(single) == Some(map[]["a" := ""]);
    assert Captured(RawAttribute("a", "", false)).None?;
  }

  /** `a="\"` captures the empty string and throws like `a=""`, while
      `a="x\"` is stored as `x`. */
  lemma EscapedQuoteCaptures()
    ensures CaptureGroup("\\") == ""
    ensures DecodeAttributes([RawAttribute("a", CaptureGroup("\\"), false)]).None?
    ensures CaptureGroup("x\\") == "x"
  {
    assert "x\\"[..1] == "x";
    assert Captured(RawAttribute("a", "", false)).None?;
  }

  /** An attribute named `__proto__`, in any case, adds no key to the map. */
  lemma ProtoAttributeDropped()
    ensures DecodeAttributes([RawAttribute("__PROTO__", "x", false), RawAttribute("b", "y", false)]).Some?
    ensures DecodeAttributes([RawAttribute("__PROTO__", "x", false), RawAttribute("b", "y", false)]).value.Keys == {"b"}
  {
    var raws := [RawAttribute("__PROTO__", "x", false), RawAttribute("b", "y", false)];
    assert Lower("__PROTO__") == "__proto__";
    assert Lower("b") == "b";
    assert !Stored(raws[0]) && Stored(raws[1]);
    var keys := set i | 0 <= i < |raws| && Stored(raws[i]) :: Lower(raws[i].name);
    assert "b" in keys by { assert Stored(raws[1]) && Lower(raws[1].name) == "b"; }
    forall k | k in keys ensures k == "b" {
      var i :| 0 <= i < |raws| && Stored(raws[i]) && Lower(raws[i].name) == k;
    }
    assert !HasUndefinedValue(raws) by {
      forall i | 0 <= i < |raws| ensures Captured(raws[i]).Some? { }
    }
  }

  /** Each entity is longer than its character, so decoding never lengthens a
      value. */
  lemma DecodeEntitiesShrinks(v: string)
    ensures |DecodeEntities(v)| <= |v|
  {
    var a := ReplaceAll(v, "&amp;", "&");
    var b := ReplaceAll(a, "&lt;", "<");
    var c := ReplaceAll(b, "&gt;", ">");
    var d := ReplaceAll(c, "&quot;", "\"");
    ReplaceAllShrinks(v, "&amp;", "&");
    ReplaceAllShrinks(a, "&lt;", "<");
    ReplaceAllShrinks(b, "&gt;", ">");
    ReplaceAllShrinks(c, "&quot;", "\"");
    ReplaceAllShrinks(d, "&apos;", "'");
  }

  /** Entities are decoded in sequence, so an escaped entity is decoded twice:
      the attribute text `&amp;lt;` becomes `<`, not `&lt;`. */
  lemma DoubleDecoding()
    ensures DecodeEntities("&amp;lt;") == "<"
  {
    var v := "&amp;lt;";
    assert v[..5] == "&amp;";
    var rest := v[5..];
    assert rest == "lt;";
    ReplaceAllAbsent(rest, "&amp;", "&");
    var a := ReplaceAll(v, "&amp;", "&");
    assert a == "&lt;";
    assert a[..4] == "&lt;" && a[4..] == [];
    var b := ReplaceAll(a, "&lt;", "<");
    assert b == "<";
    ReplaceAllAbsent(b, "&gt;", ">");
    ReplaceAllAbsent(b, "&quot;", "\"");
    ReplaceAllAbsent(b, "&apos;", "'");
  }
}
