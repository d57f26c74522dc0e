/**
 * Configuration normalisation performed by the parser constructor
 * (lib/Parser.js). Each invalid setting is replaced by its default and
 * reported once; valid settings pass through. The boolean switches are kept
 * as raw values because lib/Parser.js tests them with `=== true` or `!== false`.
 */
module ParserConfig {
  import opened Js
  import opened TextUtil

  datatype Config = Config(
    namespace: Value,
    tabSize: Value,
    indent: Value,
    parseCDATA: Value,
    removeXMLDeclaration: Value,
    saveComments: Value)

  /** One configuration warning (lib/Parser.js reports it through `onError`). */
  datatype Issue = InvalidNamespace | InvalidTabSize | InvalidIndent

  datatype Normalised = Normalised(config: Config, issues: seq<Issue>)

  const DefaultNamespace: Value := Str("ten")
  const DefaultTabSize: Value := Num(2)
  const DefaultIndent: Value := Num(2)

  /** The namespace is kept when it is truthy and its string form contains a
      character of `[a-z\d\-_]` (case-insensitively). */
  predicate NamespaceOk(v: Value) {
    Truthy(v) && exists i :: 0 <= i < |ToStr(v)| && IsNameChar(ToStr(v)[i])
  }

  /** A size setting is replaced unless it is a number and not below 1. NaN is
      a number and `NaN < 1` is false, so NaN is kept. */
  predicate SizeOk(v: Value) {
    IsNumber(v) && !(v.Num? && v.n < 1)
  }

  /** The flags the scan consults: `config.saveComments === true`. */
  predicate SavesComments(c: Config) {
    c.saveComments == Bool(true)
  }

  /** `config.removeXMLDeclaration !== false`. */
  predicate StripsDeclaration(c: Config) {
    c.removeXMLDeclaration != Bool(false)
  }

  /** `config.parseCDATA === true`: CDATA sections are not recognised as tokens. */
  predicate ParsesCDATA(c: Config) {
    c.parseCDATA == Bool(true)
  }

  predicate Valid(c: Config) {
    NamespaceOk(c.namespace) && SizeOk(c.tabSize) && SizeOk(c.indent)
  }


  function Normalise(c: Config): (r: Normalised)
    // every setting ends up valid, and only invalid ones change
    ensures Valid(r.config)
    ensures NamespaceOk(c.namespace) ==> r.config.namespace == c.namespace
    ensures !NamespaceOk(c.namespace) ==> r.config.namespace == DefaultNamespace
    ensures SizeOk(c.tabSize) ==> r.config.tabSize == c.tabSize
    ensures !SizeOk(c.tabSize) ==> r.config.tabSize == DefaultTabSize
    ensures SizeOk(c.indent) ==> r.config.indent == c.indent
    ensures !SizeOk(c.indent) ==> r.config.indent == DefaultIndent
    ensures r.config.parseCDATA == c.parseCDATA
    ensures r.config.removeXMLDeclaration == c.removeXMLDeclaration
    ensures r.config.saveComments == c.saveComments
    // one warning per replaced setting, in the order the settings are checked
    ensures |r.issues| == (if NamespaceOk(c.namespace) then 0 else 1)
                        + (if SizeOk(c.tabSize) then 0 else 1)
                        + (if SizeOk(c.indent) then 0 else 1)
    ensures InvalidNamespace in r.issues <==> !NamespaceOk(c.namespace)
    ensures InvalidTabSize in r.issues <==> !SizeOk(c.tabSize)
    ensures InvalidIndent in r.issues <==> !SizeOk(c.indent)
    ensures forall i, j :: 0 <= i < j < |r.issues| ==> Rank(r.issues[i]) < Rank(r.issues[j])
  {
    var ns := if NamespaceOk(c.namespace) then [] else [InvalidNamespace];
    var ts := if SizeOk(c.tabSize) then [] else [InvalidTabSize];
    var id := if SizeOk(c.indent) then [] else [InvalidIndent];
    var cfg := c.(
      namespace := if NamespaceOk(c.namespace) then c.namespace else DefaultNamespace,
      tabSize := if SizeOk(c.tabSize) then c.tabSize else DefaultTabSize,
      indent := if SizeOk(c.indent) then c.indent else DefaultIndent);
    assert NamespaceOk(DefaultNamespace) by {
      assert IsNameChar(ToStr(DefaultNamespace)[0]);
    }
    Normalised(cfg, ns + ts + id)
  }

  /** Position of a warning in the order the constructor checks the settings. */
  function Rank(x: Issue): nat {
    match x
    case InvalidNamespace => 0
    case InvalidTabSize => 1
    case InvalidIndent => 2
  }

  /** Normalising a normalised configuration changes nothing and warns about
      nothing. */
  lemma NormaliseIdempotent(c: Config)
    ensures Normalise(Normalise(c).config) == Normalised(Normalise(c).config, [])
  {
  }

  /** An array namespace is tested through `String`, which joins its
      elements with commas: `[]` is truthy but its string is empty, so it is
      replaced, while `[0]` is kept although `0` itself is not. */
  lemma ArrayNamespace()
    ensures !NamespaceOk(Arr([]))
    ensures !NamespaceOk(Arr([Null, Undefined]))
    ensures NamespaceOk(Arr([Num(0)])) && !NamespaceOk(Num(0))
  {
    assert ToStr(Arr([Num(0)])) == "0";
    assert IsNameChar(ToStr(Arr([Num(0)]))[0]);
    assert ToStr(Arr([Null, Undefined])) == ",";
  }

  /** A numeric namespace is truthy exactly when it is non-zero, and its
      decimal form always contains a digit, so only `0` is replaced. */
  lemma NumericNamespace(n: int)
    ensures NamespaceOk(Num(n)) <==> n != 0
  {
    if n != 0 {
      var s := ToStr(Num(n));
      if n < 0 {
        assert IsNameChar(s[0]);
      } else {
        assert IsNameChar(s[0]);
      }
    }
  }
}
