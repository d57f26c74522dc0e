# TSN template compiler — a Dafny model

This project models the compile-time core of the TSN templating system for
Node.js. The system has three parts, and the project models each one:

- **lib/Parser.js** is the TEN parser. Its constructor normalises the
  configuration and splits off the XML declaration. It then scans the
  template, reports text, entities, opening and closing tags through hooks,
  and recovers from a close tag that names the parent. At the end of input
  it reports every tag left open. `_error` turns a node's offset into a line
  number.
  - The hooks are modelled as an event trace (`TenParser.Event`).
- **tags.js** holds the tag library. Each `parse` hook reads a node's
  attributes, its `isEmpty` flag and a little of its parent or parser. It
  then rewrites a template string or returns an `Error`. The `escape` and
  `addCode` helpers are modelled too.
- **tsn.js** is the older template builder. The model covers:
  - the namespace fallback;
  - `TSN.extend`;
  - the entity split of attribute values (`attribute`) and its inverse
    (`toString`);
  - the constructor's tree-building scan and its end-of-input loop.

Neither scan re-implements the big composite regular expressions. Each
takes the list of matches as input: index, matched text and the captured
token. The requirements on that list are what the patterns guarantee:

- matches lie inside the text, in order, without overlap;
- captured names are non-empty.

The files:

| file | module | contents |
|---|---|---|
| wrappers.dfy | Wrappers | `Option`, `Result` |
| js.dfy | Js | JavaScript values, truthiness, `String(v)`, the `__proto__` key |
| text.dfy | TextUtil | lower-casing, literal global replace, `String.prototype.replace` with `$` patterns, line splitting |
| config.dfy | ParserConfig | configuration normalisation of lib/Parser.js |
| parser.dfy | TenParser | the lib/Parser.js scan, recovery, end of input and `_error` |
| parser_props.dfy | ParserProperties | scanning a concatenation, the balanced-input theorem, line counting, entity decoding |
| parser_examples.dfy | ParserRecovery | the exact outcome of opening, recovery and the full run on a recovery input |
| tags.dfy | Tags | the `parse` hooks and templates of tags.js, `escape`, `addCode` |
| tsn.dfy | Tsn | namespace, `extend`, `attribute`/`toString`, the tree scan, both readings of the end-of-input loop |
| tsn_props.dfy | TsnProperties | round trip of attribute values, per-match outcomes, the end-of-input comparison, line counting |

## Model

| member | source | states |
|---|---|---|
| ParserConfig.Normalise | lib/Parser.js:31-48 | Every setting ends up valid, and valid settings are kept unchanged. An invalid namespace becomes `ten`, and an invalid tab size or indent becomes 2. Exactly one warning is issued per replaced setting, in the order namespace, tab size, indent. The boolean switches pass through. |
| ParserConfig.NormaliseIdempotent | lib/Parser.js:31-48 | Normalising an already normalised configuration changes nothing and warns about nothing. |
| ParserConfig.ArrayNamespace | lib/Parser.js:31 | An array namespace is tested through its comma-joined string: `[]` and `[null, undefined]` are replaced, and `[0]` is kept although `0` is not. |
| ParserConfig.NumericNamespace | lib/Parser.js:31 | A numeric namespace is accepted exactly when it is non-zero: it is truthy and its decimal form contains a digit. |
| TextUtil.LowerIsIdempotent | lib/Parser.js:121 | Lower-casing leaves no upper-case letter and is idempotent. |
| TextUtil.ReplaceAllAbsent | lib/Parser.js:129-133 | A global replace leaves a string without the pattern's first character unchanged. |
| TextUtil.ReplaceFirstLiteral | tags.js:73 | With a `$`-free replacement, `replace` swaps only the first occurrence of the pattern and keeps the text around it. |
| TextUtil.LinesCount | lib/Parser.js:222 | Splitting on line terminators gives one more piece than there are terminators, with a CRLF pair counting once. No piece contains a terminator. |
| TextUtil.SingleLine | lib/Parser.js:222 | A text without terminators splits into itself alone. |
| TenParser.ErrorLine | lib/Parser.js:216-222 | The reported line is at least 1. |
| TenParser.DecodeEntities | lib/Parser.js:128-133 | A value with no `&` is left unchanged by the five sequential entity replacements. |
| TenParser.CaptureGroup | lib/Parser.js:6 | The capture group of a quoted value is the text between the quotes, less one backslash right before the closing quote when there is one: a prefix of that text, at most one character shorter, and shorter exactly when the text ends in a backslash. |
| TenParser.Captured | lib/Parser.js:128 | The value read from the two capture groups (double-quoted first, then single-quoted) is `undefined` exactly for an empty double-quoted value (`a=""`). Otherwise it is the capture group, so `a=''` gives the empty string. Since the group leaves a backslash before the closing quote out, `a="\"` is an empty capture too and gives `undefined`. |
| TenParser.DecodeAttributes | lib/Parser.js:127-134 | Decoding aborts exactly when some value is `undefined`, i.e. on an empty double-quoted value. Otherwise the keys are the lower-cased names other than `__proto__`. For each such name, the last attribute carrying it supplies the decoded value. |
| TenParser.Flush | lib/Parser.js:104-108 | The gap before a match is reported as text of the current node exactly when it is non-empty. The stack and depth are unchanged. |
| TenParser.OnOther | lib/Parser.js:110-188 | An entity with a name is reported as an entity; one without a name is reported as text. A comment reaches the text only when comments are saved. CDATA is reported as matched, a DTD as captured. The position moves to the match end. |
| TenParser.OnOpen | lib/Parser.js:117-141 | The event carries the lower-cased name and the decoded attributes. A self-closing tag keeps the cursor. Any other tag becomes current, one level deeper. An empty double-quoted attribute value aborts the run. |
| TenParser.OnClose | lib/Parser.js:142-181 | If the close names the current node, that node closes and its parent becomes current. If it names the parent, there is one "not closed" error for the current node, its code merges into the parent, the parent closes and the grandparent becomes current. If it names neither, there is one "matches nothing" error and nothing else changes. |
| TenParser.Step | lib/Parser.js:93-191 | One loop iteration keeps the scan invariant and moves the position to the end of the match. It fails exactly on an opening tag with an empty double-quoted attribute value. |
| TenParser.Scan | lib/Parser.js:93-191 | The whole loop keeps the invariant and only appends events. On success it stops at the end of the last match. |
| TenParser.UnclosedErrors | lib/Parser.js:197-203 | End of input reports each open node once, innermost first, with its line. The root is never reported. |
| TenParser.Epilogue | lib/Parser.js:193-205 | Trailing text is reported exactly when non-empty. There is one "not closed" error per level of depth, no "matches nothing" error, and `End` comes last. |
| TenParser.Finish | lib/Parser.js:193-205 | The events after the loop extend the trace and end with `End`. They contain `depth` "not closed" errors. |
| TenParser.SplitDeclaration | lib/Parser.js:20-29 | The declaration and the content concatenate to the source. The declaration is empty unless it is stripped and present. |
| TenParser.Run | lib/Parser.js:91-207 | The trace extends the start events. `End` comes last exactly when the run completes. |
| TenParser.Parse | lib/Parser.js:18-208 | The declaration and content rebuild the source, and the configuration is the normalised one. Warnings come first, then `Start`. `End` comes last exactly for a completed run. |
| ParserProperties.ScanAppend | lib/Parser.js:93-191 | Scanning `a + b` is scanning `a` and then scanning `b` from where `a` stopped. A failure in `a` is final. |
| ParserProperties.OpenStep | lib/Parser.js:117-141 | A non-empty opening tag without an empty double-quoted value pushes one node with the lower-cased name and reports no error. |
| ParserProperties.CloseStep | lib/Parser.js:142-157 | A close naming the current node pops it and reports no error. |
| ParserProperties.BalancedScan | lib/Parser.js:93-191 | A properly nested match list without an empty double-quoted value (on which lib/Parser.js:128 throws) leaves the stack and depth as it found them and reports no error. |
| ParserProperties.BalancedParse | lib/Parser.js:18-208 | A properly nested template without an empty double-quoted value completes without any compile error. |
| ParserProperties.ErrorLineTerminators | lib/Parser.js:216-222 | The reported line is one more than the number of terminators up to the end of the node's source, with a CRLF pair counting once. |
| ParserProperties.ErrorLineCrlf | lib/Parser.js:222 | A node after one CRLF is reported on line 2. |
| TextUtil.ReplaceAllShrinks | lib/Parser.js:129-133 | A global replace whose replacement is no longer than the pattern never lengthens the string. |
| ParserProperties.EmptyQuotedValues | lib/Parser.js:128 | `a=''` is stored as the empty string, while `a=""` aborts the run. |
| ParserProperties.EscapedQuoteCaptures | lib/Parser.js:6 | `a="\"` captures the empty string, so the run aborts as for `a=""`, and `a="x\"` captures `x`. |
| ParserProperties.ProtoAttributeDropped | lib/Parser.js:128 | An attribute named `__PROTO__` adds no key; the other attributes are stored. |
| ParserProperties.DecodeEntitiesShrinks | lib/Parser.js:128-133 | Decoding the five entities never lengthens an attribute value. |
| ParserProperties.DoubleDecoding | lib/Parser.js:129-130 | Sequential decoding turns `&amp;lt;` into `<`. |
| ParserRecovery.OpenExact | lib/Parser.js:117-141 | Opening a tag pushes exactly the node built from the match. |
| ParserRecovery.RecoverExact | lib/Parser.js:158-174 | Recovery pops two levels and appends exactly three events: the error, the code merge and the parent's close. |
| ParserRecovery.RecoveryScan | lib/Parser.js:117-174 | `<a><b></a>` leaves the stack empty. Its last three events are the recovery events for `b` inside `a`. |
| ParserRecovery.RecoveryRun | lib/Parser.js:158-205 | The full run on `<a><b></a>` completes with exactly one "not closed" error (for `b`), the merge and the close of `a`. |
| Tags.Defaulted | tags.js:68-70 | A missing key is added with the default value, and a present key keeps its value. |
| Tags.DefaultedIdempotent | tags.js:117-119 | Defaulting twice is defaulting once. |
| Tags.Root | tags.js:5-15 | With `context`, the code slot sits inside the call wrapper. Without it, the template is the bare slot. |
| Tags.Context | tags.js:21-31 | With `object`, the code slot sits inside the call wrapper. Without it, the template is the bare slot. |
| Tags.Echo | tags.js:64-87 | `format` defaults to `text` in the attributes. The hook succeeds exactly when the format and any escape are in their tables. An unknown format fails before the escape is looked at. On success the template is the format with its text slot replaced, followed by the escape suffix. |
| Tags.EchoLiteral | tags.js:72-80 | For data without `$`, the template is the format head, the data, `)` and the escape suffix. |
| Tags.EchoIdempotent | tags.js:64-87 | Running the hook on its own output attributes gives the same outcome. |
| Tags.Data | tags.js:96-112 | The hook fails exactly without `name`. With `value`, the template has no code slot. Without `value`, the code slot follows the scope head and is followed by the closing call `return __output;}).call(/*!context*/, "", "");`. |
| Tags.Conditional | tags.js:115-137 | `test` defaults to `this`, and other attributes are untouched. |
| Tags.ConditionalSlots | tags.js:121-136 | The `if` and `unless` templates hold their code slot right after their heads. |
| Tags.Splice | tags.js:149 | The spliced parent template ends with the code slot and `}`. |
| Tags.Else | tags.js:139-164 | The checks run in source order: the parent must be `if`/`unless`, must have no plain `else` yet, and the `else` must be empty. On success the parent's code moves into its template, and only the plain form marks the parent. `if` wins over `unless`. |
| Tags.ElseAfterConditional | tags.js:149 | After an `if` or `unless`, splicing puts the parent's code before a fresh slot. |
| Tags.OneElse | tags.js:146-157 | After a plain `else`, any further `else` fails. |
| Tags.ElseIfChains | tags.js:152-156 | After an `else if`/`else unless`, another empty `else` is accepted. |
| Tags.Each | tags.js:166-196 | The hook fails exactly without `array` and `object`, and `array` wins. The item declaration precedes the code slot exactly when `item` is given. |
| Tags.Escape | tags.js:202-204 | Escaping never shortens a string. |
| Tags.EscapeRoundTrip | tags.js:202-204 | Unescaping an escaped string gives the string back. |
| Tags.EscapeIdentity | tags.js:202-204 | Escaping leaves a string unchanged exactly when it has no quote, backslash or line terminator. |
| Tags.EscapeLonger | tags.js:202-204 | A string starting with a special character grows when escaped. |
| Tags.AddCode | tags.js:206-216 | The prologue is appended to the root code only when no template was seen yet, and the flag is then set. |
| Tags.AddCodeOnce | tags.js:206-216 | Adding code twice is adding it once. |
| Tags.Template | tags.js:227-248 | A missing name and an empty name are errors, in that order, and leave the parser alone. Otherwise the prologue is added once and the template wraps the node's code after the escaped-name head. |
| Tags.TemplateEnd | tags.js:219-226 | Only a template loaded by another one emits the flush code. |
| Tags.IncludeHook | tags.js:253-285 | The prologue is always added. `src` wins and becomes a load request. `name` gives a call whose escaped name unescapes to the attribute. Having neither `src` nor `name` is the only error. |
| Tsn.Namespace | tsn.js:111-115 | A non-empty string namespace with a name character is kept. Anything else becomes `tsn`. The result is always usable. |
| Tsn.HasNameChar | tsn.js:111 | The test holds exactly when some character is in `[a-z0-9-_]`, case-insensitively. |
| Tsn.Extend | tsn.js:297-301 | Registration happens exactly when the name is a string other than `__proto__` and the data has a function `in` or `out`. Every other entry is kept. |
| Tsn.Attribute | tsn.js:74-100 | A value without entity matches is stored as it is. With `k` matches it becomes `2k+1` segments: the names sit at odd positions, and the first and last texts are the value's head and tail. |
| Tsn.ToString | tsn.js:60-72 | The back-to-front loop yields the front-to-back join of texts and variable values. |
| TsnProperties.AttributeRoundTrip | tsn.js:60-100 | When each variable holds its entity's own text, reading the stored attribute back gives the original value. |
| TsnProperties.SegmentsRoundTrip | tsn.js:81-88 | Joining the segments from any offset gives the value from that offset on. |
| TsnProperties.MissingVariable | tsn.js:67 | A variable that is neither an own nor an inherited property of `vars` reads as `undefined` between the segments. |
| Tsn.AttributesKeys | tsn.js:228-231 | A node's attribute map has exactly the parsed attribute names other than `__proto__` as keys. |
| Tsn.AttributesLast | tsn.js:99 | For a repeated name other than `__proto__`, the last attribute carrying it wins; `__proto__` is never a key. As written, that value is undefined exactly when the attribute was single-quoted. Read as corrected, it is the value passed through `attribute`. |
| Tsn.StoredValue | tsn.js:149 | As corrected: every quoted value, single or double, is stored through `attribute`, never as undefined. |
| Tsn.AttrValueAsWritten | tsn.js:149 | As written: a value is undefined exactly when it was single-quoted. A double-quoted value is stored as corrected. |
| Tsn.Start | tsn.js:138-168 | The empty builder satisfies the scan invariant for every input. |
| Tsn.OnEntity | tsn.js:193-207 | An entity adds an `echo` leaf under the cursor, and the removed length grows by the match. |
| Tsn.OnOpen | tsn.js:208-241 | An unknown tag adds no node and one error, whose kind depends on the slash. A known tag adds a node under the cursor and descends into it unless self-closing. The node's attributes are read as written or as corrected, as the input chooses. |
| Tsn.OnClose | tsn.js:242-260 | A known tag naming the cursor ends it at the current text length, drops an empty child list and pops. Otherwise there is one "missing start" or "unknown closing" error. |
| Tsn.OnMatch | tsn.js:193-269 | Each match keeps the tree invariant. The text grows by exactly the kept part of the match, and the kept and removed lengths add up to the match. |
| Tsn.Step | tsn.js:180-272 | One iteration keeps `lastIndex` equal to the text length plus `resultLength`, and keeps the tree invariant. It appends the gap and the kept part of the match. |
| Tsn.Scan | tsn.js:180-272 | The loop keeps the invariant. It stops at the end of the last match, with the gaps and kept matches as its text. |
| TsnProperties.StepOffsets | tsn.js:191-271 | A node created by an entity or a known opening tag starts at the current text length. A matched close ends its node there. |
| TsnProperties.EntityLeaf | tsn.js:193-207 | An entity becomes an `echo` leaf holding the name in `var`, with `start == end`. The cursor, stack and errors are unchanged. |
| TsnProperties.OpenOutcomes | tsn.js:208-241 | Unknown: no node, one error. Known and self-closing: a closed leaf, cursor kept. Known otherwise: an open node that becomes the cursor, with the old cursor pushed. |
| TsnProperties.CloseOutcomes | tsn.js:242-260 | Each of the three cases of a closing tag, and only the first changes the tree or the cursor. |
| TsnProperties.CommentRouting | tsn.js:261-266 | A comment stays in the text exactly when comments are saved. Otherwise its length counts as removed. |
| TsnProperties.ScanLengths | tsn.js:191-271 | Kept and removed lengths add up to the scan position. Every node starts within the text. |
| Tsn.PopStackAsWritten | tsn.js:274-278 | As written: one report per stack entry, innermost first, naming the enclosing node of each open tag. Nodes outside the stack are unchanged. |
| Tsn.PopStackEnds | tsn.js:274-276 | As written, every node the loop pops gets `end = start`. |
| Tsn.AsWrittenEnd | tsn.js:274-278 | As written, at the end of the scan: one report per stack entry; no report is added when nothing is open; every node but the cursor ends up with an end. An open cursor keeps none, and the last report names the template object (no name). |
| Tsn.PopOpen | tsn.js:274-278 | One corrected iteration reports the cursor, ends it at its start and returns to its parent. |
| Tsn.CloseOpen | tsn.js:274-278 | The corrected loop empties the stack, returns to the template object and keeps text and positions. |
| Tsn.CloseOpenReports | tsn.js:274-278 | The corrected loop reports exactly the open tags, innermost first. |
| Tsn.AllEnded | tsn.js:274-278 | Once only the template object is open, every other node has an end. |
| TsnProperties.IntendedReportsOpen | tsn.js:274-278 | The corrected loop makes one report per unclosed tag, each naming a tag, and every node ends up with an end. |
| TsnProperties.UnclosedCommentReports | tsn.js:274-278 | On `<tsn:comment>` with no closing tag, the loop as written reports a nameless tag and leaves `comment` open. The corrected loop reports `comment` at 0 and ends it. |
| TsnProperties.SingleQuotedLost | tsn.js:149 | Scanning `<tsn:comment test='a'/>` adds a `comment` node whose `test` is undefined as written, and `a` when corrected. |
| Tsn.LineAt | tsn.js:33-38 | The reported line is at least 1. |
| TsnProperties.LineCountsCrlfTwice | tsn.js:33-38 | The reported line is one more than the number of `\r` and `\n` characters. That is the number of split lines plus the CRLF pairs, so a CRLF counts twice. |
| TsnProperties.CrlfExample | tsn.js:33-38 | A match after one CRLF is reported on line 3. |
| Tsn.InputOf | tsn.js:175-178 | The declaration and the remaining path concatenate to the source. |
| Tsn.EndOfInput | tsn.js:274-282 | As written, the end of input: the text gains the path after the last match; every tag node lies within the text; at most one tag node has no end; when one has none, the last report is the nameless "not closed" one; when every tag node ends, no report is added. |
| Tsn.Construct | tsn.js:102-283 | The constructor as written, with single-quoted values lost and the stack-popping end loop. Its result has these properties:<br>- the namespace follows the fallback rule;<br>- the declaration splits the source;<br>- the text is the kept scan text plus the tail after the last match, never longer than the path;<br>- every tag node lies within the text;<br>- at most one tag node has no end;<br>- when one has none, the last error is a nameless "not closed" report;<br>- when every tag node has an end, every error names a tag. |
| Tsn.ConstructCorrected | tsn.js:102-283 | The constructor with both corrections. The namespace, declaration and text are as in `Construct`. Every node but the template object has an end within the text, and every error names a tag. |

## Left out

- The composite regular expressions (lib/Parser.js:5-10, 50; tsn.js:142-151) are not modelled. The scans take their match lists as input, and the XML declaration's length is an input as well.
- File system access, `TSN.cache`, `reload`, `config.json` loading and `realpathSync`/`readFileSync` are left out (tsn.js:117-136, 172, 290, 446-480). They are I/O and global state.
- `TSN.prototype.render` (tsn.js:309-438) is left out. It drives host hooks (`in`, `out`, `startRender`) that the tag library does not define.
- The `src` branch of `include` (tags.js:260-279) is modelled only as a load request. Path resolution and `TSN.load` are foreign code.
- The `comment` tag (tags.js:17-19) has no hook, only an empty template. It appears as the constant `Tags.CommentTemplate`, and there is nothing to state about it.
- The call of a tag's `parse` hook from the tsn.js scan (tsn.js:233-235) is left out. It binds `this` to the template object, and every hook in tags.js reads `this.attributes` or `this.parent`, which that object lacks, so opening any built-in tag but `comment` throws there. The modelled scan is therefore the scan over tags without a hook: `comment`, or tags registered through `TSN.extend` without `parse`. The hooks themselves are modelled on their own in `Tags`.
- The column (`char`) of a diagnostic (lib/Parser.js:223-225; tsn.js:38-39) is not modelled. Only line numbers are.
- Error message texts are not modelled, only error kinds. This includes `tags.js:75`, which cites the `escape` value in a format error.
- `toFixed(0)` on the tab size and indent (lib/Parser.js:40, 47) is not modelled. Numbers are integers plus NaN; fractions and infinities are left out.
- The runtime behaviour of the generated JavaScript is not modelled. Templates are opaque strings; the `url` escape, for example, is appended literally as tags.js does.
- An empty double-quoted capture in lib/Parser.js (`a=""`, and also `a="\"`, whose backslash the pattern at line 6 leaves out of the group) dereferences `undefined` at line 128 and throws; `a=''` does not, and is stored as the empty string. The model turns the throw into an explicit abort: the run keeps the events so far and has no `End`. The balanced-input theorems (`ParserProperties.BalancedScan`, `ParserProperties.BalancedParse`) and the recovery example (`ParserRecovery.Descends`) therefore assume no `a=""`, since lib/Parser.js throws on it.
- `Tsn.VarText` models `vars` (tsn.js:62) as own string properties only. The lookup `vars[name]` at tsn.js:67 also walks the prototype chain, and the entity pattern at tsn.js:151 admits names such as `constructor`, `toString` or `valueOf`, which read the inherited member (`&tsn.constructor;` reads as the source text of `Object`). tsn.js also never assigns `template['var']`, so while it is unset, `toString` throws a TypeError on any value that holds an entity. The model promises the `undefined` reading only for names that are neither own nor inherited.
- An attribute, or a `TSN.extend` name, called `__proto__` creates no own key, and the models leave it out of the map. The side effect of an object value is not modelled: it replaces the prototype of the node's attribute object (a tsn.js value with entities) or of `tag` (an extension).
- `Js.Value` covers primitives, arrays and plain objects. Functions, objects with their own `toString` and objects without a prototype are not values of the model: `String(v)` on them gives their source text, runs user code or throws.
- The `start` hook of `data` (tags.js:93-95) returns a fixed prologue for the compiler that drives the hooks, which is not part of this model.
- The sibling position a tsn.js node stores in `index` is not a field. It is the node's position in its parent's child list.
- Tags.Escape: its own contract says only that escaping never shortens a string. The content is stated by `Tags.EscapeRoundTrip` and `Tags.EscapeIdentity`.
- Tsn.LineAt: its own contract says only that the line is at least 1. The count itself is stated by `TsnProperties.LineCountsCrlfTwice`.
- TenParser.ErrorLine: its own contract says only that the line is at least 1. The count is stated by `ParserProperties.ErrorLineTerminators`.
- The end-of-input reports of tsn.js pass a node's `start` to `getErrorData`. That offset is in the stripped text but is used as an index into the path. Both readings of the loop keep this as tsn.js does.

## Findings

| source | as written | input that shows it | evidently intended | confidence | as-written member | corrected member |
|---|---|---|---|---|---|---|
| tsn.js:274-278 | The end-of-input loop pops `stack`, which holds the node enclosing each open tag, not the open tag itself. | `<tsn:comment>` with no closing tag: the only report names the template object (`'undefined'`), and the `comment` node keeps no `end`. | Report each open tag, innermost first, and give it `end = start`. | high, not executed | TsnProperties.CommentAsWritten | Tsn.ConstructCorrected |
| tsn.js:149 | The `attr` pattern captures double-quoted values only: `(?:'[^']*')` has no group. | `<tsn:comment test='a'/>`: `attribute` receives `undefined`, so `test` is stored as undefined. | Store single-quoted values like double-quoted ones, as lib/Parser.js:6 and 128 do. | high, not executed | Tsn.AttrValueAsWritten | Tsn.StoredValue |
