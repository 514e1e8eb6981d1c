# Ovid shorthand processing, modelled in Dafny

Ovid rewrites a text by replacing markup with the output of Python functions.
This project models the core of its three modules:

- **`basic.py`** holds processors. A processor is a regex plus a function, and
  `sub`/`subn` call the function once per match. Unnamed groups become
  positional arguments and named groups that matched become keyword arguments.
  Keyword arguments accumulate within one `subn` call.
- **`basic.py`, collective processors.** `collective_sub` applies the first
  registered processor that changes the text and starts over. Registries are
  created or shared by `variant_class` and filled automatically on creation.
- **`basic.py`, `DelimitedShorthand`.** This is the delimiter grammar. It covers:
  - active and escaped lead-in and lead-out;
  - the backtracking target finder;
  - depth-first resolution of nested markup, with `UnknownShorthandError` and
    `OpenShorthandError`. The registry walk on a target hands the text it
    produces back to the class's own `collective_sub`, which resolves it in
    safe mode before it is spliced in.
- **`inspecting.py`** holds two shorthands:
  - `SignatureShorthand` builds its regex from a function's signature;
  - `IndiscriminateShorthand` accepts anything between the delimiters and
    tokenizes it.

  `swallow` and `register` are modelled too.
- **`producing.py`** is the inverse direction:
  - `TwoWayProcessor` everts a regex into a `str.format` template. Each group
    becomes a field, and the group's content is recorded as the pattern a
    produced value must match in full.
  - `TwoWaySignatureShorthand` produces function-like markup from arguments.

Every regex that the source builds from fixed text is modelled as the language
it denotes, with the match the regex engine prefers. The target finder, the
signature regex and the eversion metapatterns follow the engine's backtracking
order exactly for the configurations the model covers: delimiters that are
literal text as regexes, no flag but `re.DOTALL`, and a separator and
assignment operator without braces (see "Left out"). A regex the user supplies stays abstract: it is a matcher
parameter, and production's full match is a predicate parameter. Texts are
`string`. Lists, dicts and registries are `seq` and `map`. Functions that
the processors call are total Dafny functions. Python's recursion becomes an
explicit `fuel` bound, reported as `OutOfFuel`.

Modules:

- `Text` covers literal search, `re.split`, `join` and brace doubling.
- `Delimiters` covers the configuration, active and escaped forms, and the
  target finder.
- `Groups` covers match objects and `_unique_groups`.
- `Signature` covers the signature and indiscriminate regexes and `_tokenize`.
- `Processors` covers `subn`, `collective_sub` and registries.
- `Resolver` covers the depth-first `collective_sub`, including the re-entry
  into the class's own safe `collective_sub` after each rewrite.
- `ResolverExamples` covers two small registries that show that re-entry.
- `Formatting` covers the part of `str.format` that production uses.
- `Everting` covers `_evert_groups`.
- `Producing` covers `TwoWayProcessor.produce`.
- `Ordering` covers `sorted` on keyword arguments.
- `SignatureProducing` covers `TwoWaySignatureShorthand.produce`.
- `SignatureReading` and `SignatureRoundTrip` read productions back.
- `SignatureExamples` covers the test suite's signature productions.

Where the code and its own documentation differ, the model follows the code:

- **`_targetfinder`'s docstring** says a target "cannot contain a non-escaped
  lead-in". The regex does not ensure it. `Delimiters.StraddlingLeadIn` shows a
  target with an active lead-in inside.
- **Only single-character delimiter regexes are guarded** by
  `_unescape`'s look-behind. The separator reaches it already passed through
  `re.escape`, so `|` (escaped to two characters) is never guarded, while `=` is.
- **`escape`** is `re.escape('\\')`, which is two backslashes. It is matched
  literally by the look-behind, but spliced into the escaped-delimiter regex
  as regex text that matches one backslash. The model keeps both (`escape` and
  `escapePrefix`).

## Model

| member | source | states |
|---|---|---|
| `Text.DoubleBraces` | src/ovid/basic.py:164-172 | brace-free text is unchanged and doubling never shortens |
| `Text.UndoubleDouble` | src/ovid/basic.py:164-172 | one round of undoubling gives back exactly the text whose braces were doubled |
| `Text.DoubleBracesAppend` | src/ovid/basic.py:164-172 | brace doubling distributes over concatenation |
| `Text.ReEscapedLength` | src/ovid/inspecting.py:36-37 | `re.escape` of a single character keeps it one character long exactly when it is not regex-special |
| `Text.JoinSplit` | src/ovid/inspecting.py:153 | joining the pieces of `re.split` on a literal separator with that separator gives back the text |
| `Text.SplitJoin` | src/ovid/inspecting.py:153 | splitting a join of separator-free pieces on a one-character separator gives back the pieces |
| `Text.SplitPiecesFree` | src/ovid/inspecting.py:153 | no piece of a split contains the separator |
| `Delimiters.Escaped` | src/ovid/basic.py:306-310 | the escaped form is the delimiter itself when escaping is off or the delimiter is empty, and never shorter |
| `Delimiters.EscapedAt` | src/ovid/basic.py:306-310 | with escaping on, slot `k` of the escaped delimiter is the escape prefix followed by the delimiter's `k`-th character |
| `Delimiters.SpanEndSound` | src/ovid/basic.py:287-289 | every end the backtracking content loop picks is a reading of the grammar escaped-in / escaped-out / ordinary character, then an active lead-out |
| `Delimiters.SpanEndComplete` | src/ovid/basic.py:287-289 | backtracking is exhaustive: if any reading of the grammar exists, the content loop succeeds |
| `Delimiters.FindTargetFromSpec` | src/ovid/basic.py:269-294 | the search from a position returns a complete span, and none starts between that position and the one returned |
| `Delimiters.FindTargetLeftmost` | src/ovid/basic.py:352 | the target is a complete span with no span starting further left, and there is no target exactly when the text holds no complete span |
| `Delimiters.TargetDelimited` | src/ovid/basic.py:287-293 | a target opens with an active lead-in and closes with an active lead-out |
| `Delimiters.NoLeadInNoTarget` | src/ovid/basic.py:352-375 | a text without an active lead-in holds no target |
| `Delimiters.NoLeadOutNoTarget` | src/ovid/basic.py:352-375 | a text without an active lead-out holds no target |
| `Delimiters.StraddlingLeadIn` | src/ovid/basic.py:270-284 | in `{{\{\{{}}` the target spans the whole text and still holds an active lead-in at index 5 |
| `Delimiters.LeftoverDelimiter` | src/ovid/basic.py:330-345 | reports the lead-in whenever an active one is left, otherwise the lead-out if an active one is left, and nothing exactly when neither is left |
| `Groups.UnnamedIndices` | src/ovid/basic.py:82-85 | the unnamed group numbers are exactly the groups no name refers to, strictly ascending |
| `Groups.UniqueGroups` | src/ovid/basic.py:126-162 | positional arguments are the unnamed groups in order; keyword arguments are exactly the named groups that participated, with their text |
| `Groups.GroupsPartitioned` | src/ovid/basic.py:133-138 | every group is passed exactly once: it is either positional or named, never both |
| `Groups.UnnamedLeading` | src/ovid/basic.py:83-85 | when the named groups are exactly those after group n, the positional ones are 1..n in order |
| `Groups.ExampleGroups` | tests/test_producing.py:63-64 | matching `(?P<n0>a)(b)(?P<n1>c)` on `abc` passes `b` positionally and `n0=a`, `n1=c` by name |
| `Processors.Subn` | src/ovid/basic.py:108-124 | one call per replacement, and never more replacements than a non-zero `count` |
| `Processors.SubnFirstReplacement` | src/ovid/basic.py:108-124 | where the pattern matches, the output begins with the text before the leftmost match followed by the handler's value for that match, and the first call is that match's call |
| `Processors.EmptyMatchRetried` | src/ovid/basic.py:108-124 | with the regex `\|a` (empty or `a`), `subn` on `a` makes three replacements, `---`: after the empty match it retries a non-empty one at the same position |
| `Processors.EmptyRegexSub` | src/ovid/basic.py:108-124 | with the empty regex, every character is kept and the replacement appears before the first and after every character, one call each |
| `Processors.SubnNoMatch` | src/ovid/basic.py:112-124 | a text the pattern matches nowhere comes back unchanged, with no call |
| `Processors.KwargsAccumulate` | src/ovid/basic.py:119-124 | every call of one `subn` sees the caller's keywords and every keyword an earlier call of the same scan saw |
| `Processors.CollectiveSub` | src/ovid/basic.py:197-214 | a returned text is one no registered processor changes |
| `Processors.CollectiveSubStable` | src/ovid/basic.py:206-214 | on the returned text every registered processor either does not hit or leaves it unchanged |
| `Processors.CollectiveSubFixpoint` | src/ovid/basic.py:206-214 | a text no registered processor changes is returned as it is |
| `Processors.FirstChangePrecedence` | src/ovid/basic.py:206-213 | a processor registered later is consulted only when none before it changes the text |
| `Processors.CollectiveSubFuel` | src/ovid/basic.py:208-213 | a larger recursion bound never changes a result already reached |
| `Processors.VariantClass` | src/ovid/basic.py:190-195 | with `new_registry` the subclass gets a fresh empty registry and all others stay; without it, it shares its parent's |
| `Processors.Create` | src/ovid/basic.py:220-222 | a new processor is appended to its class's registry and every other registry is untouched |
| `Processors.Construct` | src/ovid/inspecting.py:62 | `cls(function)` builds a signature processor exactly when the class is a signature class, and an indiscriminate one exactly when it is an indiscriminate class, with the function as handler |
| `Processors.Swallow` | src/ovid/inspecting.py:50-62 | the function becomes a processor of the class's own kind appended to the class registry, every other registry is untouched, and that processor is returned |
| `Processors.Register` | src/ovid/inspecting.py:64-74 | registers the processor `swallow` builds, of the class's own kind, and returns the function itself |
| `Processors.VariantRegisters` | src/ovid/basic.py:190-195 | a variant of an indiscriminate class builds indiscriminate processors, and a variant of a signature class signature processors, under the variant's own configuration |
| `Processors.SharedRegistry` | src/ovid/basic.py:190-195 | without a new registry, processors created through parent or child are seen by both |
| `Processors.IsolatedRegistry` | src/ovid/basic.py:190-195 | with a new registry, processors created through the child reach only the child |
| `Resolver.SpanWith` | src/ovid/basic.py:206-214 | the registry walk on a span: a changed result went through a safe resolution and holds no active delimiter; open shorthand names a delimiter found in some text |
| `Resolver.UnsafeWith` | src/ovid/basic.py:350-375 | a resolved text is one the finder finds no target in; an error needs a target in the input |
| `Resolver.SafeWith` | src/ovid/basic.py:321-347 | a safe resolved result holds no active delimiter, and an unsafe call is exactly `_collective_sub_unsafe` |
| `Resolver.RewriteSpan` | src/ovid/basic.py:206-214 | on a span, open shorthand names lead-in or lead-out, and a result that differs from the span holds no active delimiter |
| `Resolver.ResolveUnsafe` | src/ovid/basic.py:350-375 | a resolved text holds no target; open shorthand, met while rewriting, names lead-in or lead-out; an error needs a target in the input |
| `Resolver.Resolve` | src/ovid/basic.py:321-347 | a safe resolution leaves no active delimiter, an unsafe one leaves no target, and open shorthand names lead-in or lead-out |
| `Resolver.ResolvedHasNoSpan` | src/ovid/basic.py:350-375 | a resolved text holds no complete span at all |
| `Resolver.UnchangedIffNoSpan` | src/ovid/basic.py:352-375 | resolution returns the text unchanged exactly when it holds no complete span |
| `Resolver.UnknownOrigin` | src/ovid/basic.py:354-366 | the span of an `UnknownShorthandError` is the target of some text on the way, and rewriting it gives it back |
| `Resolver.UnknownSpan` | src/ovid/basic.py:354-366 | the span of an `UnknownShorthandError` is delimited by lead-in and lead-out; no registered processor changes it, or the first change resolves in safe mode back to it |
| `Resolver.ChangedStep` | src/ovid/basic.py:352-372 | one round on a changed target: an error of the safe resolution of the change ends the call, a result equal to the target is `UnknownShorthandError`, any other is spliced in |
| `Resolver.UnknownNoProcessor` | src/ovid/basic.py:354-366 | a target no registered processor changes raises `UnknownShorthandError` naming it, in both modes |
| `Resolver.InnerErrorPropagates` | src/ovid/basic.py:352-357 | when the text a processor made of the target fails its safe resolution, that error is the outcome in both modes |
| `Resolver.RewriteStep` | src/ovid/basic.py:357-372 | when the change resolves to the target itself the call raises `UnknownShorthandError`; otherwise the result is spliced in and resolution goes on with one round less |
| `Resolver.ResolveFuel` | src/ovid/basic.py:368-372 | a larger recursion bound reaches the same outcome |
| `Resolver.SafeOpenIff` | src/ovid/basic.py:321-347 | on a resolved unsafe result safe mode fails exactly when an active delimiter is left, naming the lead-in whenever one is; an error of the unsafe stage is the outcome in both modes; unsafe mode is `_collective_sub_unsafe` |
| `Resolver.PlainResolved` | src/ovid/basic.py:321-375 | a text with no active delimiter left is returned unchanged in both modes |
| `Resolver.SplicePlainWith` | src/ovid/basic.py:352-375 | over any finder and processor walk: when the target is the whole text and its change holds neither a target nor a leftover delimiter, the change is the result |
| `Resolver.SplicePlain` | src/ovid/basic.py:352-375 | when the target is the whole text and the first change of it holds no delimiter, that change is the result of `_collective_sub_unsafe`, with no second pass over it |
| `Resolver.OpenLeadOut` | src/ovid/basic.py:330-345 | `b}}` is reported open at its lead-out, whatever the registry |
| `Resolver.OpenAfterBrace` | src/ovid/basic.py:330-345 | `{b}}` is reported open at its lead-out, since a single brace is no lead-in |
| `Resolver.OpenLeadIn` | src/ovid/basic.py:330-345 | `{{b` is reported open at its lead-in |
| `ResolverExamples.ReplaceWhole` | src/ovid/basic.py:108-124 | a literal processor on its own literal hits once and returns its output |
| `ResolverExamples.SimpleTarget` | src/ovid/basic.py:269-294 | `{{x}}` at the start of a text is its target, for an ordinary character `x` |
| `ResolverExamples.OpenInsideRewriteWith` | src/ovid/basic.py:352-357 | when a text's target is its first five characters, the first change of that target is `{{b`, and `{{b` fails its own safe resolution as open at `{{`, the text raises `OpenShorthandError` for `{{` in both modes, whatever follows the target |
| `ResolverExamples.OpenB` | src/ovid/basic.py:321-347 | `{{b` resolved in safe mode is open at `{{`, whatever the registry and the recursion bound |
| `ResolverExamples.PrefixTarget` | src/ovid/basic.py:269-294 | a text that starts with `{{p}}` has it as its target |
| `ResolverExamples.OpenInsideRewrite` | src/ovid/basic.py:352-357 | with `{{p}}` to `{{b` and `{{bb}}` to `z`, `{{p}}b}}` raises `OpenShorthandError` even with `safe` false, although `{{bb}}` would become `z` |
| `ResolverExamples.NoSecondPassWith` | src/ovid/basic.py:321-372 | when the first change a registry makes of `{{a}}` is `b`, `{{a}}` resolves to `b` in both modes, whatever the later processors would do to `b` |
| `ResolverExamples.UnsafeNoSecondPass` | src/ovid/basic.py:350-375 | the same for `_collective_sub_unsafe` alone: `b` is spliced in and, holding no target, returned |
| `ResolverExamples.NoSecondPass` | src/ovid/basic.py:357-372 | with `{{a}}` to `b` and `b` to `c`, `{{a}}` resolves to `b`, although the second processor changes `b` |
| `Signature.Items` | src/ovid/inspecting.py:108-124 | one positional item per required argument, then one keyword item per argument with a default, in declaration order |
| `Signature.RunEndSpec` | src/ovid/inspecting.py:103-116 | a value runs over characters that are not an active separator or a newline, and stops at the first one that is |
| `Signature.SigIndex` | src/ovid/inspecting.py:119-124 | the argument with a default at position j is the named group numbered one more than the count of required arguments plus j, and no other name has a group |
| `Signature.SigGroups` | src/ovid/inspecting.py:108-124 | the unnamed groups of the signature regex are exactly the groups numbered 1 up to the count of required arguments |
| `Signature.LazyEnd` | src/ovid/inspecting.py:137-139 | the lazy group stops at the first lead-out, with no lead-out or barred newline before it |
| `Signature.IndiscriminateAt` | src/ovid/inspecting.py:137-139 | a match is lead-in, its one group, then lead-out |
| `Signature.AssignDistinct` | src/ovid/inspecting.py:155-163 | with distinct keys every pair lands in the dictionary and nothing else is added |
| `Signature.TokenizeRoundTrip` | src/ovid/inspecting.py:151-165 | tokenizing the rendering of positional values and distinct `key=value` pairs gives back the values in order and exactly those pairs |
| `Formatting.FormatDoubled` | src/ovid/producing.py:99-100 | one round of `str.format` undoes brace doubling |
| `Formatting.FormatAuto` | src/ovid/producing.py:128 | `{}` takes the next positional value, or raises `IndexError` when there is none |
| `Formatting.FormatNamed` | src/ovid/producing.py:128 | `{name}` takes the keyword value of that name, or raises `KeyError` when there is none |
| `Everting.LazyClose` | src/ovid/producing.py:103 | the content closes at a `)` not preceded by a backslash |
| `Everting.WordEndSpec` | src/ovid/producing.py:112 | a group name is the maximal run of word characters |
| `Everting.MatchAt` | src/ovid/producing.py:103-115 | a metapattern match starts where tried, its content is non-empty and inside the text, and its replacement is shorter than the match |
| `Everting.FindHitLeftmost` | src/ovid/producing.py:93-97 | `re.subn(..., 1)` replaces the leftmost match: nothing matches before it, and nothing at all when nothing is found |
| `Everting.CollectChunks` | src/ovid/producing.py:93-117 | a collecting pass over a well-formed pattern replaces exactly the groups it targets and records them left to right |
| `Everting.SourceDoubled` | src/ovid/producing.py:100 | doubling the braces of a pattern renders each of its chunks |
| `Everting.EvertChunks` | src/ovid/producing.py:66-117 | eversion gives the template with literals brace-doubled, `{}` per unnamed group and `{name}` per named group, and records the groups' contents in order and by name |
| `Everting.EvertAsWrittenChunks` | src/ovid/producing.py:99-117 | as written, each recorded sub-pattern is the group's brace-doubled text |
| `Everting.EvertCorrectedChunks` | src/ovid/producing.py:99-117 | corrected, each recorded sub-pattern is the group's own text |
| `Everting.UndoubledDoubled` | src/ovid/producing.py:83-91 | undoubling the recorded sub-patterns gives back the groups' contents |
| `Everting.EscapedParenAsWritten` | src/ovid/producing.py:103-108 | as written, `\((a)` records the sub-pattern `(a` and the template `\{}` |
| `Everting.EscapedParenCorrected` | src/ovid/producing.py:103-108 | with a look-behind guard, `\((a)` records `a` and keeps the escaped parenthesis in the template |
| `Everting.BracedGroupAsWritten` | src/ovid/producing.py:83-100 | as written, `(a{2})` records the sub-pattern `a{{2}}` |
| `Everting.BracedGroupCorrected` | src/ovid/producing.py:83-100 | corrected, `(a{2})` records `a{2}` |
| `Producing.FirstUnnamedFailure` | src/ovid/producing.py:130-136 | finds the first value paired by `zip` that does not match its sub-pattern in full, or states that all match |
| `Producing.FirstNamedFailure` | src/ovid/producing.py:138-142 | finds the first keyword, in order given, with no group of its name (`KeyError`) or a value that does not match, or states that all pass |
| `Producing.Produce` | src/ovid/producing.py:119-128 | a production succeeds only if all values match; a failing positional value is reported with its index and content before any keyword problem |
| `Producing.FormatTemplate` | src/ovid/producing.py:128 | formatting the template of a well-formed pattern fills each group with its value, left to right |
| `Producing.ProduceChunks` | src/ovid/producing.py:119-147 | production from a corrected eversion succeeds exactly when every value matches its group's sub-pattern and every field has a value, and yields the pattern with its groups filled in |
| `Producing.ProduceTruncates` | src/ovid/producing.py:130-133 | values beyond the number of unnamed groups are dropped unexamined |
| `Producing.ProduceMixExample` | tests/test_producing.py:63-64 | `(?P<n0>a)(b)(?P<n1>c)` produces `abc` from `'b', n0='a', n1='c'` |
| `Ordering.StrLessTotal` | src/ovid/producing.py:181 | two different strings are ordered one way or the other |
| `Ordering.StrLessTransitive` | src/ovid/producing.py:181 | string order is transitive |
| `Ordering.SortByKey` | src/ovid/producing.py:181 | sorting keeps the same pairs (a permutation) |
| `Ordering.InsertSorted` | src/ovid/producing.py:181 | inserting a new key into a sorted sequence keeps it sorted |
| `Ordering.SortSorted` | src/ovid/producing.py:181 | with distinct keys the sorted pairs are strictly increasing by key |
| `Ordering.SortedUnique` | src/ovid/producing.py:181 | two strictly sorted arrangements of the same pairs are equal |
| `Ordering.SortIgnoresCallOrder` | src/ovid/producing.py:181 | the order in which keyword arguments were passed does not show after sorting |
| `SignatureProducing.FirstBadKeyword` | src/ovid/producing.py:182-184 | finds the first keyword argument that names no argument with a default or fails the named-value pattern, or states that all pass |
| `SignatureProducing.FirstBadArgument` | src/ovid/producing.py:130-136 | finds the first required value that fails the unnamed-value pattern, or states that all pass |
| `SignatureProducing.FormatSigTemplate` | src/ovid/producing.py:162-177 | the template formats to lead-in, name, one separated value per required argument, the named text and lead-out, and raises `IndexError` with too few values |
| `SignatureProducing.NamedTextLead` | src/ovid/producing.py:185-189 | the named text is each `name=value` behind one separator |
| `SignatureProducing.FirstBadKeywordSorted` | src/ovid/producing.py:181-184 | checking in sorted order accepts exactly the calls whose keyword arguments all pass |
| `SignatureProducing.SigProduceOk` | src/ovid/producing.py:179-191 | production succeeds exactly when all keyword arguments pass, all required values pass, and every required argument has a value |
| `SignatureProducing.SigProduceText` | src/ovid/producing.py:179-191 | a successful production reads lead-in, name, each required value behind a separator, each keyword argument as `name=value` behind a separator, lead-out |
| `SignatureProducing.SigProduceErrors` | src/ovid/producing.py:179-191 | the error raised is the failing keyword argument with the least name, else the first failing required value, else `IndexError` for a missing one |
| `SignatureProducing.AsWrittenIgnoresCallOrder` | src/ovid/producing.py:181 | as written, keyword argument order at the call does not change the production |
| `SignatureProducing.CorrectedIgnoresCallOrder` | src/ovid/producing.py:179-191 | corrected, keyword argument order at the call does not change the production either |
| `SignatureReading.NamedOkClean` | src/ovid/inspecting.py:115-116 | with the defaults a value fits the named-value pattern exactly when it holds no vertical bar and no newline |
| `SignatureReading.DefaultSep` | src/ovid/inspecting.py:36-46 | with the defaults an active separator is exactly a vertical bar |
| `SignatureReading.MatchRendered` | src/ovid/inspecting.py:103-124 | the signature regex's items read a rendering of valid values back, group by group, up to the lead-out |
| `SignatureRoundTrip.ValidReadBack` | src/ovid/producing.py:182-184 | the values of a production that passes its checks are values the signature regex can read |
| `SignatureRoundTrip.RenderReadBack` | src/ovid/producing.py:168-189 | the rendered groups of a production are its separated required values followed by its keyword assignments |
| `SignatureRoundTrip.SigAtRendered` | src/ovid/inspecting.py:97-126 | the signature regex matches a rendering whole, and its groups are the rendered values |
| `SignatureRoundTrip.SigRoundTrip` | src/ovid/producing.py:150-212 | a corrected production is matched whole by the signature regex, with each required value and each given keyword value (`None` for an absent one) in its group |
| `SignatureExamples.SortedProduction` | src/ovid/producing.py:181-189 | as written, `g(b=1, a=2)` for `def g(b=None, a=None)` produces {{g&#124;a=2&#124;b=1}} |
| `SignatureExamples.SortedProductionUnread` | src/ovid/inspecting.py:119-124 | `g`'s own regex does not match {{g&#124;a=2&#124;b=1}} |
| `SignatureExamples.DeclaredProduction` | src/ovid/producing.py:179-191 | corrected, `g(b=1, a=2)` produces {{g&#124;b=1&#124;a=2}} |
| `SignatureExamples.DeclaredReadBack` | src/ovid/inspecting.py:119-124 | {{g&#124;b=1&#124;a=2}} reads back whole as `b=1`, `a=2` |
| `SignatureExamples.ProducesText` | src/ovid/producing.py:179-191 | a call that passes the checks produces the sorted rendering |
| `SignatureExamples.ProductionNoArgs` | tests/test_producing.py:72-77 | `h()` produces `{{h}}` |
| `SignatureExamples.NoArgsReadBack` | tests/test_producing.py:78 | the production of a function without parameters is read back whole by its regex, with no groups |
| `SignatureExamples.ProductionUnnamed` | tests/test_producing.py:81-86 | `a(1)` for `def a(v)` produces {{a&#124;1}} |
| `SignatureExamples.ProductionNamed` | tests/test_producing.py:89-94 | `a(v=1)` for `def a(v=None)` produces {{a&#124;v=1}} |
| `SignatureExamples.ProductionCombined` | tests/test_producing.py:97-102 | `a(1, v1=2)` for `def a(v0, v1=None)` produces {{a&#124;1&#124;v1=2}} |
| `SignatureExamples.ProductionCombinedUnnamed` | tests/test_producing.py:103 | `a(1)` for `def a(v0, v1=None)` produces {{a&#124;1}} |

## Left out

- The `Cacher` metaclass and the memoization of class-level regexes: caching does not change results. `Delimiters.Compile` computes the derived patterns once per configuration instead.
- Logging (`log.debug`, `log.error`, `log.warning`) has no effect on results.
- `__repr__`, `inspect.getfullargspec` and Python's argument binding are left out. A signature is given directly as a name, required arguments and arguments with defaults. Variadic parameters are not supported by the source either.
- A user regex is not interpreted. `OneWayProcessor(pattern, ...)` takes a matcher, and production takes a full-match predicate. Compile errors (`re.error`) are left out.
- Processor functions are total. An exception raised inside one, and `str()` conversion of values that are not strings, are left out.
- Python's `re` rules for Unicode word characters: `\w` and identifiers are ASCII letters, digits and `_`.
- `str.format` is modelled only for literal text, `{}` and `{identifier}`. Any other field is a `BadField` error; numbered fields, attribute access, conversions and format specifications are not interpreted.
- Nested groups in `TwoWayProcessor` patterns: the source documents them as unsupported. The eversion lemmas assume patterns of non-nested groups, literal text and no line break inside a group.
- `Resolver.Resolve`: Python's recursion limit is modelled as a `fuel` bound, reported as `OutOfFuel`. `Resolver.ResolveFuel` and `Processors.CollectiveSubFuel` show that more fuel never changes an outcome once one is reached.
- `Processors.Subn`: its contract states the number of calls and the `count` limit only. The text it builds is stated for the first replacement (`Processors.SubnFirstReplacement`) and, for the empty-match retry of Python 3.7 and later, for two patterns (`Processors.EmptyMatchRetried`, `Processors.EmptyRegexSub`), not for every pattern.
- `Delimiters.Config`: of the class-level `flags`, only `re.DOTALL` is modelled (`dotAll`). Other flags such as `re.IGNORECASE`, `re.MULTILINE` or `re.VERBOSE` change what the generated regexes match and are left out.
- `Delimiters.ActiveInAt`: `lead_in` and `lead_out` are regex text in the source, but are matched as literal text here. This agrees with the source only for delimiters that denote themselves as regexes, such as the default `{{` and `}}`. A delimiter with other regex metacharacters is left out.
- `Signature.SigAt`: exact only for a separator and an assignment operator without braces. With a brace in either, the source keeps `_double_braces`' doubled braces in the unnamed-value pattern (src/ovid/inspecting.py:99-112) and formats the named subpattern a second time (src/ovid/inspecting.py:115-124), which changes the regex or raises. Those configurations are left out.
- `SignatureProducing.NamedOk` and `SignatureProducing.UnnamedOk`: exact under the same condition as `Signature.SigAt`, for the same reason.
- `Processors.CollectiveSub`: an endless rewrite cycle, which the source ends with `RecursionError`, ends in `None` once the fuel runs out.
- `SignatureRoundTrip.SigRoundTrip`: proved for the default delimiters, separator, operator and escape only. Separators or operators containing braces are not covered.
- `Delimiters.FindTargetLeftmost`: states that the target is leftmost and complete. It does not state the docstring's "no non-escaped lead-in inside", because `Delimiters.StraddlingLeadIn` shows that this does not hold.
- `Signature.TokenizeRoundTrip`: requires a one-character separator and operator that are distinct and occur in no token, and positional values without the operator. Outside these conditions `_tokenize` does not invert rendering.
- The `ovid/` directory at the repository root is an older copy of the package. Only `src/ovid/` is modelled.

## Findings

| source | as written | input that shows it | evidently intended | confidence | as-written member | corrected member |
|---|---|---|---|---|---|---|
| src/ovid/producing.py:181 | `produce` renders keyword arguments sorted by name | `def g(b=None, a=None)` and `produce(b=1, a=2)` give {{g&#124;a=2&#124;b=1}}, which `g`'s own regex does not match | render keyword arguments in declaration order, so a production is read back by the processor that produced it | not executed | `SignatureExamples.SortedProductionUnread` | `SignatureRoundTrip.SigRoundTrip` |
| src/ovid/producing.py:103 | the guard `(?!\\)` is a look-ahead at the `(` itself, so it never refuses an escaped parenthesis | pattern `\((a)`: the recorded sub-pattern is `(a` and the template is `\{}` | a look-behind `(?<!\\)`, leaving `\(` as literal text and recording `a` | not executed | `Everting.EscapedParenAsWritten` | `Everting.EscapedParenCorrected` |
| src/ovid/producing.py:100 | sub-patterns are collected from the brace-doubled template, so a group holding a brace records it doubled | pattern `(a{2})`: the recorded sub-pattern is `a{{2}}`, a different regular expression from `a{2}` | record each group's own text | not executed | `Everting.BracedGroupAsWritten` | `Everting.BracedGroupCorrected` |
