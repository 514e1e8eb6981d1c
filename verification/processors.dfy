/** Processors and registries: `OneWayProcessor.sub`/`subn` with the
    argument handling of `_process`, `CollectiveProcessor.collective_sub`
    (apply the first registered processor that changes the text, then start
    over), and the class-level registries that `variant_class` creates or
    shares and that every new processor appends itself to. */
module Processors {
  import opened Text
  import opened Delimiters
  import opened Groups
  import opened Signature

  type Kwargs = map<string, string>

  /** A processor function: it receives positional arguments (`None` for an
      unnamed group that did not participate) and keyword arguments, and
      returns the replacement text.  Functions are modelled as total: an
      exception raised inside one is not modelled. */
  type Handler = (seq<Option<string>>, Kwargs) -> string

  /** Which regex a processor was built with. */
  datatype Shape =
    | Regex(pattern: Pattern)       // `OneWayProcessor(pattern, function)`: any compiled regex
    | SignatureOf(cfg: Config, sig: Sig)  // `SignatureShorthand(function)`
    | Indiscriminate(cfg: Config)   // `IndiscriminateShorthand(function)`

  datatype Processor = Processor(shape: Shape, handler: Handler)

  ghost predicate ValidProcessor(p: Processor) {
    match p.shape
    case Regex(pat) => ValidPattern(pat)
    case SignatureOf(_, sig) => WellFormedSig(sig)
    case Indiscriminate(cfg) => Valid(cfg)
  }

  function PatternOf(p: Processor): (pat: Pattern)
    requires ValidProcessor(p)
    ensures ValidPattern(pat)
  {
    match p.shape
    case Regex(pat) => pat
    case SignatureOf(cfg, sig) => SigPattern(cfg, sig)
    case Indiscriminate(cfg) => IndiscriminatePattern(cfg)
  }

  /** `pattern.search(s, pos)`: the preferred match at the leftmost position
      at or after `pos` where the pattern matches. */
  function Search(pat: Pattern, s: string, pos: nat): (r: Option<Match>)
    requires ValidPattern(pat) && pos <= |s|
    ensures r.Some? ==> pos <= r.value.start && pat.at(s, r.value.start) == r
    ensures r.Some? ==> forall i :: pos <= i < r.value.start ==> pat.at(s, i).None?
    ensures r.None? ==> forall i :: pos <= i <= |s| ==> pat.at(s, i).None?
    decreases |s| - pos
  {
    if pat.at(s, pos).Some? then pat.at(s, pos)
    else if pos == |s| then None
    else Search(pat, s, pos + 1)
  }

  /** One call of the processor function. */
  datatype Call = Call(args: seq<Option<string>>, kwargs: Kwargs)

  /** What `re.subn` returns, with the calls it made on the way. */
  datatype SubResult = SubResult(text: string, count: nat, calls: seq<Call>)

  /** The `repl` closure of `_process`: break the match down and merge the
      named part into the keyword dictionary, which the closure shares with
      every later match of the same `subn` call. */
  function CallFor(p: Processor, m: Match, kwargs: Kwargs): (c: Call)
    requires ValidProcessor(p) && |m.groups| == PatternOf(p).groupCount
    ensures kwargs.Keys <= c.kwargs.Keys
  {
    match p.shape
    case Indiscriminate(cfg) =>
      var text := if m.groups[0].Some? then m.groups[0].value else "";
      var (args, named) := Tokenize(cfg, text);
      Call(seq(|args|, i requires 0 <= i < |args| => Some(args[i])), kwargs + named)
    case _ =>
      var (args, named) := UniqueGroups(PatternOf(p), m);
      Call(args, kwargs + named)
  }

  /** The next match of the scan from `pos`.  `retry` is set right after an
      empty match at `pos`: the engine then wants a non-empty match at `pos`
      and otherwise searches on from `pos + 1` (Python 3.7 and later). */
  function SearchFrom(pat: Pattern, s: string, pos: nat, retry: bool): (r: Option<Match>)
    requires ValidPattern(pat) && pos <= |s|
    ensures r.Some? ==> pos <= r.value.start <= r.value.end <= |s|
    ensures r.Some? ==> |r.value.groups| == pat.groupCount
    ensures r.Some? && retry ==> pos < r.value.end
  {
    if !retry then Search(pat, s, pos)
    else if pat.advancing(s, pos).Some? then pat.advancing(s, pos)
    else if pos == |s| then None
    else Search(pat, s, pos + 1)
  }

  /** `re.subn(repl, s, count)` from position `pos` on, with `done`
      replacements made so far (`count == 0` places no limit): the text up to
      each match is kept, the match is replaced by the function's value, and
      the scan goes on from the end of the match. */
  function SubnFrom(p: Processor, s: string, pos: nat, retry: bool, kwargs: Kwargs, count: nat, done: nat)
    : (r: SubResult)
    requires ValidProcessor(p) && pos <= |s|
    ensures |r.calls| == r.count
    ensures count > 0 && done <= count ==> done + r.count <= count
    decreases |s| - pos, if retry then 0 else 1
  {
    if count > 0 && done >= count then SubResult(s[pos..], 0, [])
    else
      var m := SearchFrom(PatternOf(p), s, pos, retry);
      if m.None? then SubResult(s[pos..], 0, [])
      else
        var call := CallFor(p, m.value, kwargs);
        var out := p.handler(call.args, call.kwargs);
        var rest := SubnFrom(p, s, m.value.end, m.value.end == m.value.start, call.kwargs, count, done + 1);
        SubResult(s[pos..m.value.start] + out + rest.text, rest.count + 1, [call] + rest.calls)
  }

  /** `processor.subn(s, **kwargs)`, with `count` taken out of the keyword
      arguments before any call. */
  function Subn(p: Processor, s: string, kwargs: Kwargs, count: nat): (r: SubResult)
    requires ValidProcessor(p)
    ensures |r.calls| == r.count
    ensures count > 0 ==> r.count <= count
  {
    SubnFrom(p, s, 0, false, kwargs, count, 0)
  }

  /** A text the pattern does not match anywhere comes back unchanged, with
      no call made. */
  lemma SubnNoMatch(p: Processor, s: string, kwargs: Kwargs, count: nat)
    requires ValidProcessor(p)
    requires forall i :: 0 <= i <= |s| ==> PatternOf(p).at(s, i).None?
    ensures Subn(p, s, kwargs, count) == SubResult(s, 0, [])
  {
    assert Search(PatternOf(p), s, 0).None?;
    assert s[0..] == s;
  }

  /** Where the pattern matches, the result starts with the text before the
      leftmost match and that match's replacement, and the first call is the
      one for that match. */
  lemma SubnFirstReplacement(p: Processor, s: string, kwargs: Kwargs, count: nat)
    requires ValidProcessor(p)
    requires Search(PatternOf(p), s, 0).Some?
    ensures var m := Search(PatternOf(p), s, 0).value;
      var call := CallFor(p, m, kwargs);
      var r := Subn(p, s, kwargs, count);
      r.count >= 1 && r.calls[0] == call
      && s[..m.start] + p.handler(call.args, call.kwargs) <= r.text
  {
  }

  /** The calls of one `subn` step: the call for the next match, then
      those of the rest of the scan. */
  lemma SubnFromCalls(p: Processor, s: string, pos: nat, retry: bool, kwargs: Kwargs, count: nat, done: nat)
    requires ValidProcessor(p) && pos <= |s|
    requires !(count > 0 && done >= count) && SearchFrom(PatternOf(p), s, pos, retry).Some?
    ensures var m := SearchFrom(PatternOf(p), s, pos, retry).value;
      var call := CallFor(p, m, kwargs);
      SubnFrom(p, s, pos, retry, kwargs, count, done).calls
        == [call] + SubnFrom(p, s, m.end, m.end == m.start, call.kwargs, count, done + 1).calls
  {
  }

  /** The text and count of one `subn` step: the text before the next
      match, its replacement, then the rest of the scan. */
  lemma SubnFromText(p: Processor, s: string, pos: nat, retry: bool, kwargs: Kwargs, count: nat, done: nat)
    requires ValidProcessor(p) && pos <= |s|
    requires !(count > 0 && done >= count) && SearchFrom(PatternOf(p), s, pos, retry).Some?
    ensures var m := SearchFrom(PatternOf(p), s, pos, retry).value;
      var call := CallFor(p, m, kwargs);
      var rest := SubnFrom(p, s, m.end, m.end == m.start, call.kwargs, count, done + 1);
      var r := SubnFrom(p, s, pos, retry, kwargs, count, done);
      r.text == s[pos..m.start] + p.handler(call.args, call.kwargs) + rest.text && r.count == rest.count + 1
  {
  }

  /** A scan that has used up its count or finds no match makes no call. */
  lemma SubnFromStops(p: Processor, s: string, pos: nat, retry: bool, kwargs: Kwargs, count: nat, done: nat)
    requires ValidProcessor(p) && pos <= |s|
    requires (count > 0 && done >= count) || SearchFrom(PatternOf(p), s, pos, retry).None?
    ensures SubnFrom(p, s, pos, retry, kwargs, count, done).calls == []
  {
  }

  /** Every call sees the keywords `kwargs` and every keyword an earlier
      call saw. */
  predicate Accumulates(kwargs: Kwargs, calls: seq<Call>) {
    forall j, k :: 0 <= j <= k < |calls| ==>
      kwargs.Keys <= calls[j].kwargs.Keys <= calls[k].kwargs.Keys
  }

  lemma AccumulatesCons(kwargs: Kwargs, call: Call, rest: seq<Call>)
    requires kwargs.Keys <= call.kwargs.Keys && Accumulates(call.kwargs, rest)
    ensures Accumulates(kwargs, [call] + rest)
  {
    var calls := [call] + rest;
    forall j, k | 0 <= j <= k < |calls|
      ensures kwargs.Keys <= calls[j].kwargs.Keys <= calls[k].kwargs.Keys
    {
      if j > 0 {
        assert calls[j] == rest[j - 1] && calls[k] == rest[k - 1];
      } else if k > 0 {
        assert calls[k] == rest[k - 1];
      }
    }
  }

  /** Keyword arguments only accumulate within one `subn` call: every call
      sees the caller's keywords and every keyword an earlier call saw. */
  lemma {:induction false} KwargsAccumulate(p: Processor, s: string, pos: nat, retry: bool, kwargs: Kwargs,
                                           count: nat, done: nat)
    requires ValidProcessor(p) && pos <= |s|
    ensures Accumulates(kwargs, SubnFrom(p, s, pos, retry, kwargs, count, done).calls)
    decreases |s| - pos, if retry then 0 else 1
  {
    if !(count > 0 && done >= count) && SearchFrom(PatternOf(p), s, pos, retry).Some? {
      var m := SearchFrom(PatternOf(p), s, pos, retry).value;
      var call := CallFor(p, m, kwargs);
      KwargsAccumulate(p, s, m.end, m.end == m.start, call.kwargs, count, done + 1);
      SubnFromCalls(p, s, pos, retry, kwargs, count, done);
      AccumulatesCons(kwargs, call, SubnFrom(p, s, m.end, m.end == m.start, call.kwargs, count, done + 1).calls);
    } else {
      SubnFromStops(p, s, pos, retry, kwargs, count, done);
    }
  }

  // ---------------------------------------------------------------------
  // Empty matches: `re.sub('|a', '-', 'a')`

  /** The regex `|a`: its preferred match is always the empty one; the
      non-empty one is an `a`. */
  function EmptyOrA(): (pat: Pattern)
    ensures ValidPattern(pat)
  {
    Pattern((s: string, i: nat) => if i <= |s| then Some(Match(i, i, [])) else None,
            (s: string, i: nat) => if i < |s| && s[i] == 'a' then Some(Match(i, i + 1, [])) else None,
            0, map[])
  }

  /** After the empty match in front of the `a`, the scan retries at the same
      position and replaces the `a` itself, then the empty text at the end:
      three replacements, `---`, and nothing skipped. */
  lemma EmptyMatchRetried(h: Handler)
    requires forall args, kw :: h(args, kw) == "-"
    ensures Subn(Processor(Regex(EmptyOrA()), h), "a", map[], 0).text == "---"
    ensures Subn(Processor(Regex(EmptyOrA()), h), "a", map[], 0).count == 3
  {
    var p := Processor(Regex(EmptyOrA()), h);
    var s := "a";
    assert SearchFrom(EmptyOrA(), s, 0, false) == Some(Match(0, 0, []));
    assert SearchFrom(EmptyOrA(), s, 0, true) == Some(Match(0, 1, []));
    assert SearchFrom(EmptyOrA(), s, 1, false) == Some(Match(1, 1, []));
    assert SearchFrom(EmptyOrA(), s, 1, true).None?;
    var r3 := SubnFrom(p, s, 1, true, map[], 0, 3);
    assert r3 == SubResult("", 0, []);
    var r2 := SubnFrom(p, s, 1, false, map[], 0, 2);
    assert r2.text == "-" && r2.count == 1;
    var r1 := SubnFrom(p, s, 0, true, map[], 0, 1);
    assert r1.text == "--" && r1.count == 2;
  }

  /** The empty regex: it matches the empty text everywhere and never
      anything longer. */
  function EmptyRegex(): (pat: Pattern)
    ensures ValidPattern(pat)
  {
    Pattern((s: string, i: nat) => if i <= |s| then Some(Match(i, i, [])) else None,
            (s: string, i: nat) => None,
            0, map[])
  }

  /** Each character of `t` followed by `c`. */
  function Trail(t: string, c: string): (r: string)
    ensures |r| == |t| + |t| * |c|
  {
    if t == [] then [] else [t[0]] + c + Trail(t[1..], c)
  }

  /** `Trail` takes one character of the text at a time. */
  lemma TrailStep(s: string, pos: nat, c: string)
    requires pos < |s|
    ensures s[pos..pos + 1] + c + Trail(s[pos + 1..], c) == Trail(s[pos..], c)
  {
    assert s[pos..][1..] == s[pos + 1..];
    assert s[pos..pos + 1] == [s[pos..][0]];
  }

  /** From a retry on: every character is kept and followed by a
      replacement, one call per character. */
  lemma {:induction false} EmptyRegexFrom(h: Handler, c: string, s: string, pos: nat, kwargs: Kwargs, done: nat)
    requires forall args, kw :: h(args, kw) == c
    requires pos <= |s|
    ensures var r := SubnFrom(Processor(Regex(EmptyRegex()), h), s, pos, true, kwargs, 0, done);
      r.text == Trail(s[pos..], c) && r.count == |s| - pos
    decreases |s| - pos
  {
    var p := Processor(Regex(EmptyRegex()), h);
    if pos < |s| {
      assert SearchFrom(EmptyRegex(), s, pos, true) == Some(Match(pos + 1, pos + 1, []));
      var call := CallFor(p, Match(pos + 1, pos + 1, []), kwargs);
      EmptyRegexFrom(h, c, s, pos + 1, call.kwargs, done + 1);
      TrailStep(s, pos, c);
    } else {
      assert SearchFrom(EmptyRegex(), s, pos, true).None?;
    }
  }

  /** `re.sub('', c, s)`: `c` in front of the first character and after
      every character; no character is skipped or lost. */
  lemma EmptyRegexSub(h: Handler, c: string, s: string, kwargs: Kwargs)
    requires forall args, kw :: h(args, kw) == c
    ensures var r := Subn(Processor(Regex(EmptyRegex()), h), s, kwargs, 0);
      r.text == c + Trail(s, c) && r.count == |s| + 1
  {
    var p := Processor(Regex(EmptyRegex()), h);
    assert SearchFrom(PatternOf(p), s, 0, false) == Some(Match(0, 0, []));
    SubnFromText(p, s, 0, false, kwargs, 0, 0);
    var call := CallFor(p, Match(0, 0, []), kwargs);
    EmptyRegexFrom(h, c, s, 0, call.kwargs, 1);
    assert s[0..0] == [] && s[0..] == s;
  }

  // ---------------------------------------------------------------------
  // CollectiveProcessor

  ghost predicate ValidRegistry(reg: seq<Processor>) {
    forall j :: 0 <= j < |reg| ==> ValidProcessor(reg[j])
  }

  /** A `subn` result that counts as progress: a hit that changed the text. */
  predicate Changed(r: SubResult, s: string) {
    r.count > 0 && r.text != s
  }

  /** The result of each registered processor on the same text. */
  function Results(reg: seq<Processor>, s: string, kwargs: Kwargs, count: nat): (rs: seq<SubResult>)
    requires ValidRegistry(reg)
    ensures |rs| == |reg|
    ensures forall j :: 0 <= j < |reg| ==> rs[j] == Subn(reg[j], s, kwargs, count)
  {
    seq(|reg|, j requires 0 <= j < |reg| => Subn(reg[j], s, kwargs, count))
  }

  /** The first result from position `from` on that changed the text. */
  function FirstChangeIn(rs: seq<SubResult>, s: string, from: nat): (r: Option<(nat, string)>)
    ensures r.Some? ==> from <= r.value.0 < |rs| && Changed(rs[r.value.0], s)
    ensures r.Some? ==> r.value.1 == rs[r.value.0].text
    ensures r.Some? ==> forall j :: from <= j < r.value.0 ==> !Changed(rs[j], s)
    ensures r.None? ==> forall j :: from <= j < |rs| ==> !Changed(rs[j], s)
    decreases |rs| - from
  {
    if from >= |rs| then None
    else if Changed(rs[from], s) then Some((from, rs[from].text))
    else FirstChangeIn(rs, s, from + 1)
  }

  /** The registry walk of `collective_sub`: the first processor, in
      registration order, that hits and changes the text, with its result. */
  function FirstChange(reg: seq<Processor>, s: string, kwargs: Kwargs, count: nat): (r: Option<(nat, string)>)
    requires ValidRegistry(reg)
  {
    FirstChangeIn(Results(reg, s, kwargs, count), s, 0)
  }

  /** The `collective_sub` loop over any way of computing the processors'
      results on a text: apply the first change and start over, until
      nothing changes.  `None` when `fuel` rounds do not suffice (the source
      would recurse until Python's recursion limit). */
  function Saturate(results: string -> seq<SubResult>, s: string, fuel: nat): (r: Option<string>)
    ensures r.Some? ==> FirstChangeIn(results(r.value), r.value, 0).None?
    decreases fuel
  {
    if fuel == 0 then None
    else
      var first := FirstChangeIn(results(s), s, 0);
      if first.None? then Some(s) else Saturate(results, first.value.1, fuel - 1)
  }

  /** More rounds never change an answer already reached. */
  lemma {:induction false} SaturateFuel(results: string -> seq<SubResult>, s: string, fuel: nat, more: nat)
    requires fuel <= more && Saturate(results, s, fuel).Some?
    ensures Saturate(results, s, more) == Saturate(results, s, fuel)
    decreases fuel
  {
    var first := FirstChangeIn(results(s), s, 0);
    if first.Some? {
      SaturateFuel(results, first.value.1, fuel - 1, more - 1);
    }
  }

  /** `CollectiveProcessor.collective_sub`: the loop over the registry's
      processors in registration order. */
  function CollectiveSub(reg: seq<Processor>, s: string, kwargs: Kwargs, count: nat, fuel: nat)
    : (r: Option<string>)
    requires ValidRegistry(reg)
    ensures r.Some? ==> FirstChange(reg, r.value, kwargs, count).None?
  {
    Saturate(t => Results(reg, t, kwargs, count), s, fuel)
  }

  /** The text `collective_sub` returns is one that no registered processor
      changes any more. */
  lemma CollectiveSubStable(reg: seq<Processor>, s: string, kwargs: Kwargs, count: nat, fuel: nat)
    requires ValidRegistry(reg)
    requires CollectiveSub(reg, s, kwargs, count, fuel).Some?
    ensures var t := CollectiveSub(reg, s, kwargs, count, fuel).value;
      forall j :: 0 <= j < |reg| ==> !Changed(Subn(reg[j], t, kwargs, count), t)
  {
    var t := CollectiveSub(reg, s, kwargs, count, fuel).value;
    var rs := Results(reg, t, kwargs, count);
    assert FirstChangeIn(rs, t, 0).None?;
    forall j | 0 <= j < |reg| ensures !Changed(Subn(reg[j], t, kwargs, count), t) {
      assert rs[j] == Subn(reg[j], t, kwargs, count);
    }
  }

  /** A text no processor changes is returned as it is. */
  lemma CollectiveSubFixpoint(reg: seq<Processor>, s: string, kwargs: Kwargs, count: nat, fuel: nat)
    requires ValidRegistry(reg) && fuel > 0
    requires forall j :: 0 <= j < |reg| ==> !Changed(Subn(reg[j], s, kwargs, count), s)
    ensures CollectiveSub(reg, s, kwargs, count, fuel) == Some(s)
  {
    var rs := Results(reg, s, kwargs, count);
    assert forall j :: 0 <= j < |rs| ==> !Changed(rs[j], s);
    FirstChangeInNone(rs, s, 0);
  }

  lemma {:induction false} FirstChangeInNone(rs: seq<SubResult>, s: string, from: nat)
    requires forall j :: from <= j < |rs| ==> !Changed(rs[j], s)
    ensures FirstChangeIn(rs, s, from).None?
    decreases |rs| - from
  {
    if from < |rs| {
      FirstChangeInNone(rs, s, from + 1);
    }
  }

  /** More rounds never change an answer already reached. */
  lemma CollectiveSubFuel(reg: seq<Processor>, s: string, kwargs: Kwargs, count: nat, fuel: nat, more: nat)
    requires ValidRegistry(reg)
    requires fuel <= more && CollectiveSub(reg, s, kwargs, count, fuel).Some?
    ensures CollectiveSub(reg, s, kwargs, count, more) == CollectiveSub(reg, s, kwargs, count, fuel)
  {
    SaturateFuel(t => Results(reg, t, kwargs, count), s, fuel, more);
  }

  /** Registration order decides: a processor registered later is consulted
      only when none of the earlier ones changes the text. */
  lemma FirstChangePrecedence(reg: seq<Processor>, p: Processor, s: string, kwargs: Kwargs, count: nat)
    requires ValidRegistry(reg) && ValidProcessor(p)
    requires FirstChange(reg, s, kwargs, count).Some?
    ensures ValidRegistry(reg + [p])
    ensures FirstChange(reg + [p], s, kwargs, count) == FirstChange(reg, s, kwargs, count)
  {
    ResultsAppend(reg, p, s, kwargs, count);
    FirstChangeInPrefix(Results(reg, s, kwargs, count), [Subn(p, s, kwargs, count)], s, 0);
  }

  lemma ResultsAppend(reg: seq<Processor>, p: Processor, s: string, kwargs: Kwargs, count: nat)
    requires ValidRegistry(reg) && ValidProcessor(p)
    ensures ValidRegistry(reg + [p])
    ensures Results(reg + [p], s, kwargs, count) == Results(reg, s, kwargs, count) + [Subn(p, s, kwargs, count)]
  {
    var rs := Results(reg, s, kwargs, count);
    var rs' := Results(reg + [p], s, kwargs, count);
    forall j | 0 <= j < |reg| ensures rs'[j] == rs[j] {
      assert (reg + [p])[j] == reg[j];
    }
  }

  /** Results appended after the first change do not matter. */
  lemma {:induction false} FirstChangeInPrefix(rs: seq<SubResult>, more: seq<SubResult>, s: string, from: nat)
    requires FirstChangeIn(rs, s, from).Some?
    ensures FirstChangeIn(rs + more, s, from) == FirstChangeIn(rs, s, from)
    decreases |rs| - from
  {
    assert (rs + more)[from] == rs[from];
    if !Changed(rs[from], s) {
      FirstChangeInPrefix(rs, more, s, from + 1);
    }
  }

  // ---------------------------------------------------------------------
  // Classes and registries

  /** What calling a class on a function builds: a plain delimited class
      takes a regex, `SignatureShorthand` and its subclasses inspect the
      function's signature, `IndiscriminateShorthand` and its subclasses
      accept anything between the delimiters. */
  datatype Kind = Delimited | SignatureKind | IndiscriminateKind

  /** A processor class as far as resolution is concerned: its kind, its
      class-level constants and which registry list its `registry` attribute
      refers to. */
  datatype Class = Class(kind: Kind, cfg: Config, registry: nat)

  /** Every registry list in existence; classes refer to them by position,
      so that two classes may share one list. */
  datatype World = World(registries: seq<seq<Processor>>)

  predicate Knows(w: World, c: Class) {
    c.registry < |w.registries|
  }

  ghost predicate ValidWorld(w: World) {
    forall r, j :: 0 <= r < |w.registries| && 0 <= j < |w.registries[r]| ==>
      ValidProcessor(w.registries[r][j])
  }

  function Registry(w: World, c: Class): seq<Processor>
    requires Knows(w, c)
  {
    w.registries[c.registry]
  }

  /** `CollectiveProcessor.variant_class`: a subclass with overridden
      constants, given a fresh empty registry or sharing its parent's. */
  function VariantClass(w: World, parent: Class, cfg: Config, newRegistry: bool)
    : (r: (World, Class))
    requires Knows(w, parent)
    ensures Knows(r.0, r.1) && r.1.cfg == cfg && r.1.kind == parent.kind
    ensures newRegistry ==> |r.0.registries| == |w.registries| + 1 && Registry(r.0, r.1) == []
    ensures newRegistry ==> r.0.registries[..|w.registries|] == w.registries
    ensures !newRegistry ==> r.0 == w && r.1.registry == parent.registry
  {
    if newRegistry then (World(w.registries + [[]]), Class(parent.kind, cfg, |w.registries|))
    else (w, Class(parent.kind, cfg, parent.registry))
  }

  /** `AutoRegisteringProcessor.__init__`: the new processor appends itself
      to its class's registry list. */
  function Create(w: World, c: Class, p: Processor): (w': World)
    requires Knows(w, c)
    ensures |w'.registries| == |w.registries| && Knows(w', c)
    ensures Registry(w', c) == Registry(w, c) + [p]
    ensures forall r :: 0 <= r < |w.registries| && r != c.registry ==> w'.registries[r] == w.registries[r]
  {
    World(w.registries[c.registry := w.registries[c.registry] + [p]])
  }

  /** `cls(function)` on a function-like class: the shape its `__init__`
      builds, from the function's signature for a signature class and from
      the delimiters alone for an indiscriminate one. */
  function Construct(c: Class, sig: Sig, h: Handler): (p: Processor)
    requires c.kind != Delimited
    ensures p.handler == h
    ensures c.kind == SignatureKind <==> p.shape == SignatureOf(c.cfg, sig)
    ensures c.kind == IndiscriminateKind <==> p.shape == Indiscriminate(c.cfg)
  {
    match c.kind
    case SignatureKind => Processor(SignatureOf(c.cfg, sig), h)
    case IndiscriminateKind => Processor(Indiscriminate(c.cfg), h)
  }

  /** `swallow`: build a processor of the class's own kind from the
      function, which registers it, and return the processor. */
  function Swallow(w: World, c: Class, sig: Sig, h: Handler): (r: (World, Processor))
    requires Knows(w, c) && c.kind != Delimited
    ensures Knows(r.0, c) && Registry(r.0, c) == Registry(w, c) + [r.1]
    ensures |r.0.registries| == |w.registries|
    ensures forall other :: Knows(w, other) && other.registry != c.registry ==>
      Registry(r.0, other) == Registry(w, other)
    ensures r.1.handler == h
    ensures c.kind == SignatureKind ==> r.1.shape == SignatureOf(c.cfg, sig)
    ensures c.kind == IndiscriminateKind ==> r.1.shape == Indiscriminate(c.cfg)
  {
    var p := Construct(c, sig, h);
    (Create(w, c, p), p)
  }

  /** `register`: as `swallow`, but hand back the function itself. */
  function Register(w: World, c: Class, sig: Sig, h: Handler): (r: (World, Handler))
    requires Knows(w, c) && c.kind != Delimited
    ensures Knows(r.0, c) && Registry(r.0, c) == Registry(w, c) + [Construct(c, sig, h)]
    ensures c.kind == IndiscriminateKind ==>
      Registry(r.0, c) == Registry(w, c) + [Processor(Indiscriminate(c.cfg), h)]
    ensures c.kind == SignatureKind ==>
      Registry(r.0, c) == Registry(w, c) + [Processor(SignatureOf(c.cfg, sig), h)]
    ensures r.1 == h
  {
    (Swallow(w, c, sig, h).0, h)
  }

  /** A processor class keeps its kind in every variant: registering through
      a variant of `IndiscriminateShorthand` builds an indiscriminate
      processor. */
  lemma VariantRegisters(w: World, parent: Class, cfg: Config, newRegistry: bool, sig: Sig, h: Handler)
    requires Knows(w, parent) && parent.kind != Delimited
    ensures var (w1, child) := VariantClass(w, parent, cfg, newRegistry);
      var (w2, p) := Swallow(w1, child, sig, h);
      && (parent.kind == IndiscriminateKind ==> p == Processor(Indiscriminate(cfg), h))
      && (parent.kind == SignatureKind ==> p == Processor(SignatureOf(cfg, sig), h))
  {
  }

  /** A subclass made without a new registry aliases its parent's list:
      processors created through either class are seen by both. */
  lemma SharedRegistry(w: World, parent: Class, cfg: Config, p: Processor)
    requires Knows(w, parent)
    ensures var (w1, child) := VariantClass(w, parent, cfg, false);
      && Registry(Create(w1, child, p), parent) == Registry(w, parent) + [p]
      && Registry(Create(w1, parent, p), child) == Registry(w, parent) + [p]
  {
  }

  /** A subclass with a new registry is isolated: processors created through
      it leave every other class's registry as it was. */
  lemma IsolatedRegistry(w: World, parent: Class, other: Class, cfg: Config, p: Processor)
    requires Knows(w, parent) && Knows(w, other)
    ensures var (w1, child) := VariantClass(w, parent, cfg, true);
      && Registry(Create(w1, child, p), child) == [p]
      && Registry(Create(w1, child, p), other) == Registry(w, other)
  {
  }
}
