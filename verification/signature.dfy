/** The markup grammars of the function-like shorthands.

    `SignatureShorthand` builds its regex from the processor function's
    signature: the function name after the lead-in, then one separator and
    one value per required argument, then an optional `separator name
    operator value` part per argument with a default, in declaration order,
    then the lead-out.  `IndiscriminateShorthand` accepts anything between the
    delimiters and splits it into arguments itself.  Both regexes are
    modelled as matchers that follow the regex engine's backtracking order. */
module Signature {
  import opened Text
  import opened Delimiters
  import opened Groups

  /** What `inspect.getfullargspec` reports of a processor function: its name,
      the arguments without defaults and the arguments with defaults. */
  datatype Sig = Sig(name: string, required: seq<string>, optional: seq<string>)

  /** Python guarantees identifiers for the function and its arguments, and
      distinct argument names. */
  predicate WellFormedSig(sig: Sig) {
    && IsIdentifier(sig.name)
    && (forall j :: 0 <= j < |sig.optional| ==> IsIdentifier(sig.optional[j]))
    && (forall j, k :: 0 <= j < k < |sig.optional| ==> sig.optional[j] != sig.optional[k])
  }

  /** One element of the regex after the function name. */
  datatype Item = Positional | Keyword(name: string)

  function Items(sig: Sig): (items: seq<Item>)
    ensures |items| == |sig.required| + |sig.optional|
    ensures forall j :: 0 <= j < |sig.required| ==> items[j] == Positional
    ensures forall j :: 0 <= j < |sig.optional| ==>
      items[|sig.required| + j] == Keyword(sig.optional[j])
  {
    seq(|sig.required|, _ => Positional)
      + seq(|sig.optional|, j requires 0 <= j < |sig.optional| => Keyword(sig.optional[j]))
  }

  /** `(?!identifier active_op)`: a value that starts like `name=` is refused
      as an unnamed value. */
  predicate LooksNamed(cfg: Config, s: string, q: nat) {
    exists k :: 1 <= k <= |s| && NamedPrefix(cfg, s, q, k)
  }

  /** The `k` characters from `q` are an identifier followed by an active operator. */
  predicate NamedPrefix(cfg: Config, s: string, q: nat, k: nat) {
    q + k <= |s| && IsIdentifier(s[q..q + k]) && ActiveOpAt(cfg, s, q + k)
  }

  /** `(?!active_sep).`: a character a value may consist of. */
  predicate ValueChar(cfg: Config, s: string, k: nat) {
    && k < |s|
    && !ActiveSepAt(cfg, s, k)
    && (cfg.dotAll || s[k] != '\n')
  }

  /** How far the greedy value loop `(?:(?!active_sep).)*` runs from `q`. */
  function RunEnd(cfg: Config, s: string, q: nat): (e: nat)
    requires q <= |s|
    ensures q <= e <= |s|
    decreases |s| - q
  {
    if ValueChar(cfg, s, q) then RunEnd(cfg, s, q + 1) else q
  }
  /** The run stops at the first character a value may not hold. */
  lemma {:induction false} RunEndSpec(cfg: Config, s: string, q: nat)
    requires q <= |s|
    ensures forall k :: q <= k < RunEnd(cfg, s, q) ==> ValueChar(cfg, s, k)
    ensures !ValueChar(cfg, s, RunEnd(cfg, s, q))
    decreases |s| - q
  {
    if ValueChar(cfg, s, q) {
      RunEndSpec(cfg, s, q + 1);
    }
  }


  /** The items from position `p` on, then the lead-out, as the regex engine
      matches them: the end of the match and one group per item (`None` for
      an optional part that is absent).  An optional part is tried present
      before absent. */
  function MatchItems(cfg: Config, items: seq<Item>, s: string, p: nat)
    : (r: Option<(nat, seq<Option<string>>)>)
    requires p <= |s|
    ensures r.Some? ==> p <= r.value.0 <= |s| && |r.value.1| == |items|
    decreases |items|, 1, 0
  {
    if items == [] then
      if LitAt(s, p, cfg.leadOut) then Some((p + |cfg.leadOut|, [])) else None
    else
      match items[0]
      case Positional =>
        if ActiveSepAt(cfg, s, p) && !LooksNamed(cfg, s, p + |cfg.separator|)
        then Greedy(cfg, items, s, p + |cfg.separator|, RunEnd(cfg, s, p + |cfg.separator|))
        else None
      case Keyword(k) =>
        var q := p + |cfg.separator| + |k|;
        var present :=
          if ActiveSepAt(cfg, s, p) && LitAt(s, p + |cfg.separator|, k) && ActiveOpAt(cfg, s, q)
          then Greedy(cfg, items, s, q + |cfg.assignment|, RunEnd(cfg, s, q + |cfg.assignment|))
          else None;
        if present.Some? then present
        else
          var absent := MatchItems(cfg, items[1..], s, p);
          if absent.Some? then Some((absent.value.0, [None] + absent.value.1)) else None
  }

  /** The value of `items[0]` starts at `q`: try its longest extent `e` first
      and give back one character at a time until the rest matches. */
  function Greedy(cfg: Config, items: seq<Item>, s: string, q: nat, e: nat)
    : (r: Option<(nat, seq<Option<string>>)>)
    requires |items| > 0 && q <= e <= |s|
    ensures r.Some? ==> q <= r.value.0 <= |s| && |r.value.1| == |items|
    decreases |items|, 0, e - q
  {
    var rest := MatchItems(cfg, items[1..], s, e);
    if rest.Some? then Some((rest.value.0, [Some(s[q..e])] + rest.value.1))
    else if e == q then None
    else Greedy(cfg, items, s, q, e - 1)
  }

  /** The compiled signature regex tried at position `i`: lead-in and function
      name literally, then the items. */
  function SigAt(cfg: Config, sig: Sig, s: string, i: nat): (r: Option<Match>)
    ensures r.Some? ==>
      && r.value.start == i && i <= r.value.end <= |s|
      && |r.value.groups| == |sig.required| + |sig.optional|
      && LitAt(s, i, cfg.leadIn + sig.name)
      && i + |cfg.leadIn + sig.name| <= r.value.end
  {
    if LitAt(s, i, cfg.leadIn + sig.name) then
      var m := MatchItems(cfg, Items(sig), s, i + |cfg.leadIn + sig.name|);
      if m.Some? then Some(Match(i, m.value.0, m.value.1)) else None
    else None
  }

  /** `re.groupindex` of the signature regex: optional argument `j` is group
      `|required| + 1 + j`. */
  function SigIndex(sig: Sig): (index: map<string, nat>)
    requires WellFormedSig(sig)
    ensures forall j :: 0 <= j < |sig.optional| ==>
      sig.optional[j] in index && index[sig.optional[j]] == |sig.required| + 1 + j
    ensures forall k :: k in index ==> exists j :: 0 <= j < |sig.optional| && sig.optional[j] == k
  {
    map j | 0 <= j < |sig.optional| :: sig.optional[j] := |sig.required| + 1 + j
  }

  function SigPattern(cfg: Config, sig: Sig): (p: Pattern)
    requires WellFormedSig(sig)
    ensures ValidPattern(p)
  {
    // every match holds at least the function name, so the non-empty retry
    // finds the preferred match
    var at := (s: string, i: nat) => SigAt(cfg, sig, s, i);
    Pattern(at, at, |sig.required| + |sig.optional|, SigIndex(sig))
  }

  /** Every group of the signature regex is either a required argument,
      passed positionally in declaration order, or an optional argument,
      passed by its own name. */
  lemma SigGroups(cfg: Config, sig: Sig)
    requires WellFormedSig(sig)
    ensures UnnamedIndices(SigPattern(cfg, sig)) == Range(1, |sig.required|)
  {
    var p := SigPattern(cfg, sig);
    var n := |sig.required|;
    assert forall i :: i in NamedIndices(p) ==> n + 1 <= i by {
      forall i | i in NamedIndices(p) ensures n + 1 <= i <= n + |sig.optional| {
        var k :| k in p.groupIndex && p.groupIndex[k] == i;
        var j :| 0 <= j < |sig.optional| && sig.optional[j] == k;
      }
    }
    forall i | n + 1 <= i <= n + |sig.optional| ensures i in NamedIndices(p) {
      assert p.groupIndex[sig.optional[i - n - 1]] == i;
    }
    UnnamedLeading(p, n);
  }

  // ---------------------------------------------------------------------
  // IndiscriminateShorthand

  /** The lazy `(.*?)` followed by the literal lead-out: the first lead-out at
      or after `q`, unless a newline comes first. */
  function LazyEnd(cfg: Config, s: string, q: nat): (r: Option<nat>)
    requires q <= |s|
    ensures r.Some? ==> q <= r.value && LitAt(s, r.value, cfg.leadOut)
    ensures r.Some? ==> forall k :: q <= k < r.value ==>
      !LitAt(s, k, cfg.leadOut) && (cfg.dotAll || s[k] != '\n')
    decreases |s| - q
  {
    if LitAt(s, q, cfg.leadOut) then Some(q)
    else if q < |s| && (cfg.dotAll || s[q] != '\n') then LazyEnd(cfg, s, q + 1)
    else None
  }

  /** The regex `lead_in (.*?) lead_out` tried at position `i`. */
  function IndiscriminateAt(cfg: Config, s: string, i: nat): (r: Option<Match>)
    ensures r.Some? ==>
      && r.value.start == i && i <= r.value.end <= |s| && |r.value.groups| == 1
      && r.value.groups[0].Some?
      && r.value.end == i + |cfg.leadIn| + |r.value.groups[0].value| + |cfg.leadOut|
      && s[i..r.value.end] == cfg.leadIn + r.value.groups[0].value + cfg.leadOut
  {
    if LitAt(s, i, cfg.leadIn) then
      var q := i + |cfg.leadIn|;
      var e := LazyEnd(cfg, s, q);
      if e.Some? then
        assert s[i..e.value + |cfg.leadOut|]
            == s[i..q] + s[q..e.value] + s[e.value..e.value + |cfg.leadOut|];
        Some(Match(i, e.value + |cfg.leadOut|, [Some(s[q..e.value])]))
      else None
    else None
  }

  function IndiscriminatePattern(cfg: Config): (p: Pattern)
    requires Valid(cfg)
    ensures ValidPattern(p) && p.groupCount == 1 && |UnnamedIndices(p)| == 1
  {
    // every match holds both delimiters, so it is never empty
    var at := (s: string, i: nat) => IndiscriminateAt(cfg, s, i);
    var p := Pattern(at, at, 1, map[]);
    assert NamedIndices(p) == {};
    assert 1 in UnnamedIndices(p);
    p
  }

  /** `_tokenize`: split on the literal separator; a piece holding the
      operator is a keyword argument (split at its first operator, later
      pieces overriding earlier ones), any other piece is positional. */
  function Tokenize(cfg: Config, t: string): (r: (seq<string>, map<string, string>))
    requires Valid(cfg)
  {
    TokenizePieces(cfg, Split(t, cfg.separator), [], map[])
  }

  function TokenizePieces(cfg: Config, pieces: seq<string>, args: seq<string>, kwargs: map<string, string>)
    : (r: (seq<string>, map<string, string>))
    requires Valid(cfg)
    ensures |args| <= |r.0| <= |args| + |pieces|
    ensures r.0[..|args|] == args
    decreases |pieces|
  {
    if pieces == [] then (args, kwargs)
    else
      var e := pieces[0];
      var k := FindFrom(e, cfg.assignment, 0);
      if k.Some? then
        TokenizePieces(cfg, pieces[1..], args, kwargs[e[..k.value] := e[k.value + |cfg.assignment|..]])
      else
        TokenizePieces(cfg, pieces[1..], args + [e], kwargs)
  }

  /** Positional and keyword tokens as a shorthand's author would write them:
      the positional values, then `key=value` for each keyword pair. */
  function RenderTokens(cfg: Config, args: seq<string>, pairs: seq<(string, string)>): (t: string)
    requires |args| + |pairs| > 0
  {
    Join(args + KeywordPieces(cfg, pairs), cfg.separator)
  }

  /** `kwargs[key] = value` for each pair in turn. */
  function Assign(kwargs: map<string, string>, pairs: seq<(string, string)>): map<string, string>
    decreases |pairs|
  {
    if pairs == [] then kwargs else Assign(kwargs[pairs[0].0 := pairs[0].1], pairs[1..])
  }

  /** With distinct keys, every pair ends up in the dictionary and nothing
      else is added. */
  lemma {:induction false} AssignDistinct(kwargs: map<string, string>, pairs: seq<(string, string)>)
    requires forall j, k :: 0 <= j < k < |pairs| ==> pairs[j].0 != pairs[k].0
    ensures forall j :: 0 <= j < |pairs| ==>
      pairs[j].0 in Assign(kwargs, pairs) && Assign(kwargs, pairs)[pairs[j].0] == pairs[j].1
    ensures forall k :: k in Assign(kwargs, pairs) ==>
      k in kwargs || exists j :: 0 <= j < |pairs| && pairs[j].0 == k
    decreases |pairs|
  {
    if pairs != [] {
      var next := kwargs[pairs[0].0 := pairs[0].1];
      AssignDistinct(next, pairs[1..]);
      AssignKeeps(next, pairs[1..], pairs[0].0);
      forall k | k in Assign(kwargs, pairs)
        ensures k in kwargs || exists j :: 0 <= j < |pairs| && pairs[j].0 == k
      {
        if k !in kwargs && k != pairs[0].0 {
          var j :| 0 <= j < |pairs[1..]| && pairs[1..][j].0 == k;
          assert pairs[j + 1].0 == k;
        }
      }
    }
  }

  /** A key no later pair mentions keeps its value. */
  lemma {:induction false} AssignKeeps(kwargs: map<string, string>, pairs: seq<(string, string)>, k: string)
    requires k in kwargs
    requires forall j :: 0 <= j < |pairs| ==> pairs[j].0 != k
    ensures k in Assign(kwargs, pairs) && Assign(kwargs, pairs)[k] == kwargs[k]
    decreases |pairs|
  {
    if pairs != [] {
      AssignKeeps(kwargs[pairs[0].0 := pairs[0].1], pairs[1..], k);
    }
  }

  /** Pieces without the operator are appended to the positional arguments. */
  lemma {:induction false} TokenizePositional(cfg: Config, args: seq<string>, rest: seq<string>,
                                              acc: seq<string>, kwargs: map<string, string>)
    requires Valid(cfg) && |cfg.assignment| == 1
    requires forall i :: 0 <= i < |args| ==> cfg.assignment[0] !in args[i]
    ensures TokenizePieces(cfg, args + rest, acc, kwargs) == TokenizePieces(cfg, rest, acc + args, kwargs)
    decreases |args|
  {
    if args == [] {
      assert args + rest == rest && acc + args == acc;
    } else {
      var pieces := args + rest;
      assert pieces[0] == args[0] && pieces[1..] == args[1..] + rest;
      FindAbsent(args[0], cfg.assignment);
      TokenizeStep(cfg, pieces, acc, kwargs);
      TokenizePositional(cfg, args[1..], rest, acc + [args[0]], kwargs);
      assert acc + [args[0]] + args[1..] == acc + args;
    }
  }

  lemma TokenizeStep(cfg: Config, pieces: seq<string>, acc: seq<string>, kwargs: map<string, string>)
    requires Valid(cfg) && pieces != [] && FindFrom(pieces[0], cfg.assignment, 0).None?
    ensures TokenizePieces(cfg, pieces, acc, kwargs) == TokenizePieces(cfg, pieces[1..], acc + [pieces[0]], kwargs)
  {
  }

  /** `key=value` pieces with an operator-free key assign the value to the key. */
  lemma {:induction false} TokenizeKeywords(cfg: Config, pairs: seq<(string, string)>,
                                            acc: seq<string>, kwargs: map<string, string>)
    requires Valid(cfg) && |cfg.assignment| == 1
    requires forall j :: 0 <= j < |pairs| ==> cfg.assignment[0] !in pairs[j].0
    ensures TokenizePieces(cfg, KeywordPieces(cfg, pairs), acc, kwargs) == (acc, Assign(kwargs, pairs))
    decreases |pairs|
  {
    if pairs != [] {
      var e := pairs[0].0 + cfg.assignment + pairs[0].1;
      FindAfter(pairs[0].0, cfg.assignment, pairs[0].1);
      assert e[..|pairs[0].0|] == pairs[0].0;
      assert e[|pairs[0].0| + |cfg.assignment|..] == pairs[0].1;
      assert KeywordPieces(cfg, pairs)[1..] == KeywordPieces(cfg, pairs[1..]);
      TokenizeKeywords(cfg, pairs[1..], acc, kwargs[pairs[0].0 := pairs[0].1]);
    }
  }

  /** The text of each keyword pair, `key` operator `value`. */
  function KeywordPieces(cfg: Config, pairs: seq<(string, string)>): (pieces: seq<string>)
    ensures |pieces| == |pairs|
    ensures forall j :: 0 <= j < |pairs| ==> pieces[j] == pairs[j].0 + cfg.assignment + pairs[j].1
  {
    seq(|pairs|, j requires 0 <= j < |pairs| => pairs[j].0 + cfg.assignment + pairs[j].1)
  }

  /** Tokenizing the rendering of positional values and distinct keyword
      pairs gives them back, when no token contains the separator, no
      positional value or key contains the operator, and separator and
      operator are distinct single characters. */
  lemma TokenizeRoundTrip(cfg: Config, args: seq<string>, pairs: seq<(string, string)>)
    requires Valid(cfg) && |cfg.separator| == 1 && |cfg.assignment| == 1
    requires cfg.separator[0] != cfg.assignment[0]
    requires |args| + |pairs| > 0
    requires forall i :: 0 <= i < |args| ==>
      cfg.separator[0] !in args[i] && cfg.assignment[0] !in args[i]
    requires forall j :: 0 <= j < |pairs| ==>
      && cfg.separator[0] !in pairs[j].0 && cfg.assignment[0] !in pairs[j].0
      && cfg.separator[0] !in pairs[j].1
    requires forall j, k :: 0 <= j < k < |pairs| ==> pairs[j].0 != pairs[k].0
    ensures Tokenize(cfg, RenderTokens(cfg, args, pairs)).0 == args
    ensures forall j :: 0 <= j < |pairs| ==>
      && pairs[j].0 in Tokenize(cfg, RenderTokens(cfg, args, pairs)).1
      && Tokenize(cfg, RenderTokens(cfg, args, pairs)).1[pairs[j].0] == pairs[j].1
    ensures forall k :: k in Tokenize(cfg, RenderTokens(cfg, args, pairs)).1 ==>
      exists j :: 0 <= j < |pairs| && pairs[j].0 == k
  {
    var kv := KeywordPieces(cfg, pairs);
    var pieces := args + kv;
    assert RenderTokens(cfg, args, pairs) == Join(pieces, cfg.separator);
    forall i | 0 <= i < |pieces| ensures cfg.separator[0] !in pieces[i] {
      if i >= |args| {
        var j := i - |args|;
        assert pieces[i] == pairs[j].0 + cfg.assignment + pairs[j].1;
      }
    }
    SplitJoin(pieces, cfg.separator);
    TokenizePositional(cfg, args, kv, [], map[]);
    TokenizeKeywords(cfg, pairs, [] + args, map[]);
    AssignDistinct(map[], pairs);
  }
}
