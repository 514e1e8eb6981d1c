/** The delimiter grammar of `DelimitedShorthand`: a class-level configuration,
    the active (unescaped) and escaped forms of a delimiter, the target finder
    that locates the next span to resolve, and the search for leftover active
    delimiters that precedes an `OpenShorthandError`.

    Every regular expression the source builds here is modelled as the
    language it denotes, scanned over the text; the target finder follows the
    backtracking order of its regex exactly. */
module Delimiters {
  import opened Text

  /** The class-level constants a variant class may override.
      `escape` is the escape setting as written; the look-behind that guards a
      single-character delimiter matches it literally (it goes through
      `re.escape`), and an empty setting disables escaping.  `escapePrefix` is
      the text that the same setting matches when it is spliced into a regex in
      front of each character of an escaped delimiter.  With the defaults these
      differ: the setting is two backslashes, which as a regex matches one. */
  datatype Config = Config(
    leadIn: string,
    leadOut: string,
    escape: string,
    escapePrefix: string,
    separator: string,
    assignment: string,
    dotAll: bool)

  /** `lead_in`, `lead_out`, `escape`, `separator`, `assignment_operator`, `flags`
      of the source's base classes. */
  const Default := Config("{{", "}}", "\\\\", "\\", "|", "=", false)

  /** Delimiters, separator and operator are non-empty literals. */
  predicate Valid(cfg: Config) {
    && |cfg.leadIn| > 0
    && |cfg.leadOut| > 0
    && |cfg.separator| > 0
    && |cfg.assignment| > 0
  }

  /** `_unescape` adds its look-behind only when escaping is on and the
      delimiter's regex text is a single character. */
  predicate Guarded(cfg: Config, regexLength: nat) {
    cfg.escape != "" && regexLength == 1
  }

  /** `lit` occurs at `p` in its active form: when guarded, it must not be
      immediately preceded by the escape setting. */
  predicate ActiveAt(cfg: Config, s: string, p: nat, lit: string, regexLength: nat) {
    && LitAt(s, p, lit)
    && !(Guarded(cfg, regexLength) && LitBefore(s, p, cfg.escape))
  }

  /** Lead-in and lead-out are used as regex text directly. */
  predicate ActiveInAt(cfg: Config, s: string, p: nat) {
    ActiveAt(cfg, s, p, cfg.leadIn, |cfg.leadIn|)
  }

  predicate ActiveOutAt(cfg: Config, s: string, p: nat) {
    ActiveAt(cfg, s, p, cfg.leadOut, |cfg.leadOut|)
  }

  /** Separator and operator reach `_unescape` after `re.escape`, so `|`
      (escaped to two characters) is never guarded while `=` is. */
  predicate ActiveSepAt(cfg: Config, s: string, p: nat) {
    ActiveAt(cfg, s, p, cfg.separator, ReEscapedLength(cfg.separator))
  }

  predicate ActiveOpAt(cfg: Config, s: string, p: nat) {
    ActiveAt(cfg, s, p, cfg.assignment, ReEscapedLength(cfg.assignment))
  }

  /** Each character of `d` preceded by `prefix`. */
  function Interleave(prefix: string, d: string): (r: string)
    ensures |r| == |d| + |d| * |prefix|
  {
    if d == [] then [] else prefix + [d[0]] + Interleave(prefix, d[1..])
  }

  /** `_escape`: the escaped form of a delimiter, the escape prefix in front of
      every character; the delimiter itself when escaping is off. */
  function Escaped(cfg: Config, d: string): (r: string)
    ensures |r| >= |d|
    ensures cfg.escape == "" || d == "" ==> r == d
  {
    if cfg.escape != "" && d != "" then Interleave(cfg.escapePrefix, d) else d
  }

  /** Slot `k` of the interleaving is the prefix followed by `d[k]`. */
  lemma {:induction false} InterleaveAt(prefix: string, d: string, k: nat)
    requires k < |d|
    ensures var w := |prefix| + 1;
      w * k + w <= |Interleave(prefix, d)|
      && Interleave(prefix, d)[w * k .. w * k + |prefix|] == prefix
      && Interleave(prefix, d)[w * k + |prefix|] == d[k]
    decreases k
  {
    var w := |prefix| + 1;
    var r := Interleave(prefix, d);
    var rest := Interleave(prefix, d[1..]);
    assert r == prefix + [d[0]] + rest;
    if k > 0 {
      InterleaveAt(prefix, d[1..], k - 1);
      assert w * k == w * (k - 1) + w;
      assert r[w * k .. w * k + |prefix|] == rest[w * (k - 1) .. w * (k - 1) + |prefix|];
      assert r[w * k + |prefix|] == rest[w * (k - 1) + |prefix|];
    }
  }

  /** With escaping on, slot `k` of the escaped delimiter is the escape
      prefix followed by the delimiter's `k`-th character. */
  lemma EscapedAt(cfg: Config, d: string, k: nat)
    requires cfg.escape != "" && k < |d|
    ensures var n := |cfg.escapePrefix|;
      (n + 1) * k + n < |Escaped(cfg, d)|
      && Escaped(cfg, d)[(n + 1) * k .. (n + 1) * k + n] == cfg.escapePrefix
      && Escaped(cfg, d)[(n + 1) * k + n] == d[k]
  {
    InterleaveAt(cfg.escapePrefix, d, k);
  }

  /** The derived sub-patterns of one configuration, computed once per class
      (the source caches them): the configuration and the escaped forms of
      its two delimiters. */
  datatype Grammar = Grammar(cfg: Config, escIn: string, escOut: string)

  function Compile(cfg: Config): (g: Grammar)
    ensures g.cfg == cfg
    ensures Valid(cfg) ==> WellFormed(g)
  {
    Grammar(cfg, Escaped(cfg, cfg.leadIn), Escaped(cfg, cfg.leadOut))
  }

  /** What the finder needs of a grammar: a valid configuration and escaped
      forms that are never empty, so every step of the content loop advances. */
  predicate WellFormed(g: Grammar) {
    Valid(g.cfg) && |g.escIn| > 0 && |g.escOut| > 0
  }

  /** `(?!active_in).`: a character the lazy content loop may consume one at a time. */
  predicate Ordinary(cfg: Config, s: string, p: nat) {
    && p < |s|
    && !ActiveInAt(cfg, s, p)
    && (cfg.dotAll || s[p] != '\n')
  }

  /** The end of the span whose content starts at `p`, as the target finder's
      lazy loop `(?:esc_in|esc_out|(?!active_in).)*?active_out` finds it: at each
      position it first tries to finish with an active lead-out, then tries the
      escaped lead-in, the escaped lead-out and an ordinary character, in that
      order, backtracking into the next alternative when the rest fails. */
  function SpanEnd(g: Grammar, s: string, p: nat): (r: Option<nat>)
    requires WellFormed(g) && p <= |s|
    ensures r.Some? ==> p + |g.cfg.leadOut| <= r.value <= |s|
    decreases |s| - p
  {
    if ActiveOutAt(g.cfg, s, p) then Some(p + |g.cfg.leadOut|)
    else
      var viaIn := if LitAt(s, p, g.escIn) then SpanEnd(g, s, p + |g.escIn|) else None;
      if viaIn.Some? then viaIn
      else
        var viaOut := if LitAt(s, p, g.escOut) then SpanEnd(g, s, p + |g.escOut|) else None;
        if viaOut.Some? then viaOut
        else if Ordinary(g.cfg, s, p) then SpanEnd(g, s, p + 1)
        else None
  }

  /** The language of the target finder's content-and-lead-out part: every way
      of reading the text from `p` to `e` as escaped delimiters and ordinary
      characters followed by an active lead-out. */
  predicate Reaches(g: Grammar, s: string, p: nat, e: nat)
    requires WellFormed(g)
    decreases |s| - p
  {
    && p <= |s|
    && (|| (ActiveOutAt(g.cfg, s, p) && e == p + |g.cfg.leadOut|)
        || (LitAt(s, p, g.escIn) && Reaches(g, s, p + |g.escIn|, e))
        || (LitAt(s, p, g.escOut) && Reaches(g, s, p + |g.escOut|, e))
        || (Ordinary(g.cfg, s, p) && Reaches(g, s, p + 1, e)))
  }

  /** A complete target: an active lead-in at `i`, then content and an active
      lead-out ending at `e`. */
  predicate IsSpan(g: Grammar, s: string, i: nat, e: nat)
    requires WellFormed(g)
  {
    && ActiveInAt(g.cfg, s, i)
    && Reaches(g, s, i + |g.cfg.leadIn|, e)
  }

  /** `_targetfinder().search(s)` from position `i` on: the first start with an
      active lead-in whose content loop succeeds. */
  function FindTargetFrom(g: Grammar, s: string, i: nat): (r: Option<(nat, nat)>)
    requires WellFormed(g)
    ensures r.Some? ==> i <= r.value.0 && r.value.0 + |g.cfg.leadIn| + |g.cfg.leadOut| <= r.value.1 <= |s|
    decreases |s| + 1 - i
  {
    if i > |s| then None
    else if ActiveInAt(g.cfg, s, i) then
      match SpanEnd(g, s, i + |g.cfg.leadIn|)
      case Some(e) => Some((i, e))
      case None => FindTargetFrom(g, s, i + 1)
    else FindTargetFrom(g, s, i + 1)
  }

  /** The next span to resolve, as the pair (start, end). */
  function FindTarget(g: Grammar, s: string): (r: Option<(nat, nat)>)
    requires WellFormed(g)
    ensures r.Some? ==> r.value.0 + |g.cfg.leadIn| + |g.cfg.leadOut| <= r.value.1 <= |s|
  {
    FindTargetFrom(g, s, 0)
  }

  /** `_active_delimiters()` searched in turn: the first delimiter (lead-in
      before lead-out) that still occurs in its active form anywhere. */
  function LeftoverDelimiter(cfg: Config, s: string): (r: Option<string>)
    ensures r == Some(cfg.leadIn) || r == Some(cfg.leadOut) || r == None
    ensures r.None? <==> forall p :: 0 <= p <= |s| ==> !ActiveInAt(cfg, s, p) && !ActiveOutAt(cfg, s, p)
    ensures (exists p :: 0 <= p <= |s| && ActiveInAt(cfg, s, p)) ==> r == Some(cfg.leadIn)
  {
    if exists p :: 0 <= p <= |s| && ActiveInAt(cfg, s, p) then Some(cfg.leadIn)
    else if exists p :: 0 <= p <= |s| && ActiveOutAt(cfg, s, p) then Some(cfg.leadOut)
    else None
  }

  // ---------------------------------------------------------------------
  // The finder against its language

  lemma SpanEndViaIn(g: Grammar, s: string, p: nat)
    requires WellFormed(g) && p <= |s|
    requires !ActiveOutAt(g.cfg, s, p) && LitAt(s, p, g.escIn)
    requires SpanEnd(g, s, p + |g.escIn|).Some?
    ensures SpanEnd(g, s, p) == SpanEnd(g, s, p + |g.escIn|)
  {
  }

  lemma SpanEndViaOut(g: Grammar, s: string, p: nat)
    requires WellFormed(g) && p <= |s|
    requires !ActiveOutAt(g.cfg, s, p)
    requires !(LitAt(s, p, g.escIn) && SpanEnd(g, s, p + |g.escIn|).Some?)
    requires LitAt(s, p, g.escOut) && SpanEnd(g, s, p + |g.escOut|).Some?
    ensures SpanEnd(g, s, p) == SpanEnd(g, s, p + |g.escOut|)
  {
  }

  lemma SpanEndViaOrdinary(g: Grammar, s: string, p: nat)
    requires WellFormed(g) && p <= |s|
    requires !ActiveOutAt(g.cfg, s, p)
    requires !(LitAt(s, p, g.escIn) && SpanEnd(g, s, p + |g.escIn|).Some?)
    requires !(LitAt(s, p, g.escOut) && SpanEnd(g, s, p + |g.escOut|).Some?)
    requires SpanEnd(g, s, p).Some?
    ensures Ordinary(g.cfg, s, p) && SpanEnd(g, s, p) == SpanEnd(g, s, p + 1)
  {
  }

  /** One step of the content loop from `p` to `q`: an escaped delimiter or a
      single ordinary character. */
  predicate Step(g: Grammar, s: string, p: nat, q: nat) {
    || (LitAt(s, p, g.escIn) && q == p + |g.escIn|)
    || (LitAt(s, p, g.escOut) && q == p + |g.escOut|)
    || (Ordinary(g.cfg, s, p) && q == p + 1)
  }

  lemma StepIn(g: Grammar, s: string, p: nat, q: nat)
    requires LitAt(s, p, g.escIn) && q == p + |g.escIn|
    ensures Step(g, s, p, q)
  {
  }

  lemma StepOut(g: Grammar, s: string, p: nat, q: nat)
    requires LitAt(s, p, g.escOut) && q == p + |g.escOut|
    ensures Step(g, s, p, q)
  {
  }

  lemma StepOrdinary(g: Grammar, s: string, p: nat, q: nat)
    requires Ordinary(g.cfg, s, p) && q == p + 1
    ensures Step(g, s, p, q)
  {
  }

  /** A reading from `q` extends backwards over a step ending at `q`. */
  lemma ReachesStep(g: Grammar, s: string, p: nat, q: nat, e: nat)
    requires WellFormed(g) && p <= |s|
    requires Step(g, s, p, q) && Reaches(g, s, q, e)
    ensures Reaches(g, s, p, e)
  {
    if LitAt(s, p, g.escIn) && q == p + |g.escIn| {
      ReachesIn(g, s, p, q, e);
    } else if LitAt(s, p, g.escOut) && q == p + |g.escOut| {
      ReachesOut(g, s, p, q, e);
    } else {
      ReachesOrdinary(g, s, p, q, e);
    }
  }

  lemma ReachesIn(g: Grammar, s: string, p: nat, q: nat, e: nat)
    requires WellFormed(g) && p <= |s|
    requires LitAt(s, p, g.escIn) && q == p + |g.escIn| && Reaches(g, s, q, e)
    ensures Reaches(g, s, p, e)
  {
  }

  lemma ReachesOut(g: Grammar, s: string, p: nat, q: nat, e: nat)
    requires WellFormed(g) && p <= |s|
    requires LitAt(s, p, g.escOut) && q == p + |g.escOut| && Reaches(g, s, q, e)
    ensures Reaches(g, s, p, e)
  {
  }

  lemma ReachesOrdinary(g: Grammar, s: string, p: nat, q: nat, e: nat)
    requires WellFormed(g) && p <= |s|
    requires Ordinary(g.cfg, s, p) && q == p + 1 && Reaches(g, s, q, e)
    ensures Reaches(g, s, p, e)
  {
  }

  /** When the finder does not stop at `p`, it takes the first step whose
      continuation succeeds. */
  lemma SpanEndNext(g: Grammar, s: string, p: nat) returns (q: nat)
    requires WellFormed(g) && p <= |s|
    requires !ActiveOutAt(g.cfg, s, p) && SpanEnd(g, s, p).Some?
    ensures p < q <= |s|
    ensures Step(g, s, p, q)
    ensures SpanEnd(g, s, q) == SpanEnd(g, s, p)
  {
    if LitAt(s, p, g.escIn) && SpanEnd(g, s, p + |g.escIn|).Some? {
      q := NextIn(g, s, p);
    } else if LitAt(s, p, g.escOut) && SpanEnd(g, s, p + |g.escOut|).Some? {
      q := NextOut(g, s, p);
    } else {
      q := NextOrdinary(g, s, p);
    }
  }

  lemma NextIn(g: Grammar, s: string, p: nat) returns (q: nat)
    requires WellFormed(g) && p <= |s| && !ActiveOutAt(g.cfg, s, p)
    requires LitAt(s, p, g.escIn) && SpanEnd(g, s, p + |g.escIn|).Some?
    ensures p < q <= |s| && Step(g, s, p, q) && SpanEnd(g, s, q) == SpanEnd(g, s, p)
  {
    SpanEndViaIn(g, s, p);
    q := p + |g.escIn|;
    StepIn(g, s, p, q);
  }

  lemma NextOut(g: Grammar, s: string, p: nat) returns (q: nat)
    requires WellFormed(g) && p <= |s| && !ActiveOutAt(g.cfg, s, p)
    requires !(LitAt(s, p, g.escIn) && SpanEnd(g, s, p + |g.escIn|).Some?)
    requires LitAt(s, p, g.escOut) && SpanEnd(g, s, p + |g.escOut|).Some?
    ensures p < q <= |s| && Step(g, s, p, q) && SpanEnd(g, s, q) == SpanEnd(g, s, p)
  {
    SpanEndViaOut(g, s, p);
    q := p + |g.escOut|;
    StepOut(g, s, p, q);
  }

  lemma NextOrdinary(g: Grammar, s: string, p: nat) returns (q: nat)
    requires WellFormed(g) && p <= |s| && !ActiveOutAt(g.cfg, s, p)
    requires !(LitAt(s, p, g.escIn) && SpanEnd(g, s, p + |g.escIn|).Some?)
    requires !(LitAt(s, p, g.escOut) && SpanEnd(g, s, p + |g.escOut|).Some?)
    requires SpanEnd(g, s, p).Some?
    ensures p < q <= |s| && Step(g, s, p, q) && SpanEnd(g, s, q) == SpanEnd(g, s, p)
  {
    SpanEndViaOrdinary(g, s, p);
    q := p + 1;
    StepOrdinary(g, s, p, q);
  }

  /** Whatever end the backtracking finder picks is a reading of the grammar. */
  lemma {:induction false} SpanEndSound(g: Grammar, s: string, p: nat)
    requires WellFormed(g) && p <= |s|
    requires SpanEnd(g, s, p).Some?
    ensures Reaches(g, s, p, SpanEnd(g, s, p).value)
    decreases |s| - p
  {
    if !ActiveOutAt(g.cfg, s, p) {
      var q := SpanEndNext(g, s, p);
      SpanEndSound(g, s, q);
      ReachesStep(g, s, p, q, SpanEnd(g, s, p).value);
    }
  }

  /** A reading that does not stop at `p` begins with a step. */
  lemma ReachesFirstStep(g: Grammar, s: string, p: nat, e: nat) returns (q: nat)
    requires WellFormed(g) && Reaches(g, s, p, e) && !ActiveOutAt(g.cfg, s, p)
    ensures p < q && Step(g, s, p, q) && Reaches(g, s, q, e)
  {
    if LitAt(s, p, g.escIn) && Reaches(g, s, p + |g.escIn|, e) {
      q := p + |g.escIn|;
    } else if LitAt(s, p, g.escOut) && Reaches(g, s, p + |g.escOut|, e) {
      q := p + |g.escOut|;
    } else {
      q := p + 1;
    }
  }

  /** The finder succeeds from `p` when it succeeds after some step from `p`. */
  lemma SpanEndAfterStep(g: Grammar, s: string, p: nat, q: nat)
    requires WellFormed(g) && p < q <= |s| && Step(g, s, p, q) && SpanEnd(g, s, q).Some?
    ensures SpanEnd(g, s, p).Some?
  {
  }

  /** Backtracking is exhaustive: if any reading of the grammar exists, the
      finder finds one. */
  lemma {:induction false} SpanEndComplete(g: Grammar, s: string, p: nat, e: nat)
    requires WellFormed(g)
    requires Reaches(g, s, p, e)
    ensures SpanEnd(g, s, p).Some?
    decreases |s| - p
  {
    if !ActiveOutAt(g.cfg, s, p) {
      var q := ReachesFirstStep(g, s, p, e);
      SpanEndComplete(g, s, q, e);
      SpanEndAfterStep(g, s, p, q);
    }
  }

  /** A start the search keeps begins a complete span. */
  lemma {:induction false} FindTargetFromSound(g: Grammar, s: string, i: nat)
    requires WellFormed(g) && FindTargetFrom(g, s, i).Some?
    ensures IsSpan(g, s, FindTargetFrom(g, s, i).value.0, FindTargetFrom(g, s, i).value.1)
    decreases |s| + 1 - i
  {
    if ActiveInAt(g.cfg, s, i) && SpanEnd(g, s, i + |g.cfg.leadIn|).Some? {
      SpanEndSound(g, s, i + |g.cfg.leadIn|);
    } else {
      FindTargetFromSound(g, s, i + 1);
    }
  }

  lemma FindTargetFromHere(g: Grammar, s: string, i: nat)
    requires WellFormed(g) && ActiveInAt(g.cfg, s, i)
    requires SpanEnd(g, s, i + |g.cfg.leadIn|).Some?
    ensures FindTargetFrom(g, s, i) == Some((i, SpanEnd(g, s, i + |g.cfg.leadIn|).value))
  {
  }

  lemma FindTargetFromNext(g: Grammar, s: string, i: nat)
    requires WellFormed(g) && i <= |s|
    requires !(ActiveInAt(g.cfg, s, i) && SpanEnd(g, s, i + |g.cfg.leadIn|).Some?)
    ensures FindTargetFrom(g, s, i) == FindTargetFrom(g, s, i + 1)
  {
  }

  /** No complete span starting at or after `i` is passed over. */
  lemma {:induction false} FindTargetFromComplete(g: Grammar, s: string, i: nat, j: nat, e: nat)
    requires WellFormed(g) && i <= j && IsSpan(g, s, j, e)
    ensures FindTargetFrom(g, s, i).Some? && FindTargetFrom(g, s, i).value.0 <= j
    decreases |s| + 1 - i
  {
    if i == j {
      SpanEndComplete(g, s, i + |g.cfg.leadIn|, e);
      FindTargetFromHere(g, s, i);
    } else if ActiveInAt(g.cfg, s, i) && SpanEnd(g, s, i + |g.cfg.leadIn|).Some? {
      FindTargetFromHere(g, s, i);
    } else {
      FindTargetFromNext(g, s, i);
      FindTargetFromComplete(g, s, i + 1, j, e);
    }
  }

  /** The search scans start positions from `i` on and keeps the first one that
      begins a complete span; it finds nothing exactly when no span starts at
      or after `i`. */
  lemma FindTargetFromSpec(g: Grammar, s: string, i: nat)
    requires WellFormed(g)
    ensures FindTargetFrom(g, s, i).Some? ==>
      IsSpan(g, s, FindTargetFrom(g, s, i).value.0, FindTargetFrom(g, s, i).value.1)
    ensures forall j: nat, e: nat :: i <= j && IsSpan(g, s, j, e) ==>
      FindTargetFrom(g, s, i).Some? && FindTargetFrom(g, s, i).value.0 <= j
  {
    if FindTargetFrom(g, s, i).Some? {
      FindTargetFromSound(g, s, i);
    }
    forall j: nat, e: nat | i <= j && IsSpan(g, s, j, e)
      ensures FindTargetFrom(g, s, i).Some? && FindTargetFrom(g, s, i).value.0 <= j
    {
      FindTargetFromComplete(g, s, i, j, e);
    }
  }

  /** The target found is a complete span, and no span starts further left;
      when nothing is found, the text holds no complete span at all. */
  lemma FindTargetLeftmost(g: Grammar, s: string)
    requires WellFormed(g)
    ensures FindTarget(g, s).Some? ==>
      IsSpan(g, s, FindTarget(g, s).value.0, FindTarget(g, s).value.1)
    ensures FindTarget(g, s).Some? ==>
      forall j: nat, e: nat :: j < FindTarget(g, s).value.0 ==> !IsSpan(g, s, j, e)
    ensures FindTarget(g, s).None? <==> forall j: nat, e: nat :: !IsSpan(g, s, j, e)
  {
    FindTargetFromSpec(g, s, 0);
  }

  /** A target opens with an active lead-in and closes with an active lead-out. */
  lemma TargetDelimited(g: Grammar, s: string)
    requires WellFormed(g) && FindTarget(g, s).Some?
    ensures var r := FindTarget(g, s).value;
      && r.0 + |g.cfg.leadIn| + |g.cfg.leadOut| <= r.1 <= |s|
      && ActiveInAt(g.cfg, s, r.0)
      && ActiveOutAt(g.cfg, s, r.1 - |g.cfg.leadOut|)
  {
    var r := FindTarget(g, s).value;
    FindTargetSpan(g, s);
    SpanDelimited(g, s, r.0, r.1);
  }

  lemma FindTargetSpan(g: Grammar, s: string)
    requires WellFormed(g) && FindTarget(g, s).Some?
    ensures IsSpan(g, s, FindTarget(g, s).value.0, FindTarget(g, s).value.1)
  {
    FindTargetFromSound(g, s, 0);
  }

  lemma SpanDelimited(g: Grammar, s: string, i: nat, e: nat)
    requires WellFormed(g) && IsSpan(g, s, i, e)
    ensures i + |g.cfg.leadIn| + |g.cfg.leadOut| <= e <= |s|
    ensures ActiveInAt(g.cfg, s, i) && ActiveOutAt(g.cfg, s, e - |g.cfg.leadOut|)
  {
    ReachesEndsActive(g, s, i + |g.cfg.leadIn|, e);
  }

  /** Every reading ends just after an active lead-out, and covers at least one. */
  lemma {:induction false} ReachesEndsActive(g: Grammar, s: string, p: nat, e: nat)
    requires WellFormed(g) && Reaches(g, s, p, e)
    ensures p + |g.cfg.leadOut| <= e <= |s|
    ensures ActiveOutAt(g.cfg, s, e - |g.cfg.leadOut|)
    decreases |s| - p
  {
    if ActiveOutAt(g.cfg, s, p) && e == p + |g.cfg.leadOut| {
    } else if LitAt(s, p, g.escIn) && Reaches(g, s, p + |g.escIn|, e) {
      ReachesEndsActive(g, s, p + |g.escIn|, e);
    } else if LitAt(s, p, g.escOut) && Reaches(g, s, p + |g.escOut|, e) {
      ReachesEndsActive(g, s, p + |g.escOut|, e);
    } else {
      ReachesEndsActive(g, s, p + 1, e);
    }
  }

  /** A text without an active lead-in holds no target. */
  lemma NoLeadInNoTarget(g: Grammar, s: string)
    requires WellFormed(g)
    requires forall p :: 0 <= p <= |s| ==> !ActiveInAt(g.cfg, s, p)
    ensures FindTarget(g, s).None?
  {
    FindTargetLeftmost(g, s);
    if FindTarget(g, s).Some? {
      assert ActiveInAt(g.cfg, s, FindTarget(g, s).value.0);
    }
  }

  /** A text without an active lead-out holds no target either. */
  lemma NoLeadOutNoTarget(g: Grammar, s: string)
    requires WellFormed(g)
    requires forall p :: 0 <= p <= |s| ==> !ActiveOutAt(g.cfg, s, p)
    ensures FindTarget(g, s).None?
  {
    if FindTarget(g, s).Some? {
      TargetDelimited(g, s);
    }
  }

  /** The content of a target is not free of active lead-ins: in
      `{{\{\{{}}` the escaped lead-in `\{\{` is consumed whole, and its last
      brace together with the next one forms an active lead-in inside the
      span that the finder returns. */
  lemma StraddlingLeadIn()
    ensures var s := "{{\\{\\{{}}";
      && FindTarget(Compile(Default), s) == Some((0, 9))
      && ActiveInAt(Default, s, 5)
  {
    var s := "{{\\{\\{{}}";
    StraddleContent(s);
    assert ActiveInAt(Default, s, 0);
    assert FindTargetFrom(Compile(Default), s, 0) == Some((0, 9));
  }

  /** The escaped lead-in at 2 is skipped whole, then `{` is ordinary. */
  lemma StraddleContent(s: string)
    requires s == "{{\\{\\{{}}"
    ensures SpanEnd(Compile(Default), s, 2) == Some(9)
  {
    var g := Compile(Default);
    assert g.escIn == "\\{\\{";
    StraddleTail(s);
    assert s[2..4] == "\\{";
    assert !ActiveOutAt(Default, s, 2);
    assert LitAt(s, 2, g.escIn);
  }

  lemma StraddleTail(s: string)
    requires s == "{{\\{\\{{}}"
    ensures SpanEnd(Compile(Default), s, 6) == Some(9)
  {
    var g := Compile(Default);
    assert ActiveOutAt(Default, s, 7);
    assert SpanEnd(g, s, 7) == Some(9);
    assert s[6..8] == "{}";
    assert !ActiveOutAt(Default, s, 6);
    assert Ordinary(Default, s, 6);
  }
}
