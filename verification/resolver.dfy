/** `DelimitedShorthand.collective_sub`: depth-first resolution of nested
    shorthand.  The target finder picks the leftmost complete span; the
    inherited `CollectiveProcessor.collective_sub` applies to it the first
    registered processor that changes it and hands the new text back to the
    class's own `collective_sub`, which resolves it in safe mode; the result
    is spliced back and the search starts again.  A span that comes back
    unchanged is an `UnknownShorthandError`; an active delimiter left in a
    safe result is an `OpenShorthandError`, and an error raised while a span
    is rewritten ends the whole call. */
module Resolver {
  import opened Text
  import opened Delimiters
  import opened Processors

  /** How a resolution ends: with the cooked text, with one of the two
      errors, or beyond the model's recursion bound. */
  datatype Outcome =
    | Resolved(text: string)
    | Unknown(span: string)       // `UnknownShorthandError`
    | Open(delimiter: string)     // `OpenShorthandError`, naming the delimiter found
    | OutOfFuel

  /** What resolution asks of a class: where the next target is, what the
      first registered processor that changes a text turns it into, and which
      active delimiter, if any, a text still holds. */
  datatype Parts = Parts(
    find: string -> Option<(nat, nat)>,
    change: string -> Option<string>,
    leftover: string -> Option<string>)

  ghost predicate ValidParts(k: Parts) {
    forall t :: k.find(t).Some? ==> k.find(t).value.0 <= k.find(t).value.1 <= |t|
  }

  /** `CollectiveProcessor.collective_sub` on a span, as bound to a
      delimited class: the first change, then the class's own resolution of
      the new text in safe mode. */
  function SpanWith(k: Parts, t: string, fuel: nat): (r: Outcome)
    requires ValidParts(k)
    ensures r.Resolved? && r.text != t ==> k.leftover(r.text).None?
    ensures r.Open? ==> exists x :: k.leftover(x) == Some(r.delimiter)
    decreases fuel, 0
  {
    if fuel == 0 then OutOfFuel
    else if k.change(t).None? then Resolved(t)
    else SafeWith(k, k.change(t).value, true, fuel - 1)
  }

  /** `_collective_sub_unsafe` over any parts. */
  function UnsafeWith(k: Parts, s: string, fuel: nat): (r: Outcome)
    requires ValidParts(k)
    ensures r.Resolved? ==> k.find(r.text).None?
    ensures r.Open? ==> exists x :: k.leftover(x) == Some(r.delimiter)
    ensures r.Open? || r.Unknown? ==> k.find(s).Some?
    decreases fuel, 1
  {
    if fuel == 0 then OutOfFuel
    else if k.find(s).None? then Resolved(s)
    else
      var (i, e) := k.find(s).value;
      var repl := SpanWith(k, s[i..e], fuel - 1);
      if !repl.Resolved? then repl
      else if repl.text == s[i..e] then Unknown(s[i..e])
      else UnsafeWith(k, s[..i] + repl.text + s[e..], fuel - 1)
  }

  /** `DelimitedShorthand.collective_sub` over any parts. */
  function SafeWith(k: Parts, s: string, safe: bool, fuel: nat): (r: Outcome)
    requires ValidParts(k)
    ensures safe && r.Resolved? ==> k.leftover(r.text).None?
    ensures r.Open? ==> exists x :: k.leftover(x) == Some(r.delimiter)
    ensures !safe ==> r == UnsafeWith(k, s, fuel)
    decreases fuel, 2
  {
    var out := UnsafeWith(k, s, fuel);
    if safe && out.Resolved? && k.leftover(out.text).Some? then Open(k.leftover(out.text).value)
    else out
  }

  /** The registry walk of `CollectiveProcessor.collective_sub`, reduced to
      the text the first change produces. */
  function ChangeOf(reg: seq<Processor>, t: string, kwargs: Kwargs, count: nat): (r: Option<string>)
    requires ValidRegistry(reg)
    ensures r.None? <==> FirstChange(reg, t, kwargs, count).None?
    ensures r.Some? ==> r.value == FirstChange(reg, t, kwargs, count).value.1
  {
    match FirstChange(reg, t, kwargs, count)
    case None => None
    case Some((_, u)) => Some(u)
  }

  /** The parts of a delimited class: its target finder, its registry and
      its `_active_delimiters`. */
  function ClassParts(cfg: Config, reg: seq<Processor>, kwargs: Kwargs, count: nat): (k: Parts)
    requires Valid(cfg) && ValidRegistry(reg)
    ensures ValidParts(k)
    ensures forall t :: k.find(t) == FindTarget(Compile(cfg), t)
    ensures forall t :: k.change(t) == ChangeOf(reg, t, kwargs, count)
    ensures forall t :: k.leftover(t) == LeftoverDelimiter(cfg, t)
  {
    Parts(t => FindTarget(Compile(cfg), t),
          t => ChangeOf(reg, t, kwargs, count),
          t => LeftoverDelimiter(cfg, t))
  }

  /** `super().collective_sub(span)` called from `_collective_sub_unsafe`:
      the registry walk on the span; after the first change, the recursive
      `cls.collective_sub` is the class's own, with `safe` at its default. */
  function RewriteSpan(cfg: Config, reg: seq<Processor>, t: string, kwargs: Kwargs, count: nat, fuel: nat)
    : (r: Outcome)
    requires Valid(cfg) && ValidRegistry(reg)
    ensures r.Open? ==> r.delimiter == cfg.leadIn || r.delimiter == cfg.leadOut
    ensures r.Resolved? && r.text != t ==> LeftoverDelimiter(cfg, r.text).None?
  {
    SpanWith(ClassParts(cfg, reg, kwargs, count), t, fuel)
  }

  /** `_collective_sub_unsafe`: find the next target, rewrite it, fail if the
      rewrite left it unchanged, splice and repeat. */
  function ResolveUnsafe(cfg: Config, reg: seq<Processor>, s: string, kwargs: Kwargs, count: nat, fuel: nat)
    : (r: Outcome)
    requires Valid(cfg) && ValidRegistry(reg)
    ensures r.Resolved? ==> FindTarget(Compile(cfg), r.text).None?
    ensures r.Open? ==> r.delimiter == cfg.leadIn || r.delimiter == cfg.leadOut
    ensures r.Open? || r.Unknown? ==> FindTarget(Compile(cfg), s).Some?
  {
    UnsafeWith(ClassParts(cfg, reg, kwargs, count), s, fuel)
  }

  /** `collective_sub(raw_string, safe)`: after resolution, a safe call
      searches the result for an active lead-in, then for an active lead-out. */
  function Resolve(cfg: Config, reg: seq<Processor>, s: string, safe: bool, kwargs: Kwargs, count: nat, fuel: nat)
    : (r: Outcome)
    requires Valid(cfg) && ValidRegistry(reg)
    ensures safe && r.Resolved? ==> LeftoverDelimiter(cfg, r.text).None?
    ensures r.Open? ==> r.delimiter == cfg.leadIn || r.delimiter == cfg.leadOut
    ensures !safe && r.Resolved? ==> FindTarget(Compile(cfg), r.text).None?
  {
    SafeWith(ClassParts(cfg, reg, kwargs, count), s, safe, fuel)
  }

  /** The same, for a class of a world of registries. */
  function ClassCollectiveSub(w: World, c: Class, s: string, safe: bool, kwargs: Kwargs, count: nat, fuel: nat)
    : (r: Outcome)
    requires Knows(w, c) && Valid(c.cfg) && ValidWorld(w)
    ensures safe && r.Resolved? ==> LeftoverDelimiter(c.cfg, r.text).None?
    ensures r.Open? ==> r.delimiter == c.cfg.leadIn || r.delimiter == c.cfg.leadOut
  {
    Resolve(c.cfg, Registry(w, c), s, safe, kwargs, count, fuel)
  }

  // ---------------------------------------------------------------------
  // Properties

  /** A resolved text holds no complete span any more: every active lead-in
      left in it lacks a matching active lead-out. */
  lemma ResolvedHasNoSpan(cfg: Config, reg: seq<Processor>, s: string, kwargs: Kwargs, count: nat, fuel: nat)
    requires Valid(cfg) && ValidRegistry(reg)
    requires ResolveUnsafe(cfg, reg, s, kwargs, count, fuel).Resolved?
    ensures var t := ResolveUnsafe(cfg, reg, s, kwargs, count, fuel).text;
      forall i: nat, e: nat :: !IsSpan(Compile(cfg), t, i, e)
  {
    FindTargetLeftmost(Compile(cfg), ResolveUnsafe(cfg, reg, s, kwargs, count, fuel).text);
  }

  /** Resolution leaves a text as it is exactly when the text holds no
      complete span. */
  lemma UnchangedIffNoSpan(cfg: Config, reg: seq<Processor>, s: string, kwargs: Kwargs, count: nat, fuel: nat)
    requires Valid(cfg) && ValidRegistry(reg) && fuel > 0
    ensures ResolveUnsafe(cfg, reg, s, kwargs, count, fuel) == Resolved(s)
        <==> forall i: nat, e: nat :: !IsSpan(Compile(cfg), s, i, e)
  {
    FindTargetLeftmost(Compile(cfg), s);
  }

  /** The span an `Unknown` outcome names is the target of some text on the
      way, and rewriting it gave it back unchanged. */
  lemma {:induction false} UnknownOrigin(k: Parts, s: string, fuel: nat) returns (t: string, f: nat)
    requires ValidParts(k) && UnsafeWith(k, s, fuel).Unknown?
    ensures k.find(t).Some?
    ensures UnsafeWith(k, s, fuel).span == t[k.find(t).value.0..k.find(t).value.1]
    ensures SpanWith(k, UnsafeWith(k, s, fuel).span, f) == Resolved(UnsafeWith(k, s, fuel).span)
    decreases fuel, 1
  {
    var (i, e) := k.find(s).value;
    var repl := SpanWith(k, s[i..e], fuel - 1);
    if repl.Unknown? {
      t, f := UnknownOriginSpan(k, s[i..e], fuel - 1);
    } else if repl.Resolved? && repl.text == s[i..e] {
      t, f := s, fuel - 1;
    } else {
      t, f := UnknownOrigin(k, s[..i] + repl.text + s[e..], fuel - 1);
    }
  }

  lemma {:induction false} UnknownOriginSpan(k: Parts, x: string, fuel: nat) returns (t: string, f: nat)
    requires ValidParts(k) && SpanWith(k, x, fuel).Unknown?
    ensures k.find(t).Some?
    ensures SpanWith(k, x, fuel).span == t[k.find(t).value.0..k.find(t).value.1]
    ensures SpanWith(k, SpanWith(k, x, fuel).span, f) == Resolved(SpanWith(k, x, fuel).span)
    decreases fuel, 0
  {
    t, f := UnknownOrigin(k, k.change(x).value, fuel - 1);
  }

  /** A target starts with the lead-in and ends with the lead-out. */
  lemma TargetShape(g: Grammar, s: string)
    requires WellFormed(g) && FindTarget(g, s).Some?
    ensures var (i, e) := FindTarget(g, s).value; var x := s[i..e];
      && |g.cfg.leadIn| + |g.cfg.leadOut| <= |x|
      && x[..|g.cfg.leadIn|] == g.cfg.leadIn
      && x[|x| - |g.cfg.leadOut|..] == g.cfg.leadOut
  {
    var (i, e) := FindTarget(g, s).value;
    TargetDelimited(g, s);
    FramedSlice(s, i, e, g.cfg.leadIn, g.cfg.leadOut);
  }

  /** The span of an `UnknownShorthandError` starts with the lead-in and
      ends with the lead-out, and rewriting it gives it back unchanged:
      either no registered processor changes it, or the text the first
      change produced resolves back to it. */
  lemma UnknownSpan(cfg: Config, reg: seq<Processor>, s: string, kwargs: Kwargs, count: nat, fuel: nat)
    returns (f: nat)
    requires Valid(cfg) && ValidRegistry(reg)
    requires ResolveUnsafe(cfg, reg, s, kwargs, count, fuel).Unknown?
    ensures var x := ResolveUnsafe(cfg, reg, s, kwargs, count, fuel).span;
      && |cfg.leadIn| + |cfg.leadOut| <= |x|
      && x[..|cfg.leadIn|] == cfg.leadIn
      && x[|x| - |cfg.leadOut|..] == cfg.leadOut
      && RewriteSpan(cfg, reg, x, kwargs, count, f) == Resolved(x)
      && (FirstChange(reg, x, kwargs, count).None?
          || Resolve(cfg, reg, FirstChange(reg, x, kwargs, count).value.1, true, kwargs, count, f - 1) == Resolved(x))
  {
    var t;
    t, f := UnknownOrigin(ClassParts(cfg, reg, kwargs, count), s, fuel);
    TargetShape(Compile(cfg), t);
  }

  /** One round of `_collective_sub_unsafe` over any parts, on a target
      `(i, e)` whose first change is `u`. */
  lemma ChangedStep(k: Parts, s: string, safe: bool, fuel: nat, i: nat, e: nat, u: string)
    requires ValidParts(k) && fuel >= 2
    requires k.find(s) == Some((i, e)) && k.change(s[i..e]) == Some(u)
    ensures var inner := SafeWith(k, u, true, fuel - 2);
      && (!inner.Resolved? ==> SafeWith(k, s, safe, fuel) == inner)
      && (inner.Resolved? && inner.text == s[i..e] ==> UnsafeWith(k, s, fuel) == Unknown(s[i..e]))
      && (inner.Resolved? && inner.text != s[i..e] ==>
            UnsafeWith(k, s, fuel) == UnsafeWith(k, s[..i] + inner.text + s[e..], fuel - 1))
  {
    assert SpanWith(k, s[i..e], fuel - 1) == SafeWith(k, u, true, fuel - 2);
  }

  /** The same, on a target no change applies to. */
  lemma UnchangedStep(k: Parts, s: string, safe: bool, fuel: nat, i: nat, e: nat)
    requires ValidParts(k) && fuel >= 2
    requires k.find(s) == Some((i, e)) && k.change(s[i..e]).None?
    ensures SafeWith(k, s, safe, fuel) == Unknown(s[i..e])
  {
    assert SpanWith(k, s[i..e], fuel - 1) == Resolved(s[i..e]);
  }

  /** A target `(i, e)` no registered processor changes raises
      `UnknownShorthandError` naming it, in safe and in unsafe mode. */
  lemma UnknownNoProcessor(cfg: Config, reg: seq<Processor>, s: string, safe: bool, kwargs: Kwargs,
                           count: nat, fuel: nat, i: nat, e: nat)
    requires Valid(cfg) && ValidRegistry(reg) && fuel >= 2
    requires FindTarget(Compile(cfg), s) == Some((i, e))
    requires FirstChange(reg, s[i..e], kwargs, count).None?
    ensures Resolve(cfg, reg, s, safe, kwargs, count, fuel) == Unknown(s[i..e])
  {
    ClassNoChange(cfg, reg, s, kwargs, count, i, e);
    UnchangedStep(ClassParts(cfg, reg, kwargs, count), s, safe, fuel, i, e);
  }

  /** The class's parts see the target `(i, e)` and no change of it. */
  lemma ClassNoChange(cfg: Config, reg: seq<Processor>, s: string, kwargs: Kwargs, count: nat, i: nat, e: nat)
    requires Valid(cfg) && ValidRegistry(reg)
    requires FindTarget(Compile(cfg), s) == Some((i, e))
    requires FirstChange(reg, s[i..e], kwargs, count).None?
    ensures var k := ClassParts(cfg, reg, kwargs, count);
      k.find(s) == Some((i, e)) && k.change(s[i..e]).None?
  {
  }

  /** The class's parts see the target `(i, e)` and the change `u`. */
  lemma ClassStep(cfg: Config, reg: seq<Processor>, s: string, kwargs: Kwargs, count: nat, i: nat, e: nat, u: string)
    requires Valid(cfg) && ValidRegistry(reg)
    requires FindTarget(Compile(cfg), s) == Some((i, e))
    requires FirstChange(reg, s[i..e], kwargs, count).Some?
    requires FirstChange(reg, s[i..e], kwargs, count).value.1 == u
    ensures var k := ClassParts(cfg, reg, kwargs, count);
      k.find(s) == Some((i, e)) && k.change(s[i..e]) == Some(u)
  {
    ClassChange(cfg, reg, s[i..e], kwargs, count, u);
  }

  /** When the registry's first change of `t` is `u`, the class's parts change `t` to `u`. */
  lemma ClassChange(cfg: Config, reg: seq<Processor>, t: string, kwargs: Kwargs, count: nat, u: string)
    requires Valid(cfg) && ValidRegistry(reg)
    requires FirstChange(reg, t, kwargs, count).Some? && FirstChange(reg, t, kwargs, count).value.1 == u
    ensures ClassParts(cfg, reg, kwargs, count).change(t) == Some(u)
  {
  }

  /** A target `(i, e)` that a processor changes into `u`: `u` is resolved
      in safe mode, and an error there ends the whole call in either mode.
      So open shorthand left behind by a processor's output is reported even
      when `safe` is false. */
  lemma InnerErrorPropagates(cfg: Config, reg: seq<Processor>, s: string, safe: bool, kwargs: Kwargs,
                             count: nat, fuel: nat, i: nat, e: nat, u: string)
    requires Valid(cfg) && ValidRegistry(reg) && fuel >= 2
    requires FindTarget(Compile(cfg), s) == Some((i, e))
    requires FirstChange(reg, s[i..e], kwargs, count).Some?
    requires FirstChange(reg, s[i..e], kwargs, count).value.1 == u
    requires !Resolve(cfg, reg, u, true, kwargs, count, fuel - 2).Resolved?
    ensures Resolve(cfg, reg, s, safe, kwargs, count, fuel) == Resolve(cfg, reg, u, true, kwargs, count, fuel - 2)
  {
    ClassStep(cfg, reg, s, kwargs, count, i, e, u);
    ChangedStep(ClassParts(cfg, reg, kwargs, count), s, safe, fuel, i, e, u);
  }

  /** A target `(i, e)` that a processor changes into `u`, where `u`
      resolves to `v`: if `v` is the target itself, that is an
      `UnknownShorthandError`; otherwise `v` is spliced in and the search
      goes on in the spliced text. */
  lemma RewriteStep(cfg: Config, reg: seq<Processor>, s: string, kwargs: Kwargs, count: nat, fuel: nat,
                    i: nat, e: nat, u: string, v: string)
    requires Valid(cfg) && ValidRegistry(reg) && fuel >= 2
    requires FindTarget(Compile(cfg), s) == Some((i, e))
    requires FirstChange(reg, s[i..e], kwargs, count).Some?
    requires FirstChange(reg, s[i..e], kwargs, count).value.1 == u
    requires Resolve(cfg, reg, u, true, kwargs, count, fuel - 2) == Resolved(v)
    ensures v == s[i..e] ==> ResolveUnsafe(cfg, reg, s, kwargs, count, fuel) == Unknown(s[i..e])
    ensures v != s[i..e] ==>
      ResolveUnsafe(cfg, reg, s, kwargs, count, fuel) == ResolveUnsafe(cfg, reg, s[..i] + v + s[e..], kwargs, count, fuel - 1)
  {
    ClassStep(cfg, reg, s, kwargs, count, i, e, u);
    ChangedStep(ClassParts(cfg, reg, kwargs, count), s, true, fuel, i, e, u);
  }

  /** More fuel never changes an outcome already reached. */
  lemma {:induction false} SafeWithFuel(k: Parts, s: string, safe: bool, fuel: nat, more: nat)
    requires ValidParts(k) && fuel <= more && !SafeWith(k, s, safe, fuel).OutOfFuel?
    ensures SafeWith(k, s, safe, more) == SafeWith(k, s, safe, fuel)
    decreases fuel, 2
  {
    UnsafeWithFuel(k, s, fuel, more);
  }

  lemma {:induction false} UnsafeWithFuel(k: Parts, s: string, fuel: nat, more: nat)
    requires ValidParts(k) && fuel <= more && !UnsafeWith(k, s, fuel).OutOfFuel?
    ensures UnsafeWith(k, s, more) == UnsafeWith(k, s, fuel)
    decreases fuel, 1
  {
    if k.find(s).Some? {
      var (i, e) := k.find(s).value;
      var repl := SpanWith(k, s[i..e], fuel - 1);
      SpanWithFuel(k, s[i..e], fuel - 1, more - 1);
      if repl.Resolved? && repl.text != s[i..e] {
        UnsafeWithFuel(k, s[..i] + repl.text + s[e..], fuel - 1, more - 1);
      }
    }
  }

  lemma {:induction false} SpanWithFuel(k: Parts, t: string, fuel: nat, more: nat)
    requires ValidParts(k) && fuel <= more && !SpanWith(k, t, fuel).OutOfFuel?
    ensures SpanWith(k, t, more) == SpanWith(k, t, fuel)
    decreases fuel, 0
  {
    if k.change(t).Some? {
      SafeWithFuel(k, k.change(t).value, true, fuel - 1, more - 1);
    }
  }

  /** With the class's parts: a larger recursion bound reaches the same
      outcome, in safe and in unsafe mode. */
  lemma ResolveFuel(cfg: Config, reg: seq<Processor>, s: string, safe: bool, kwargs: Kwargs,
                    count: nat, fuel: nat, more: nat)
    requires Valid(cfg) && ValidRegistry(reg) && fuel <= more
    requires !Resolve(cfg, reg, s, safe, kwargs, count, fuel).OutOfFuel?
    ensures Resolve(cfg, reg, s, safe, kwargs, count, more) == Resolve(cfg, reg, s, safe, kwargs, count, fuel)
  {
    SafeWithFuel(ClassParts(cfg, reg, kwargs, count), s, safe, fuel, more);
  }

  /** Safe mode fails exactly when the unsafe result still holds an active
      delimiter, and it names the lead-in whenever one is left; an error of
      the unsafe stage, including open shorthand met while rewriting, is
      the outcome in either mode. */
  lemma SafeOpenIff(cfg: Config, reg: seq<Processor>, s: string, kwargs: Kwargs, count: nat, fuel: nat)
    requires Valid(cfg) && ValidRegistry(reg)
    ensures var out := ResolveUnsafe(cfg, reg, s, kwargs, count, fuel);
      out.Resolved? ==>
        && (Resolve(cfg, reg, s, true, kwargs, count, fuel).Open?
            <==> exists p :: 0 <= p <= |out.text| && (ActiveInAt(cfg, out.text, p) || ActiveOutAt(cfg, out.text, p)))
        && ((exists p :: 0 <= p <= |out.text| && ActiveInAt(cfg, out.text, p))
            ==> Resolve(cfg, reg, s, true, kwargs, count, fuel) == Open(cfg.leadIn))
    ensures var out := ResolveUnsafe(cfg, reg, s, kwargs, count, fuel);
      !out.Resolved? ==>
        Resolve(cfg, reg, s, true, kwargs, count, fuel) == out
        && Resolve(cfg, reg, s, false, kwargs, count, fuel) == out
    ensures Resolve(cfg, reg, s, false, kwargs, count, fuel) == ResolveUnsafe(cfg, reg, s, kwargs, count, fuel)
    ensures var out := ResolveUnsafe(cfg, reg, s, kwargs, count, fuel);
      out.Resolved? && LeftoverDelimiter(cfg, out.text).None? ==> Resolve(cfg, reg, s, true, kwargs, count, fuel) == out
  {
    var out := ResolveUnsafe(cfg, reg, s, kwargs, count, fuel);
    if out.Resolved? {
      var d := LeftoverDelimiter(cfg, out.text);
      assert Resolve(cfg, reg, s, true, kwargs, count, fuel) == if d.Some? then Open(d.value) else out;
      LeftoverSome(cfg, out.text);
    }
  }

  lemma LeftoverSome(cfg: Config, t: string)
    ensures LeftoverDelimiter(cfg, t).Some?
      <==> exists p :: 0 <= p <= |t| && (ActiveInAt(cfg, t, p) || ActiveOutAt(cfg, t, p))
  {
    if exists p :: 0 <= p <= |t| && (ActiveInAt(cfg, t, p) || ActiveOutAt(cfg, t, p)) {
      var p :| 0 <= p <= |t| && (ActiveInAt(cfg, t, p) || ActiveOutAt(cfg, t, p));
      assert !(!ActiveInAt(cfg, t, p) && !ActiveOutAt(cfg, t, p));
    }
  }

  // ---------------------------------------------------------------------
  // The documented examples of unbalanced shorthand

  /** A text without a target is resolved as it is, so a safe resolution
      reports its first open delimiter. */
  lemma NoTargetOpen(cfg: Config, reg: seq<Processor>, s: string, kwargs: Kwargs, count: nat, fuel: nat, d: string)
    requires Valid(cfg) && ValidRegistry(reg) && fuel > 0
    requires FindTarget(Compile(cfg), s).None? && LeftoverDelimiter(cfg, s) == Some(d)
    ensures Resolve(cfg, reg, s, true, kwargs, count, fuel) == Open(d)
  {
    assert ResolveUnsafe(cfg, reg, s, kwargs, count, fuel) == Resolved(s);
  }

  /** `b}}` holds a lone lead-out; under the default delimiters, whatever
      the registry, a safe resolution reports it. */
  lemma OpenLeadOut(reg: seq<Processor>, kwargs: Kwargs, count: nat)
    requires ValidRegistry(reg)
    ensures Resolve(Default, reg, "b}}", true, kwargs, count, 1) == Open("}}")
  {
    var s := "b}}";
    forall p | 0 <= p <= |s| ensures !ActiveInAt(Default, s, p) {
      if p == 0 { assert s[0..2] == "b}"; }
      else if p == 1 { assert s[1..3] == "}}"; }
    }
    NoLeadInNoTarget(Compile(Default), s);
    assert ActiveOutAt(Default, s, 1);
    NoTargetOpen(Default, reg, s, kwargs, count, 1, "}}");
  }

  /** `{b}}`: a single brace is no lead-in, so the lead-out stays open. */
  lemma OpenAfterBrace(reg: seq<Processor>, kwargs: Kwargs, count: nat)
    requires ValidRegistry(reg)
    ensures Resolve(Default, reg, "{b}}", true, kwargs, count, 1) == Open("}}")
  {
    var s := "{b}}";
    forall p | 0 <= p <= |s| ensures !ActiveInAt(Default, s, p) {
      if p == 0 { assert s[0..2] == "{b"; }
      else if p == 1 { assert s[1..3] == "b}"; }
      else if p == 2 { assert s[2..4] == "}}"; }
    }
    NoLeadInNoTarget(Compile(Default), s);
    assert ActiveOutAt(Default, s, 2);
    NoTargetOpen(Default, reg, s, kwargs, count, 1, "}}");
  }

  /** `{{b` holds a lone lead-in, which a safe resolution reports. */
  lemma OpenLeadIn(reg: seq<Processor>, kwargs: Kwargs, count: nat)
    requires ValidRegistry(reg)
    ensures Resolve(Default, reg, "{{b", true, kwargs, count, 1) == Open("{{")
  {
    var s := "{{b";
    forall p | 0 <= p <= |s| ensures !ActiveOutAt(Default, s, p) {
      if p == 0 { assert s[0..2] == "{{"; }
      else if p == 1 { assert s[1..3] == "{b"; }
    }
    NoLeadOutNoTarget(Compile(Default), s);
    assert ActiveInAt(Default, s, 0);
    NoTargetOpen(Default, reg, s, kwargs, count, 1, "{{");
  }

  /** A text with no delimiter left in it is resolved as it is, in either
      mode. */
  lemma PlainResolved(cfg: Config, reg: seq<Processor>, u: string, safe: bool, kwargs: Kwargs, count: nat, fuel: nat)
    requires Valid(cfg) && ValidRegistry(reg) && fuel > 0 && LeftoverDelimiter(cfg, u).None?
    ensures ResolveUnsafe(cfg, reg, u, kwargs, count, fuel) == Resolved(u)
    ensures Resolve(cfg, reg, u, safe, kwargs, count, fuel) == Resolved(u)
  {
    NoLeadInNoTarget(Compile(cfg), u);
    assert ResolveUnsafe(cfg, reg, u, kwargs, count, fuel) == Resolved(u);
    SafeOpenIff(cfg, reg, u, kwargs, count, fuel);
  }

  /** Splicing `u` over the whole of `s` gives `u`. */
  lemma WholeSlices(s: string, u: string)
    ensures s[0..|s|] == s && s[..0] + u + s[|s|..] == u
  {
    assert s[..0] + u + s[|s|..] == [] + u + [];
  }

  /** Over any parts: when the target is the whole text and its first change
      `u` holds neither a target nor a leftover delimiter, `u` is the result. */
  lemma SplicePlainWith(k: Parts, s: string, u: string, fuel: nat)
    requires ValidParts(k) && fuel >= 3 && u != s
    requires k.find(s) == Some((0, |s|)) && k.change(s) == Some(u)
    requires k.find(u).None? && k.leftover(u).None?
    ensures UnsafeWith(k, s, fuel) == Resolved(u)
  {
    WholeSlices(s, u);
    assert SafeWith(k, u, true, fuel - 2) == Resolved(u);
    ChangedStep(k, s, true, fuel, 0, |s|, u);
    assert UnsafeWith(k, u, fuel - 1) == Resolved(u);
  }

  /** When the target is the whole text and its first change `u` holds no
      delimiter, `u` is the result of `_collective_sub_unsafe`. */
  lemma SplicePlain(cfg: Config, reg: seq<Processor>, s: string, u: string, kwargs: Kwargs, count: nat, fuel: nat)
    requires Valid(cfg) && ValidRegistry(reg) && fuel >= 3 && u != s && LeftoverDelimiter(cfg, u).None?
    requires FindTarget(Compile(cfg), s) == Some((0, |s|))
    requires FirstChange(reg, s, kwargs, count) == Some((0, u))
    ensures ResolveUnsafe(cfg, reg, s, kwargs, count, fuel) == Resolved(u)
  {
    WholeSlices(s, u);
    ClassStep(cfg, reg, s, kwargs, count, 0, |s|, u);
    NoLeadInNoTarget(Compile(cfg), u);
    SplicePlainWith(ClassParts(cfg, reg, kwargs, count), s, u, fuel);
  }
}
