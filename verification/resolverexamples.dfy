/** Two registries of literal processors under the default delimiters that
    show how nested shorthand is resolved depth first: the text a processor
    returns for a span is resolved on its own, in safe mode, before it is
    spliced back. */
module ResolverExamples {
  import opened Text
  import opened Delimiters
  import opened Groups
  import opened Processors
  import opened Resolver

  /** `re.compile(re.escape(lit))`: every occurrence of `lit`, never empty. */
  function Literal(lit: string): (pat: Pattern)
    requires |lit| > 0
    ensures ValidPattern(pat)
    ensures forall s: string, i: nat :: pat.at(s, i).Some? <==> LitAt(s, i, lit)
  {
    var at := (s: string, i: nat) => if LitAt(s, i, lit) then Some(Match(i, i + |lit|, [])) else None;
    Pattern(at, at, 0, map[])
  }

  /** `OneWayProcessor(re.escape(lit), lambda: out)`. */
  function Replacing(lit: string, out: string): (p: Processor)
    requires |lit| > 0
    ensures ValidProcessor(p)
    ensures p.shape == Regex(Literal(lit))
  {
    Processor(Regex(Literal(lit)), (args: seq<Option<string>>, kw: Kwargs) => out)
  }

  /** On the literal itself, the processor hits once and returns its output. */
  lemma ReplaceWhole(lit: string, out: string, kwargs: Kwargs, count: nat)
    requires |lit| > 0
    ensures Subn(Replacing(lit, out), lit, kwargs, count).text == out
    ensures Subn(Replacing(lit, out), lit, kwargs, count).count == 1
  {
    var p := Replacing(lit, out);
    var pat := PatternOf(p);
    assert pat == Literal(lit);
    assert LitAt(lit, 0, lit);
    assert SearchFrom(pat, lit, 0, false) == Some(Match(0, |lit|, []));
    var call := CallFor(p, Match(0, |lit|, []), kwargs);
    assert !LitAt(lit, |lit|, lit);
    assert SearchFrom(pat, lit, |lit|, false).None?;
    var rest := SubnFrom(p, lit, |lit|, false, call.kwargs, count, 1);
    assert rest.text == [] && rest.count == 0;
    assert p.handler(call.args, call.kwargs) == out;
    assert lit[0..0] == [];
  }

  /** The first processor of a registry that changes the whole literal it
      matches is the first change. */
  lemma FirstReplaces(reg: seq<Processor>, lit: string, out: string, kwargs: Kwargs, count: nat)
    requires |lit| > 0 && lit != out
    requires ValidRegistry(reg) && |reg| > 0 && reg[0] == Replacing(lit, out)
    ensures FirstChange(reg, lit, kwargs, count) == Some((0, out))
  {
    ReplaceWhole(lit, out, kwargs, count);
    assert Results(reg, lit, kwargs, count)[0] == Subn(Replacing(lit, out), lit, kwargs, count);
  }

  /** `{{x}}` is a complete span, for any single character `x` but a brace,
      backslash or newline. */
  lemma SimpleTarget(s: string)
    requires |s| >= 5 && s[..2] == "{{" && s[3..5] == "}}"
    requires s[2] !in "{}\\\n"
    ensures FindTarget(Compile(Default), s) == Some((0, 5))
  {
    var g := Compile(Default);
    assert g.escIn == "\\{\\{" && g.escOut == "\\}\\}";
    assert s[0..2] == "{{" && ActiveInAt(Default, s, 0);
    assert s[3..5] == "}}" && ActiveOutAt(Default, s, 3);
    assert SpanEnd(g, s, 3) == Some(5);
    assert s[2..4] != "}}" && !ActiveOutAt(Default, s, 2);
    assert s[1..3] != "{{" && s[2..4] != "{{" && !ActiveInAt(Default, s, 2);
    assert Ordinary(Default, s, 2);
    assert SpanEnd(g, s, 2) == Some(5);
    FindTargetFromHere(g, s, 0);
  }

  /** A text that starts with `{{p}}` has that as its target. */
  lemma PrefixTarget(s: string)
    requires |s| >= 5 && s[..5] == "{{p}}"
    ensures FindTarget(Compile(Default), s) == Some((0, 5)) && s[0..5] == "{{p}}"
  {
    assert s[..2] == "{{" && s[3..5] == "}}" && s[2] == 'p' by {
      assert s[..2] == s[..5][..2] && s[3..5] == s[..5][3..5] && s[2] == s[..5][2];
    }
    SimpleTarget(s);
  }

  /** A text whose target is `(0, 5)`, where the registry's first change of
      the target is `{{b`: that replacement is resolved on its own and holds
      an open lead-in, so the call raises `OpenShorthandError` in either
      mode, whatever follows the target. */
  lemma OpenInsideRewriteWith(reg: seq<Processor>, s: string, safe: bool, kwargs: Kwargs, count: nat, fuel: nat)
    requires ValidRegistry(reg) && fuel >= 3
    requires FindTarget(Compile(Default), s) == Some((0, 5))
    requires FirstChange(reg, s[0..5], kwargs, count) == Some((0, "{{b"))
    requires Resolve(Default, reg, "{{b", true, kwargs, count, fuel - 2) == Open("{{")
    ensures Resolve(Default, reg, s, safe, kwargs, count, fuel) == Open("{{")
  {
    InnerErrorPropagates(Default, reg, s, safe, kwargs, count, fuel, 0, 5, "{{b");
  }

  /** `{{b` is open with any recursion bound. */
  lemma OpenB(reg: seq<Processor>, kwargs: Kwargs, count: nat, fuel: nat)
    requires ValidRegistry(reg) && fuel >= 1
    ensures Resolve(Default, reg, "{{b", true, kwargs, count, fuel) == Open("{{")
  {
    OpenLeadIn(reg, kwargs, count);
    ResolveFuel(Default, reg, "{{b", true, kwargs, count, 1, fuel);
  }

  /** `{{p}}` becomes `{{b` and `{{bb}}` becomes `z`.  `{{p}}b}}` raises
      `OpenShorthandError` even with `safe` false: the spliced text
      `{{bb}}`, which the second processor would turn into `z`, is never
      formed. */
  lemma OpenInsideRewrite(kwargs: Kwargs, count: nat)
    ensures var reg := [Replacing("{{p}}", "{{b"), Replacing("{{bb}}", "z")];
      && Resolve(Default, reg, "{{p}}b}}", false, kwargs, count, 3) == Open("{{")
      && Resolve(Default, reg, "{{p}}b}}", true, kwargs, count, 3) == Open("{{")
      && Subn(reg[1], "{{bb}}", kwargs, count).text == "z"
  {
    var reg := [Replacing("{{p}}", "{{b"), Replacing("{{bb}}", "z")];
    FirstReplaces(reg, "{{p}}", "{{b", kwargs, count);
    PrefixTarget("{{p}}b}}");
    OpenB(reg, kwargs, count, 1);
    OpenInsideRewriteWith(reg, "{{p}}b}}", false, kwargs, count, 3);
    OpenInsideRewriteWith(reg, "{{p}}b}}", true, kwargs, count, 3);
    ReplaceWhole("{{bb}}", "z", kwargs, count);
  }

  /** A text without braces holds no active delimiter. */
  lemma NoBraces(u: string)
    requires '{' !in u && '}' !in u
    ensures forall p :: 0 <= p <= |u| ==> !ActiveInAt(Default, u, p) && !ActiveOutAt(Default, u, p)
  {
    forall p | 0 <= p <= |u|
      ensures !ActiveInAt(Default, u, p) && !ActiveOutAt(Default, u, p)
    {
      if p + 2 <= |u| {
        assert u[p..p + 2][0] == u[p];
      }
    }
  }

  /** A registry whose first change of `{{a}}` is `b`: the replacement holds
      no shorthand and is the result, in either mode. */
  lemma NoSecondPassWith(reg: seq<Processor>, safe: bool, kwargs: Kwargs, count: nat, fuel: nat)
    requires ValidRegistry(reg) && fuel >= 3
    requires FirstChange(reg, "{{a}}", kwargs, count) == Some((0, "b"))
    ensures Resolve(Default, reg, "{{a}}", safe, kwargs, count, fuel) == Resolved("b")
  {
    UnsafeNoSecondPass(reg, kwargs, count, fuel);
    PlainB();
    SafeOpenIff(Default, reg, "{{a}}", kwargs, count, fuel);
  }

  /** The same, for `_collective_sub_unsafe`. */
  lemma UnsafeNoSecondPass(reg: seq<Processor>, kwargs: Kwargs, count: nat, fuel: nat)
    requires ValidRegistry(reg) && fuel >= 3
    requires FirstChange(reg, "{{a}}", kwargs, count) == Some((0, "b"))
    ensures ResolveUnsafe(Default, reg, "{{a}}", kwargs, count, fuel) == Resolved("b")
  {
    TargetA();
    PlainB();
    SplicePlain(Default, reg, "{{a}}", "b", kwargs, count, fuel);
  }

  /** `{{a}}` is its own target. */
  lemma TargetA()
    ensures FindTarget(Compile(Default), "{{a}}") == Some((0, |"{{a}}"|))
  {
    SimpleTarget("{{a}}");
  }

  /** `b` holds no delimiter. */
  lemma PlainB()
    ensures LeftoverDelimiter(Default, "b").None?
  {
    NoBraces("b");
  }

  /** `{{a}}` becomes `b` and `b` becomes `c`: the result is `b` in either
      mode, although a registered processor would still change it. */
  lemma NoSecondPass(kwargs: Kwargs, count: nat)
    ensures var reg := [Replacing("{{a}}", "b"), Replacing("b", "c")];
      && Resolve(Default, reg, "{{a}}", false, kwargs, count, 3) == Resolved("b")
      && Resolve(Default, reg, "{{a}}", true, kwargs, count, 3) == Resolved("b")
      && Subn(reg[1], "b", kwargs, count).text == "c"
  {
    var reg := [Replacing("{{a}}", "b"), Replacing("b", "c")];
    FirstReplaces(reg, "{{a}}", "b", kwargs, count);
    NoSecondPassWith(reg, false, kwargs, count, 3);
    NoSecondPassWith(reg, true, kwargs, count, 3);
    ReplaceWhole("b", "c", kwargs, count);
  }
}
