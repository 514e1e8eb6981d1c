/** Productions of the signature shorthand worked out for particular
    processor functions: those of the repository's test suite, and the
    function `def g(b=None, a=None)` whose keyword arguments are declared
    out of alphabetical order. */
module SignatureExamples {
  import opened Text
  import opened Delimiters
  import opened Groups
  import opened Signature
  import opened Ordering
  import opened SignatureProducing
  import opened SignatureReading
  import opened SignatureRoundTrip

  // ---------------------------------------------------------------------
  // Keyword arguments rendered sorted by name

  function G(): Sig {
    Sig("g", [], ["b", "a"])
  }

  /** The keyword arguments `b=1, a=2`. */
  predicate IsBA(named: seq<Pair>) {
    |named| == 2 && named[0] == ("b", "1") && named[1] == ("a", "2")
  }

  lemma GWellFormed()
    ensures WellFormedSig(G())
  {
  }

  /** `g(b=1, a=2)` passes the checks. */
  lemma GKeywordsOk(named: seq<Pair>)
    requires IsBA(named)
    ensures KeywordsOk(Default, G().optional, named)
    ensures ArgumentsOk(Default, [], 0)
  {
    NamedOkClean("1");
    NamedOkClean("2");
  }

  lemma SortedPairs(s: seq<Pair>)
    requires IsBA(s)
    ensures SortByKey(s) == [("a", "2"), ("b", "1")]
  {
    assert s[1..][1..] == [];
    assert SortByKey(s[1..]) == [("a", "2")];
    assert !StrLess("b", "a");
    assert Insert(("b", "1"), [("a", "2")]) == [("a", "2")] + Insert(("b", "1"), []);
  }

  lemma TwoAssignments(x: Pair, y: Pair)
    ensures Lead(Assignments(Default, [x, y]), "|") == "|" + x.0 + "=" + x.1 + ("|" + y.0 + "=" + y.1)
  {
    assert [x, y][1..] == [y] && [y][1..] == [];
    var ax := x.0 + "=" + x.1;
    var ay := y.0 + "=" + y.1;
    assert Assignments(Default, [x, y]) == [ax, ay];
    assert [ax, ay][1..] == [ay] && [ay][1..] == [];
    assert Lead([ay], "|") == "|" + ay + "";
  }

  /** The production for `g` and the keyword arguments `b=1, a=2`. */
  lemma GProduces(named: seq<Pair>, declared: bool)
    requires IsBA(named)
    ensures SigProduceWith(Default, G(), [], named, declared)
      == Ok(SigText(Default, "g", [], Shown(G(), named, declared)))
  {
    GWellFormed();
    GKeywordsOk(named);
    SigProduceOk(Default, G(), [], named, declared);
    SigProduceText(Default, G(), [], named, declared);
    var none: seq<string> := [];
    assert none[..0] == none;
  }

  lemma GText(x: Pair, y: Pair, t: string)
    requires t == "{{g" + "|" + x.0 + "=" + x.1 + "|" + y.0 + "=" + y.1 + "}}"
    ensures SigText(Default, "g", [], [x, y]) == t
  {
    TwoAssignments(x, y);
    assert DoubleBraces("|") == "|";
    assert Lead([], "|") == "";
  }

  /** As written, `g(b=1, a=2)` produces `{{g|a=2|b=1}}`. */
  lemma SortedProduction(named: seq<Pair>)
    requires IsBA(named)
    ensures SigProduceAsWritten(Default, G(), [], named) == Ok("{{g|a=2|b=1}}")
  {
    var shown := SortByKey(named);
    assert shown == [("a", "2"), ("b", "1")] by { SortedPairs(named); }
    assert SigText(Default, "g", [], shown) == "{{g|a=2|b=1}}" by {
      GText(("a", "2"), ("b", "1"), "{{g|a=2|b=1}}");
    }
    GProduces(named, false);
  }

  /** The lead-out follows neither end of the value of `a`, nor the name. */
  lemma UnreadEnds(s: string)
    requires s == "{{g|a=2|b=1}}"
    ensures MatchItems(Default, [], s, 7) == None
    ensures MatchItems(Default, [], s, 6) == None
    ensures MatchItems(Default, [], s, 3) == None
  {
    DefaultShape();
    assert s[7..9][0] == '|' && s[6..8][0] == '2' && s[3..5][0] == '|';
  }

  /** `a=2` is taken for the argument declared second, and what follows its
      value is not the lead-out. */
  lemma UnreadA(s: string)
    requires s == "{{g|a=2|b=1}}"
    ensures MatchItems(Default, [Keyword("a")], s, 3) == None
  {
    var a := [Keyword("a")];
    assert a[1..] == [];
    DefaultShape();
    UnreadEnds(s);
    DefaultSep(s, 6);
    DefaultSep(s, 7);
    assert RunEnd(Default, s, 7) == 7;
    assert RunEnd(Default, s, 6) == 7;
    assert Greedy(Default, a, s, 6, 6) == None;
    assert Greedy(Default, a, s, 6, 7) == None;
  }

  /** `b` is not the name after the first separator. */
  lemma UnreadB(s: string)
    requires s == "{{g|a=2|b=1}}"
    ensures MatchItems(Default, [Keyword("b"), Keyword("a")], s, 3) == None
  {
    var items := [Keyword("b"), Keyword("a")];
    assert items[1..] == [Keyword("a")];
    DefaultShape();
    assert s[4..5] == "a";
    assert !LitAt(s, 4, "b");
    UnreadA(s);
  }

  /** The signature regex of `g` does not match `{{g|a=2|b=1}}`: once `a=`
      has been taken for the argument declared second, nothing may follow
      but the lead-out. */
  lemma SortedProductionUnread(t: string)
    requires t == "{{g|a=2|b=1}}"
    ensures SigAt(Default, G(), t, 0) == None
  {
    assert Items(G()) == [Keyword("b"), Keyword("a")];
    assert t[..3] == "{{g";
    UnreadB(t);
  }

  /** In declaration order, `g(b=1, a=2)` produces `{{g|b=1|a=2}}`. */
  lemma DeclaredProduction(named: seq<Pair>)
    requires IsBA(named)
    ensures SigProduceCorrected(Default, G(), [], named) == Ok("{{g|b=1|a=2}}")
  {
    var shown := DeclarationOrder(G().optional, named);
    assert shown == [("b", "1"), ("a", "2")] by { DeclaredPairs(named); }
    assert SigText(Default, "g", [], shown) == "{{g|b=1|a=2}}" by {
      GText(("b", "1"), ("a", "2"), "{{g|b=1|a=2}}");
    }
    GProduces(named, true);
  }

  /** `{{g|b=1|a=2}}` reads back as `b` = `1` and `a` = `2`. */
  lemma DeclaredReadBack(vals: seq<Option<string>>)
    requires |vals| == 2 && vals[0] == Some("1") && vals[1] == Some("2")
    ensures SigAt(Default, G(), "{{g|b=1|a=2}}", 0) == Some(Match(0, 13, vals))
  {
    DeclaredValid(vals);
    DeclaredRender(vals);
    GHead("|b=1|a=2", "{{g|b=1|a=2}}");
    SigAtRendered(G(), vals, "{{g|b=1|a=2}}");
  }

  lemma {:induction false} DeclaredValid(vals: seq<Option<string>>)
    requires |vals| == 2 && vals[0] == Some("1") && vals[1] == Some("2")
    ensures ValidVals(Items(G()), vals)
  {
    var items := Items(G());
    assert items == [Keyword("b"), Keyword("a")];
  }

  lemma {:induction false} DeclaredRender(vals: seq<Option<string>>)
    requires |vals| == 2 && vals[0] == Some("1") && vals[1] == Some("2")
    ensures Render(Items(G()), vals) == "|b=1|a=2"
  {
    var items := Items(G());
    assert items == [Keyword("b"), Keyword("a")];
    assert items[1..] == [Keyword("a")] && items[1..][1..] == [];
    assert vals[1..][1..] == [];
    assert Render(items[1..], vals[1..]) == "|" + ("a" + ("=" + "2")) + "";
  }

  lemma GHead(r: string, t: string)
    requires r == "|b=1|a=2" && t == "{{g|b=1|a=2}}"
    ensures t == ("{{" + G().name) + (r + "}}")
  {
  }

  lemma DeclaredPairs(named: seq<Pair>)
    requires IsBA(named)
    ensures DeclarationOrder(["b", "a"], named) == [("b", "1"), ("a", "2")]
    ensures Lookups(["b", "a"], named) == [Some("1"), Some("2")]
  {
    assert named == [("b", "1"), ("a", "2")];
    assert Lookup(named, "b") == Some("1");
    assert named[1..][1..] == [];
    assert Lookup(named, "a") == Some("2");
    var opt := ["b", "a"];
    assert opt[1..] == ["a"] && opt[1..][1..] == [];
    assert DeclarationOrder(opt[1..], named) == [("a", "2")];
  }

  // ---------------------------------------------------------------------
  // The productions of the test suite (values are passed already converted
  // to text)

  /** A production from the checks it passes and the text it should read. */
  lemma ProducesText(sig: Sig, args: seq<string>, named: seq<Pair>, t: string)
    requires WellFormedSig(sig) && |args| >= |sig.required|
    requires KeywordsOk(Default, sig.optional, named) && ArgumentsOk(Default, args, |sig.required|)
    requires SigText(Default, sig.name, args[..|sig.required|], SortByKey(named)) == t
    ensures SigProduceAsWritten(Default, sig, args, named) == Ok(t)
  {
    SigProduceOk(Default, sig, args, named, false);
    SigProduceText(Default, sig, args, named, false);
  }

  /** A one-digit value cannot start like `name=`. */
  lemma DigitUnnamed(v: string)
    requires |v| == 1 && IsDigit(v[0])
    ensures UnnamedOk(Default, v)
  {
    NamedOkClean(v);
    forall k | 1 <= k <= |v| ensures !NamedPrefix(Default, v, 0, k) {
      assert v[0..k][0] == v[0];
    }
  }

  lemma LeadOne(x: string)
    ensures Lead([x], "|") == "|" + x
  {
    assert [x][1..] == [];
  }

  /** A single keyword argument, with its value acceptable named. */
  lemma OneAssignment(named: seq<Pair>, optional: seq<string>)
    requires |named| == 1 && named[0].0 in optional && Clean(named[0].1)
    ensures KeywordsOk(Default, optional, named)
    ensures SortByKey(named) == named
    ensures Lead(Assignments(Default, named), "|") == "|" + named[0].0 + "=" + named[0].1
  {
    OneKeywordOk(named, optional);
    OneSorted(named);
    OneLead(named);
  }

  lemma OneSorted(named: seq<Pair>)
    requires |named| == 1
    ensures SortByKey(named) == named
  {
    assert named[1..] == [];
  }

  lemma OneLead(named: seq<Pair>)
    requires |named| == 1
    ensures Lead(Assignments(Default, named), "|") == "|" + named[0].0 + "=" + named[0].1
  {
    assert named[1..] == [];
    assert Assignments(Default, named) == [named[0].0 + "=" + named[0].1];
    LeadOne(named[0].0 + "=" + named[0].1);
  }

  lemma OneKeywordOk(named: seq<Pair>, optional: seq<string>)
    requires |named| == 1 && named[0].0 in optional && Clean(named[0].1)
    ensures KeywordsOk(Default, optional, named)
  {
    NamedOkClean(named[0].1);
  }

  /** `h()` produces `{{h}}`. */
  lemma ProductionNoArgs(args: seq<string>, named: seq<Pair>)
    requires |args| == 0 && |named| == 0
    ensures SigProduceAsWritten(Default, Sig("h", [], []), args, named) == Ok("{{h}}")
  {
    assert args[..0] == [] && named == [];
    assert DoubleBraces("|") == "|";
    ProducesText(Sig("h", [], []), args, named, "{{h}}");
  }

  /** The production of a function without parameters, `{{h}}` for `h`,
      is read back whole by that function's regex, with no groups. */
  lemma NoArgsReadBack(sig: Sig, t: string)
    requires sig.required == [] && sig.optional == []
    requires t == "{{" + sig.name + "}}"
    ensures SigAt(Default, sig, t, 0) == Some(Match(0, |t|, []))
  {
    assert Items(sig) == [];
    assert t == ("{{" + sig.name) + (Render(Items(sig), []) + "}}");
    SigAtRendered(sig, [], t);
  }

  /** `a(1)` for `def a(v)` produces `{{a|1}}`. */
  lemma ProductionUnnamed(args: seq<string>, named: seq<Pair>)
    requires |args| == 1 && args[0] == "1" && |named| == 0
    ensures SigProduceAsWritten(Default, Sig("a", ["v"], []), args, named) == Ok("{{a|1}}")
  {
    assert args[..1] == ["1"] && named == [];
    DigitUnnamed("1");
    LeadOne("1");
    assert DoubleBraces("|") == "|";
    ProducesText(Sig("a", ["v"], []), args, named, "{{a|1}}");
  }

  /** `a(v=1)` for `def a(v=None)` produces `{{a|v=1}}`. */
  lemma ProductionNamed(args: seq<string>, named: seq<Pair>)
    requires |args| == 0 && |named| == 1 && named[0] == ("v", "1")
    ensures SigProduceAsWritten(Default, Sig("a", [], ["v"]), args, named) == Ok("{{a|v=1}}")
  {
    assert args[..0] == [];
    OneAssignment(named, ["v"]);
    assert DoubleBraces("|") == "|";
    ProducesText(Sig("a", [], ["v"]), args, named, "{{a|v=1}}");
  }

  /** `a(1, v1=2)` for `def a(v0, v1=None)` produces `{{a|1|v1=2}}`. */
  lemma ProductionCombined(args: seq<string>, named: seq<Pair>)
    requires |args| == 1 && args[0] == "1" && |named| == 1 && named[0] == ("v1", "2")
    ensures SigProduceAsWritten(Default, Sig("a", ["v0"], ["v1"]), args, named) == Ok("{{a|1|v1=2}}")
  {
    CombinedText(args, named);
    ProducesText(Sig("a", ["v0"], ["v1"]), args, named, "{{a|1|v1=2}}");
  }

  lemma CombinedText(args: seq<string>, named: seq<Pair>)
    requires |args| == 1 && args[0] == "1" && |named| == 1 && named[0] == ("v1", "2")
    ensures KeywordsOk(Default, ["v1"], named) && ArgumentsOk(Default, args, 1)
    ensures SigText(Default, "a", args[..1], SortByKey(named)) == "{{a|1|v1=2}}"
  {
    OneArgument(args);
    OneKeyword(named);
    SigTextOf("a", args[..1], SortByKey(named), "|1", "|" + named[0].0 + "=" + named[0].1);
    CombinedLiteral(named[0].0, named[0].1);
  }

  lemma OneArgument(args: seq<string>)
    requires |args| == 1 && args[0] == "1"
    ensures ArgumentsOk(Default, args, 1) && Lead(args[..1], Default.separator) == "|1"
  {
    assert args[..1] == ["1"];
    DigitUnnamed("1");
    LeadOne("1");
  }

  lemma OneKeyword(named: seq<Pair>)
    requires |named| == 1 && named[0] == ("v1", "2")
    ensures KeywordsOk(Default, ["v1"], named)
    ensures Lead(Assignments(Default, SortByKey(named)), DoubleBraces(Default.separator))
         == "|" + named[0].0 + "=" + named[0].1
  {
    OneAssignment(named, ["v1"]);
    SeparatorDoubled();
  }

  lemma SeparatorDoubled()
    ensures DoubleBraces(Default.separator) == "|"
  {
  }

  lemma SigTextOf(name: string, values: seq<string>, shown: seq<Pair>, a: string, b: string)
    requires Lead(values, Default.separator) == a
    requires Lead(Assignments(Default, shown), DoubleBraces(Default.separator)) == b
    ensures SigText(Default, name, values, shown) == "{{" + (name + (a + (b + "}}")))
  {
  }

  lemma CombinedLiteral(k: string, v: string)
    requires k == "v1" && v == "2"
    ensures "{{" + ("a" + ("|1" + (("|" + k + "=" + v) + "}}"))) == "{{a|1|v1=2}}"
  {
    assert "|" + k + "=" + v == "|v1=2";
    assert "|1" + ("|v1=2" + "}}") == "|1|v1=2}}";
  }

  /** `a(1)` for `def a(v0, v1=None)` produces `{{a|1}}`. */
  lemma ProductionCombinedUnnamed(args: seq<string>, named: seq<Pair>)
    requires |args| == 1 && args[0] == "1" && |named| == 0
    ensures SigProduceAsWritten(Default, Sig("a", ["v0"], ["v1"]), args, named) == Ok("{{a|1}}")
  {
    assert args[..1] == ["1"] && named == [];
    DigitUnnamed("1");
    LeadOne("1");
    assert DoubleBraces("|") == "|";
    ProducesText(Sig("a", ["v0"], ["v1"]), args, named, "{{a|1}}");
  }
}
