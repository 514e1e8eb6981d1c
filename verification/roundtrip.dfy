/** The signature shorthand read back: a production (with its keyword
    arguments in declaration order) matched by the signature regex at its
    start spans the whole text and reports, group by group, the value of
    each required argument and the value given for each argument with a
    default, `None` where none was given. */
module SignatureRoundTrip {
  import opened Text
  import opened Delimiters
  import opened Groups
  import opened Signature
  import opened Ordering
  import opened SignatureProducing
  import opened SignatureReading

  // ---------------------------------------------------------------------
  // The groups a production should read back as

  function Somes(vs: seq<string>): (r: seq<Option<string>>)
    ensures |r| == |vs|
    ensures forall j :: 0 <= j < |vs| ==> r[j] == Some(vs[j])
  {
    if vs == [] then [] else [Some(vs[0])] + Somes(vs[1..])
  }

  /** The value given for each argument with a default, in declaration order. */
  function Lookups(optional: seq<string>, named: seq<Pair>): (r: seq<Option<string>>)
    ensures |r| == |optional|
    ensures forall j :: 0 <= j < |optional| ==> r[j] == Lookup(named, optional[j])
  {
    if optional == [] then [] else [Lookup(named, optional[0])] + Lookups(optional[1..], named)
  }

  /** The groups of a match: the values of the required arguments, then
      those of the arguments with defaults. */
  function ReadBack(sig: Sig, args: seq<string>, named: seq<Pair>): (r: seq<Option<string>>)
    requires |args| >= |sig.required|
    ensures |r| == |sig.required| + |sig.optional|
  {
    Somes(args[..|sig.required|]) + Lookups(sig.optional, named)
  }

  function Keywords(optional: seq<string>): (r: seq<Item>)
    ensures |r| == |optional|
    ensures forall j :: 0 <= j < |optional| ==> r[j] == Keyword(optional[j])
  {
    if optional == [] then [] else [Keyword(optional[0])] + Keywords(optional[1..])
  }

  lemma ItemsSplit(sig: Sig)
    ensures Items(sig) == seq(|sig.required|, _ => Positional) + Keywords(sig.optional)
  {
  }

  // ---------------------------------------------------------------------
  // The rendering of those groups is the production

  lemma {:induction false} RenderAppend(a: seq<Item>, va: seq<Option<string>>,
                                        b: seq<Item>, vb: seq<Option<string>>)
    requires |va| == |a| && |vb| == |b|
    ensures Render(a + b, va + vb) == Render(a, va) + Render(b, vb)
    decreases |a|
  {
    if a == [] {
      assert a + b == b && va + vb == vb;
    } else {
      assert (a + b)[0] == a[0] && (va + vb)[0] == va[0];
      assert (a + b)[1..] == a[1..] + b && (va + vb)[1..] == va[1..] + vb;
      RenderAppend(a[1..], va[1..], b, vb);
      Associative(Part(a[0], va[0]), Render(a[1..], va[1..]), Render(b, vb));
    }
  }

  /** The required values render as they are placed in the template. */
  lemma {:induction false} RenderPositionals(vs: seq<string>)
    ensures Render(seq(|vs|, _ => Positional), Somes(vs)) == Lead(vs, "|")
    decreases |vs|
  {
    if vs != [] {
      var items := seq(|vs|, _ => Positional);
      assert items[1..] == seq(|vs[1..]|, _ => Positional);
      RenderPositionals(vs[1..]);
    }
  }

  lemma LeadCons(x: string, rest: seq<string>, sep: string)
    ensures Lead([x] + rest, sep) == sep + x + Lead(rest, sep)
  {
    assert ([x] + rest)[1..] == rest;
  }

  lemma AssignmentsCons(kv: Pair, rest: seq<Pair>)
    ensures Assignments(Default, [kv] + rest) == [kv.0 + "=" + kv.1] + Assignments(Default, rest)
  {
    assert ([kv] + rest)[1..] == rest;
  }

  /** The arguments with defaults render as the keyword arguments shown in
      declaration order. */
  lemma {:induction false} RenderKeywords(optional: seq<string>, named: seq<Pair>)
    ensures Render(Keywords(optional), Lookups(optional, named))
      == Lead(Assignments(Default, DeclarationOrder(optional, named)), "|")
    decreases |optional|
  {
    if optional != [] {
      var k := optional[0];
      var rest := DeclarationOrder(optional[1..], named);
      RenderKeywords(optional[1..], named);
      match Lookup(named, k)
      case Some(v) =>
        AssignmentsCons((k, v), rest);
        LeadCons(k + "=" + v, Assignments(Default, rest), "|");
        Associative(k, "=", v);
      case None =>
        assert DeclarationOrder(optional, named) == rest;
    }
  }

  lemma RenderReadBack(sig: Sig, args: seq<string>, named: seq<Pair>)
    requires |args| >= |sig.required|
    ensures Render(Items(sig), ReadBack(sig, args, named))
      == Lead(args[..|sig.required|], "|")
         + Lead(Assignments(Default, DeclarationOrder(sig.optional, named)), "|")
  {
    var vs := args[..|sig.required|];
    ItemsSplit(sig);
    RenderAppend(seq(|vs|, _ => Positional), Somes(vs), Keywords(sig.optional), Lookups(sig.optional, named));
    RenderPositionals(vs);
    RenderKeywords(sig.optional, named);
  }

  lemma ReadBackAt(sig: Sig, args: seq<string>, named: seq<Pair>, j: nat)
    requires |args| >= |sig.required| && j < |sig.required| + |sig.optional|
    ensures j < |sig.required| ==> ReadBack(sig, args, named)[j] == Some(args[j])
    ensures j >= |sig.required| ==>
      ReadBack(sig, args, named)[j] == Lookup(named, sig.optional[j - |sig.required|])
  {
    var n := |sig.required|;
    if j < n {
      assert ReadBack(sig, args, named)[j] == Somes(args[..n])[j];
    } else {
      assert ReadBack(sig, args, named)[j] == Lookups(sig.optional, named)[j - n];
    }
  }

  /** The values of a successful production are ones the matcher reads back. */
  lemma ValidReadBack(sig: Sig, args: seq<string>, named: seq<Pair>)
    requires WellFormedSig(sig) && |args| >= |sig.required|
    requires ArgumentsOk(Default, args, |sig.required|)
    requires KeywordsOk(Default, sig.optional, named)
    ensures ValidVals(Items(sig), ReadBack(sig, args, named))
  {
    var n := |sig.required|;
    var items := Items(sig);
    var vals := ReadBack(sig, args, named);
    forall j | 0 <= j < |items| && items[j].Positional?
      ensures vals[j].Some? && UnnamedOk(Default, vals[j].value)
    {
      ReadBackAt(sig, args, named, j);
    }
    forall j | 0 <= j < |items| && items[j].Keyword?
      ensures IsIdentifier(items[j].name) && (vals[j].Some? ==> Clean(vals[j].value))
    {
      ReadBackAt(sig, args, named, j);
      if vals[j].Some? {
        assert (sig.optional[j - n], vals[j].value) in named;
        NamedOkClean(vals[j].value);
      }
    }
    forall i, j | 0 <= i < j < |items| && items[i].Keyword?
      ensures items[j].Keyword? && items[j].name != items[i].name
    {
      assert items[i] == Keyword(sig.optional[i - n]);
    }
  }

  /** The regex at the start of a rendering spans it and reads the values back. */
  lemma SigAtRendered(sig: Sig, vals: seq<Option<string>>, t: string)
    requires ValidVals(Items(sig), vals)
    requires t == ("{{" + sig.name) + (Render(Items(sig), vals) + "}}")
    ensures SigAt(Default, sig, t, 0) == Some(Match(0, |t|, vals))
  {
    var head := "{{" + sig.name;
    SliceAfter(t, 0, head, Render(Items(sig), vals) + "}}");
    MatchRendered(Items(sig), vals, t, |head|);
  }

  /** A corrected production read back by the signature regex: the match
      spans the whole production and its groups are the values it was
      produced from. */
  lemma SigRoundTrip(sig: Sig, args: seq<string>, named: seq<Pair>)
    requires WellFormedSig(sig)
    requires SigProduceCorrected(Default, sig, args, named).Ok?
    ensures |args| >= |sig.required|
    ensures var t := SigProduceCorrected(Default, sig, args, named).value;
      SigAt(Default, sig, t, 0) == Some(Match(0, |t|, ReadBack(sig, args, named)))
  {
    var n := |sig.required|;
    SigProduceOk(Default, sig, args, named, true);
    SigProduceText(Default, sig, args, named, true);
    var t := SigProduceCorrected(Default, sig, args, named).value;
    var positional := Lead(args[..n], "|");
    var keyword := Lead(Assignments(Default, DeclarationOrder(sig.optional, named)), "|");
    assert DoubleBraces("|") == "|";
    assert t == "{{" + (sig.name + (positional + (keyword + "}}")));
    RenderReadBack(sig, args, named);
    ValidReadBack(sig, args, named);
    Associative(positional, keyword, "}}");
    Associative("{{", sig.name, (positional + keyword) + "}}");
    SigAtRendered(sig, ReadBack(sig, args, named), t);
  }
}
