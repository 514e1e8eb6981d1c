/** `TwoWaySignatureShorthand`: production for the signature shorthand.

    The template holds the lead-in, the function name, one separated `{}` per
    required argument, a `{named}` field and the lead-out.  `produce` sorts
    the keyword arguments, checks each against the named-value pattern, renders
    them as `name=value` pairs joined by the separator (with one more separator
    in front) and hands that text to the generic production as the value of
    `{named}`; the values for the required arguments are checked against the
    unnamed-value pattern there.  The two patterns are fixed, so they are
    modelled as the languages they denote rather than through a full-match
    parameter. */
module SignatureProducing {
  import opened Text
  import opened Delimiters
  import opened Formatting
  import opened Signature
  import opened Producing
  import opened Ordering

  /** `re.fullmatch` of `(?:(?!active_sep).)*`, compiled without flags: no
      active separator and no newline. */
  predicate NamedOk(cfg: Config, v: string) {
    forall k :: 0 <= k < |v| ==> !ActiveSepAt(cfg, v, k) && v[k] != '\n'
  }

  /** `re.fullmatch` of the unnamed-value pattern: in addition, the value
      must not start like `name=`. */
  predicate UnnamedOk(cfg: Config, v: string) {
    NamedOk(cfg, v) && !LooksNamed(cfg, v, 0)
  }

  /** A keyword argument names an argument with a default, and its value
      matches the named-value pattern. */
  predicate KeywordOk(cfg: Config, optional: seq<string>, kv: Pair) {
    kv.0 in optional && NamedOk(cfg, kv.1)
  }

  predicate KeywordsOk(cfg: Config, optional: seq<string>, named: seq<Pair>) {
    forall kv :: kv in named ==> KeywordOk(cfg, optional, kv)
  }

  /** Every value `zip` pairs with a required argument matches the
      unnamed-value pattern. */
  predicate ArgumentsOk(cfg: Config, args: seq<string>, n: nat) {
    forall j :: 0 <= j < Min(|args|, n) ==> UnnamedOk(cfg, args[j])
  }

  /** The lookup in `_production_groups_named` raises `KeyError`, or
      `_must_match` raises `ProductionError`. */
  function KeywordError(cfg: Config, optional: seq<string>, kv: Pair): ProduceError {
    if kv.0 !in optional then UnknownGroup(kv.0) else ProductionError(Name(kv.0), kv.1)
  }

  /** The checks of `produce` from pair `i` on: the first pair that fails. */
  function FirstBadKeyword(cfg: Config, optional: seq<string>, kvs: seq<Pair>, i: nat)
    : (r: Option<ProduceError>)
    ensures r.None? <==> forall k :: i <= k < |kvs| ==> KeywordOk(cfg, optional, kvs[k])
    ensures r.Some? ==> exists k :: i <= k < |kvs| && FailsFirst(cfg, optional, kvs, i, k, r.value)
    decreases |kvs| - i
  {
    if i >= |kvs| then None
    else if !KeywordOk(cfg, optional, kvs[i]) then
      assert FailsFirst(cfg, optional, kvs, i, i, KeywordError(cfg, optional, kvs[i]));
      Some(KeywordError(cfg, optional, kvs[i]))
    else
      var r := FirstBadKeyword(cfg, optional, kvs, i + 1);
      assert r.Some? ==> exists k :: i <= k < |kvs| && FailsFirst(cfg, optional, kvs, i, k, r.value) by {
        if r.Some? {
          var k :| i + 1 <= k < |kvs| && FailsFirst(cfg, optional, kvs, i + 1, k, r.value);
          assert FailsFirst(cfg, optional, kvs, i, k, r.value);
        }
      }
      r
  }

  /** Pair `k` is the first from `i` on to fail, with error `err`. */
  predicate FailsFirst(cfg: Config, optional: seq<string>, kvs: seq<Pair>, i: nat, k: nat, err: ProduceError)
    requires k < |kvs|
  {
    && !KeywordOk(cfg, optional, kvs[k])
    && err == KeywordError(cfg, optional, kvs[k])
    && forall m :: i <= m < k ==> KeywordOk(cfg, optional, kvs[m])
  }

  /** `_fill_unnamed` from value `j` on: the first value that fails. */
  function FirstBadArgument(cfg: Config, args: seq<string>, n: nat, j: nat): (r: Option<nat>)
    ensures r.Some? ==> j <= r.value < Min(|args|, n) && !UnnamedOk(cfg, args[r.value])
    ensures r.Some? ==> forall i :: j <= i < r.value ==> UnnamedOk(cfg, args[i])
    ensures r.None? <==> forall i :: j <= i < Min(|args|, n) ==> UnnamedOk(cfg, args[i])
    decreases |args| - j
  {
    if j >= Min(|args|, n) then None
    else if !UnnamedOk(cfg, args[j]) then Some(j)
    else FirstBadArgument(cfg, args, n, j + 1)
  }

  /** `_separate`: the parts joined by the brace-doubled separator, empty
      parts left out on request. */
  function Separate(cfg: Config, parts: seq<string>, ignoreEmpty: bool): string {
    Join(if ignoreEmpty then NonEmpty(parts) else parts, DoubleBraces(cfg.separator))
  }

  function NonEmpty(parts: seq<string>): seq<string> {
    if parts == [] then []
    else (if parts[0] == "" then [] else [parts[0]]) + NonEmpty(parts[1..])
  }

  /** One `{}` per required argument. */
  function Slots(n: nat): (r: seq<string>)
    ensures |r| == n
  {
    if n == 0 then [] else ["{}"] + Slots(n - 1)
  }

  /** `_production_template` of the signature shorthand. */
  function SigTemplate(cfg: Config, sig: Sig): string {
    var placeholders := Separate(cfg, Slots(|sig.required|), false);
    DoubleBraces(cfg.leadIn)
      + (Separate(cfg, [sig.name, placeholders], true) + ("{named}" + DoubleBraces(cfg.leadOut)))
  }

  /** `assignment_operator.join(pair)` for each pair. */
  function Assignments(cfg: Config, kvs: seq<Pair>): (r: seq<string>)
    ensures |r| == |kvs|
  {
    if kvs == [] then [] else [kvs[0].0 + cfg.assignment + kvs[0].1] + Assignments(cfg, kvs[1..])
  }

  /** The text passed as `named`: the assignments separated, with one more
      separator in front when there are any. */
  function NamedText(cfg: Config, kvs: seq<Pair>): string {
    var joined := Separate(cfg, Assignments(cfg, kvs), false);
    if joined != "" then Separate(cfg, ["", joined], false) else joined
  }

  /** The value passed under key `k`. */
  function Lookup(named: seq<Pair>, k: string): (r: Option<string>)
    ensures r.Some? ==> (k, r.value) in named
    ensures r.None? ==> forall kv :: kv in named ==> kv.0 != k
  {
    if named == [] then None
    else if named[0].0 == k then Some(named[0].1)
    else Lookup(named[1..], k)
  }

  /** The keyword arguments in the order the signature declares them. */
  function DeclarationOrder(optional: seq<string>, named: seq<Pair>): (r: seq<Pair>)
    ensures forall i :: 0 <= i < |r| ==> r[i].0 in optional
  {
    if optional == [] then []
    else
      (match Lookup(named, optional[0]) case Some(v) => [(optional[0], v)] case None => [])
        + DeclarationOrder(optional[1..], named)
  }

  /** The keyword arguments in the order they are rendered. */
  function Shown(sig: Sig, named: seq<Pair>, declared: bool): seq<Pair> {
    if declared then DeclarationOrder(sig.optional, named) else SortByKey(named)
  }

  /** `produce(*args, **named)`: the keyword arguments are checked in sorted
      order, then the values for the required arguments, then the template is
      formatted with those values (surplus ones dropped) and the rendered
      keyword arguments.  The source renders the keyword arguments in sorted
      order (`declared` false); `declared` true renders them in the order
      the signature declares them. */
  function SigProduceWith(cfg: Config, sig: Sig, args: seq<string>, named: seq<Pair>, declared: bool)
    : Result<string, ProduceError>
  {
    ProduceChecked(cfg, sig, args, SortByKey(named), Shown(sig, named, declared))
  }

  /** The production once the keyword arguments are sorted for checking and
      arranged for rendering. */
  function ProduceChecked(cfg: Config, sig: Sig, args: seq<string>, sorted: seq<Pair>, shown: seq<Pair>)
    : Result<string, ProduceError>
  {
    var bad := FirstBadKeyword(cfg, sig.optional, sorted, 0);
    if bad.Some? then Err(bad.value)
    else
      var n := |sig.required|;
      var badArg := FirstBadArgument(cfg, args, n, 0);
      if badArg.Some? then Err(ProductionError(Position(badArg.value), args[badArg.value]))
      else
        match Format(SigTemplate(cfg, sig), args[..Min(|args|, n)], map["named" := NamedText(cfg, shown)], 0)
        case Ok(t) => Ok(t)
        case Err(e) => Err(FormatFailed(e))
  }

  function SigProduceAsWritten(cfg: Config, sig: Sig, args: seq<string>, named: seq<Pair>)
    : Result<string, ProduceError>
  {
    SigProduceWith(cfg, sig, args, named, false)
  }

  function SigProduceCorrected(cfg: Config, sig: Sig, args: seq<string>, named: seq<Pair>)
    : Result<string, ProduceError>
  {
    SigProduceWith(cfg, sig, args, named, true)
  }

  /** What a production is meant to read: the lead-in, the function name,
      each required value after a separator, each shown keyword argument as
      a doubled separator, its name, the operator and its value, and the
      lead-out. */
  function SigText(cfg: Config, name: string, values: seq<string>, shown: seq<Pair>): string {
    cfg.leadIn + (name + (Lead(values, cfg.separator)
      + (Lead(Assignments(cfg, shown), DoubleBraces(cfg.separator)) + cfg.leadOut)))
  }

  // ---------------------------------------------------------------------
  // The template and its formatting

  /** `_separate(name, placeholders, ignore_empty=True)`: the name alone
      when there are no placeholders. */
  lemma NameAndPlaceholders(cfg: Config, name: string, ph: string)
    requires name != ""
    ensures Separate(cfg, [name, ph], true)
         == if ph == "" then name else name + (DoubleBraces(cfg.separator) + ph)
  {
    var d := DoubleBraces(cfg.separator);
    assert [name, ph][1..] == [ph];
    assert [ph][1..] == [];
    assert NonEmpty([ph]) == (if ph == "" then [] else [ph]) + NonEmpty([]);
    assert NonEmpty([name, ph]) == [name] + NonEmpty([ph]);
    if ph != "" {
      assert NonEmpty([name, ph]) == [name] + [ph];
      JoinCons(name, [ph], d);
    }
  }

  /** The placeholders joined by the separator, and with one more in front. */
  lemma PlaceholdersText(cfg: Config, n: nat)
    ensures n == 0 ==> Separate(cfg, Slots(n), false) == ""
    ensures n > 0 ==> Separate(cfg, Slots(n), false) != ""
    ensures n > 0 ==>
      DoubleBraces(cfg.separator) + Separate(cfg, Slots(n), false) == Lead(Slots(n), DoubleBraces(cfg.separator))
  {
    var d := DoubleBraces(cfg.separator);
    if n > 0 {
      LeadJoin(Slots(n), d);
      assert Slots(n)[0] == "{}";
      if |Slots(n)| == 1 {
        assert Join(Slots(n), d) == "{}";
      } else {
        assert Join(Slots(n), d) == "{}" + d + Join(Slots(n)[1..], d);
      }
    }
  }

  /** The template is the doubled lead-in, the name, a doubled separator and
      `{}` per required argument, the `{named}` field and the doubled
      lead-out. */
  lemma TemplateShape(cfg: Config, sig: Sig)
    requires sig.name != ""
    ensures SigTemplate(cfg, sig)
         == DoubleBraces(cfg.leadIn)
            + ((sig.name + Lead(Slots(|sig.required|), DoubleBraces(cfg.separator)))
               + ("{named}" + DoubleBraces(cfg.leadOut)))
  {
    var n := |sig.required|;
    var ph := Separate(cfg, Slots(n), false);
    PlaceholdersText(cfg, n);
    NameAndPlaceholders(cfg, sig.name, ph);
    var mid := Separate(cfg, [sig.name, ph], true);
    assert mid == sig.name + Lead(Slots(n), DoubleBraces(cfg.separator));
  }

  /** One placeholder takes the next value, behind the separator. */
  lemma FormatSlot(cfg: Config, tail: string, args: seq<string>, named: map<string, string>, next: nat)
    ensures Format(DoubleBraces(cfg.separator) + ("{}" + tail), args, named, next)
         == if next < |args| then Prepend(cfg.separator + args[next], Format(tail, args, named, next + 1))
            else Err(IndexOutOfRange(next))
  {
    FormatLiteral(cfg.separator, "{}" + tail, args, named, next);
    FormatAuto(tail, args, named, next);
    if next < |args| {
      PrependPrepend(cfg.separator, args[next], Format(tail, args, named, next + 1));
    }
  }

  /** The placeholders take the next `m` values, each behind the separator,
      or fail at the first missing value. */
  lemma {:induction false} FormatSlots(cfg: Config, m: nat, rest: string, args: seq<string>,
                                       named: map<string, string>, next: nat)
    requires next <= |args|
    ensures Format(Lead(Slots(m), DoubleBraces(cfg.separator)) + rest, args, named, next)
         == if next + m <= |args|
            then Prepend(Lead(args[next..next + m], cfg.separator), Format(rest, args, named, next + m))
            else Err(IndexOutOfRange(|args|))
    decreases m
  {
    var d := DoubleBraces(cfg.separator);
    if m == 0 {
      EmptyLeft(Lead(Slots(m), d), rest);
      assert args[next..next + m] == [];
      PrependEmpty(Format(rest, args, named, next));
    } else {
      var tail := Lead(Slots(m - 1), d) + rest;
      SlotsCons(m - 1, d, rest);
      FormatSlot(cfg, tail, args, named, next);
      if next < |args| {
        FormatSlots(cfg, m - 1, rest, args, named, next + 1);
        if next + m <= |args| {
          LeadSlice(cfg.separator, args, next, m);
          PrependPrepend(cfg.separator + args[next], Lead(args[next + 1..next + m], cfg.separator),
                         Format(rest, args, named, next + m));
        }
      }
    }
  }

  lemma SlotsCons(k: nat, d: string, rest: string)
    ensures Lead(Slots(k + 1), d) + rest == d + ("{}" + (Lead(Slots(k), d) + rest))
  {
    assert (["{}"] + Slots(k))[1..] == Slots(k);
  }

  lemma LeadSlice(sep: string, args: seq<string>, next: nat, m: nat)
    requires 0 < m && next + m <= |args|
    ensures Lead(args[next..next + m], sep) == sep + args[next] + Lead(args[next + 1..next + m], sep)
  {
    var vs := args[next..next + m];
    assert vs[0] == args[next] && vs[1..] == args[next + 1..next + m];
  }

  /** An identifier has no braces, so the template keeps it as it is. */
  lemma IdentifierBraceFree(name: string)
    requires IsIdentifier(name)
    ensures DoubleBraces(name) == name
  {
    assert forall i :: 0 <= i < |name| ==> IsWordChar(name[i]);
  }

  /** Formatting the template gives the lead-in, the name, the first
      `|required|` values behind separators, the named text and the
      lead-out; with fewer values it raises `IndexError`. */
  lemma FormatSigTemplate(cfg: Config, sig: Sig, kept: seq<string>, text: string)
    requires IsIdentifier(sig.name)
    ensures Format(SigTemplate(cfg, sig), kept, map["named" := text], 0)
         == if |sig.required| <= |kept|
            then Ok(cfg.leadIn + (sig.name + (Lead(kept[..|sig.required|], cfg.separator) + (text + cfg.leadOut))))
            else Err(IndexOutOfRange(|kept|))
  {
    var n := |sig.required|;
    var nm := map["named" := text];
    var ls := Lead(Slots(n), DoubleBraces(cfg.separator));
    var z := "{named}" + DoubleBraces(cfg.leadOut);
    var slots := Format(ls + z, kept, nm, 0);
    var named := Format(sig.name + (ls + z), kept, nm, 0);
    var whole := Format(DoubleBraces(cfg.leadIn) + (sig.name + (ls + z)), kept, nm, 0);
    assert Format(SigTemplate(cfg, sig), kept, nm, 0) == whole by {
      FormatShape(cfg, sig, kept, nm);
    }
    assert whole == Prepend(cfg.leadIn, named) by {
      FormatLiteral(cfg.leadIn, sig.name + (ls + z), kept, nm, 0);
    }
    assert named == Prepend(sig.name, slots) by {
      FormatName(sig.name, ls + z, kept, nm);
    }
    FormatSlotsNamed(cfg, n, kept, text);
  }

  /** The placeholders and the `{named}` field after the name. */
  lemma FormatSlotsNamed(cfg: Config, n: nat, kept: seq<string>, text: string)
    ensures Format(Lead(Slots(n), DoubleBraces(cfg.separator)) + ("{named}" + DoubleBraces(cfg.leadOut)),
                   kept, map["named" := text], 0)
         == if n <= |kept|
            then Ok(Lead(kept[..n], cfg.separator) + (text + cfg.leadOut))
            else Err(IndexOutOfRange(|kept|))
  {
    var nm := map["named" := text];
    var z := "{named}" + DoubleBraces(cfg.leadOut);
    FormatSlots(cfg, n, z, kept, nm, 0);
    if n <= |kept| {
      FormatOut(cfg, kept, nm, n);
      assert kept[0..0 + n] == kept[..n];
    }
  }

  lemma FormatShape(cfg: Config, sig: Sig, kept: seq<string>, nm: map<string, string>)
    requires sig.name != ""
    ensures Format(SigTemplate(cfg, sig), kept, nm, 0)
         == Format(DoubleBraces(cfg.leadIn)
                   + (sig.name + (Lead(Slots(|sig.required|), DoubleBraces(cfg.separator))
                                  + ("{named}" + DoubleBraces(cfg.leadOut)))), kept, nm, 0)
  {
    TemplateShape(cfg, sig);
    Associative(sig.name, Lead(Slots(|sig.required|), DoubleBraces(cfg.separator)),
                "{named}" + DoubleBraces(cfg.leadOut));
  }

  /** The function name goes through formatting unchanged. */
  lemma FormatName(name: string, rest: string, kept: seq<string>, nm: map<string, string>)
    requires IsIdentifier(name)
    ensures Format(name + rest, kept, nm, 0) == Prepend(name, Format(rest, kept, nm, 0))
  {
    IdentifierBraceFree(name);
    FormatLiteral(name, rest, kept, nm, 0);
  }

  /** The tail of the template: the `{named}` field and the lead-out. */
  lemma FormatOut(cfg: Config, kept: seq<string>, nm: map<string, string>, n: nat)
    requires "named" in nm
    ensures Format("{named}" + DoubleBraces(cfg.leadOut), kept, nm, n) == Ok(nm["named"] + cfg.leadOut)
  {
    var out := DoubleBraces(cfg.leadOut);
    assert "{named}" + out == "{" + "named" + "}" + out;
    FormatNamed("named", out, kept, nm, n);
    assert out + [] == out;
    FormatLiteral(cfg.leadOut, [], kept, nm, n);
    assert Format([], kept, nm, n) == Ok([]);
    assert cfg.leadOut + [] == cfg.leadOut;
  }

  /** The named text is each assignment behind a doubled separator. */
  lemma NamedTextLead(cfg: Config, kvs: seq<Pair>)
    requires forall i :: 0 <= i < |kvs| ==> kvs[i].0 != ""
    ensures NamedText(cfg, kvs) == Lead(Assignments(cfg, kvs), DoubleBraces(cfg.separator))
  {
    var d := DoubleBraces(cfg.separator);
    var a := Assignments(cfg, kvs);
    if kvs != [] {
      var joined := Join(a, d);
      assert joined != "" by {
        assert |a[0]| > 0;
        JoinFirst(a, d);
      }
      assert Separate(cfg, ["", joined], false) == d + joined by {
        JoinAfterEmpty(joined, d);
      }
      LeadJoin(a, d);
    }
  }

  /** A join starts with its first part. */
  lemma JoinFirst(parts: seq<string>, sep: string)
    requires |parts| >= 1
    ensures |Join(parts, sep)| >= |parts[0]|
  {
  }

  lemma JoinAfterEmpty(joined: string, sep: string)
    ensures Join(["", joined], sep) == sep + joined
  {
    assert ["", joined][1..] == [joined];
  }

  // ---------------------------------------------------------------------
  // What production promises

  /** Checking in sorted order accepts exactly the calls whose keyword
      arguments are all acceptable. */
  lemma FirstBadKeywordSorted(cfg: Config, optional: seq<string>, named: seq<Pair>)
    ensures FirstBadKeyword(cfg, optional, SortByKey(named), 0).None? <==> KeywordsOk(cfg, optional, named)
  {
    var sorted := SortByKey(named);
    forall kv ensures kv in sorted <==> kv in named {
      assert kv in sorted <==> kv in multiset(sorted);
    }
  }

  /** A production succeeds exactly when every keyword argument names an
      argument with a default and matches the named-value pattern, every
      value for a required argument matches the unnamed-value pattern, and
      no required argument is left without a value. */
  lemma SigProduceOk(cfg: Config, sig: Sig, args: seq<string>, named: seq<Pair>, declared: bool)
    requires IsIdentifier(sig.name)
    ensures SigProduceWith(cfg, sig, args, named, declared).Ok?
        <==> KeywordsOk(cfg, sig.optional, named) && ArgumentsOk(cfg, args, |sig.required|)
             && |args| >= |sig.required|
  {
    FirstBadKeywordSorted(cfg, sig.optional, named);
    FormatSigTemplate(cfg, sig, args[..Min(|args|, |sig.required|)], NamedText(cfg, Shown(sig, named, declared)));
  }

  /** A successful production reads as the function-like markup for the
      values of the required arguments and the keyword arguments, the latter
      in sorted order as written and in declaration order as corrected. */
  lemma SigProduceText(cfg: Config, sig: Sig, args: seq<string>, named: seq<Pair>, declared: bool)
    requires WellFormedSig(sig)
    ensures SigProduceWith(cfg, sig, args, named, declared).Ok? ==>
      && |args| >= |sig.required|
      && SigProduceWith(cfg, sig, args, named, declared).value
         == SigText(cfg, sig.name, args[..|sig.required|], Shown(sig, named, declared))
  {
    var n := |sig.required|;
    var shown := Shown(sig, named, declared);
    SigProduceOk(cfg, sig, args, named, declared);
    if SigProduceWith(cfg, sig, args, named, declared).Ok? {
      ShownNamesOptional(sig, named, declared);
      NamedTextLead(cfg, shown);
      var kept := args[..Min(|args|, n)];
      FormatSigTemplate(cfg, sig, kept, NamedText(cfg, shown));
      assert kept[..n] == args[..n];
    }
  }

  /** Every key shown is an argument with a default, once the keyword
      arguments have passed the checks. */
  lemma ShownNamesOptional(sig: Sig, named: seq<Pair>, declared: bool)
    requires WellFormedSig(sig)
    requires forall kv :: kv in named ==> kv.0 in sig.optional
    ensures forall i :: 0 <= i < |Shown(sig, named, declared)| ==> Shown(sig, named, declared)[i].0 != ""
  {
    var shown := Shown(sig, named, declared);
    forall i | 0 <= i < |shown| ensures shown[i].0 != "" {
      if !declared {
        assert shown[i] in multiset(SortByKey(named));
        assert shown[i] in named;
      }
      var j :| 0 <= j < |sig.optional| && sig.optional[j] == shown[i].0;
      assert IsIdentifier(sig.optional[j]);
    }
  }

  /** Which error a failing production raises: a keyword argument that fails
      comes first, and of those the one with the least name; then the first
      value for a required argument that fails; then `IndexError` when a
      required argument has no value. */
  lemma SigProduceErrors(cfg: Config, sig: Sig, args: seq<string>, named: seq<Pair>, declared: bool)
    requires IsIdentifier(sig.name) && DistinctKeys(named)
    ensures var r := SigProduceWith(cfg, sig, args, named, declared);
      !KeywordsOk(cfg, sig.optional, named) ==>
        exists kv :: kv in named && LeastFailing(cfg, sig.optional, named, kv)
                     && r == Err(KeywordError(cfg, sig.optional, kv))
    ensures var r := SigProduceWith(cfg, sig, args, named, declared);
      KeywordsOk(cfg, sig.optional, named) && !ArgumentsOk(cfg, args, |sig.required|) ==>
        && r.Err? && r.error.ProductionError? && r.error.group.Position?
        && var j := r.error.group.index;
           && j < Min(|args|, |sig.required|) && !UnnamedOk(cfg, args[j]) && r.error.content == args[j]
           && forall i :: 0 <= i < j ==> UnnamedOk(cfg, args[i])
    ensures var r := SigProduceWith(cfg, sig, args, named, declared);
      KeywordsOk(cfg, sig.optional, named) && ArgumentsOk(cfg, args, |sig.required|)
        && |args| < |sig.required| ==>
        r == Err(FormatFailed(IndexOutOfRange(|args|)))
  {
    var sorted := SortByKey(named);
    FirstBadKeywordSorted(cfg, sig.optional, named);
    FormatSigTemplate(cfg, sig, args[..Min(|args|, |sig.required|)], NamedText(cfg, Shown(sig, named, declared)));
    var bad := FirstBadKeyword(cfg, sig.optional, sorted, 0);
    if bad.Some? {
      var k :| 0 <= k < |sorted| && FailsFirst(cfg, sig.optional, sorted, 0, k, bad.value);
      SortSorted(named);
      FirstFailingLeast(cfg, sig.optional, named, k);
    }
  }

  /** `kv` fails the checks, and every keyword argument with a lesser name
      passes them. */
  predicate LeastFailing(cfg: Config, optional: seq<string>, named: seq<Pair>, kv: Pair) {
    && !KeywordOk(cfg, optional, kv)
    && forall other :: other in named && StrLess(other.0, kv.0) ==> KeywordOk(cfg, optional, other)
  }

  lemma FirstFailingLeast(cfg: Config, optional: seq<string>, named: seq<Pair>, k: nat)
    requires Sorted(SortByKey(named)) && k < |SortByKey(named)|
    requires forall m :: 0 <= m < k ==> KeywordOk(cfg, optional, SortByKey(named)[m])
    requires !KeywordOk(cfg, optional, SortByKey(named)[k])
    ensures SortByKey(named)[k] in named
    ensures LeastFailing(cfg, optional, named, SortByKey(named)[k])
  {
    var sorted := SortByKey(named);
    assert sorted[k] in multiset(sorted);
    forall other | other in named && StrLess(other.0, sorted[k].0)
      ensures KeywordOk(cfg, optional, other)
    {
      assert other in multiset(named);
      var m :| 0 <= m < |sorted| && sorted[m] == other;
      if m >= k {
        if m == k {
          StrLessIrreflexive(other.0);
        } else {
          StrLessTransitive(other.0, sorted[k].0, other.0);
          StrLessIrreflexive(other.0);
        }
      }
    }
  }

  /** As written, the order in which the keyword arguments were passed makes
      no difference. */
  lemma AsWrittenIgnoresCallOrder(cfg: Config, sig: Sig, args: seq<string>, named: seq<Pair>, other: seq<Pair>)
    requires DistinctKeys(named) && DistinctKeys(other) && multiset(named) == multiset(other)
    ensures SigProduceAsWritten(cfg, sig, args, named) == SigProduceAsWritten(cfg, sig, args, other)
  {
    SortIgnoresCallOrder(named, other);
  }

  /** With distinct keys, the value under a key is the one passed with it. */
  lemma {:induction false} LookupFinds(named: seq<Pair>, kv: Pair)
    requires DistinctKeys(named) && kv in named
    ensures Lookup(named, kv.0) == Some(kv.1)
    decreases |named|
  {
    if named[0] != kv {
      assert kv in named[1..];
      var j :| 0 <= j < |named[1..]| && named[1..][j] == kv;
      assert named[j + 1] == kv;
      LookupFinds(named[1..], kv);
    }
  }

  /** Corrected, the order in which the keyword arguments were passed makes
      no difference either. */
  lemma CorrectedIgnoresCallOrder(cfg: Config, sig: Sig, args: seq<string>, named: seq<Pair>, other: seq<Pair>)
    requires DistinctKeys(named) && DistinctKeys(other) && multiset(named) == multiset(other)
    ensures SigProduceCorrected(cfg, sig, args, named) == SigProduceCorrected(cfg, sig, args, other)
  {
    SortIgnoresCallOrder(named, other);
    LookupsAgree(named, other);
    DeclarationOrderLookups(sig.optional, named, other);
  }

  /** With distinct keys, the same pairs give the same value under each key. */
  lemma LookupsAgree(named: seq<Pair>, other: seq<Pair>)
    requires DistinctKeys(named) && DistinctKeys(other) && multiset(named) == multiset(other)
    ensures forall k :: Lookup(named, k) == Lookup(other, k)
  {
    forall k ensures Lookup(named, k) == Lookup(other, k) {
      var a := Lookup(named, k);
      var b := Lookup(other, k);
      if a.Some? {
        assert (k, a.value) in multiset(other);
        LookupFinds(other, (k, a.value));
      }
      if b.Some? {
        assert (k, b.value) in multiset(named);
        LookupFinds(named, (k, b.value));
      }
    }
  }

  lemma {:induction false} DeclarationOrderLookups(optional: seq<string>, named: seq<Pair>, other: seq<Pair>)
    requires forall k :: Lookup(named, k) == Lookup(other, k)
    ensures DeclarationOrder(optional, named) == DeclarationOrder(optional, other)
    decreases |optional|
  {
    if optional != [] {
      DeclarationOrderLookups(optional[1..], named, other);
    }
  }
}
