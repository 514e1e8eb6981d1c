/** Reading a production back with the signature regex, for the default
    delimiters (`{{`, `}}`, separator `|`, operator `=`, escape `\\`).

    A production renders each item of the signature as a separator followed
    by its value (required arguments) or by `name=value` (arguments with a
    default that were given), and nothing for an absent optional argument.
    The matcher then recovers every value: a value stops at the next
    separator, the last one gives back the lead-out when the greedy loop
    backtracks, and an absent optional part never matches the name of a
    later one. */
module SignatureReading {
  import opened Text
  import opened Delimiters
  import opened Groups
  import opened Signature
  import opened Ordering
  import opened SignatureProducing

  // ---------------------------------------------------------------------
  // The default delimiters

  /** The default separator and operator, and the length of their regex text. */
  lemma DefaultShape()
    ensures Default.separator == "|" && Default.assignment == "="
    ensures Default.leadOut == "}}" && Default.escape == "\\\\" && !Default.dotAll
    ensures ReEscapedLength(Default.separator) == 2
    ensures ReEscapedLength(Default.assignment) == 1
  {
  }

  /** `|` goes through `re.escape` as two characters, so it is never guarded. */
  lemma DefaultSep(s: string, p: nat)
    ensures ActiveSepAt(Default, s, p) <==> p < |s| && s[p] == '|'
  {
    assert ReEscapedLength("|") == 2;
    if p < |s| {
      assert s[p..p + 1] == [s[p]];
    }
  }

  /** An operator is at least an `=`. */
  lemma DefaultOpChar(s: string, p: nat)
    ensures ActiveOpAt(Default, s, p) ==> p < |s| && s[p] == '='
  {
    if ActiveOpAt(Default, s, p) {
      assert s[p..p + 1] == "=";
    }
  }

  /** After a word character, an `=` is an active operator. */
  lemma DefaultOpAfterWord(s: string, p: nat)
    requires 1 <= p < |s| && IsWordChar(s[p - 1]) && s[p] == '='
    ensures ActiveOpAt(Default, s, p)
  {
    assert s[p..p + 1] == "=";
  }

  /** No separator and no newline. */
  predicate Clean(v: string) {
    forall k :: 0 <= k < |v| ==> v[k] != '|' && v[k] != '\n'
  }

  lemma NamedOkClean(v: string)
    ensures NamedOk(Default, v) <==> Clean(v)
  {
    forall k | 0 <= k < |v| ensures ActiveSepAt(Default, v, k) <==> v[k] == '|' {
      DefaultSep(v, k);
    }
  }

  // ---------------------------------------------------------------------
  // What a production writes for each item

  /** The text of one item: a separator and the value, or a separator and
      `name=value`, or nothing when an optional argument is absent. */
  function Part(item: Item, val: Option<string>): string {
    match val
    case None => ""
    case Some(v) =>
      match item
      case Positional => "|" + v
      case Keyword(k) => "|" + (k + ("=" + v))
  }

  function Render(items: seq<Item>, vals: seq<Option<string>>): string
    requires |vals| == |items|
  {
    if items == [] then "" else Part(items[0], vals[0]) + Render(items[1..], vals[1..])
  }

  /** The values a production can write for these items: every required
      argument has a value that is acceptable unnamed, every optional one
      that is given is acceptable named, and the optional arguments come last
      with distinct identifier names. */
  predicate ValidVals(items: seq<Item>, vals: seq<Option<string>>) {
    && |vals| == |items|
    && (forall j :: 0 <= j < |items| && items[j].Positional? ==>
          vals[j].Some? && UnnamedOk(Default, vals[j].value))
    && (forall j :: 0 <= j < |items| && items[j].Keyword? ==>
          IsIdentifier(items[j].name) && (vals[j].Some? ==> Clean(vals[j].value)))
    && (forall i, j :: 0 <= i < j < |items| && items[i].Keyword? ==>
          items[j].Keyword? && items[j].name != items[i].name)
  }

  lemma ValidTail(items: seq<Item>, vals: seq<Option<string>>)
    requires ValidVals(items, vals) && items != []
    ensures ValidVals(items[1..], vals[1..])
  {
    var t := items[1..];
    var u := vals[1..];
    assert forall j :: 0 <= j < |t| ==> t[j] == items[j + 1] && u[j] == vals[j + 1];
    forall i, j | 0 <= i < j < |t| && t[i].Keyword?
      ensures t[j].Keyword? && t[j].name != t[i].name
    {
      assert t[i] == items[i + 1] && t[j] == items[j + 1];
    }
  }

  /** The rendered items start with a separator, if with anything. */
  lemma {:induction false} RenderHead(items: seq<Item>, vals: seq<Option<string>>)
    requires |vals| == |items|
    ensures Render(items, vals) == "" || Render(items, vals)[0] == '|'
    decreases |items|
  {
    if items != [] {
      RenderHead(items[1..], vals[1..]);
    }
  }

  lemma SliceAfter(s: string, p: nat, x: string, y: string)
    requires p <= |s| && s[p..] == x + y
    ensures p + |x| <= |s| && s[p + |x|..] == y
    ensures s[p..p + |x|] == x
  {
    assert s[p + |x|..] == s[p..][|x|..];
    assert s[p..p + |x|] == s[p..][..|x|];
  }

  // ---------------------------------------------------------------------
  // The greedy value loop

  lemma {:induction false} RunEndAt(s: string, q: nat, e: nat)
    requires q <= e <= |s|
    requires forall k :: q <= k < e ==> s[k] != '|' && s[k] != '\n'
    requires e == |s| || s[e] == '|'
    ensures RunEnd(Default, s, q) == e
    decreases e - q
  {
    DefaultSep(s, q);
    if q < e {
      RunEndAt(s, q + 1, e);
    }
  }

  /** With less than a lead-out left and no separator, nothing matches. */
  lemma {:induction false} NoSepTail(items: seq<Item>, s: string, e: nat)
    requires e == |s| || (e + 1 == |s| && s[e] != '|')
    ensures MatchItems(Default, items, s, e).None?
    decreases |items|
  {
    DefaultSep(s, e);
    if items != [] {
      NoSepTail(items[1..], s, e);
    }
  }

  /** Where the rest matches, the loop stops and takes the value so far. */
  lemma GreedyStops(items: seq<Item>, s: string, q: nat, e: nat, x: (nat, seq<Option<string>>))
    requires |items| > 0 && q <= e <= |s|
    requires MatchItems(Default, items[1..], s, e) == Some(x)
    ensures Greedy(Default, items, s, q, e) == Some((x.0, [Some(s[q..e])] + x.1))
  {
  }

  /** Where the rest fails, the loop gives back one character. */
  lemma GreedyBacksOff(items: seq<Item>, s: string, q: nat, e: nat)
    requires |items| > 0 && q < e <= |s|
    requires MatchItems(Default, items[1..], s, e).None?
    ensures Greedy(Default, items, s, q, e) == Greedy(Default, items, s, q, e - 1)
  {
  }

  /** A value before the final lead-out runs to the end of the text. */
  lemma RunEndOut(s: string, q: nat, e0: nat)
    requires q <= e0 && e0 + 2 == |s|
    requires forall k :: q <= k < e0 ==> s[k] != '|' && s[k] != '\n'
    requires s[e0] == '}' && s[e0 + 1] == '}'
    ensures RunEnd(Default, s, q) == e0 + 2
  {
    RunEndAt(s, q, e0 + 2);
  }

  /** Within the last lead-out character nothing can follow the value. */
  lemma GreedyBacksOffTail(items: seq<Item>, s: string, q: nat, e: nat)
    requires |items| > 0 && q < e
    requires e == |s| || (e + 1 == |s| && s[e] != '|')
    ensures Greedy(Default, items, s, q, e) == Greedy(Default, items, s, q, e - 1)
  {
    NoSepTail(items[1..], s, e);
    GreedyBacksOff(items, s, q, e);
  }

  /** The loop gives the lead-out back when nothing can follow inside it. */
  lemma GreedyGivesBack(items: seq<Item>, s: string, q: nat, e0: nat)
    requires |items| > 0 && q <= e0 && e0 + 2 == |s|
    requires s[e0] == '}' && s[e0 + 1] == '}'
    ensures Greedy(Default, items, s, q, e0 + 2) == Greedy(Default, items, s, q, e0)
  {
    GreedyBacksOffTail(items, s, q, e0 + 2);
    GreedyBacksOffTail(items, s, q, e0 + 1);
  }

  /** A value written before the final lead-out: the loop runs over the
      lead-out and gives it back. */
  lemma GreedyBeforeOut(items: seq<Item>, s: string, q: nat, e0: nat, x: (nat, seq<Option<string>>))
    requires |items| > 0 && q <= e0 && e0 + 2 == |s|
    requires forall k :: q <= k < e0 ==> s[k] != '|' && s[k] != '\n'
    requires s[e0] == '}' && s[e0 + 1] == '}'
    requires MatchItems(Default, items[1..], s, e0) == Some(x)
    ensures Greedy(Default, items, s, q, RunEnd(Default, s, q)) == Some((x.0, [Some(s[q..e0])] + x.1))
  {
    RunEndOut(s, q, e0);
    GreedyGivesBack(items, s, q, e0);
    GreedyStops(items, s, q, e0, x);
  }

  /** A value occupies `s[q..e0]`: no separator or newline in it, and a
      separator or the final lead-out right after it. */
  predicate ValueAt(s: string, q: nat, e0: nat) {
    && q <= e0 && e0 + 2 <= |s|
    && (forall k :: q <= k < e0 ==> s[k] != '|' && s[k] != '\n')
    && (s[e0] == '|' || (e0 + 2 == |s| && s[e0] == '}' && s[e0 + 1] == '}'))
  }

  /** A value written before a separator, or before the final lead-out, is
      what the greedy loop captures. */
  lemma GreedyValue(items: seq<Item>, s: string, q: nat, e0: nat, x: (nat, seq<Option<string>>))
    requires |items| > 0 && ValueAt(s, q, e0)
    requires MatchItems(Default, items[1..], s, e0) == Some(x)
    ensures Greedy(Default, items, s, q, RunEnd(Default, s, q)) == Some((x.0, [Some(s[q..e0])] + x.1))
  {
    if s[e0] == '|' {
      RunEndAt(s, q, e0);
      GreedyStops(items, s, q, e0, x);
    } else {
      GreedyBeforeOut(items, s, q, e0, x);
    }
  }

  // ---------------------------------------------------------------------
  // Names inside values

  lemma PrefixOf(s: string, q: nat, a: string, k: nat)
    requires q + |a| <= |s| && s[q..q + |a|] == a && k <= |a|
    ensures s[q..q + k] == a[..k]
  {
    assert s[q..q + k] == s[q..q + |a|][..k];
  }

  lemma CharOf(s: string, q: nat, a: string, k: nat)
    requires q + |a| <= |s| && s[q..q + |a|] == a && k < |a|
    ensures s[q + k] == a[k]
  {
    assert s[q..q + |a|][k] == s[q + k];
  }

  /** The identifier of a `name=` prefix cannot run over a separator or a
      lead-out character. */
  lemma PrefixInside(s: string, q: nat, a: string, k: nat)
    requires q + |a| < |s| && (s[q + |a|] == '|' || s[q + |a|] == '}')
    requires NamedPrefix(Default, s, q, k)
    ensures k < |a|
  {
    DefaultOpChar(s, q + k);
    if k > |a| {
    }
  }

  lemma NamedPrefixTransfer(s: string, q: nat, a: string, k: nat)
    requires q + |a| <= |s| && s[q..q + |a|] == a && k < |a|
    requires NamedPrefix(Default, s, q, k)
    ensures NamedPrefix(Default, a, 0, k)
  {
    PrefixOf(s, q, a, k);
    CharOf(s, q, a, k);
    DefaultOpChar(s, q + k);
    assert a[0..0 + k] == a[..k];
    assert IsWordChar(a[k - 1]) by { assert a[..k][k - 1] == a[k - 1]; }
    DefaultOpAfterWord(a, k);
  }

  /** A value that the matcher would take for `name=` in the text already
      starts like `name=` on its own. */
  lemma LooksNamedFrom(s: string, q: nat, a: string)
    requires q + |a| < |s| && s[q..q + |a|] == a
    requires s[q + |a|] == '|' || s[q + |a|] == '}'
    ensures LooksNamed(Default, s, q) ==> LooksNamed(Default, a, 0)
  {
    if LooksNamed(Default, s, q) {
      var k :| 1 <= k <= |s| && NamedPrefix(Default, s, q, k);
      PrefixInside(s, q, a, k);
      NamedPrefixTransfer(s, q, a, k);
    }
  }

  // ---------------------------------------------------------------------
  // The text of one item

  lemma ValidHead(items: seq<Item>, vals: seq<Option<string>>)
    requires ValidVals(items, vals) && items != []
    ensures items[0].Positional? ==> vals[0].Some? && UnnamedOk(Default, vals[0].value)
    ensures items[0].Keyword? ==>
      IsIdentifier(items[0].name) && (vals[0].Some? ==> Clean(vals[0].value))
  {
  }

  lemma PositionalPart(a: string, y: string)
    ensures Part(Positional, Some(a)) + y == "|" + (a + y)
    ensures |Part(Positional, Some(a))| == 1 + |a|
  {
    Associative("|", a, y);
  }

  lemma KeywordPart(k: string, v: string, y: string)
    ensures Part(Keyword(k), Some(v)) + y == "|" + (k + ("=" + (v + y)))
    ensures |Part(Keyword(k), Some(v))| == 2 + |k| + |v|
  {
    Associative("=", v, y);
    Associative(k, "=" + v, y);
    Associative("|", k + ("=" + v), y);
  }

  lemma ConsValue(vals: seq<Option<string>>, v: Option<string>)
    requires vals != [] && vals[0] == v
    ensures [v] + vals[1..] == vals
  {
  }

  /** A value, then a separator or the final lead-out. */
  lemma ValueText(s: string, q: nat, a: string, rest: string, e0: nat)
    requires q <= |s| && s[q..] == a + (rest + "}}") && Clean(a)
    requires rest == "" || rest[0] == '|'
    requires e0 == q + |a|
    ensures ValueAt(s, q, e0) && s[q..e0] == a
  {
    SliceAfter(s, q, a, rest + "}}");
    assert s[e0] == s[e0..][0];
    if rest == "" {
      assert s[e0..] == "}}";
      assert s[e0 + 1] == s[e0..][1];
    }
    forall k | q <= k < e0 ensures s[k] != '|' && s[k] != '\n' {
      CharOf(s, q, a, k - q);
    }
  }

  lemma SepText(s: string, p: nat, y: string)
    requires p <= |s| && s[p..] == "|" + y
    ensures ActiveSepAt(Default, s, p) && p + 1 <= |s| && s[p + 1..] == y
  {
    SliceAfter(s, p, "|", y);
    DefaultSep(s, p);
    assert s[p] == s[p..p + 1][0];
  }

  lemma PositionalText(s: string, p: nat, a: string, rest: string, e0: nat)
    requires p <= |s| && s[p..] == "|" + (a + (rest + "}}")) && e0 == p + 1 + |a|
    requires UnnamedOk(Default, a) && (rest == "" || rest[0] == '|')
    ensures ActiveSepAt(Default, s, p) && !LooksNamed(Default, s, p + 1)
    ensures ValueAt(s, p + 1, e0) && s[p + 1..e0] == a
  {
    SepText(s, p, a + (rest + "}}"));
    NamedOkClean(a);
    ValueText(s, p + 1, a, rest, e0);
    LooksNamedFrom(s, p + 1, a);
  }

  lemma OpText(s: string, p: nat, o: string, y: string)
    requires p <= |s| && s[p..] == o + ("=" + y) && IsIdentifier(o)
    ensures LitAt(s, p, o) && ActiveOpAt(Default, s, p + |o|)
    ensures p + |o| + 1 <= |s| && s[p + |o| + 1..] == y
  {
    SliceAfter(s, p, o, "=" + y);
    var q := p + |o|;
    SliceAfter(s, q, "=", y);
    assert s[q] == s[q..q + 1][0];
    CharOf(s, p, o, |o| - 1);
    DefaultOpAfterWord(s, q);
  }

  lemma KeywordText(s: string, p: nat, o: string, v: string, rest: string, e0: nat)
    requires p <= |s| && s[p..] == "|" + (o + ("=" + (v + (rest + "}}")))) && e0 == p + 2 + |o| + |v|
    requires IsIdentifier(o) && Clean(v) && (rest == "" || rest[0] == '|')
    ensures ActiveSepAt(Default, s, p) && LitAt(s, p + 1, o) && ActiveOpAt(Default, s, p + 1 + |o|)
    ensures ValueAt(s, p + 2 + |o|, e0) && s[p + 2 + |o|..e0] == v
  {
    var q := p + 2 + |o|;
    assert ActiveSepAt(Default, s, p) && s[p + 1..] == o + ("=" + (v + (rest + "}}"))) by {
      SepText(s, p, o + ("=" + (v + (rest + "}}"))));
    }
    assert LitAt(s, p + 1, o) && ActiveOpAt(Default, s, p + 1 + |o|) && s[q..] == v + (rest + "}}") by {
      OpText(s, p + 1, o, v + (rest + "}}"));
    }
    ValueText(s, q, v, rest, e0);
  }

  // ---------------------------------------------------------------------
  // One item at a time

  /** The three ways the matcher takes an item, for any delimiters. */
  lemma PositionalTaken(cfg: Config, items: seq<Item>, s: string, p: nat, y: (nat, seq<Option<string>>))
    requires items != [] && items[0].Positional? && p + |cfg.separator| <= |s|
    requires ActiveSepAt(cfg, s, p) && !LooksNamed(cfg, s, p + |cfg.separator|)
    requires Greedy(cfg, items, s, p + |cfg.separator|, RunEnd(cfg, s, p + |cfg.separator|)) == Some(y)
    ensures MatchItems(cfg, items, s, p) == Some(y)
  {
  }

  lemma KeywordTaken(cfg: Config, items: seq<Item>, s: string, p: nat, y: (nat, seq<Option<string>>))
    requires items != [] && items[0].Keyword?
    requires p + |cfg.separator| + |items[0].name| + |cfg.assignment| <= |s|
    requires ActiveSepAt(cfg, s, p) && LitAt(s, p + |cfg.separator|, items[0].name)
    requires ActiveOpAt(cfg, s, p + |cfg.separator| + |items[0].name|)
    requires Greedy(cfg, items, s, p + |cfg.separator| + |items[0].name| + |cfg.assignment|,
      RunEnd(cfg, s, p + |cfg.separator| + |items[0].name| + |cfg.assignment|)) == Some(y)
    ensures MatchItems(cfg, items, s, p) == Some(y)
  {
    assert items[0] == Keyword(items[0].name);
  }

  lemma KeywordSkipped(cfg: Config, items: seq<Item>, s: string, p: nat, y: (nat, seq<Option<string>>))
    requires items != [] && items[0].Keyword? && p <= |s|
    requires !(ActiveSepAt(cfg, s, p) && LitAt(s, p + |cfg.separator|, items[0].name)
      && ActiveOpAt(cfg, s, p + |cfg.separator| + |items[0].name|))
    requires MatchItems(cfg, items[1..], s, p) == Some(y)
    ensures MatchItems(cfg, items, s, p) == Some((y.0, [None] + y.1))
  {
  }

  lemma PositionalMatch(items: seq<Item>, s: string, p: nat, y: (nat, seq<Option<string>>))
    requires items != [] && items[0].Positional? && p < |s|
    requires ActiveSepAt(Default, s, p) && !LooksNamed(Default, s, p + 1)
    requires Greedy(Default, items, s, p + 1, RunEnd(Default, s, p + 1)) == Some(y)
    ensures MatchItems(Default, items, s, p) == Some(y)
  {
    DefaultShape();
    PositionalTaken(Default, items, s, p, y);
  }

  lemma KeywordMatch(items: seq<Item>, s: string, p: nat, y: (nat, seq<Option<string>>))
    requires items != [] && items[0].Keyword? && p + 2 + |items[0].name| <= |s|
    requires ActiveSepAt(Default, s, p) && LitAt(s, p + 1, items[0].name)
    requires ActiveOpAt(Default, s, p + 1 + |items[0].name|)
    requires Greedy(Default, items, s, p + 2 + |items[0].name|,
      RunEnd(Default, s, p + 2 + |items[0].name|)) == Some(y)
    ensures MatchItems(Default, items, s, p) == Some(y)
  {
    DefaultShape();
    KeywordTaken(Default, items, s, p, y);
  }

  lemma AbsentMatch(items: seq<Item>, s: string, p: nat, y: (nat, seq<Option<string>>))
    requires items != [] && items[0].Keyword? && p <= |s|
    requires !NameAt(s, p, items[0].name)
    requires MatchItems(Default, items[1..], s, p) == Some(y)
    ensures MatchItems(Default, items, s, p) == Some((y.0, [None] + y.1))
  {
    DefaultShape();
    KeywordSkipped(Default, items, s, p, y);
  }

  /** The matcher takes a value after a separator when the text holds it. */
  lemma PositionalFound(items: seq<Item>, vals: seq<Option<string>>, s: string, p: nat, e0: nat)
    requires items != [] && |vals| == |items| && items[0].Positional? && vals[0].Some?
    requires e0 == p + 1 + |vals[0].value|
    requires ActiveSepAt(Default, s, p) && !LooksNamed(Default, s, p + 1)
    requires ValueAt(s, p + 1, e0) && s[p + 1..e0] == vals[0].value
    requires MatchItems(Default, items[1..], s, e0) == Some((|s|, vals[1..]))
    ensures MatchItems(Default, items, s, p) == Some((|s|, vals))
  {
    assert Greedy(Default, items, s, p + 1, RunEnd(Default, s, p + 1)) == Some((|s|, vals)) by {
      GreedyValue(items, s, p + 1, e0, (|s|, vals[1..]));
      ConsValue(vals, vals[0]);
    }
    PositionalMatch(items, s, p, (|s|, vals));
  }

  lemma PositionalStep(items: seq<Item>, vals: seq<Option<string>>, s: string, p: nat, rest: string, e0: nat)
    requires items != [] && |vals| == |items| && items[0].Positional? && vals[0].Some?
    requires UnnamedOk(Default, vals[0].value)
    requires rest == "" || rest[0] == '|'
    requires p <= |s| && s[p..] == "|" + (vals[0].value + (rest + "}}"))
    requires e0 == p + 1 + |vals[0].value|
    requires MatchItems(Default, items[1..], s, e0) == Some((|s|, vals[1..]))
    ensures MatchItems(Default, items, s, p) == Some((|s|, vals))
  {
    PositionalText(s, p, vals[0].value, rest, e0);
    PositionalFound(items, vals, s, p, e0);
  }

  /** The matcher takes `name=value` when the text holds it. */
  lemma KeywordFound(items: seq<Item>, vals: seq<Option<string>>, s: string, p: nat, e0: nat)
    requires items != [] && |vals| == |items| && items[0].Keyword? && vals[0].Some?
    requires e0 == p + 2 + |items[0].name| + |vals[0].value|
    requires ActiveSepAt(Default, s, p) && LitAt(s, p + 1, items[0].name)
    requires ActiveOpAt(Default, s, p + 1 + |items[0].name|)
    requires ValueAt(s, p + 2 + |items[0].name|, e0) && s[p + 2 + |items[0].name|..e0] == vals[0].value
    requires MatchItems(Default, items[1..], s, e0) == Some((|s|, vals[1..]))
    ensures MatchItems(Default, items, s, p) == Some((|s|, vals))
  {
    var q := p + 2 + |items[0].name|;
    assert Greedy(Default, items, s, q, RunEnd(Default, s, q)) == Some((|s|, vals)) by {
      GreedyValue(items, s, q, e0, (|s|, vals[1..]));
      ConsValue(vals, vals[0]);
    }
    KeywordMatch(items, s, p, (|s|, vals));
  }

  lemma KeywordStep(items: seq<Item>, vals: seq<Option<string>>, s: string, p: nat, rest: string, e0: nat)
    requires items != [] && |vals| == |items| && items[0].Keyword? && vals[0].Some?
    requires IsIdentifier(items[0].name) && Clean(vals[0].value)
    requires rest == "" || rest[0] == '|'
    requires p <= |s| && s[p..] == "|" + (items[0].name + ("=" + (vals[0].value + (rest + "}}"))))
    requires e0 == p + 2 + |items[0].name| + |vals[0].value|
    requires MatchItems(Default, items[1..], s, e0) == Some((|s|, vals[1..]))
    ensures MatchItems(Default, items, s, p) == Some((|s|, vals))
  {
    KeywordText(s, p, items[0].name, vals[0].value, rest, e0);
    KeywordFound(items, vals, s, p, e0);
  }

  /** Two identifiers that are both followed by `=` at the same place are
      the same identifier. */
  lemma SameName(s: string, q: nat, o: string, k: string)
    requires IsIdentifier(o) && IsIdentifier(k)
    requires q + |o| < |s| && s[q..q + |o|] == o && s[q + |o|] == '='
    requires q + |k| < |s| && s[q..q + |k|] == k && s[q + |k|] == '='
    ensures o == k
  {
    if |o| < |k| {
      CharOf(s, q, k, |o|);
    } else if |k| < |o| {
      CharOf(s, q, o, |k|);
    }
  }

  /** Where one optional argument's `name=` stands, no other's does. */
  lemma OtherName(s: string, q: nat, o: string, k: string)
    requires IsIdentifier(o) && IsIdentifier(k) && o != k
    requires LitAt(s, q, k) && ActiveOpAt(Default, s, q + |k|)
    ensures !(LitAt(s, q, o) && ActiveOpAt(Default, s, q + |o|))
  {
    DefaultOpChar(s, q + |k|);
    if LitAt(s, q, o) && ActiveOpAt(Default, s, q + |o|) {
      DefaultOpChar(s, q + |o|);
      SameName(s, q, o, k);
    }
  }

  lemma OthersTail(o: string, items: seq<Item>)
    requires forall j :: 0 <= j < |items| ==> items[j].Keyword? && items[j].name != o
    requires items != []
    ensures forall j :: 0 <= j < |items[1..]| ==> items[1..][j].Keyword? && items[1..][j].name != o
  {
    forall j | 0 <= j < |items[1..]|
      ensures items[1..][j].Keyword? && items[1..][j].name != o
    {
      assert items[1..][j] == items[j + 1];
    }
  }

  /** The matcher would take the optional part named `o` at `p`. */
  predicate NameAt(s: string, p: nat, o: string) {
    ActiveSepAt(Default, s, p) && LitAt(s, p + 1, o) && ActiveOpAt(Default, s, p + 1 + |o|)
  }

  /** `|name=value` written at `p` leaves no room for another name there. */
  lemma KeywordExcludes(s: string, p: nat, k: string, w: string, o: string)
    requires p <= |s| && s[p..] == "|" + (k + ("=" + w))
    requires IsIdentifier(k) && IsIdentifier(o) && o != k
    ensures !NameAt(s, p, o)
  {
    assert LitAt(s, p + 1, k) && ActiveOpAt(Default, s, p + 1 + |k|) by {
      SepText(s, p, k + ("=" + w));
      OpText(s, p + 1, k, w);
    }
    NameTaken(s, p, k, o);
  }

  /** Where `k=` is written, no other identifier is followed by `=`. */
  lemma NameTaken(s: string, p: nat, k: string, o: string)
    requires LitAt(s, p + 1, k) && ActiveOpAt(Default, s, p + 1 + |k|)
    requires IsIdentifier(k) && IsIdentifier(o) && o != k
    ensures !NameAt(s, p, o)
  {
    OtherName(s, p + 1, o, k);
  }

  /** The first item's text, spelled out, when it is a given optional argument. */
  lemma KeywordSplit(items: seq<Item>, vals: seq<Option<string>>, s: string, p: nat)
    requires |vals| == |items| && items != [] && items[0].Keyword? && vals[0].Some?
    requires p <= |s| && s[p..] == Render(items, vals) + "}}"
    ensures s[p..] == "|" + (items[0].name + ("=" + (vals[0].value + (Render(items[1..], vals[1..]) + "}}"))))
    ensures p + 2 + |items[0].name| + |vals[0].value| <= |s|
    ensures s[p + 2 + |items[0].name| + |vals[0].value|..] == Render(items[1..], vals[1..]) + "}}"
  {
    var rest := Render(items[1..], vals[1..]);
    Associative(Part(items[0], vals[0]), rest, "}}");
    KeywordPart(items[0].name, vals[0].value, rest + "}}");
    SliceAfter(s, p, Part(items[0], vals[0]), rest + "}}");
  }

  /** The first item's text, spelled out, when it is a required argument. */
  lemma PositionalSplit(items: seq<Item>, vals: seq<Option<string>>, s: string, p: nat)
    requires |vals| == |items| && items != [] && items[0].Positional? && vals[0].Some?
    requires p <= |s| && s[p..] == Render(items, vals) + "}}"
    ensures s[p..] == "|" + (vals[0].value + (Render(items[1..], vals[1..]) + "}}"))
    ensures p + 1 + |vals[0].value| <= |s|
    ensures s[p + 1 + |vals[0].value|..] == Render(items[1..], vals[1..]) + "}}"
  {
    var rest := Render(items[1..], vals[1..]);
    Associative(Part(items[0], vals[0]), rest, "}}");
    PositionalPart(vals[0].value, rest + "}}");
    SliceAfter(s, p, Part(items[0], vals[0]), rest + "}}");
  }

  /** The first item's text is empty when it is an absent optional argument. */
  lemma AbsentSplit(items: seq<Item>, vals: seq<Option<string>>, s: string, p: nat)
    requires |vals| == |items| && items != [] && vals[0].None?
    requires p <= |s| && s[p..] == Render(items, vals) + "}}"
    ensures s[p..] == Render(items[1..], vals[1..]) + "}}"
  {
    EmptyLeft(Part(items[0], vals[0]), Render(items[1..], vals[1..]));
  }

  /** An absent optional part does not match the part of a later one. */
  lemma {:induction false} AbsentFails(o: string, items: seq<Item>, vals: seq<Option<string>>, s: string, p: nat)
    requires IsIdentifier(o) && ValidVals(items, vals)
    requires forall j :: 0 <= j < |items| ==> items[j].Keyword? && items[j].name != o
    requires p <= |s| && s[p..] == Render(items, vals) + "}}"
    ensures !NameAt(s, p, o)
    decreases |items|
  {
    if items == [] {
      DefaultSep(s, p);
      assert s[p] == s[p..][0];
    } else {
      ValidTail(items, vals);
      ValidHead(items, vals);
      OthersTail(o, items);
      if vals[0].None? {
        AbsentSplit(items, vals, s, p);
        AbsentFails(o, items[1..], vals[1..], s, p);
      } else {
        KeywordSplit(items, vals, s, p);
        KeywordExcludes(s, p, items[0].name, vals[0].value + (Render(items[1..], vals[1..]) + "}}"), o);
      }
    }
  }

  lemma AbsentStep(items: seq<Item>, vals: seq<Option<string>>, s: string, p: nat)
    requires items != [] && |vals| == |items| && items[0].Keyword? && vals[0].None? && p <= |s|
    requires !NameAt(s, p, items[0].name)
    requires MatchItems(Default, items[1..], s, p) == Some((|s|, vals[1..]))
    ensures MatchItems(Default, items, s, p) == Some((|s|, vals))
  {
    ConsValue(vals, None);
    AbsentMatch(items, s, p, (|s|, vals[1..]));
  }

  /** Optional arguments come last with distinct names, so none after the
      first item has its name. */
  lemma LaterNames(items: seq<Item>, vals: seq<Option<string>>)
    requires ValidVals(items, vals) && items != [] && items[0].Keyword?
    ensures forall j :: 0 <= j < |items[1..]| ==>
      items[1..][j].Keyword? && items[1..][j].name != items[0].name
  {
    forall j | 0 <= j < |items[1..]|
      ensures items[1..][j].Keyword? && items[1..][j].name != items[0].name
    {
      assert items[1..][j] == items[j + 1];
    }
  }

  lemma {:induction false} MatchPositional(items: seq<Item>, vals: seq<Option<string>>, s: string, p: nat)
    requires ValidVals(items, vals) && items != [] && items[0].Positional?
    requires p <= |s| && s[p..] == Render(items, vals) + "}}"
    ensures MatchItems(Default, items, s, p) == Some((|s|, vals))
    decreases |items|, 0
  {
    var rest := Render(items[1..], vals[1..]);
    var e0 := p + 1 + |vals[0].value|;
    PositionalShape(items, vals, s, p);
    MatchRendered(items[1..], vals[1..], s, e0);
    PositionalStep(items, vals, s, p, rest, e0);
  }

  /** What `MatchPositional` needs of a rendering that starts with a
      positional value. */
  lemma PositionalShape(items: seq<Item>, vals: seq<Option<string>>, s: string, p: nat)
    requires ValidVals(items, vals) && items != [] && items[0].Positional?
    requires p <= |s| && s[p..] == Render(items, vals) + "}}"
    ensures vals[0].Some? && UnnamedOk(Default, vals[0].value) && ValidVals(items[1..], vals[1..])
    ensures var rest := Render(items[1..], vals[1..]);
      var e0 := p + 1 + |vals[0].value|;
      && s[p..] == "|" + (vals[0].value + (rest + "}}"))
      && e0 <= |s| && s[e0..] == rest + "}}"
      && (rest == "" || rest[0] == '|')
  {
    ValidHead(items, vals);
    ValidTail(items, vals);
    PositionalSplit(items, vals, s, p);
    RenderHead(items[1..], vals[1..]);
  }

  lemma {:induction false} MatchKeyword(items: seq<Item>, vals: seq<Option<string>>, s: string, p: nat)
    requires ValidVals(items, vals) && items != [] && items[0].Keyword? && vals[0].Some?
    requires p <= |s| && s[p..] == Render(items, vals) + "}}"
    ensures MatchItems(Default, items, s, p) == Some((|s|, vals))
    decreases |items|, 0
  {
    var e0 := p + 2 + |items[0].name| + |vals[0].value|;
    ValidHead(items, vals);
    assert ValidVals(items[1..], vals[1..]) && e0 <= |s| && s[e0..] == Render(items[1..], vals[1..]) + "}}" by {
      ValidTail(items, vals);
      KeywordSplit(items, vals, s, p);
    }
    MatchRendered(items[1..], vals[1..], s, e0);
    KeywordHead(items, vals, s, p, e0);
  }

  /** A given optional argument is read once what follows it is. */
  lemma KeywordHead(items: seq<Item>, vals: seq<Option<string>>, s: string, p: nat, e0: nat)
    requires |vals| == |items| && items != [] && items[0].Keyword? && vals[0].Some?
    requires IsIdentifier(items[0].name) && Clean(vals[0].value)
    requires p <= |s| && s[p..] == Render(items, vals) + "}}"
    requires e0 == p + 2 + |items[0].name| + |vals[0].value|
    requires MatchItems(Default, items[1..], s, e0) == Some((|s|, vals[1..]))
    ensures MatchItems(Default, items, s, p) == Some((|s|, vals))
  {
    var rest := Render(items[1..], vals[1..]);
    assert s[p..] == "|" + (items[0].name + ("=" + (vals[0].value + (rest + "}}")))) by {
      KeywordSplit(items, vals, s, p);
    }
    assert rest == "" || rest[0] == '|' by { RenderHead(items[1..], vals[1..]); }
    KeywordStep(items, vals, s, p, rest, e0);
  }

  lemma {:induction false} MatchAbsent(items: seq<Item>, vals: seq<Option<string>>, s: string, p: nat)
    requires ValidVals(items, vals) && items != [] && items[0].Keyword? && vals[0].None?
    requires p <= |s| && s[p..] == Render(items, vals) + "}}"
    ensures MatchItems(Default, items, s, p) == Some((|s|, vals))
    decreases |items|, 0
  {
    ValidTail(items, vals);
    ValidHead(items, vals);
    AbsentSplit(items, vals, s, p);
    LaterNames(items, vals);
    AbsentFails(items[0].name, items[1..], vals[1..], s, p);
    MatchRendered(items[1..], vals[1..], s, p);
    AbsentStep(items, vals, s, p);
  }

  /** The matcher reads the rendered items back, ending at the lead-out. */
  lemma {:induction false} MatchRendered(items: seq<Item>, vals: seq<Option<string>>, s: string, p: nat)
    requires ValidVals(items, vals)
    requires p <= |s| && s[p..] == Render(items, vals) + "}}"
    ensures MatchItems(Default, items, s, p) == Some((|s|, vals))
    decreases |items|, 1
  {
    if items == [] {
      SliceAfter(s, p, "}}", "");
    } else {
      ValidHead(items, vals);
      if items[0].Positional? {
        MatchPositional(items, vals, s, p);
      } else if vals[0].Some? {
        MatchKeyword(items, vals, s, p);
      } else {
        MatchAbsent(items, vals, s, p);
      }
    }
  }
}
