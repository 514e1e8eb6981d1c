/** `TwoWayProcessor.produce`: the inverse direction of a processor.  The
    values offered for the unnamed groups are paired with the recorded
    sub-patterns as `zip` pairs them (surplus values are dropped), each must
    match its sub-pattern in full, then each keyword value must match the
    sub-pattern of the group of that name; the template is then formatted
    with the kept values.  Regular expressions are not interpreted: the full
    match is a parameter. */
module Producing {
  import opened Text
  import opened Formatting
  import opened Everting

  /** `re.fullmatch(pattern, content)` succeeds. */
  type FullMatch = (string, string) -> bool

  /** Which group a value was offered for. */
  datatype GroupRef = Position(index: nat) | Name(name: string)

  datatype ProduceError =
    | ProductionError(group: GroupRef, content: string)  // `ProductionError` from `_must_match`
    | UnknownGroup(name: string)                          // `KeyError`: no named group of that name
    | FormatFailed(error: FormatError)                    // raised by `str.format`

  function Min(a: nat, b: nat): nat {
    if a <= b then a else b
  }

  /** Every value `zip` pairs with a sub-pattern matches it. */
  predicate UnnamedAllMatch(groups: seq<string>, fm: FullMatch, args: seq<string>) {
    forall j :: 0 <= j < Min(|args|, |groups|) ==> fm(groups[j], args[j])
  }

  /** Every keyword names a group and matches its sub-pattern. */
  predicate NamedAllMatch(groups: map<string, string>, fm: FullMatch, named: seq<(string, string)>) {
    forall i :: 0 <= i < |named| ==> named[i].0 in groups && fm(groups[named[i].0], named[i].1)
  }

  /** `_fill_unnamed` from value `j` on: the first value that does not match. */
  function FirstUnnamedFailure(groups: seq<string>, fm: FullMatch, args: seq<string>, j: nat): (r: Option<nat>)
    ensures r.Some? ==> j <= r.value < Min(|args|, |groups|) && !fm(groups[r.value], args[r.value])
    ensures r.Some? ==> forall i :: j <= i < r.value ==> fm(groups[i], args[i])
    ensures r.None? ==> forall i :: j <= i < Min(|args|, |groups|) ==> fm(groups[i], args[i])
    decreases |args| - j
  {
    if j >= |args| || j >= |groups| then None
    else if !fm(groups[j], args[j]) then Some(j)
    else FirstUnnamedFailure(groups, fm, args, j + 1)
  }

  /** `_fill_named` from keyword `i` on, in keyword order: the first lookup
      that fails or value that does not match. */
  function FirstNamedFailure(groups: map<string, string>, fm: FullMatch, named: seq<(string, string)>, i: nat)
    : (r: Option<ProduceError>)
    ensures r.None? <==> forall k :: i <= k < |named| ==> named[k].0 in groups && fm(groups[named[k].0], named[k].1)
    ensures r.Some? ==> exists k :: i <= k < |named| && NamedFailsAt(groups, fm, named, i, k, r.value)
    decreases |named| - i
  {
    if i >= |named| then None
    else if named[i].0 !in groups then
      assert NamedFailsAt(groups, fm, named, i, i, UnknownGroup(named[i].0));
      Some(UnknownGroup(named[i].0))
    else if !fm(groups[named[i].0], named[i].1) then
      assert NamedFailsAt(groups, fm, named, i, i, ProductionError(Name(named[i].0), named[i].1));
      Some(ProductionError(Name(named[i].0), named[i].1))
    else
      var r := FirstNamedFailure(groups, fm, named, i + 1);
      assert r.Some? ==> exists k :: i <= k < |named| && NamedFailsAt(groups, fm, named, i, k, r.value) by {
        if r.Some? {
          var k :| i + 1 <= k < |named| && NamedFailsAt(groups, fm, named, i + 1, k, r.value);
          assert NamedFailsAt(groups, fm, named, i, k, r.value);
        }
      }
      r
  }

  /** Keyword `k` is the one that fails, with error `err`, and those from `i`
      up to it pass. */
  predicate NamedFailsAt(groups: map<string, string>, fm: FullMatch, named: seq<(string, string)>,
                         i: nat, k: nat, err: ProduceError)
    requires k < |named|
  {
    && (forall j :: i <= j < k ==> named[j].0 in groups && fm(groups[named[j].0], named[j].1))
    && (if named[k].0 !in groups then err == UnknownGroup(named[k].0)
        else !fm(groups[named[k].0], named[k].1) && err == ProductionError(Name(named[k].0), named[k].1))
  }

  /** The keyword arguments as the dictionary `**named` builds. */
  function PairsMap(named: seq<(string, string)>): map<string, string> {
    if named == [] then map[] else map[named[0].0 := named[0].1] + PairsMap(named[1..])
  }

  /** `produce(*args, **named)` with the keywords in the order given. */
  function Produce(e: Everted, fm: FullMatch, args: seq<string>, named: seq<(string, string)>)
    : (r: Result<string, ProduceError>)
    ensures r.Ok? ==> UnnamedAllMatch(e.unnamed, fm, args) && NamedAllMatch(e.named, fm, named)
    ensures !UnnamedAllMatch(e.unnamed, fm, args) ==>
      r.Err? && r.error.ProductionError? && r.error.group.Position?
      && r.error.group.index < Min(|args|, |e.unnamed|)
      && r.error.content == args[r.error.group.index]
      && !fm(e.unnamed[r.error.group.index], r.error.content)
    ensures UnnamedAllMatch(e.unnamed, fm, args) && !NamedAllMatch(e.named, fm, named) ==>
      r.Err? && !r.error.FormatFailed? && !(r.error.ProductionError? && r.error.group.Position?)
  {
    var u := FirstUnnamedFailure(e.unnamed, fm, args, 0);
    if u.Some? then Err(ProductionError(Position(u.value), args[u.value]))
    else
      var n := FirstNamedFailure(e.named, fm, named, 0);
      if n.Some? then Err(n.value)
      else
        match Format(e.template, args[..Min(|args|, |e.unnamed|)], PairsMap(named), 0)
        case Ok(text) => Ok(text)
        case Err(f) => Err(FormatFailed(f))
  }

  // ---------------------------------------------------------------------
  // What a template made from chunks formats to

  /** The pattern with every group replaced by its value: an unnamed group
      takes the next positional value, a named group its keyword value;
      `IndexOutOfRange` or `MissingKey` for the first group, from the left,
      that has no value. */
  function Fill(chunks: seq<Chunk>, args: seq<string>, named: map<string, string>, next: nat)
    : (r: Result<string, FormatError>)
    decreases |chunks|
  {
    if chunks == [] then Ok([])
    else match chunks[0]
      case Lit(t) => Prepend(t, Fill(chunks[1..], args, named, next))
      case Group(_) =>
        if next < |args| then Prepend(args[next], Fill(chunks[1..], args, named, next + 1))
        else Err(IndexOutOfRange(next))
      case NamedGroup(n, _) =>
        if n in named then Prepend(named[n], Fill(chunks[1..], args, named, next))
        else Err(MissingKey(n))
  }

  /** Formatting the template of a well-formed pattern fills its groups. */
  lemma {:induction false} FormatTemplate(chunks: seq<Chunk>, args: seq<string>, named: map<string, string>,
                                          next: nat, behind: bool)
    requires WellFormedChunks(chunks, behind)
    ensures Format(Template(chunks), args, named, next) == Fill(chunks, args, named, next)
    decreases |chunks|
  {
    if chunks == [] {
    } else {
      var rest := Rendered(chunks[1..], 2);
      assert WellFormedChunk(chunks[0], behind);
      assert Template(chunks) == PieceAt(chunks[0], 2) + rest;
      match chunks[0]
      case Lit(t) =>
        FormatLiteral(t, rest, args, named, next);
        FormatTemplate(chunks[1..], args, named, next, behind);
      case Group(_) =>
        FormatAuto(rest, args, named, next);
        if next < |args| {
          FormatTemplate(chunks[1..], args, named, next + 1, behind);
        }
      case NamedGroup(n, _) =>
        FormatNamed(n, rest, args, named, next);
        FormatTemplate(chunks[1..], args, named, next, behind);
    }
  }

  /** Producing from the corrected eversion of a well-formed pattern: every
      value is checked against its group's own sub-pattern, and the text is
      the pattern with its groups filled in. */
  lemma ProduceChunks(chunks: seq<Chunk>, fm: FullMatch, args: seq<string>, named: seq<(string, string)>)
    requires WellFormedChunks(chunks, true)
    ensures var r := Produce(EvertCorrected(Source(chunks)), fm, args, named);
      var kept := args[..Min(|args|, |GroupContents(chunks)|)];
      && (r.Ok? <==>
            && UnnamedAllMatch(GroupContents(chunks), fm, args)
            && NamedAllMatch(NamedContents(chunks), fm, named)
            && Fill(chunks, kept, PairsMap(named), 0).Ok?)
      && (r.Ok? ==> r.value == Fill(chunks, kept, PairsMap(named), 0).value)
  {
    EvertCorrectedChunks(chunks);
    var kept := args[..Min(|args|, |GroupContents(chunks)|)];
    FormatTemplate(chunks, kept, PairsMap(named), 0, true);
  }

  /** Values beyond the number of unnamed groups are dropped unexamined. */
  lemma ProduceTruncates(e: Everted, fm: FullMatch, args: seq<string>, named: seq<(string, string)>)
    requires |args| >= |e.unnamed|
    ensures Produce(e, fm, args, named) == Produce(e, fm, args[..|e.unnamed|], named)
  {
    var short := args[..|e.unnamed|];
    assert short[..Min(|short|, |e.unnamed|)] == args[..Min(|args|, |e.unnamed|)];
    forall j | 0 <= j <= |e.unnamed|
      ensures FirstUnnamedFailure(e.unnamed, fm, args, j) == FirstUnnamedFailure(e.unnamed, fm, short, j)
    {
      UnnamedFailureTruncates(e.unnamed, fm, args, j);
    }
  }

  lemma {:induction false} UnnamedFailureTruncates(groups: seq<string>, fm: FullMatch, args: seq<string>, j: nat)
    requires |args| >= |groups| && j <= |groups|
    ensures FirstUnnamedFailure(groups, fm, args, j) == FirstUnnamedFailure(groups, fm, args[..|groups|], j)
    decreases |groups| - j
  {
    if j < |groups| {
      UnnamedFailureTruncates(groups, fm, args, j + 1);
    }
  }

  // ---------------------------------------------------------------------
  // An example: `(?P<n0>a)(b)(?P<n1>c)` produces `abc` from `'b', n0='a', n1='c'`

  /** Full matching of sub-patterns that are plain letters. */
  function Literally(pattern: string, content: string): bool {
    pattern == content
  }

  function MixChunks(): seq<Chunk> {
    [NamedGroup("n0", "a")] + ([Group("b")] + [NamedGroup("n1", "c")])
  }

  lemma SourceCons(c: Chunk, cs: seq<Chunk>)
    ensures Source([c] + cs) == SourceOf(c) + Source(cs)
  {
    assert ([c] + cs)[1..] == cs;
  }

  lemma LetterChunk(n: string, x: string)
    requires |x| == 1 && 'a' <= x[0] <= 'z'
    requires n == "n0" || n == "n1"
    ensures WellFormedChunk(NamedGroup(n, x), false) && WellFormedChunk(Group(x), false)
    ensures DoubleBraces(x) == x
  {
    assert IsWordChar(n[0]) && IsWordChar(n[1]);
    assert x[0] != ')' && x[0] != '(' && x[0] != '\n';
  }

  lemma MixShape()
    ensures Source(MixChunks()) == "(?P<n0>a)(b)(?P<n1>c)"
    ensures WellFormedChunks(MixChunks(), false)
  {
    MixSource();
    MixWellFormed();
  }

  lemma MixSource()
    ensures Source(MixChunks()) == "(?P<n0>a)(b)(?P<n1>c)"
  {
    var c0, c1, c2 := NamedGroup("n0", "a"), Group("b"), NamedGroup("n1", "c");
    SourceCons(c2, []);
    SourceCons(c1, [c2]);
    SourceCons(c0, [c1] + [c2]);
    var s0, s1, s2 := SourceOf(c0), SourceOf(c1), SourceOf(c2);
    assert s0 == "(?P<n0>a)";
    assert s1 == "(b)";
    assert s2 == "(?P<n1>c)";
    assert Source(MixChunks()) == s0 + (s1 + (s2 + ""));
  }

  lemma MixWellFormed()
    ensures WellFormedChunks(MixChunks(), false)
  {
    var c := MixChunks();
    LetterChunk("n0", "a");
    LetterChunk("n0", "b");
    LetterChunk("n1", "c");
    assert c[0] == NamedGroup("n0", "a");
    assert c[1] == Group("b");
    assert c[2] == NamedGroup("n1", "c");
  }

  lemma MixGroups()
    ensures GroupContents(MixChunks()) == ["b"]
    ensures NamedContents(MixChunks()) == map["n0" := "a", "n1" := "c"]
  {
    var c := MixChunks();
    var c2 := [NamedGroup("n1", "c")];
    assert c[1..] == [Group("b")] + c2;
    assert ([Group("b")] + c2)[1..] == c2;
    assert c2[1..] == [];
    assert NamedContents(c2) == map["n1" := "c"] + map[];
    assert NamedContents(c[1..]) == NamedContents(c2);
    assert GroupContents(c2) == [];
  }

  lemma MixFill(named: map<string, string>)
    requires named == map["n0" := "a", "n1" := "c"]
    ensures Fill(MixChunks(), ["b"], named, 0) == Ok("abc")
  {
    var c := MixChunks();
    var c2 := [NamedGroup("n1", "c")];
    assert c[1..] == [Group("b")] + c2;
    assert ([Group("b")] + c2)[1..] == c2;
    assert c2[1..] == [];
    assert c2[0] == NamedGroup("n1", "c");
    assert "n1" in named && named["n1"] == "c";
    assert "n0" in named && named["n0"] == "a";
    assert Fill(c2[1..], ["b"], named, 1) == Ok([]);
    assert Fill(c2, ["b"], named, 1) == Prepend("c", Ok([]));
    assert "c" + [] == "c";
    assert Fill(c[1..], ["b"], named, 0) == Prepend("b", Ok("c"));
    assert "b" + "c" == "bc";
    assert Fill(c, ["b"], named, 0) == Prepend("a", Ok("bc"));
    assert "a" + "bc" == "abc";
  }

  /** The mixed example of the test suite, with the code as written. */
  lemma ProduceMixExample()
    ensures Produce(EvertAsWritten("(?P<n0>a)(b)(?P<n1>c)"), Literally, ["b"], [("n0", "a"), ("n1", "c")])
         == Ok("abc")
  {
    MixEverted();
    MixProduce(EvertAsWritten("(?P<n0>a)(b)(?P<n1>c)"), [("n0", "a"), ("n1", "c")]);
  }

  lemma MixProduce(e: Everted, named: seq<(string, string)>)
    requires e == Everted(Template(MixChunks()), ["b"], map["n0" := "a", "n1" := "c"])
    requires named == [("n0", "a"), ("n1", "c")]
    ensures Produce(e, Literally, ["b"], named) == Ok("abc")
  {
    var c := MixChunks();
    var m := map["n0" := "a", "n1" := "c"];
    MixShape();
    MixPairs(named);
    FormatTemplate(c, ["b"], m, 0, false);
    MixFill(m);
    assert ["b"][..Min(1, 1)] == ["b"];
    assert FirstUnnamedFailure(e.unnamed, Literally, ["b"], 0).None?;
    assert FirstNamedFailure(e.named, Literally, named, 0).None?;
  }

  lemma MixEverted()
    ensures EvertAsWritten("(?P<n0>a)(b)(?P<n1>c)")
         == Everted(Template(MixChunks()), ["b"], map["n0" := "a", "n1" := "c"])
  {
    MixShape();
    EvertAsWrittenChunks(MixChunks());
    MixDoubled();
  }

  lemma MixDoubled()
    ensures DoubledAll(GroupContents(MixChunks())) == ["b"]
    ensures DoubledMap(NamedContents(MixChunks())) == map["n0" := "a", "n1" := "c"]
  {
    MixGroups();
    LetterChunk("n0", "a");
    LetterChunk("n0", "b");
    LetterChunk("n1", "c");
    assert DoubledAll(["b"]) == ["b"];
    var m := map["n0" := "a", "n1" := "c"];
    assert DoubledMap(m).Keys == m.Keys;
    assert DoubledMap(m) == m;
  }

  lemma MixPairs(named: seq<(string, string)>)
    requires named == [("n0", "a"), ("n1", "c")]
    ensures PairsMap(named) == map["n0" := "a", "n1" := "c"]
  {
    assert named[1..] == [("n1", "c")];
    assert named[1..][1..] == [];
    assert PairsMap(named[1..]) == map["n1" := "c"] + map[];
    assert map["n1" := "c"] + map[] == map["n1" := "c"];
  }
}
