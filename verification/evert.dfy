/** `TwoWayProcessor._evert_groups`: turning a consumption pattern into a
    production template.  The pattern's braces are doubled, then every
    unnamed catching group is replaced by `{}` and every named group
    `(?P<name>...)` by `{name}`, one at a time, each time searching the
    template again from its start; the group contents are recorded, in
    order and by name, as the sub-patterns that produced values must match.

    The two metapatterns are modelled as explicit matchers.  Both begin with
    a guard meant to refuse a backslash-escaped parenthesis; as written it is
    a look-ahead, which at an opening parenthesis always succeeds.  The
    matchers take the guard as a parameter: `behind == false` is the code as
    written, `behind == true` the look-behind it evidently means. */
module Everting {
  import opened Text

  /** The two metapatterns: `(?!\\)\((?!\?)(.*?[^\\])\)` for unnamed groups and
      `(?!\\)\(\?P<(?P<name>\w+)>(?P<content>.*?[^\\])\)` for named ones. */
  datatype Meta = UnnamedMeta | NamedMeta

  /** The guard in front of the opening parenthesis at `p`. */
  predicate GuardOk(s: string, p: nat, behind: bool) {
    if behind then !(0 < p <= |s| && s[p - 1] == '\\')
    else !(p < |s| && s[p] == '\\')
  }

  /** `.*?[^\\]\)` with the lazy part starting at `q - 1`: the position of the
      first `)` that follows a character other than a backslash, as long as
      no line break comes before it (the metapatterns have no DOTALL). */
  function LazyClose(s: string, q: nat): (r: Option<nat>)
    requires 1 <= q
    ensures r.Some? ==> q <= r.value < |s| && s[r.value] == ')' && s[r.value - 1] != '\\'
    decreases |s| - q
  {
    if q >= |s| then None
    else if s[q - 1] != '\\' && s[q] == ')' then Some(q)
    else if s[q - 1] == '\n' then None
    else LazyClose(s, q + 1)
  }

  /** The end of the run of word characters from `p`. */
  function WordEnd(s: string, p: nat): (e: nat)
    requires p <= |s|
    ensures p <= e <= |s|
    decreases |s| - p
  {
    if p < |s| && IsWordChar(s[p]) then WordEnd(s, p + 1) else p
  }
  /** The run ends at the first character that is not a word character. */
  lemma {:induction false} WordEndSpec(s: string, p: nat)
    requires p <= |s|
    ensures forall k :: p <= k < WordEnd(s, p) ==> IsWordChar(s[k])
    ensures WordEnd(s, p) < |s| ==> !IsWordChar(s[WordEnd(s, p)])
    decreases |s| - p
  {
    if p < |s| && IsWordChar(s[p]) {
      WordEndSpec(s, p + 1);
    }
  }


  /** A metapattern match: where it starts, the group name (empty for an
      unnamed group), and the extent `[contentStart, close)` of the content,
      `close` being the position of the closing parenthesis. */
  datatype Hit = Hit(start: nat, name: string, contentStart: nat, close: nat)

  /** What a match is replaced by in the template. */
  function Replacement(meta: Meta, h: Hit): string {
    match meta
    case UnnamedMeta => "{}"
    case NamedMeta => "{" + h.name + "}"
  }

  /** The unnamed metapattern after its guard: `(`, not followed by `?`,
      then the lazy content and `)`. */
  function UnnamedAt(s: string, p: nat): (r: Option<Hit>)
    ensures r.Some? ==> r.value.start == p && r.value.name == "" && r.value.contentStart == p + 1
    ensures r.Some? ==> p + 1 < r.value.close < |s|
  {
    if p + 1 < |s| && s[p] == '(' && s[p + 1] != '?' then
      var c := LazyClose(s, p + 2);
      if c.Some? then Some(Hit(p, "", p + 1, c.value)) else None
    else None
  }

  /** The named metapattern after its guard: `(?P<`, a run of word
      characters, `>`, then the lazy content and `)`. */
  function NamedAt(s: string, p: nat): (r: Option<Hit>)
    ensures r.Some? ==> r.value.start == p && r.value.contentStart == p + 5 + |r.value.name|
    ensures r.Some? ==> r.value.contentStart < r.value.close < |s|
  {
    if LitAt(s, p, "(?P<") then NamedPast(s, p) else None
  }

  /** The named metapattern past the `(?P<` that opens it at `p`. */
  function NamedPast(s: string, p: nat): (r: Option<Hit>)
    requires p + 4 <= |s|
    ensures r.Some? ==> r.value.start == p && r.value.contentStart == p + 5 + |r.value.name|
    ensures r.Some? ==> r.value.contentStart < r.value.close < |s|
  {
    NamedName(s, p, WordEnd(s, p + 4))
  }

  /** The rest of the named metapattern once its name has run to `n`. */
  function NamedName(s: string, p: nat, n: nat): (r: Option<Hit>)
    requires p + 4 <= n <= |s|
    ensures r.Some? ==> r.value.start == p && r.value.contentStart == p + 5 + |r.value.name|
    ensures r.Some? ==> r.value.contentStart < r.value.close < |s|
  {
    if p + 4 < n && n + 1 < |s| && s[n] == '>' then
      var c := LazyClose(s, n + 2);
      if c.Some? then Some(Hit(p, s[p + 4..n], n + 1, c.value)) else None
    else None
  }

  /** The metapattern tried at position `p`. */
  function MatchAt(meta: Meta, s: string, p: nat, behind: bool): (r: Option<Hit>)
    ensures r.Some? ==>
      && r.value.start == p
      && p < r.value.contentStart < r.value.close < |s|
      && |Replacement(meta, r.value)| < r.value.close + 1 - p
  {
    if !(p < |s| && GuardOk(s, p, behind)) then None
    else match meta
      case UnnamedMeta => UnnamedAt(s, p)
      case NamedMeta => NamedAt(s, p)
  }

  /** The leftmost match at or after `from`. */
  function FindHit(meta: Meta, s: string, from: nat, behind: bool): (r: Option<Hit>)
    ensures r.Some? ==> from <= r.value.start && MatchAt(meta, s, r.value.start, behind) == r
    decreases |s| - from
  {
    if from >= |s| then None
    else if MatchAt(meta, s, from, behind).Some? then MatchAt(meta, s, from, behind)
    else FindHit(meta, s, from + 1, behind)
  }

  /** The hit is the leftmost one: nothing matches before it, and when
      there is none nothing matches at all. */
  lemma {:induction false} FindHitLeftmost(meta: Meta, s: string, from: nat, behind: bool, p: nat)
    requires from <= p
    ensures FindHit(meta, s, from, behind).Some? && p < FindHit(meta, s, from, behind).value.start
      ==> MatchAt(meta, s, p, behind).None?
    ensures FindHit(meta, s, from, behind).None? ==> MatchAt(meta, s, p, behind).None?
    decreases |s| - from
  {
    if from < |s| && MatchAt(meta, s, from, behind).None? && from < p {
      FindHitLeftmost(meta, s, from + 1, behind, p);
    }
  }

  /** `collect(metapattern, collector)`: replace the leftmost match, record
      its name and content, and start again from the top until nothing
      matches. */
  function Collect(meta: Meta, s: string, behind: bool): (r: (string, seq<(string, string)>))
    decreases |s|
  {
    var h := FindHit(meta, s, 0, behind);
    if h.None? then (s, [])
    else
      var x := h.value;
      var rest := Collect(meta, s[..x.start] + Replacement(meta, x) + s[x.close + 1..], behind);
      (rest.0, [(x.name, s[x.contentStart..x.close])] + rest.1)
  }

  /** The recorded sub-patterns of the unnamed groups, in order. */
  function Contents(pairs: seq<(string, string)>): (r: seq<string>)
    ensures |r| == |pairs|
    ensures forall j :: 0 <= j < |r| ==> r[j] == pairs[j].1
  {
    seq(|pairs|, j requires 0 <= j < |pairs| => pairs[j].1)
  }

  /** The recorded sub-patterns of the named groups; a later group of the
      same name overwrites an earlier one, as dictionary assignment does. */
  function NamedMap(pairs: seq<(string, string)>): map<string, string> {
    if pairs == [] then map[]
    else map[pairs[0].0 := pairs[0].1] + NamedMap(pairs[1..])
  }

  /** `_production_template`, `_production_groups_unnamed` and
      `_production_groups_named`, sub-patterns as text. */
  datatype Everted = Everted(template: string, unnamed: seq<string>, named: map<string, string>)

  /** The whole of `_evert_groups`.  `undouble` says whether a recorded
      sub-pattern is the group's own text (`true`) or, as written, its text
      from the brace-doubled template. */
  function EvertWith(pattern: string, behind: bool, undouble: bool): (e: Everted) {
    var first := Collect(UnnamedMeta, DoubleBraces(pattern), behind);
    var second := Collect(NamedMeta, first.0, behind);
    var unnamed := Contents(first.1);
    var named := NamedMap(second.1);
    if undouble then Everted(second.0, UndoubledAll(unnamed), UndoubledMap(named))
    else Everted(second.0, unnamed, named)
  }

  function UndoubledAll(xs: seq<string>): (r: seq<string>)
    ensures |r| == |xs|
    ensures forall j :: 0 <= j < |xs| ==> r[j] == UndoubleBraces(xs[j])
  {
    seq(|xs|, j requires 0 <= j < |xs| => UndoubleBraces(xs[j]))
  }

  function UndoubledMap(m: map<string, string>): (r: map<string, string>)
    ensures r.Keys == m.Keys
    ensures forall k :: k in m ==> r[k] == UndoubleBraces(m[k])
  {
    map k | k in m :: UndoubleBraces(m[k])
  }

  /** `_evert_groups` as written. */
  function EvertAsWritten(pattern: string): Everted {
    EvertWith(pattern, false, false)
  }

  /** `_evert_groups` with a look-behind guard, recording each group's own text. */
  function EvertCorrected(pattern: string): Everted {
    EvertWith(pattern, true, true)
  }

  // ---------------------------------------------------------------------
  // Patterns as sequences of chunks

  /** A pattern the metapatterns can take apart: literal regex text, unnamed
      catching groups and named groups, none nested. */
  datatype Chunk = Lit(text: string) | Group(content: string) | NamedGroup(name: string, content: string)

  function SourceOf(c: Chunk): string {
    match c
    case Lit(t) => t
    case Group(x) => "(" + x + ")"
    case NamedGroup(n, x) => "(?P<" + n + ">" + x + ")"
  }

  /** The pattern text. */
  function Source(chunks: seq<Chunk>): string {
    if chunks == [] then "" else SourceOf(chunks[0]) + Source(chunks[1..])
  }

  /** A chunk in the template after `stage` passes: the brace-doubled text,
      with unnamed groups replaced after the first pass and named groups
      after the second. */
  function PieceAt(c: Chunk, stage: nat): string {
    match c
    case Lit(t) => DoubleBraces(t)
    case Group(x) => if stage == 0 then "(" + DoubleBraces(x) + ")" else "{}"
    case NamedGroup(n, x) => if stage <= 1 then "(?P<" + n + ">" + DoubleBraces(x) + ")" else "{" + n + "}"
  }

  function Rendered(chunks: seq<Chunk>, stage: nat): string {
    if chunks == [] then "" else PieceAt(chunks[0], stage) + Rendered(chunks[1..], stage)
  }

  /** The production template a pattern should give: literal text with its
      braces doubled, `{}` per unnamed group, `{name}` per named group. */
  function Template(chunks: seq<Chunk>): string {
    Rendered(chunks, 2)
  }

  /** Whether the metapattern `meta` is meant to match chunk `c`. */
  predicate Targets(meta: Meta, c: Chunk) {
    (meta == UnnamedMeta && c.Group?) || (meta == NamedMeta && c.NamedGroup?)
  }

  function StageOf(meta: Meta): nat {
    if meta == UnnamedMeta then 0 else 1
  }

  /** What the collector of `meta` records, from left to right: the name and
      the content as it stands in the brace-doubled template. */
  function Pairs(chunks: seq<Chunk>, meta: Meta): seq<(string, string)> {
    if chunks == [] then []
    else if Targets(meta, chunks[0]) then [PairOf(chunks[0])] + Pairs(chunks[1..], meta)
    else Pairs(chunks[1..], meta)
  }

  /** The name and the brace-doubled content of a group chunk. */
  function PairOf(c: Chunk): (string, string)
    requires !c.Lit?
  {
    (if c.NamedGroup? then c.name else "", DoubleBraces(c.content))
  }

  /** The contents of the unnamed groups, in order. */
  function GroupContents(chunks: seq<Chunk>): seq<string> {
    if chunks == [] then []
    else if chunks[0].Group? then [chunks[0].content] + GroupContents(chunks[1..])
    else GroupContents(chunks[1..])
  }

  /** The contents of the named groups by name; a later group of the same
      name wins. */
  function NamedContents(chunks: seq<Chunk>): map<string, string> {
    if chunks == [] then map[]
    else if chunks[0].NamedGroup? then map[chunks[0].name := chunks[0].content] + NamedContents(chunks[1..])
    else NamedContents(chunks[1..])
  }

  function DoubledAll(xs: seq<string>): (r: seq<string>)
    ensures |r| == |xs|
    ensures forall j :: 0 <= j < |xs| ==> r[j] == DoubleBraces(xs[j])
  {
    seq(|xs|, j requires 0 <= j < |xs| => DoubleBraces(xs[j]))
  }

  function DoubledMap(m: map<string, string>): (r: map<string, string>)
    ensures r.Keys == m.Keys
    ensures forall k :: k in m ==> r[k] == DoubleBraces(m[k])
  {
    map k | k in m :: DoubleBraces(m[k])
  }

  /** Every `ch` in `x` comes right after a backslash, or stands first and
      `lead` says a backslash comes before `x`. */
  predicate PrecededFrom(x: string, ch: char, lead: bool) {
    forall k {:trigger x[k]} :: 0 <= k < |x| && x[k] == ch ==> (k > 0 && x[k - 1] == '\\') || (k == 0 && lead)
  }

  /** Every `ch` in `x` comes right after a backslash inside `x`. */
  predicate Preceded(x: string, ch: char) {
    PrecededFrom(x, ch, false)
  }

  /** The parentheses in literal text are escaped ones: none at all for the
      guard as written, only backslash-escaped ones for the look-behind. */
  predicate EscapedParens(x: string, behind: bool) {
    if behind then Preceded(x, '(') else '(' !in x
  }

  /** A group content the lazy `.*?[^\\]\)` delimits exactly: non-empty, on
      one line, not ending with a backslash, any `)` in it escaped. */
  predicate Closable(x: string) {
    && |x| >= 1
    && x[|x| - 1] != '\\'
    && '\n' !in x
    && Preceded(x, ')')
  }

  predicate WellFormedChunk(c: Chunk, behind: bool) {
    match c
    case Lit(t) => EscapedParens(t, behind) && (|t| > 0 ==> t[|t| - 1] != '\\')
    case Group(x) => Closable(x) && x[0] != '?'
    case NamedGroup(n, x) => IsIdentifier(n) && Closable(x) && EscapedParens(x, behind)
  }

  predicate WellFormedChunks(chunks: seq<Chunk>, behind: bool) {
    forall j :: 0 <= j < |chunks| ==> WellFormedChunk(chunks[j], behind)
  }

  // ---------------------------------------------------------------------
  // Matching is local

  function ShiftHit(h: Option<Hit>, d: nat): Option<Hit> {
    if h.None? then None
    else Some(Hit(h.value.start + d, h.value.name, h.value.contentStart + d, h.value.close + d))
  }

  /** A prefix that does not end with a backslash: the look-behind at its end
      sees what it would see at the start of a text. */
  predicate Joinable(p: string) {
    |p| == 0 || p[|p| - 1] != '\\'
  }

  /** Shifting a text behind a prefix `p` shifts every position the
      metapatterns compute by `|p|`; `j` is the shifted position of `k`. */
  lemma {:induction false} LazyCloseShift(p: string, y: string, q: nat, j: nat)
    requires 1 <= q && j == |p| + q
    ensures LazyClose(p + y, j) == (if LazyClose(y, q).Some? then Some(|p| + LazyClose(y, q).value) else None)
    decreases |y| - q
  {
    if q < |y| {
      LazyCloseShift(p, y, q + 1, j + 1);
    }
  }

  lemma {:induction false} WordEndShift(p: string, y: string, q: nat, j: nat)
    requires q <= |y| && j == |p| + q
    ensures WordEnd(p + y, j) == |p| + WordEnd(y, q)
    decreases |y| - q
  {
    if q < |y| {
      WordEndShift(p, y, q + 1, j + 1);
    }
  }

  lemma SliceShift(p: string, y: string, i: nat, j: nat)
    requires i <= j <= |y|
    ensures (p + y)[|p| + i..|p| + j] == y[i..j]
  {
  }
  lemma SliceShiftAt(p: string, y: string, i: nat, j: nat, pi: nat, pj: nat)
    requires i <= j <= |y| && pi == |p| + i && pj == |p| + j
    ensures (p + y)[pi..pj] == y[i..j]
  {
    SliceShift(p, y, i, j);
  }

  lemma SpliceShift(p: string, y: string, a: nat, b: nat, r: string)
    requires a <= b < |y|
    ensures (p + y)[..|p| + a] + r + (p + y)[|p| + b + 1..] == p + (y[..a] + r + y[b + 1..])
  {
    assert (p + y)[..|p| + a] == p + y[..a];
    assert (p + y)[|p| + b + 1..] == y[b + 1..];
  }
  lemma GuardShift(p: string, y: string, k: nat, j: nat, behind: bool)
    requires Joinable(p) && k < |y| && j == |p| + k
    ensures GuardOk(p + y, j, behind) <==> GuardOk(y, k, behind)
  {
    if behind && k > 0 {
      assert (p + y)[j - 1] == y[k - 1];
    }
  }

  lemma MatchAtShift(meta: Meta, p: string, y: string, k: nat, j: nat, behind: bool)
    requires Joinable(p) && j == |p| + k
    ensures MatchAt(meta, p + y, j, behind) == ShiftHit(MatchAt(meta, y, k, behind), |p|)
  {
    if k < |y| {
      GuardShift(p, y, k, j, behind);
      match meta
      case UnnamedMeta => UnnamedShift(p, y, k, j);
      case NamedMeta => NamedShift(p, y, k, j);
    }
  }

  lemma UnnamedShift(p: string, y: string, k: nat, j: nat)
    requires j == |p| + k
    ensures UnnamedAt(p + y, j) == ShiftHit(UnnamedAt(y, k), |p|)
  {
    LazyCloseShift(p, y, k + 2, j + 2);
  }

  lemma NamedShift(p: string, y: string, k: nat, j: nat)
    requires j == |p| + k
    ensures NamedAt(p + y, j) == ShiftHit(NamedAt(y, k), |p|)
  {
    var s := p + y;
    if k + 4 <= |y| {
      SliceShiftAt(p, y, k, k + 4, j, j + 4);
      assert LitAt(s, j, "(?P<") <==> LitAt(y, k, "(?P<");
      if LitAt(y, k, "(?P<") {
        NamedTail(p, y, k, j);
      }
    } else {
      assert !LitAt(s, j, "(?P<");
      assert !LitAt(y, k, "(?P<");
    }
  }

  lemma NamedTail(p: string, y: string, k: nat, j: nat)
    requires k + 4 <= |y| && j == |p| + k
    ensures NamedPast(p + y, j) == ShiftHit(NamedPast(y, k), |p|)
  {
    var n := WordEnd(y, k + 4);
    assert WordEnd(p + y, j + 4) == |p| + n by { WordEndShift(p, y, k + 4, j + 4); }
    NamedNameShift(p, y, k, j, n, |p| + n);
  }

  lemma NamedNameShift(p: string, y: string, k: nat, j: nat, n: nat, m: nat)
    requires k + 4 <= n <= |y| && j == |p| + k && m == |p| + n
    ensures NamedName(p + y, j, m) == ShiftHit(NamedName(y, k, n), |p|)
  {
    var s := p + y;
    if k + 4 < n && n + 1 < |y| && y[n] == '>' {
      assert s[m] == y[n];
      LazyCloseShift(p, y, n + 2, m + 2);
      SliceShiftAt(p, y, k + 4, n, j + 4, m);
    } else if n < |y| {
      assert s[m] == y[n];
    }
  }

  /** Where the content and the closing parenthesis of a named group's
      piece lie, and what replaces it. */
  lemma NamedPieceParts(n: string, d: string, piece: string, h: Hit)
    requires piece == "(?P<" + n + ">" + d + ")"
    requires h == Hit(0, n, 5 + |n|, 5 + |n| + |d|)
    ensures h.close + 1 == |piece| && piece[h.contentStart..h.close] == d
    ensures Replacement(NamedMeta, h) == "{" + n + "}"
  {
    assert piece[5 + |n|..5 + |n| + |d|] == d;
  }

  lemma {:induction false} FindHitShift(meta: Meta, p: string, y: string, k: nat, j: nat, behind: bool)
    requires Joinable(p) && j == |p| + k
    ensures FindHit(meta, p + y, j, behind) == ShiftHit(FindHit(meta, y, k, behind), |p|)
    decreases |y| - k
  {
    if k < |y| {
      if MatchAt(meta, y, k, behind).None? {
        FindHitShift(meta, p, y, k + 1, j + 1, behind);
      }
      FindHitShiftStep(meta, p, y, k, j, behind);
    }
  }

  lemma FindHitShiftStep(meta: Meta, p: string, y: string, k: nat, j: nat, behind: bool)
    requires Joinable(p) && j == |p| + k && k < |y|
    requires MatchAt(meta, y, k, behind).None? ==>
      FindHit(meta, p + y, j + 1, behind) == ShiftHit(FindHit(meta, y, k + 1, behind), |p|)
    ensures FindHit(meta, p + y, j, behind) == ShiftHit(FindHit(meta, y, k, behind), |p|)
  {
    MatchAtShift(meta, p, y, k, j, behind);
  }

  /** No match of `meta` can start inside `p`, whatever follows it. */
  predicate Inert(meta: Meta, p: string, behind: bool) {
    forall k :: 0 <= k < |p| ==> InertAt(meta, p, k, behind)
  }

  /** The parenthesis, if any, at `k` opens no match of `meta`. */
  predicate InertAt(meta: Meta, p: string, k: nat, behind: bool)
    requires k < |p|
  {
    p[k] == '(' ==>
      (behind && k > 0 && p[k - 1] == '\\') || (meta == UnnamedMeta && k + 1 < |p| && p[k + 1] == '?')
  }

  lemma {:induction false} FindHitSkip(meta: Meta, p: string, y: string, k: nat, behind: bool)
    requires Inert(meta, p, behind) && k <= |p|
    ensures FindHit(meta, p + y, k, behind) == FindHit(meta, p + y, |p|, behind)
    decreases |p| - k
  {
    if k < |p| {
      FindHitSkip(meta, p, y, k + 1, behind);
      assert FindHit(meta, p + y, k, behind) == FindHit(meta, p + y, k + 1, behind) by {
        InertNoMatch(meta, p, y, k, behind);
      }
    }
  }

  lemma InertNoMatch(meta: Meta, p: string, y: string, k: nat, behind: bool)
    requires Inert(meta, p, behind) && k < |p|
    ensures MatchAt(meta, p + y, k, behind).None?
  {
    var s := p + y;
    assert s[k] == p[k];
    if p[k] == '(' {
      assert InertAt(meta, p, k, behind);
      if behind && k > 0 && p[k - 1] == '\\' {
        assert s[k - 1] == p[k - 1];
      } else {
        assert s[k + 1] == p[k + 1];
      }
    } else if k + 4 <= |s| {
      assert s[k..k + 4][0] == s[k];
    }
  }

  /** Collecting behind an inert prefix collects in what follows it. */
  lemma {:induction false} CollectShift(meta: Meta, p: string, y: string, behind: bool)
    requires Inert(meta, p, behind) && Joinable(p)
    ensures Collect(meta, p + y, behind) == (p + Collect(meta, y, behind).0, Collect(meta, y, behind).1)
    decreases |y|
  {
    var h := FindHit(meta, y, 0, behind);
    assert FindHit(meta, p + y, 0, behind) == ShiftHit(h, |p|) by {
      FindHitSkip(meta, p, y, 0, behind);
      FindHitShift(meta, p, y, 0, |p|, behind);
    }
    if h.Some? {
      var x := h.value;
      var ty := y[..x.start] + Replacement(meta, x) + y[x.close + 1..];
      CollectShiftStep(meta, p, y, x, behind);
      CollectUnfold(meta, y, x, behind, ty, y[x.contentStart..x.close]);
      CollectShift(meta, p, ty, behind);
    } else {
      CollectNone(meta, y, behind);
      CollectNone(meta, p + y, behind);
    }
  }

  lemma CollectNone(meta: Meta, s: string, behind: bool)
    requires FindHit(meta, s, 0, behind).None?
    ensures Collect(meta, s, behind) == (s, [])
  {
  }

  lemma CollectUnfold(meta: Meta, s: string, x: Hit, behind: bool, t: string, c: string)
    requires FindHit(meta, s, 0, behind) == Some(x)
    requires t == s[..x.start] + Replacement(meta, x) + s[x.close + 1..]
    requires c == s[x.contentStart..x.close]
    ensures Collect(meta, s, behind) == (Collect(meta, t, behind).0, [(x.name, c)] + Collect(meta, t, behind).1)
  {
    HitBounds(meta, s, x, behind);
  }

  lemma HitBounds(meta: Meta, s: string, x: Hit, behind: bool)
    requires FindHit(meta, s, 0, behind) == Some(x)
    ensures x.start < x.contentStart < x.close < |s|
  {
  }

  lemma CollectShiftStep(meta: Meta, p: string, y: string, x: Hit, behind: bool)
    requires FindHit(meta, y, 0, behind) == Some(x)
    requires FindHit(meta, p + y, 0, behind) == ShiftHit(Some(x), |p|)
    ensures var ty := y[..x.start] + Replacement(meta, x) + y[x.close + 1..];
      Collect(meta, p + y, behind) == (Collect(meta, p + ty, behind).0,
                                       [(x.name, y[x.contentStart..x.close])] + Collect(meta, p + ty, behind).1)
  {
    HitBounds(meta, y, x, behind);
    CollectShiftedHit(meta, p, y, x, behind);
  }

  /** The pieces of a hit in `y`, seen from behind the prefix `p`. */
  lemma ShiftedParts(meta: Meta, p: string, y: string, x: Hit, hs: Hit)
    requires x.start < x.contentStart < x.close < |y|
    requires hs == Hit(|p| + x.start, x.name, |p| + x.contentStart, |p| + x.close)
    ensures hs.close < |p + y|
    ensures p + (y[..x.start] + Replacement(meta, x) + y[x.close + 1..])
      == (p + y)[..hs.start] + Replacement(meta, hs) + (p + y)[hs.close + 1..]
    ensures y[x.contentStart..x.close] == (p + y)[hs.contentStart..hs.close]
  {
    assert Replacement(meta, hs) == Replacement(meta, x);
    SpliceShift(p, y, x.start, x.close, Replacement(meta, x));
    SliceShift(p, y, x.contentStart, x.close);
  }

  /** One round of collecting behind a prefix, knowing only where the hit lies. */
  lemma CollectShiftedHit(meta: Meta, p: string, y: string, x: Hit, behind: bool)
    requires x.start < x.contentStart < x.close < |y|
    requires FindHit(meta, p + y, 0, behind) == ShiftHit(Some(x), |p|)
    ensures var ty := y[..x.start] + Replacement(meta, x) + y[x.close + 1..];
      Collect(meta, p + y, behind) == (Collect(meta, p + ty, behind).0,
                                       [(x.name, y[x.contentStart..x.close])] + Collect(meta, p + ty, behind).1)
  {
    var s := p + y;
    var hs := Hit(|p| + x.start, x.name, |p| + x.contentStart, |p| + x.close);
    var ty := y[..x.start] + Replacement(meta, x) + y[x.close + 1..];
    assert FindHit(meta, s, 0, behind) == Some(hs);
    ShiftedParts(meta, p, y, x, hs);
    CollectUnfold(meta, s, hs, behind, p + ty, y[x.contentStart..x.close]);
  }

  // ---------------------------------------------------------------------
  // Brace doubling keeps the shape of a chunk

  lemma {:induction false} DoubleBracesPreceded(x: string, ch: char, lead: bool)
    requires ch != '{' && ch != '}' && ch != '\\'
    requires PrecededFrom(x, ch, lead)
    ensures PrecededFrom(DoubleBraces(x), ch, lead)
    decreases |x|
  {
    if x != [] {
      var c := x[0];
      var t := x[1..];
      forall k | 0 <= k < |t| && t[k] == ch
        ensures (k > 0 && t[k - 1] == '\\') || (k == 0 && c == '\\')
      {
        assert x[k + 1] == ch;
        assert x[k] == '\\';
        if k > 0 {
          assert t[k - 1] == x[k];
        }
      }
      DoubleBracesPreceded(t, ch, c == '\\');
      var pre := if c == '{' || c == '}' then [c, c] else [c];
      var dt := DoubleBraces(t);
      var d := DoubleBraces(x);
      assert d == pre + dt;
      forall k | 0 <= k < |d| && d[k] == ch
        ensures (k > 0 && d[k - 1] == '\\') || (k == 0 && lead)
      {
        if k < |pre| {
          assert d[k] == pre[k] == c == ch;
          assert pre == [c] && k == 0;
          assert x[0] == ch;
        } else {
          var j := k - |pre|;
          assert dt[j] == d[k] == ch;
          if j == 0 {
            assert c == '\\';
            assert pre == [c];
            assert d[k - 1] == pre[0];
          } else {
            assert d[k - 1] == dt[j - 1];
          }
        }
      }
    }
  }

  lemma ClosableDoubled(x: string)
    requires Closable(x)
    ensures Closable(DoubleBraces(x))
  {
    DoubleBracesEnds(x);
    DoubleBracesChars(x, '\n');
    DoubleBracesPreceded(x, ')', false);
  }

  lemma EscapedDoubled(x: string, behind: bool)
    requires EscapedParens(x, behind)
    ensures EscapedParens(DoubleBraces(x), behind)
  {
    if behind {
      DoubleBracesPreceded(x, '(', false);
    } else {
      DoubleBracesChars(x, '(');
    }
  }

  // ---------------------------------------------------------------------
  // Inert text

  lemma InertAppend(meta: Meta, a: string, b: string, behind: bool)
    requires Inert(meta, a, behind) && Inert(meta, b, behind)
    ensures Inert(meta, a + b, behind)
  {
    var s := a + b;
    forall k | 0 <= k < |s|
      ensures InertAt(meta, s, k, behind)
    {
      if k < |a| {
        assert InertAt(meta, a, k, behind);
        if k + 1 < |a| {
          assert s[k + 1] == a[k + 1];
        }
        if k > 0 {
          assert s[k - 1] == a[k - 1];
        }
      } else {
        assert InertAt(meta, b, k - |a|, behind);
        if k + 1 < |s| {
          assert s[k + 1] == b[k - |a| + 1];
        }
        if k > |a| {
          assert s[k - 1] == b[k - |a| - 1];
        }
      }
    }
  }

  lemma NoParenInert(meta: Meta, p: string, behind: bool)
    requires '(' !in p
    ensures Inert(meta, p, behind)
  {
    forall k | 0 <= k < |p|
      ensures InertAt(meta, p, k, behind)
    {
      assert p[k] in p;
    }
  }

  lemma EscapedInert(meta: Meta, x: string, behind: bool)
    requires EscapedParens(x, behind)
    ensures Inert(meta, x, behind)
  {
    if behind {
      assert PrecededFrom(x, '(', false);
      forall k | 0 <= k < |x|
        ensures InertAt(meta, x, k, behind)
      {
        if x[k] == '(' {
          assert k > 0 && x[k - 1] == '\\';
        }
      }
    } else {
      NoParenInert(meta, x, behind);
    }
  }

  lemma IdentifierNoParen(n: string)
    requires IsIdentifier(n)
    ensures '(' !in n && '{' !in n && '}' !in n
  {
    forall k | 0 <= k < |n|
      ensures n[k] != '(' && n[k] != '{' && n[k] != '}'
    {
      assert IsWordChar(n[k]);
    }
  }

  /** A named group as the unnamed metapattern sees it. */
  lemma NamedPieceInert(n: string, d: string, behind: bool)
    requires IsIdentifier(n) && EscapedParens(d, behind)
    ensures Inert(UnnamedMeta, "(?P<" + n + ">" + d + ")", behind)
  {
    var opener := "(?P<";
    forall k | 0 <= k < |opener|
      ensures InertAt(UnnamedMeta, opener, k, behind)
    {
    }
    IdentifierNoParen(n);
    NoParenInert(UnnamedMeta, n, behind);
    NoParenInert(UnnamedMeta, ">", behind);
    NoParenInert(UnnamedMeta, ")", behind);
    EscapedInert(UnnamedMeta, d, behind);
    InertAppend(UnnamedMeta, opener, n, behind);
    InertAppend(UnnamedMeta, opener + n, ">", behind);
    InertAppend(UnnamedMeta, opener + n + ">", d, behind);
    InertAppend(UnnamedMeta, opener + n + ">" + d, ")", behind);
  }

  /** A chunk that `meta` does not target passes through its pass unchanged,
      and nothing in it can start a match. */
  lemma PieceInert(meta: Meta, c: Chunk, behind: bool)
    requires WellFormedChunk(c, behind) && !Targets(meta, c)
    ensures Inert(meta, PieceAt(c, StageOf(meta)), behind)
    ensures Joinable(PieceAt(c, StageOf(meta)))
    ensures PieceAt(c, StageOf(meta) + 1) == PieceAt(c, StageOf(meta))
  {
    match c
    case Lit(t) =>
      EscapedDoubled(t, behind);
      EscapedInert(meta, DoubleBraces(t), behind);
      if |t| > 0 {
        DoubleBracesEnds(t);
      }
    case Group(x) =>
      assert meta == NamedMeta;
      NoParenInert(meta, "{}", behind);
    case NamedGroup(n, x) =>
      assert meta == UnnamedMeta;
      EscapedDoubled(x, behind);
      NamedPieceInert(n, DoubleBraces(x), behind);
  }

  /** What a targeted chunk is replaced by is inert in turn. */
  lemma ReplacementInert(meta: Meta, c: Chunk, behind: bool)
    requires WellFormedChunk(c, behind) && Targets(meta, c)
    ensures Inert(meta, PieceAt(c, StageOf(meta) + 1), behind)
    ensures Joinable(PieceAt(c, StageOf(meta) + 1))
  {
    if c.NamedGroup? {
      IdentifierNoParen(c.name);
    }
    NoParenInert(meta, PieceAt(c, StageOf(meta) + 1), behind);
  }

  // ---------------------------------------------------------------------
  // Targeted chunks match where they stand

  lemma {:induction false} LazyCloseRun(s: string, a: nat, x: string, q: nat)
    requires Closable(x) && 1 <= a && a + |x| < |s|
    requires s[a..a + |x|] == x && s[a + |x|] == ')'
    requires a + 1 <= q <= a + |x|
    ensures LazyClose(s, q) == Some(a + |x|)
    decreases a + |x| - q
  {
    assert s[q - 1] == x[q - 1 - a];
    if q < a + |x| {
      assert s[q] == x[q - a];
      assert x[q - 1 - a] in x;
      LazyCloseRun(s, a, x, q + 1);
    }
  }

  /** A group's piece is the first match of the unnamed metapattern in a
      text it starts. */
  lemma GroupHit(d: string, piece: string, rest: string, behind: bool, h: Hit)
    requires Closable(d) && d[0] != '?' && piece == "(" + d + ")"
    requires h == Hit(0, "", 1, 1 + |d|)
    ensures FindHit(UnnamedMeta, piece + rest, 0, behind) == Some(h)
  {
    var s := piece + rest;
    var tail := d + ")" + rest;
    Associative("(", d, ")");
    Associative("(", d + ")", rest);
    assert tail[..|d|] == d && tail[|d|] == ')';
    UnnamedAtOpening(s, d, tail);
    FindHitAtStart(UnnamedMeta, s, behind, h);
  }

  /** The unnamed metapattern at the start of `(` followed by a closable
      content not starting with `?` and `)`. */
  lemma UnnamedAtOpening(s: string, d: string, tail: string)
    requires Closable(d) && d[0] != '?' && s == "(" + tail
    requires |d| < |tail| && tail[..|d|] == d && tail[|d|] == ')'
    ensures UnnamedAt(s, 0) == Some(Hit(0, "", 1, 1 + |d|))
  {
    assert s[1..] == tail;
    assert s[1..1 + |d|] == d;
    assert s[1] == d[0];
    LazyCloseRun(s, 1, d, 2);
  }

  lemma {:induction false} WordEndAt(s: string, p: nat, e: nat)
    requires p <= e < |s| && !IsWordChar(s[e])
    requires forall k :: p <= k < e ==> IsWordChar(s[k])
    ensures WordEnd(s, p) == e
    decreases e - p
  {
    if p < e {
      WordEndAt(s, p + 1, e);
    }
  }

  /** A named group's piece is the first match of the named metapattern in
      a text it starts. */
  lemma NamedHit(n: string, d: string, piece: string, rest: string, behind: bool, h: Hit)
    requires IsIdentifier(n) && Closable(d) && piece == "(?P<" + n + ">" + d + ")"
    requires h == Hit(0, n, 5 + |n|, 5 + |n| + |d|)
    ensures FindHit(NamedMeta, piece + rest, 0, behind) == Some(h)
  {
    var s := piece + rest;
    var tail := d + ")" + rest;
    Associative("(?P<" + n + ">", d, ")");
    Associative("(?P<" + n + ">", d + ")", rest);
    assert tail[..|d|] == d && tail[|d|] == ')';
    NamedAtOpening(s, n, d, tail);
    FindHitAtStart(NamedMeta, s, behind, h);
  }

  /** The named metapattern at the start of `(?P<n>` followed by a closable
      content and `)`. */
  lemma NamedAtOpening(s: string, n: string, d: string, tail: string)
    requires IsIdentifier(n) && Closable(d) && s == "(?P<" + n + ">" + tail
    requires |d| < |tail| && tail[..|d|] == d && tail[|d|] == ')'
    ensures NamedAt(s, 0) == Some(Hit(0, n, 5 + |n|, 5 + |n| + |d|))
  {
    NamedOpener(s, n, tail);
    var a := 5 + |n|;
    assert s[a..] == tail;
    assert s[a..a + |d|] == d;
    LazyCloseRun(s, a, d, a + 1);
  }

  /** A match at the very start is the first one. */
  lemma FindHitAtStart(meta: Meta, s: string, behind: bool, h: Hit)
    requires |s| > 0 && s[0] == '('
    requires meta == UnnamedMeta ==> UnnamedAt(s, 0) == Some(h)
    requires meta == NamedMeta ==> NamedAt(s, 0) == Some(h)
    ensures FindHit(meta, s, 0, behind) == Some(h)
  {
    assert GuardOk(s, 0, behind);
  }

  lemma NamedOpener(s: string, n: string, tail: string)
    requires IsIdentifier(n) && s == "(?P<" + n + ">" + tail
    ensures LitAt(s, 0, "(?P<") && WordEnd(s, 4) == 4 + |n| && s[4 + |n|] == '>' && s[4..4 + |n|] == n
  {
    assert s[..4] == "(?P<";
    assert s[4..4 + |n|] == n;
    assert s[4 + |n|] == '>';
    forall k | 4 <= k < 4 + |n|
      ensures IsWordChar(s[k])
    {
      assert s[k] == n[k - 4];
    }
    WordEndAt(s, 4, 4 + |n|);
  }

  /** Collecting from a text whose first match is the whole of `piece`. */
  lemma HitStep(meta: Meta, piece: string, rest: string, x: Hit, repl: string, d: string, behind: bool)
    requires FindHit(meta, piece + rest, 0, behind) == Some(x)
    requires x.start == 0 && x.close + 1 == |piece|
    requires Replacement(meta, x) == repl && piece[x.contentStart..x.close] == d
    requires Inert(meta, repl, behind) && Joinable(repl)
    ensures Collect(meta, piece + rest, behind)
      == (repl + Collect(meta, rest, behind).0, [(x.name, d)] + Collect(meta, rest, behind).1)
  {
    var s := piece + rest;
    assert s[x.close + 1..] == rest;
    assert s[x.contentStart..x.close] == d;
    assert s[..x.start] + Replacement(meta, x) + s[x.close + 1..] == repl + rest;
    CollectUnfold(meta, s, x, behind, repl + rest, d);
    CollectShift(meta, repl, rest, behind);
  }

  /** The pass of `meta` over a targeted chunk followed by `rest`. */
  lemma TargetStep(meta: Meta, c: Chunk, rest: string, behind: bool)
    requires WellFormedChunk(c, behind) && Targets(meta, c)
    ensures Collect(meta, PieceAt(c, StageOf(meta)) + rest, behind)
      == (PieceAt(c, StageOf(meta) + 1) + Collect(meta, rest, behind).0, [PairOf(c)] + Collect(meta, rest, behind).1)
  {
    ReplacementInert(meta, c, behind);
    if c.Group? {
      GroupStep(c.content, rest, behind);
    } else {
      NamedStep(c.name, c.content, rest, behind);
    }
  }

  lemma GroupStep(x: string, rest: string, behind: bool)
    requires Closable(x) && x[0] != '?'
    requires Inert(UnnamedMeta, "{}", behind) && Joinable("{}")
    ensures var d := DoubleBraces(x);
      Collect(UnnamedMeta, "(" + d + ")" + rest, behind)
        == ("{}" + Collect(UnnamedMeta, rest, behind).0, [("", d)] + Collect(UnnamedMeta, rest, behind).1)
  {
    var d := DoubleBraces(x);
    var piece := "(" + d + ")";
    var h := Hit(0, "", 1, 1 + |d|);
    GroupPieceParts(d, piece, h);
    ClosableDoubled(x);
    DoubleBracesEnds(x);
    GroupHit(d, piece, rest, behind, h);
    HitStep(UnnamedMeta, piece, rest, h, "{}", d, behind);
  }

  /** Where the content and the closing parenthesis of a group's piece lie. */
  lemma GroupPieceParts(d: string, piece: string, h: Hit)
    requires piece == "(" + d + ")"
    requires h == Hit(0, "", 1, 1 + |d|)
    ensures h.close + 1 == |piece| && piece[h.contentStart..h.close] == d
    ensures Replacement(UnnamedMeta, h) == "{}"
  {
    assert piece[1..1 + |d|] == d;
  }

  lemma NamedStep(n: string, x: string, rest: string, behind: bool)
    requires IsIdentifier(n) && Closable(x)
    requires Inert(NamedMeta, "{" + n + "}", behind) && Joinable("{" + n + "}")
    ensures var d := DoubleBraces(x);
      Collect(NamedMeta, "(?P<" + n + ">" + d + ")" + rest, behind)
        == ("{" + n + "}" + Collect(NamedMeta, rest, behind).0, [(n, d)] + Collect(NamedMeta, rest, behind).1)
  {
    var d := DoubleBraces(x);
    var piece := "(?P<" + n + ">" + d + ")";
    var h := Hit(0, n, 5 + |n|, 5 + |n| + |d|);
    NamedPieceParts(n, d, piece, h);
    ClosableDoubled(x);
    NamedHit(n, d, piece, rest, behind, h);
    HitStep(NamedMeta, piece, rest, h, "{" + n + "}", d, behind);
  }

  /** A pass over a rendered pattern replaces exactly its targeted chunks and
      records them from left to right. */
  lemma {:induction false} CollectChunks(meta: Meta, chunks: seq<Chunk>, behind: bool)
    requires WellFormedChunks(chunks, behind)
    ensures Collect(meta, Rendered(chunks, StageOf(meta)), behind)
      == (Rendered(chunks, StageOf(meta) + 1), Pairs(chunks, meta))
    decreases |chunks|
  {
    var st := StageOf(meta);
    if chunks == [] {
      CollectNone(meta, "", behind);
    } else {
      var c := chunks[0];
      var cs := chunks[1..];
      assert WellFormedChunk(c, behind);
      CollectChunks(meta, cs, behind);
      var rest := Rendered(cs, st);
      if Targets(meta, c) {
        TargetStep(meta, c, rest, behind);
      } else {
        PieceInert(meta, c, behind);
        CollectShift(meta, PieceAt(c, st), rest, behind);
      }
    }
  }

  // ---------------------------------------------------------------------
  // The whole eversion

  lemma DoubledBraceFree(t: string)
    requires BraceFree(t)
    ensures DoubleBraces(t) == t
  {
  }

  lemma PieceDoubled(c: Chunk, behind: bool)
    requires WellFormedChunk(c, behind)
    ensures DoubleBraces(SourceOf(c)) == PieceAt(c, 0)
  {
    match c
    case Lit(t) =>
    case Group(x) =>
      DoubleBracesAppend("(", x);
      DoubleBracesAppend("(" + x, ")");
      DoubledBraceFree("(");
      DoubledBraceFree(")");
    case NamedGroup(n, x) =>
      var opener := "(?P<" + n + ">";
      IdentifierNoParen(n);
      DoubledBraceFree(opener) by {
        forall k | 0 <= k < |opener|
          ensures opener[k] != '{' && opener[k] != '}'
        {
          if 4 <= k < 4 + |n| {
            assert opener[k] == n[k - 4];
            assert n[k - 4] in n;
          }
        }
      }
      DoubleBracesAppend(opener, x);
      DoubleBracesAppend(opener + x, ")");
      DoubledBraceFree(")");
  }

  /** Doubling the braces of a pattern renders each of its chunks. */
  lemma {:induction false} SourceDoubled(chunks: seq<Chunk>, behind: bool)
    requires WellFormedChunks(chunks, behind)
    ensures DoubleBraces(Source(chunks)) == Rendered(chunks, 0)
    decreases |chunks|
  {
    if chunks != [] {
      assert WellFormedChunk(chunks[0], behind);
      SourceDoubled(chunks[1..], behind);
      DoubleBracesAppend(SourceOf(chunks[0]), Source(chunks[1..]));
      PieceDoubled(chunks[0], behind);
    }
  }

  lemma {:induction false} UnnamedPairs(chunks: seq<Chunk>)
    ensures Contents(Pairs(chunks, UnnamedMeta)) == DoubledAll(GroupContents(chunks))
    decreases |chunks|
  {
    if chunks != [] {
      UnnamedPairs(chunks[1..]);
      if chunks[0].Group? {
        var tail := Pairs(chunks[1..], UnnamedMeta);
        assert Pairs(chunks, UnnamedMeta) == [PairOf(chunks[0])] + tail;
        assert GroupContents(chunks) == [chunks[0].content] + GroupContents(chunks[1..]);
        assert Contents([PairOf(chunks[0])] + tail) == [DoubleBraces(chunks[0].content)] + Contents(tail);
      }
    }
  }

  lemma {:induction false} NamedPairs(chunks: seq<Chunk>)
    ensures NamedMap(Pairs(chunks, NamedMeta)) == DoubledMap(NamedContents(chunks))
    decreases |chunks|
  {
    if chunks != [] {
      NamedPairs(chunks[1..]);
      if chunks[0].NamedGroup? {
        var tail := Pairs(chunks[1..], NamedMeta);
        var ps := [PairOf(chunks[0])] + tail;
        assert Pairs(chunks, NamedMeta) == ps;
        assert ps[1..] == tail;
        assert NamedMap(ps) == map[chunks[0].name := DoubleBraces(chunks[0].content)] + NamedMap(tail);
        DoubledMapUpdate(chunks[0].name, chunks[0].content, NamedContents(chunks[1..]));
      }
    }
  }

  lemma DoubledMapUpdate(n: string, x: string, m: map<string, string>)
    ensures DoubledMap(map[n := x] + m) == map[n := DoubleBraces(x)] + DoubledMap(m)
  {
    var l := DoubledMap(map[n := x] + m);
    var r := map[n := DoubleBraces(x)] + DoubledMap(m);
    assert l.Keys == r.Keys;
    forall k | k in l
      ensures l[k] == r[k]
    {
      if k in m {
        assert l[k] == DoubleBraces(m[k]) == r[k];
      }
    }
  }

  lemma UndoubledDoubled(xs: seq<string>, m: map<string, string>)
    ensures UndoubledAll(DoubledAll(xs)) == xs
    ensures UndoubledMap(DoubledMap(m)) == m
  {
    forall j | 0 <= j < |xs|
      ensures UndoubleBraces(DoubleBraces(xs[j])) == xs[j]
    {
      UndoubleDouble(xs[j]);
    }
    forall k | k in m
      ensures UndoubleBraces(DoubleBraces(m[k])) == m[k]
    {
      UndoubleDouble(m[k]);
    }
  }

  /** Eversion of a well-formed pattern: the template renders literal text
      with doubled braces, `{}` per unnamed group and `{name}` per named
      group; the recorded sub-patterns are the groups' contents when
      undoubled, and their brace-doubled contents otherwise. */
  lemma EvertChunks(chunks: seq<Chunk>, behind: bool)
    requires WellFormedChunks(chunks, behind)
    ensures EvertWith(Source(chunks), behind, true)
      == Everted(Template(chunks), GroupContents(chunks), NamedContents(chunks))
    ensures EvertWith(Source(chunks), behind, false)
      == Everted(Template(chunks), DoubledAll(GroupContents(chunks)), DoubledMap(NamedContents(chunks)))
  {
    var pattern := Source(chunks);
    SourceDoubled(chunks, behind);
    CollectChunks(UnnamedMeta, chunks, behind);
    var first := Collect(UnnamedMeta, DoubleBraces(pattern), behind);
    assert first == (Rendered(chunks, 1), Pairs(chunks, UnnamedMeta));
    CollectChunks(NamedMeta, chunks, behind);
    var second := Collect(NamedMeta, first.0, behind);
    assert second == (Template(chunks), Pairs(chunks, NamedMeta));
    UnnamedPairs(chunks);
    NamedPairs(chunks);
    var unnamed := Contents(first.1);
    var named := NamedMap(second.1);
    assert unnamed == DoubledAll(GroupContents(chunks));
    assert named == DoubledMap(NamedContents(chunks));
    UndoubledDoubled(GroupContents(chunks), NamedContents(chunks));
    assert EvertWith(pattern, behind, true) == Everted(second.0, UndoubledAll(unnamed), UndoubledMap(named));
    assert EvertWith(pattern, behind, false) == Everted(second.0, unnamed, named);
  }

  /** The corrected eversion gives back each group's own text. */
  lemma EvertCorrectedChunks(chunks: seq<Chunk>)
    requires WellFormedChunks(chunks, true)
    ensures EvertCorrected(Source(chunks)) == Everted(Template(chunks), GroupContents(chunks), NamedContents(chunks))
  {
    EvertChunks(chunks, true);
  }

  /** As written, eversion records the brace-doubled text of each group. */
  lemma EvertAsWrittenChunks(chunks: seq<Chunk>)
    requires WellFormedChunks(chunks, false)
    ensures EvertAsWritten(Source(chunks))
      == Everted(Template(chunks), DoubledAll(GroupContents(chunks)), DoubledMap(NamedContents(chunks)))
  {
    EvertChunks(chunks, false);
  }

  // ---------------------------------------------------------------------
  // Two patterns on which the code as written goes wrong

  lemma NoParenNoHit(meta: Meta, s: string, behind: bool)
    requires '(' !in s
    ensures FindHit(meta, s, 0, behind).None?
    ensures Collect(meta, s, behind) == (s, [])
  {
    NoParenInert(meta, s, behind);
    FindHitSkip(meta, s, [], 0, behind);
    assert s + [] == s;
    CollectNone(meta, s, behind);
  }

  /** `s` spells the pattern `\((a)`: an escaped parenthesis, then a group. */
  predicate EscapedParenText(s: string) {
    |s| == 5 && s[0] == '\\' && s[1] == '(' && s[2] == '(' && s[3] == 'a' && s[4] == ')'
  }

  /** As written, the guard does not stop an escaped parenthesis from opening
      a group: in `\((a)` the recorded sub-pattern is `(a`, which is not a
      regular expression, and the template has lost the escaped parenthesis. */
  lemma EscapedParenAsWritten(s: string)
    requires EscapedParenText(s)
    ensures EvertAsWritten(s) == Everted("\\{}", ["(a"], map[])
  {
    var t := "\\{}";
    assert DoubleBraces(s) == s by {
      DoubledBraceFree(s);
    }
    assert Collect(UnnamedMeta, s, false) == (t, [("", "(a")]) by {
      EscapedParenCollect(s);
    }
    assert Collect(NamedMeta, t, false) == (t, []) by {
      NoParenNoHit(NamedMeta, t, false);
    }
    assert Contents([("", "(a")]) == ["(a"];
  }

  /** The unnamed pass records `(a` and leaves `\\{}`. */
  lemma EscapedParenCollect(s: string)
    requires EscapedParenText(s)
    ensures Collect(UnnamedMeta, s, false) == ("\\{}", [("", "(a")])
  {
    var t := "\\{}";
    assert FindHit(UnnamedMeta, s, 0, false) == Some(Hit(1, "", 2, 4)) by {
      EscapedParenHit(s);
    }
    assert s[..1] + "{}" + s[5..] == t && s[2..4] == "(a";
    NoParenNoHit(UnnamedMeta, t, false);
    CollectUnfold(UnnamedMeta, s, Hit(1, "", 2, 4), false, t, "(a");
    assert [("", "(a")] + [] == [("", "(a")];
  }

  /** Without the look-behind the first match starts at the escaped
      parenthesis. */
  lemma EscapedParenHit(s: string)
    requires EscapedParenText(s)
    ensures FindHit(UnnamedMeta, s, 0, false) == Some(Hit(1, "", 2, 4))
  {
    assert MatchAt(UnnamedMeta, s, 0, false).None?;
    assert LazyClose(s, 4) == Some(4);
    assert LazyClose(s, 3) == Some(4);
    assert MatchAt(UnnamedMeta, s, 1, false) == Some(Hit(1, "", 2, 4));
  }

  /** With the look-behind the escaped parenthesis stays literal text and
      the group that follows it is recorded as `a`. */
  lemma EscapedParenCorrected()
    ensures EvertCorrected("\\((a)") == Everted("\\({}", ["a"], map[])
  {
    var chunks := [Lit("\\("), Group("a")];
    EscapedChunks(chunks);
    EvertCorrectedChunks(chunks);
  }

  lemma EscapedChunks(chunks: seq<Chunk>)
    requires chunks == [Lit("\\("), Group("a")]
    ensures Source(chunks) == "\\((a)" && Template(chunks) == "\\({}"
    ensures GroupContents(chunks) == ["a"] && NamedContents(chunks) == map[]
    ensures WellFormedChunks(chunks, true)
  {
    assert chunks[1..] == [Group("a")];
    assert chunks[1..][1..] == [];
    EscapedChunksText(chunks);
    assert NamedContents(chunks[1..]) == map[];
    assert GroupContents(chunks[1..]) == ["a"];
    assert WellFormedChunk(chunks[0], true);
    assert WellFormedChunk(chunks[1], true);
  }

  lemma EscapedChunksText(chunks: seq<Chunk>)
    requires chunks == [Lit("\\("), Group("a")]
    ensures Source(chunks) == "\\((a)" && Template(chunks) == "\\({}"
  {
    assert chunks[1..] == [Group("a")];
    assert chunks[1..][1..] == [];
    assert Source(chunks[1..]) == "(a)" + "";
    assert Source(chunks) == "\\(" + "(a)";
    DoubledBraceFree("\\(");
    assert Rendered(chunks[1..], 2) == "{}" + "";
    assert Rendered(chunks, 2) == "\\(" + "{}";
  }

  /** As written, a group whose content has a brace records it doubled:
      `(a{2})` records `a{{2}}`, a different regular expression. */
  lemma BracedGroupAsWritten()
    ensures EvertAsWritten("(a{2})").unnamed == ["a{{2}}"]
  {
    var chunks := [Group("a{2}")];
    assert Source(chunks) == "(a{2})" && WellFormedChunks(chunks, false)
        && GroupContents(chunks) == ["a{2}"] by {
      BracedChunks(chunks);
    }
    EvertAsWrittenChunks(chunks);
    BracedDoubled();
  }

  /** With the corrected eversion `(a{2})` records its own content. */
  lemma BracedGroupCorrected()
    ensures EvertCorrected("(a{2})").unnamed == ["a{2}"]
  {
    var chunks := [Group("a{2}")];
    assert Source(chunks) == "(a{2})" && WellFormedChunks(chunks, true)
        && GroupContents(chunks) == ["a{2}"] by {
      BracedChunks(chunks);
    }
    EvertCorrectedChunks(chunks);
  }

  lemma BracedChunks(chunks: seq<Chunk>)
    requires chunks == [Group("a{2}")]
    ensures Source(chunks) == "(a{2})" && GroupContents(chunks) == ["a{2}"]
    ensures WellFormedChunks(chunks, false) && WellFormedChunks(chunks, true)
  {
    assert chunks[1..] == [];
    assert Source(chunks) == "(a{2})" + "";
    assert WellFormedChunk(chunks[0], false);
    assert WellFormedChunk(chunks[0], true);
  }

  lemma BracedDoubled()
    ensures DoubleBraces("a{2}") == "a{{2}}"
  {
    assert "}"[1..] == [];
    assert DoubleBraces("}") == "}}";
    assert "2}"[1..] == "}";
    assert DoubleBraces("2}") == "2}}";
    assert "{2}"[1..] == "2}";
    assert DoubleBraces("{2}") == "{{2}}";
    assert "a{2}"[1..] == "{2}";
  }
}
