/** Match objects and the way `OneWayProcessor` breaks them down for a
    processor function: unnamed groups become positional arguments in group
    order, named groups become keyword arguments, and named groups that did
    not participate in the match are dropped so that the function's own
    defaults apply. */
module Groups {
  import opened Text

  /** One match: its extent and the text of groups 1..n, `None` for a group
      that did not participate. */
  datatype Match = Match(start: nat, end: nat, groups: seq<Option<string>>)

  /** A compiled regex as the processors use it: `at(s, i)` is the match the
      regex engine prefers among those starting at `i`, if any;
      `advancing(s, i)` is the one it prefers among the non-empty matches
      starting at `i`, which is what `re.sub` asks for right after an empty
      match at `i` (Python 3.7 and later); `groupCount` and `groupIndex` are
      `re.groups` and `re.groupindex`. */
  datatype Pattern = Pattern(
    at: (string, nat) -> Option<Match>,
    advancing: (string, nat) -> Option<Match>,
    groupCount: nat,
    groupIndex: map<string, nat>)

  /** What the regex engine guarantees of a compiled pattern: group names
      refer to existing groups, and a match starting at `i` lies inside the
      text and reports every group.  The non-empty retry is the preferred
      match itself when that is non-empty, and there is none when nothing
      matches at `i`. */
  ghost predicate ValidPattern(p: Pattern) {
    && (forall k :: k in p.groupIndex ==> 1 <= p.groupIndex[k] <= p.groupCount)
    && (forall s: string, i: nat :: p.at(s, i).Some? ==>
          && p.at(s, i).value.start == i
          && i <= p.at(s, i).value.end <= |s|
          && |p.at(s, i).value.groups| == p.groupCount)
    && (forall s: string, i: nat :: p.advancing(s, i).Some? ==>
          && p.advancing(s, i).value.start == i
          && i < p.advancing(s, i).value.end <= |s|
          && |p.advancing(s, i).value.groups| == p.groupCount)
    && (forall s: string, i: nat :: p.at(s, i).Some? && p.at(s, i).value.end > i ==>
          p.advancing(s, i) == p.at(s, i))
    && (forall s: string, i: nat :: p.at(s, i).None? ==> p.advancing(s, i).None?)
  }

  /** Group numbers that some name refers to. */
  function NamedIndices(p: Pattern): set<nat> {
    set k | k in p.groupIndex :: p.groupIndex[k]
  }

  /** The numbers from `lo` to `hi` that are not in `named`, ascending. */
  function UnnamedBetween(lo: nat, hi: nat, named: set<nat>): (r: seq<nat>)
    ensures forall j :: 0 <= j < |r| ==> lo <= r[j] <= hi && r[j] !in named
    ensures forall j, k :: 0 <= j < k < |r| ==> r[j] < r[k]
    ensures forall i :: lo <= i <= hi && i !in named ==> i in r
    decreases hi + 1 - lo
  {
    if lo > hi then []
    else if lo in named then UnnamedBetween(lo + 1, hi, named)
    else [lo] + UnnamedBetween(lo + 1, hi, named)
  }

  /** `_unnamed_group_indices`: the groups no name refers to, in group order. */
  function UnnamedIndices(p: Pattern): (r: seq<nat>)
    ensures forall j :: 0 <= j < |r| ==> 1 <= r[j] <= p.groupCount && r[j] !in NamedIndices(p)
    ensures forall j, k :: 0 <= j < k < |r| ==> r[j] < r[k]
    ensures forall i :: 1 <= i <= p.groupCount && i !in NamedIndices(p) ==> i in r
  {
    UnnamedBetween(1, p.groupCount, NamedIndices(p))
  }

  /** `_unique_groups`: the positional arguments (unnamed groups, in order) and
      the keyword arguments (named groups that participated). */
  function UniqueGroups(p: Pattern, m: Match): (r: (seq<Option<string>>, map<string, string>))
    requires ValidPattern(p) && |m.groups| == p.groupCount
    ensures |r.0| == |UnnamedIndices(p)|
    ensures forall j :: 0 <= j < |r.0| ==> r.0[j] == m.groups[UnnamedIndices(p)[j] - 1]
    ensures forall k :: k in r.1 <==> k in p.groupIndex && m.groups[p.groupIndex[k] - 1].Some?
    ensures forall k :: k in r.1 ==> r.1[k] == m.groups[p.groupIndex[k] - 1].value
  {
    var idx := UnnamedIndices(p);
    var positional := seq(|idx|, j requires 0 <= j < |idx| => m.groups[idx[j] - 1]);
    var named := map k | k in p.groupIndex && m.groups[p.groupIndex[k] - 1].Some?
                   :: m.groups[p.groupIndex[k] - 1].value;
    (positional, named)
  }

  /** Every group reaches the function exactly once: a group either is a
      positional argument or has a name, never both. */
  lemma GroupsPartitioned(p: Pattern, i: nat)
    requires ValidPattern(p) && 1 <= i <= p.groupCount
    ensures (i in UnnamedIndices(p)) != (i in NamedIndices(p))
  {
  }

  /** The numbers `lo`, `lo + 1`, ..., `hi`. */
  function Range(lo: nat, hi: nat): (r: seq<nat>)
    ensures |r| == if lo <= hi then hi + 1 - lo else 0
    decreases hi + 1 - lo
  {
    if lo > hi then [] else [lo] + Range(lo + 1, hi)
  }

  /** When the named groups are exactly those after group `n`, the unnamed
      groups are 1..n in order. */
  lemma UnnamedLeading(p: Pattern, n: nat)
    requires n <= p.groupCount
    requires forall i :: 1 <= i <= n ==> i !in NamedIndices(p)
    requires forall i :: n < i <= p.groupCount ==> i in NamedIndices(p)
    ensures UnnamedIndices(p) == Range(1, n)
  {
    UnnamedBetweenRange(1, p.groupCount, n, NamedIndices(p));
  }

  lemma {:induction false} UnnamedBetweenRange(lo: nat, hi: nat, n: nat, named: set<nat>)
    requires 1 <= lo <= n + 1 && n <= hi
    requires forall i :: lo <= i <= n ==> i !in named
    requires forall i :: n < i <= hi ==> i in named
    ensures UnnamedBetween(lo, hi, named) == Range(lo, n)
    decreases hi + 1 - lo
  {
    if lo > hi {
    } else if lo == n + 1 {
      UnnamedBetweenNone(lo, hi, named);
    } else {
      assert lo !in named;
      UnnamedBetweenRange(lo + 1, hi, n, named);
    }
  }

  lemma {:induction false} UnnamedBetweenNone(lo: nat, hi: nat, named: set<nat>)
    requires forall i :: lo <= i <= hi ==> i in named
    ensures UnnamedBetween(lo, hi, named) == []
    decreases hi + 1 - lo
  {
    if lo <= hi {
      UnnamedBetweenNone(lo + 1, hi, named);
    }
  }

  // ---------------------------------------------------------------------
  // The docstring's example: `(?P<n0>a)(b)(?P<n1>c)` matched against "abc"

  const ExampleIndex: map<string, nat> := map["n0" := 1, "n1" := 3]

  function ExampleAt(s: string, i: nat): Option<Match> {
    if i + 3 <= |s| && s[i..i + 3] == "abc"
    then Some(Match(i, i + 3, [Some("a"), Some("b"), Some("c")]))
    else None
  }

  /** The function receives the one unnamed group positionally and the two
      named groups by name. */
  lemma ExampleGroups()
    ensures var p := Pattern(ExampleAt, ExampleAt, 3, ExampleIndex);
      && ValidPattern(p)
      && UniqueGroups(p, ExampleAt("abc", 0).value)
         == ([Some("b")], map["n0" := "a", "n1" := "c"])
  {
    var p := Pattern(ExampleAt, ExampleAt, 3, ExampleIndex);
    assert NamedIndices(p) == {1, 3} by {
      assert p.groupIndex["n0"] == 1 && p.groupIndex["n1"] == 3;
    }
    assert UnnamedIndices(p) == [2];
    var m := ExampleAt("abc", 0).value;
    assert m.groups == [Some("a"), Some("b"), Some("c")];
    var r := UniqueGroups(p, m);
    assert r.0 == [Some("b")];
    assert r.1.Keys == {"n0", "n1"};
    assert r.1 == map["n0" := "a", "n1" := "c"];
  }
}
