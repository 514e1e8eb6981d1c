/** Character classes and literal string operations shared by every layer:
    occurrence tests, look-behind tests, literal splitting and joining, and the
    brace doubling that prepares text for a round of `str.format`. */
module Text {

  datatype Option<+T> = None | Some(value: T)

  datatype Result<+T, +E> = Ok(value: T) | Err(error: E)

  /** `t` occurs in `s` starting at position `p`. */
  predicate LitAt(s: string, p: nat, t: string) {
    p + |t| <= |s| && s[p..p + |t|] == t
  }

  /** `t` occurs in `s` ending exactly at position `p` (what a look-behind tests). */
  predicate LitBefore(s: string, p: nat, t: string) {
    |t| <= p <= |s| && s[p - |t|..p] == t
  }

  /** `t` occurs somewhere in `s`. */
  predicate Contains(s: string, t: string) {
    exists p :: 0 <= p <= |s| && LitAt(s, p, t)
  }

  predicate IsDigit(c: char) {
    '0' <= c <= '9'
  }

  /** ASCII reading of Python's `\w`. */
  predicate IsWordChar(c: char) {
    ('a' <= c <= 'z') || ('A' <= c <= 'Z') || IsDigit(c) || c == '_'
  }

  /** ASCII reading of Python's `[^\d\W]\w*`. */
  predicate IsIdentifier(s: string) {
    && |s| > 0
    && !IsDigit(s[0])
    && forall i :: 0 <= i < |s| ==> IsWordChar(s[i])
  }

  /** The characters that `re.escape` prefixes with a backslash (Python 3.7 and later). */
  predicate IsRegexSpecial(c: char) {
    || c == '(' || c == ')' || c == '[' || c == ']' || c == '{' || c == '}'
    || c == '?' || c == '*' || c == '+' || c == '-' || c == '|' || c == '^'
    || c == '$' || c == '\\' || c == '.' || c == '&' || c == '~' || c == '#'
    || c == ' ' || c == '\t' || c == '\n' || c == '\r' || c == '\U{000B}' || c == '\U{000C}'
  }

  /** Length of `re.escape(t)`: one extra character per special character. */
  function ReEscapedLength(t: string): (n: nat)
    ensures n >= |t|
    ensures |t| == 1 ==> (n == 1 <==> !IsRegexSpecial(t[0]))
  {
    if t == [] then 0
    else (if IsRegexSpecial(t[0]) then 2 else 1) + ReEscapedLength(t[1..])
  }

  /** The first position at or after `from` where `t` occurs. */
  function FindFrom(s: string, t: string, from: nat): (r: Option<nat>)
    requires from <= |s|
    ensures r.Some? ==> from <= r.value <= |s| && LitAt(s, r.value, t)
    ensures r.Some? ==> forall q :: from <= q < r.value ==> !LitAt(s, q, t)
    ensures r.None? ==> forall q :: from <= q <= |s| ==> !LitAt(s, q, t)
    decreases |s| - from
  {
    if LitAt(s, from, t) then Some(from)
    else if from == |s| then None
    else FindFrom(s, t, from + 1)
  }

  /** `re.split` on a literal, non-empty separator: the pieces between the
      leftmost non-overlapping occurrences of `sep`. */
  function Split(s: string, sep: string): (parts: seq<string>)
    requires |sep| > 0
    ensures |parts| >= 1
    decreases |s|
  {
    var r := FindFrom(s, sep, 0);
    if r.None? then [s] else [s[..r.value]] + Split(s[r.value + |sep|..], sep)
  }

  /** `sep.join(parts)`. */
  function Join(parts: seq<string>, sep: string): string {
    if |parts| == 0 then ""
    else if |parts| == 1 then parts[0]
    else parts[0] + sep + Join(parts[1..], sep)
  }

  /** Joining the pieces of a split with the same separator gives back the text. */
  lemma {:induction false} JoinSplit(s: string, sep: string)
    requires |sep| > 0
    ensures Join(Split(s, sep), sep) == s
    decreases |s|
  {
    var r := FindFrom(s, sep, 0);
    if r.Some? {
      var k := r.value;
      var rest := s[k + |sep|..];
      JoinSplit(rest, sep);
      var tail := Split(rest, sep);
      SplitUnfold(s, sep, k);
      JoinCons(s[..k], tail, sep);
      assert s[k..k + |sep|] == sep;
      assert s == s[..k] + s[k..k + |sep|] + rest;
    }
  }

  lemma SplitUnfold(s: string, sep: string, k: nat)
    requires |sep| > 0
    requires FindFrom(s, sep, 0) == Some(k)
    ensures Split(s, sep) == [s[..k]] + Split(s[k + |sep|..], sep)
  {
  }

  lemma JoinCons(a: string, tail: seq<string>, sep: string)
    requires |tail| >= 1
    ensures Join([a] + tail, sep) == a + sep + Join(tail, sep)
  {
    assert ([a] + tail)[1..] == tail;
  }

  lemma Associative(a: string, b: string, c: string)
    ensures (a + b) + c == a + (b + c)
  {
  }

  lemma EmptyLeft(a: string, b: string)
    requires a == []
    ensures a + b == b
  {
  }

  /** Each part preceded by `sep`. */
  function Lead(parts: seq<string>, sep: string): string {
    if parts == [] then "" else sep + parts[0] + Lead(parts[1..], sep)
  }

  /** A separator in front of a join puts one in front of every part. */
  lemma {:induction false} LeadJoin(parts: seq<string>, sep: string)
    requires |parts| >= 1
    ensures sep + Join(parts, sep) == Lead(parts, sep)
    decreases |parts|
  {
    if |parts| == 1 {
      assert parts[1..] == [];
    } else {
      LeadJoin(parts[1..], sep);
      assert sep + Join(parts, sep) == sep + parts[0] + (sep + Join(parts[1..], sep));
    }
  }

  /** A one-character literal is found nowhere in a text without that character. */
  lemma FindAbsent(s: string, t: string)
    requires |t| == 1 && t[0] !in s
    ensures FindFrom(s, t, 0).None?
  {
  }

  /** A one-character literal is first found where it is first written. */
  lemma FindAfter(a: string, t: string, rest: string)
    requires |t| == 1 && t[0] !in a
    ensures FindFrom(a + t + rest, t, 0) == Some(|a|)
  {
    var s := a + t + rest;
    assert s[|a|..|a| + 1] == t;
    assert LitAt(s, |a|, t);
  }

  /** Splitting on a one-character separator undoes joining pieces that do
      not contain it. */
  lemma {:induction false} SplitJoin(parts: seq<string>, sep: string)
    requires |sep| == 1 && |parts| >= 1
    requires forall i :: 0 <= i < |parts| ==> sep[0] !in parts[i]
    ensures Split(Join(parts, sep), sep) == parts
    decreases |parts|
  {
    if |parts| == 1 {
      FindAbsent(parts[0], sep);
    } else {
      var rest := Join(parts[1..], sep);
      var s := Join(parts, sep);
      assert s == parts[0] + sep + rest;
      FindAfter(parts[0], sep, rest);
      SplitUnfold(s, sep, |parts[0]|);
      assert s[..|parts[0]|] == parts[0];
      assert s[|parts[0]| + |sep|..] == rest;
      SplitJoin(parts[1..], sep);
      assert parts == [parts[0]] + parts[1..];
    }
  }

  /** A slice that starts with `a` and ends with `b` in the text shows them
      at its own ends. */
  lemma FramedSlice(s: string, i: nat, e: nat, a: string, b: string)
    requires i + |a| + |b| <= e <= |s|
    requires LitAt(s, i, a) && LitAt(s, e - |b|, b)
    ensures s[i..e][..|a|] == a && s[i..e][e - i - |b|..] == b
  {
    assert s[i..e][..|a|] == s[i..i + |a|];
    assert s[i..e][e - i - |b|..] == s[e - |b|..e];
  }

  /** No piece of a split contains the separator. */
  lemma {:induction false} SplitPiecesFree(s: string, sep: string)
    requires |sep| > 0
    ensures forall i :: 0 <= i < |Split(s, sep)| ==> !Contains(Split(s, sep)[i], sep)
    decreases |s|
  {
    match FindFrom(s, sep, 0)
    case None =>
    case Some(k) =>
      var rest := s[k + |sep|..];
      SplitPiecesFree(rest, sep);
      var parts := Split(s, sep);
      assert parts == [s[..k]] + Split(rest, sep);
      forall i | 0 <= i < |parts|
        ensures !Contains(parts[i], sep)
      {
        if i == 0 {
          if Contains(s[..k], sep) {
            var q :| 0 <= q <= k && LitAt(s[..k], q, sep);
            assert s[..k][q..q + |sep|] == s[q..q + |sep|];
            assert LitAt(s, q, sep);
            assert false;
          }
        } else {
          assert parts[i] == Split(rest, sep)[i - 1];
        }
      }
  }

  /** `re.sub('{', '{{', re.sub('}', '}}', s))`: every brace is doubled. */
  function DoubleBraces(s: string): (r: string)
    ensures |r| >= |s|
    ensures (forall i :: 0 <= i < |s| ==> s[i] != '{' && s[i] != '}') ==> r == s
  {
    if s == [] then []
    else (if s[0] == '{' || s[0] == '}' then [s[0], s[0]] else [s[0]]) + DoubleBraces(s[1..])
  }

  lemma {:induction false} DoubleBracesAppend(a: string, b: string)
    ensures DoubleBraces(a + b) == DoubleBraces(a) + DoubleBraces(b)
    decreases |a|
  {
    if a != [] {
      assert (a + b)[1..] == a[1..] + b;
      DoubleBracesAppend(a[1..], b);
    } else {
      assert a + b == b;
    }
  }

  /** A character other than a brace occurs in the doubled text exactly
      where it occurs in the original. */
  lemma {:induction false} DoubleBracesChars(s: string, c: char)
    requires c != '{' && c != '}'
    ensures c in DoubleBraces(s) <==> c in s
    decreases |s|
  {
    if s != [] {
      DoubleBracesChars(s[1..], c);
      assert s == [s[0]] + s[1..];
    }
  }

  /** Doubling keeps the first and the last character. */
  lemma {:induction false} DoubleBracesEnds(s: string)
    requires |s| > 0
    ensures |DoubleBraces(s)| > 0
    ensures DoubleBraces(s)[0] == s[0]
    ensures DoubleBraces(s)[|DoubleBraces(s)| - 1] == s[|s| - 1]
    decreases |s|
  {
    if |s| > 1 {
      DoubleBracesEnds(s[1..]);
    }
  }

  /** What a round of `str.format` makes of literal text: each doubled brace
      becomes a single one. */
  function UndoubleBraces(s: string): (r: string)
    ensures |r| <= |s|
    decreases |s|
  {
    if |s| >= 2 && (s[0] == '{' || s[0] == '}') && s[1] == s[0] then [s[0]] + UndoubleBraces(s[2..])
    else if s == [] then []
    else [s[0]] + UndoubleBraces(s[1..])
  }

  /** Undoubling reverses doubling. */
  lemma {:induction false} UndoubleDouble(s: string)
    ensures UndoubleBraces(DoubleBraces(s)) == s
    decreases |s|
  {
    if s != [] {
      UndoubleDouble(s[1..]);
      var d := DoubleBraces(s);
      if s[0] == '{' || s[0] == '}' {
        assert d == [s[0], s[0]] + DoubleBraces(s[1..]);
        assert d[2..] == DoubleBraces(s[1..]);
      } else {
        assert d == [s[0]] + DoubleBraces(s[1..]);
        assert d[1..] == DoubleBraces(s[1..]);
      }
    }
  }

  /** No brace characters at all. */
  predicate BraceFree(s: string) {
    forall i :: 0 <= i < |s| ==> s[i] != '{' && s[i] != '}'
  }

  /** Concatenation of a sequence of strings. */
  function Concat(parts: seq<string>): string {
    if parts == [] then "" else parts[0] + Concat(parts[1..])
  }

  lemma ConcatAppend(a: seq<string>, b: seq<string>)
    ensures Concat(a + b) == Concat(a) + Concat(b)
  {
    if a == [] {
      assert a + b == b;
    } else {
      assert (a + b)[1..] == a[1..] + b;
    }
  }
}
