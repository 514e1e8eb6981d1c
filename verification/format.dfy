/** The part of `str.format` that production relies on: doubled braces
    stand for single braces, `{}` takes the next positional argument and
    `{name}` the keyword argument of that name.  Field names other than the
    empty one and identifiers (numbers, attribute and index access) and
    conversion or format specifications are reported as bad fields. */
module Formatting {
  import opened Text

  datatype FormatError =
    | UnmatchedOpen            // `ValueError`: a `{` without its `}`
    | SingleClose              // `ValueError`: a lone `}`
    | IndexOutOfRange(index: nat)   // `IndexError`: too few positional arguments
    | MissingKey(key: string)  // `KeyError`
    | BadField(field: string)  // a field this model does not interpret

  /** `x` in front of a successful rendering; errors pass through. */
  function Prepend(x: string, r: Result<string, FormatError>): (q: Result<string, FormatError>)
    ensures q.Ok? <==> r.Ok?
    ensures q.Ok? ==> q.value == x + r.value
    ensures q.Err? ==> q == r
  {
    if r.Ok? then Ok(x + r.value) else r
  }

  /** `t.format(*args, **named)`, the automatic field numbering starting at
      `next`; the first problem from the left is the error raised. */
  function Format(t: string, args: seq<string>, named: map<string, string>, next: nat)
    : (r: Result<string, FormatError>)
    decreases |t|, 1
  {
    if t == [] then Ok([])
    else if t[0] == '{' then
      if |t| >= 2 && t[1] == '{' then Prepend("{", Format(t[2..], args, named, next))
      else Field(t, args, named, next)
    else if t[0] == '}' then
      if |t| >= 2 && t[1] == '}' then Prepend("}", Format(t[2..], args, named, next))
      else Err(SingleClose)
    else Prepend([t[0]], Format(t[1..], args, named, next))
  }

  /** The replacement field that opens `t`, then the rest of `t`. */
  function Field(t: string, args: seq<string>, named: map<string, string>, next: nat)
    : (r: Result<string, FormatError>)
    requires |t| >= 1
    decreases |t|, 0
  {
    var close := FindFrom(t, "}", 1);
    if close.None? then Err(UnmatchedOpen)
    else
      var field := t[1..close.value];
      var rest := t[close.value + 1..];
      if field == [] then
        if next < |args| then Prepend(args[next], Format(rest, args, named, next + 1))
        else Err(IndexOutOfRange(next))
      else if IsIdentifier(field) then
        if field in named then Prepend(named[field], Format(rest, args, named, next))
        else Err(MissingKey(field))
      else Err(BadField(field))
  }

  /** Formatting gives back the text whose braces were doubled, ahead of
      whatever follows. */
  lemma {:induction false} FormatLiteral(x: string, rest: string, args: seq<string>,
                                         named: map<string, string>, next: nat)
    ensures Format(DoubleBraces(x) + rest, args, named, next) == Prepend(x, Format(rest, args, named, next))
    decreases |x|
  {
    if x == [] {
      assert DoubleBraces(x) + rest == rest;
      PrependEmpty(Format(rest, args, named, next));
    } else {
      FormatLiteral(x[1..], rest, args, named, next);
      FormatLiteralStep(x, rest, args, named, next);
    }
  }

  lemma FormatLiteralStep(x: string, rest: string, args: seq<string>, named: map<string, string>, next: nat)
    requires x != []
    requires Format(DoubleBraces(x[1..]) + rest, args, named, next) == Prepend(x[1..], Format(rest, args, named, next))
    ensures Format(DoubleBraces(x) + rest, args, named, next) == Prepend(x, Format(rest, args, named, next))
  {
    var u := DoubleBraces(x[1..]) + rest;
    DoubleBracesCons(x, rest);
    if x[0] == '{' || x[0] == '}' {
      FormatBraceStep(x[0], u, args, named, next);
    } else {
      FormatCharStep(x[0], u, args, named, next);
    }
    PrependPrepend([x[0]], x[1..], Format(rest, args, named, next));
    assert x == [x[0]] + x[1..];
  }

  lemma DoubleBracesCons(x: string, rest: string)
    requires x != []
    ensures DoubleBraces(x) + rest
         == (if x[0] == '{' || x[0] == '}' then [x[0], x[0]] else [x[0]]) + (DoubleBraces(x[1..]) + rest)
  {
  }

  lemma FormatBraceStep(c: char, u: string, args: seq<string>, named: map<string, string>, next: nat)
    requires c == '{' || c == '}'
    ensures Format([c, c] + u, args, named, next) == Prepend([c], Format(u, args, named, next))
  {
    assert ([c, c] + u)[2..] == u;
  }

  lemma FormatCharStep(c: char, u: string, args: seq<string>, named: map<string, string>, next: nat)
    requires c != '{' && c != '}'
    ensures Format([c] + u, args, named, next) == Prepend([c], Format(u, args, named, next))
  {
    assert ([c] + u)[1..] == u;
  }

  lemma PrependEmpty(r: Result<string, FormatError>)
    ensures Prepend([], r) == r
  {
    if r.Ok? {
      assert [] + r.value == r.value;
    }
  }

  lemma PrependPrepend(a: string, b: string, r: Result<string, FormatError>)
    ensures Prepend(a, Prepend(b, r)) == Prepend(a + b, r)
  {
    if r.Ok? {
      assert a + (b + r.value) == (a + b) + r.value;
    }
  }

  /** One round of formatting undoes brace doubling. */
  lemma FormatDoubled(x: string, args: seq<string>, named: map<string, string>)
    ensures Format(DoubleBraces(x), args, named, 0) == Ok(x)
  {
    FormatLiteral(x, [], args, named, 0);
    assert DoubleBraces(x) + [] == DoubleBraces(x);
    assert x + [] == x;
  }

  /** `{}` takes the next positional argument, or fails when there is none. */
  lemma FormatAuto(rest: string, args: seq<string>, named: map<string, string>, next: nat)
    ensures Format("{}" + rest, args, named, next)
         == if next < |args| then Prepend(args[next], Format(rest, args, named, next + 1))
            else Err(IndexOutOfRange(next))
  {
    var t := "{}" + rest;
    assert Format(t, args, named, next) == Field(t, args, named, next);
    assert LitAt(t, 1, "}");
    assert t[1..1] == [] && t[2..] == rest;
  }

  /** `{name}` takes the keyword argument of that name, or fails when there
      is none. */
  lemma FormatNamed(k: string, rest: string, args: seq<string>, named: map<string, string>, next: nat)
    requires IsIdentifier(k)
    ensures Format("{" + k + "}" + rest, args, named, next)
         == if k in named then Prepend(named[k], Format(rest, args, named, next))
            else Err(MissingKey(k))
  {
    var t := "{" + k + "}" + rest;
    assert Format(t, args, named, next) == Field(t, args, named, next) by {
      assert t[0] == '{' && |t| >= 2 && t[1] == k[0] && k[0] != '{';
    }
    assert t[1..|k| + 1] == k;
    assert !LitAt(t, 1, "}") by { assert t[1] == k[0]; }
    forall q | 1 <= q < |k| + 1 ensures !LitAt(t, q, "}") {
      assert t[q] == k[q - 1];
    }
    assert LitAt(t, |k| + 1, "}");
    assert t[|k| + 2..] == rest;
  }
}
