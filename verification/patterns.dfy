/**
  The regular expressions of the remover, and the two operations it
  applies them with: `Regex.Replace(text, pattern, replacement)` and
  `Regex.Matches(text, pattern).Count`.

  A pattern is given by its matcher: the length of the match the regex
  engine finds when it tries the pattern at the start of a text, and 0
  when it finds none there. Every pattern here matches at least one
  character, so 0 never stands for an empty match, and each has a single
  match where it matches at all (its repetitions are greedy and cannot
  give back characters the rest of the pattern would accept). Both
  operations scan left to right: after a match the scan resumes just past
  it, otherwise it moves on by one character, so matches never overlap.
 */
module Patterns {
  import opened Text

  /** The attribute the remover strips. */
  const Target: string := "FormerlySerializedAs"

  /**
    The pattern `FormerlySerializedAs\([^)]*\)`: the name, `(`, and
    everything up to and including the first `)` after it. The name is
    matched as plain text, so `X.FormerlySerializedAs(a)` matches from the
    `F` on, and a `)` inside the arguments ends the match early.
   */
  function TargetLen(t: string): (n: nat)
    ensures n <= |t|
  {
    var open := |Target| + 1;
    if Target + "(" <= t then
      var close := open + FirstIndex(t[open..], ')');
      if close < |t| then close + 1 else 0
    else 0
  }

  /**
    The target pattern matches exactly where the text starts with
    `FormerlySerializedAs(` and a `)` follows somewhere; the match ends at
    the first such `)`.
   */
  lemma {:induction false} TargetLenSpec(t: string)
    ensures TargetLen(t) > 0 <==> Target + "(" <= t && ')' in t[|Target| + 1..]
    ensures TargetLen(t) > 0 ==>
      var n := TargetLen(t);
      |Target| + 1 < n && t[n - 1] == ')' && ')' !in t[|Target| + 1..n - 1]
  {
    var open := |Target| + 1;
    if Target + "(" <= t {
      var k := FirstIndex(t[open..], ')');
      if open + k < |t| {
        assert t[open..][k] == t[open + k];
        assert t[open..open + k] == t[open..][..k];
      }
    }
  }

  /** The pattern `FormerlySerializedAs\([^)]*\)\s*,`: the target, whitespace, and the comma after it. */
  function TargetCommaLen(t: string): (n: nat)
    ensures n <= |t|
    ensures n > 0 ==> TargetLen(t) < n && t[n - 1] == ','
  {
    var n := TargetLen(t);
    if n > 0 then
      var k := n + LeadingCount(t[n..], Space);
      if k < |t| && t[k] == ',' then k + 1 else 0
    else 0
  }

  /** The pattern `,\s*FormerlySerializedAs\([^)]*\)`: a comma, whitespace, and the target after it. */
  function CommaTargetLen(t: string): (n: nat)
    ensures n <= |t|
    ensures n > 0 ==> t[0] == ','
  {
    if t != [] && t[0] == ',' then
      var k := 1 + LeadingCount(t[1..], Space);
      var n := TargetLen(t[k..]);
      if n > 0 then k + n else 0
    else 0
  }

  /**
    `FormerlySerializedAs\([^)]*\)\s*,` matches where the target is followed,
    after whitespace only, by a comma; the whitespace and the comma are
    taken with it.
   */
  lemma {:induction false} TargetCommaLenSpec(t: string)
    ensures TargetCommaLen(t) > 0 ==> TargetLen(t) > 0
    ensures TargetCommaLen(t) > 0 ==>
      TargetCommaLen(t) == TargetLen(t) + LeadingCount(t[TargetLen(t)..], Space) + 1
    ensures TargetCommaLen(t) > 0 ==> AllSpace(t[TargetLen(t)..TargetCommaLen(t) - 1])
    ensures TargetCommaLen(t) == 0 && TargetLen(t) > 0 ==>
      var rest := TrimStart(t[TargetLen(t)..], Space); rest == [] || rest[0] != ','
  {
    var n := TargetLen(t);
    if n > 0 {
      var j := LeadingCount(t[n..], Space);
      LeadingSpaces(t[n..]);
      assert t[n..][..j] == t[n..n + j];
    }
  }

  /** `,\s*FormerlySerializedAs\([^)]*\)` matches where a comma is followed, after whitespace only, by the target. */
  lemma {:induction false} CommaTargetLenSpec(t: string)
    ensures CommaTargetLen(t) > 0 <==> t != [] && t[0] == ',' && TargetLen(TrimStart(t[1..], Space)) > 0
    ensures CommaTargetLen(t) > 0 ==>
      CommaTargetLen(t) == 1 + LeadingCount(t[1..], Space) + TargetLen(TrimStart(t[1..], Space))
  {
    if t != [] && t[0] == ',' {
      var j := LeadingCount(t[1..], Space);
      assert TrimStart(t[1..], Space) == t[1..][j..];
      assert t[1..][j..] == t[1 + j..];
    }
  }

  /** The pattern `\s*,\s*`: a comma with all the whitespace around it. */
  function SpacedCommaLen(t: string): (n: nat)
    ensures n <= |t|
  {
    var k := LeadingCount(t, Space);
    if k < |t| && t[k] == ',' then k + 1 + LeadingCount(t[k + 1..], Space) else 0
  }

  /** `\s*,\s*` matches where a comma follows the leading whitespace, and it takes all the whitespace after the comma. */
  lemma {:induction false} SpacedCommaLenSpec(t: string)
    ensures SpacedCommaLen(t) > 0 <==> var rest := TrimStart(t, Space); rest != [] && rest[0] == ','
    ensures SpacedCommaLen(t) > 0 ==> SpacedCommaLen(t) == |t| || !IsSpace(t[SpacedCommaLen(t)])
  {
    var k := LeadingCount(t, Space);
    if k < |t| && t[k] == ',' {
      var j := LeadingCount(t[k + 1..], Space);
      assert j == |t[k + 1..]| || !IsSpace(t[k + 1..][j]);
    }
  }

  /** The four fixed patterns of FormerlySerializedAsRemover.cs, lines 37-56. */
  datatype Pattern =
    | TargetCall           // FormerlySerializedAs\([^)]*\)
    | TargetCallThenComma  // FormerlySerializedAs\([^)]*\)\s*,
    | CommaThenTargetCall  // ,\s*FormerlySerializedAs\([^)]*\)
    | SpacedComma          // \s*,\s*

  /** The length of the match of `p` at the start of `t`, 0 when there is none. */
  function MatchLen(p: Pattern, t: string): (n: nat)
    ensures n <= |t|
  {
    match p
    case TargetCall => TargetLen(t)
    case TargetCallThenComma => TargetCommaLen(t)
    case CommaThenTargetCall => CommaTargetLen(t)
    case SpacedComma => SpacedCommaLen(t)
  }

  /** `Regex.Replace`: every match is replaced by `rep`, all other text is copied. */
  function Replace(t: string, p: Pattern, rep: string): string
    decreases |t|
  {
    if t == [] then []
    else if MatchLen(p, t) > 0 then rep + Replace(t[MatchLen(p, t)..], p, rep)
    else [t[0]] + Replace(t[1..], p, rep)
  }

  /** `Regex.Matches(...).Count`: the number of matches the same scan finds. */
  function Matches(t: string, p: Pattern): (n: nat)
    ensures n <= |t|
    decreases |t|
  {
    if t == [] then 0
    else if MatchLen(p, t) > 0 then 1 + Matches(t[MatchLen(p, t)..], p)
    else Matches(t[1..], p)
  }

  /** The scan finds nothing exactly when the pattern matches at no position. */
  lemma {:induction false} NoMatchesAnywhere(t: string, p: Pattern)
    ensures Matches(t, p) == 0 <==> forall i :: 0 <= i < |t| ==> MatchLen(p, t[i..]) == 0
    decreases |t|
  {
    if t != [] {
      assert t[0..] == t;
      if MatchLen(p, t) == 0 {
        NoMatchesAnywhere(t[1..], p);
        forall i | 1 <= i < |t| ensures MatchLen(p, t[1..][i - 1..]) == MatchLen(p, t[i..]) {
          assert t[1..][i - 1..] == t[i..];
        }
      }
    }
  }

  /** Where the pattern is never found, replacing changes nothing. */
  lemma {:induction false} ReplaceWithoutMatches(t: string, p: Pattern, rep: string)
    requires Matches(t, p) == 0
    ensures Replace(t, p, rep) == t
    decreases |t|
  {
    if t != [] {
      ReplaceWithoutMatches(t[1..], p, rep);
    }
  }

  /** Replacing by nothing only deletes: the characters that remain keep their order. */
  lemma {:induction false} ReplaceByNothingDeletes(t: string, p: Pattern)
    ensures IsSubsequence(Replace(t, p, []), t)
    decreases |t|
  {
    if t != [] {
      var n := MatchLen(p, t);
      if n > 0 {
        var rest := Replace(t[n..], p, []);
        ReplaceByNothingDeletes(t[n..], p);
        assert Replace(t, p, []) == rest;
        SubsequenceOfSuffix(rest, t, n);
      } else {
        var rest := Replace(t[1..], p, []);
        ReplaceByNothingDeletes(t[1..], p);
        assert Replace(t, p, []) == [t[0]] + rest;
        SubsequenceKeepingFirst(rest, t);
      }
    }
  }

  /** A stretch where the pattern is found at no position is copied, and the scan goes on after it. */
  lemma {:induction false} ScanPast(a: string, b: string, p: Pattern, rep: string)
    requires forall i :: 0 <= i < |a| ==> MatchLen(p, (a + b)[i..]) == 0
    ensures Replace(a + b, p, rep) == a + Replace(b, p, rep)
    ensures Matches(a + b, p) == Matches(b, p)
    decreases |a|
  {
    if a == [] {
      assert a + b == b;
    } else {
      NoMatchInTail(a, b, p);
      ScanPast(a[1..], b, p, rep);
      CopyFirst(a + b, p, rep);
      ConsTail(a, Replace(b, p, rep));
    }
  }

  /** Where the pattern does not match at the start, the scan copies one character. */
  lemma {:induction false} CopyFirst(t: string, p: Pattern, rep: string)
    requires t != [] && MatchLen(p, t) == 0
    ensures Replace(t, p, rep) == [t[0]] + Replace(t[1..], p, rep)
    ensures Matches(t, p) == Matches(t[1..], p)
  {
  }

  lemma {:induction false} ConsTail(a: string, x: string)
    requires a != []
    ensures [a[0]] + (a[1..] + x) == a + x
  {
    assert [a[0]] + a[1..] == a;
  }

  lemma {:induction false} NoMatchInTail(a: string, b: string, p: Pattern)
    requires a != [] && forall i :: 0 <= i < |a| ==> MatchLen(p, (a + b)[i..]) == 0
    ensures MatchLen(p, a + b) == 0 && (a + b)[1..] == a[1..] + b && (a + b)[0] == a[0]
    ensures forall i :: 0 <= i < |a| - 1 ==> MatchLen(p, (a[1..] + b)[i..]) == 0
  {
    assert (a + b)[0..] == a + b;
    forall i | 0 <= i < |a| - 1 ensures MatchLen(p, (a[1..] + b)[i..]) == 0 {
      assert (a[1..] + b)[i..] == (a + b)[i + 1..];
    }
  }

  /** A match at the start is replaced, and the scan goes on after it. */
  lemma {:induction false} MatchFirst(a: string, b: string, p: Pattern, rep: string)
    requires a != [] && MatchLen(p, a + b) == |a|
    ensures Replace(a + b, p, rep) == rep + Replace(b, p, rep)
    ensures Matches(a + b, p) == 1 + Matches(b, p)
  {
    assert (a + b)[|a|..] == b;
  }
}
