/**
  The remover on the attribute lists its unit tests feed it
  (CleanFormerlySerializedAsTests.cs). Each lemma is stated for every
  argument text and every kept attribute name of the test's shape, so the
  test inputs (arguments `"_hgo"`, `"old1"`, kept name `SerializeField`,
  and so on) are instances.
 */
module Scenarios {
  import opened Text
  import opened Patterns
  import opened AttributeCleaner
  import opened Remover

  /** `FormerlySerializedAs(arg)`, the attribute the remover strips. */
  function Fsa(arg: string): string {
    Target + "(" + arg + ")"
  }

  /** An argument text of the tests' shape: a string literal or a name, without brackets, parentheses, commas or line breaks. */
  predicate PlainArgument(a: string) {
    forall i :: 0 <= i < |a| ==> a[i] != '(' && a[i] != ')' && a[i] != ',' && a[i] != ']' && a[i] != '\n'
  }

  predicate NameChar(ch: char) {
    !IsSpace(ch) && ch != '(' && ch != ')' && ch != ',' && ch != '[' && ch != ']'
  }

  /** An attribute the remover keeps, such as `SerializeField` or `NotNull`. */
  predicate PlainName(n: string) {
    n != [] && forall i :: 0 <= i < |n| ==> NameChar(n[i])
  }

  // ---------------------------------------------------------------------
  // The patterns on these shapes

  lemma {:induction false} TargetLenOfFsa(a: string, r: string)
    requires ')' !in a
    ensures TargetLen(Fsa(a) + r) == |Fsa(a)|
  {
    var t := Fsa(a) + r;
    assert t[..|Target| + 1] == Target + "(";
    assert t[|Target| + 1..] == a + (")" + r);
    FirstIndexAfter(a, ")" + r, ')');
  }

  /** A pattern that starts with the name needs `(` twenty characters on. */
  lemma {:induction false} NoTargetAt(t: string)
    requires |t| <= |Target| || t[|Target|] != '('
    ensures TargetLen(t) == 0 && TargetCommaLen(t) == 0
  {
  }

  lemma {:induction false} ParenFreeUnmatched(t: string)
    requires '(' !in t
    ensures TargetLen(t) == 0 && TargetCommaLen(t) == 0 && CommaTargetLen(t) == 0
  {
    NoTargetAt(t);
    if t != [] && t[0] == ',' {
      var r := TrimStart(t[1..], Space);
      if |r| > |Target| {
        assert r[|Target|] == t[|t| - |r| + |Target|];
      }
      NoTargetAt(r);
    }
  }

  lemma {:induction false} ParenFreeSuffixes(t: string)
    requires '(' !in t
    ensures forall i :: 0 <= i < |t| ==> TargetLen(t[i..]) == 0
    ensures forall i :: 0 <= i < |t| ==> TargetCommaLen(t[i..]) == 0
    ensures forall i :: 0 <= i < |t| ==> CommaTargetLen(t[i..]) == 0
  {
    forall i | 0 <= i < |t|
      ensures TargetLen(t[i..]) == 0 && TargetCommaLen(t[i..]) == 0 && CommaTargetLen(t[i..]) == 0
    {
      assert forall j :: 0 <= j < |t[i..]| ==> t[i..][j] == t[i + j];
      ParenFreeUnmatched(t[i..]);
    }
  }

  /** A list without `(` holds no target, and the three removals leave it as it is. */
  lemma {:induction false} ParenFreeKept(t: string)
    requires '(' !in t
    ensures TargetCount(t) == 0 && StripTarget(t) == t
  {
    ParenFreeSuffixes(t);
    NoMatchesAnywhere(t, TargetCall);
    KeptByRemovals(t);
  }

  lemma {:induction false} KeptByRemovals(t: string)
    requires forall i :: 0 <= i < |t| ==> TargetLen(t[i..]) == 0
    requires forall i :: 0 <= i < |t| ==> TargetCommaLen(t[i..]) == 0
    requires forall i :: 0 <= i < |t| ==> CommaTargetLen(t[i..]) == 0
    ensures StripTarget(t) == t
  {
    KeptByFirstRemoval(t);
    KeptBySecondRemoval(t);
    KeptByThirdRemoval(t);
  }

  lemma {:induction false} KeptByFirstRemoval(t: string)
    requires forall i :: 0 <= i < |t| ==> TargetCommaLen(t[i..]) == 0
    ensures RemoveTargetAndComma(t) == t
  {
    KeptByRemoval(t, TargetCallThenComma);
  }

  lemma {:induction false} KeptBySecondRemoval(t: string)
    requires forall i :: 0 <= i < |t| ==> CommaTargetLen(t[i..]) == 0
    ensures RemoveCommaAndTarget(t) == t
  {
    KeptByRemoval(t, CommaThenTargetCall);
  }

  lemma {:induction false} KeptByThirdRemoval(t: string)
    requires forall i :: 0 <= i < |t| ==> TargetLen(t[i..]) == 0
    ensures RemoveTarget(t) == t
  {
    KeptByRemoval(t, TargetCall);
  }

  lemma {:induction false} KeptByRemoval(t: string, p: Pattern)
    requires forall i :: 0 <= i < |t| ==> MatchLen(p, t[i..]) == 0
    ensures Replace(t, p, []) == t
  {
    NoMatchesAnywhere(t, p);
    ReplaceWithoutMatches(t, p, []);
  }

  /** A list without commas is left as it is by the comma repair. */
  lemma {:induction false} CommaFreeNormal(t: string)
    requires ',' !in t
    ensures NormalizeCommas(t) == t
  {
    forall i | 0 <= i < |t| ensures SpacedCommaLen(t[i..]) == 0 {
      var r := TrimStart(t[i..], Space);
      if r != [] {
        assert r[0] == t[|t| - |r|];
      }
    }
    NoMatchesAnywhere(t, SpacedComma);
    ReplaceWithoutMatches(t, SpacedComma, ", ");
  }

  /** What the trims leave of a list that already has no whitespace and no comma at either end. */
  lemma {:induction false} TrimsOfTidy(x: string, y: string)
    requires y != [] && !IsSpace(y[0]) && !IsSpace(y[|y| - 1]) && y[0] != ',' && y[|y| - 1] != ','
    requires |y| <= |x| && AllSpace(x[..|x| - |y|]) && x[|x| - |y|..] == y
    ensures Trim(TrimStart(TrimEnd(Trim(x), Comma), Comma)) == y
  {
    LeadingCountOfRun(x[..|x| - |y|], y, Space);
    assert x == x[..|x| - |y|] + y;
    assert TrimStart(x, Space) == y;
    assert TrimEnd(y, Space) == y;
    assert TrimEnd(y, Comma) == y;
    assert TrimStart(y, Comma) == y;
    assert TrimStart(y, Space) == y;
  }

  lemma {:induction false} PlainNameFacts(n: string)
    requires PlainName(n)
    ensures '(' !in n && ',' !in n && ']' !in n && '[' !in n
    ensures !IsSpace(n[0]) && n[0] != ',' && !IsSpace(n[|n| - 1]) && n[|n| - 1] != ','
  {
    assert NameChar(n[0]) && NameChar(n[|n| - 1]);
  }

  /** In `FormerlySerializedAs(a)` the only `(` is the one after the name, and there is no comma or `]`. */
  lemma {:induction false} FsaChars(a: string)
    requires PlainArgument(a)
    ensures forall j :: 0 <= j < |Fsa(a)| && j != |Target| ==> Fsa(a)[j] != '('
    ensures ',' !in Fsa(a) && ']' !in Fsa(a) && '\n' !in Fsa(a) && ')' !in a
  {
    var f := Fsa(a);
    assert forall j :: 0 <= j < |Target| ==> f[j] == Target[j];
    assert forall j :: |Target| < j < |f| - 1 ==> f[j] == a[j - |Target| - 1];
  }

  /** Before a target, no position of `p` starts a match of the name patterns. */
  lemma {:induction false} NoTargetBefore(p: string, a: string, r: string)
    requires '(' !in p && PlainArgument(a) && Fsa(a) <= r
    ensures forall i :: 0 <= i < |p| ==> TargetLen((p + r)[i..]) == 0 && TargetCommaLen((p + r)[i..]) == 0
  {
    var t := p + r;
    forall i | 0 <= i < |p|
      ensures TargetLen(t[i..]) == 0 && TargetCommaLen(t[i..]) == 0
    {
      if i + |Target| < |p| {
        assert t[i..][|Target|] == p[i + |Target|];
      } else {
        assert t[i..][|Target|] == r[i + |Target| - |p|] == Fsa(a)[i + |Target| - |p|];
        assert Fsa(a)[i + |Target| - |p|] == Target[i + |Target| - |p|];
      }
      NoTargetAt(t[i..]);
    }
  }

  lemma {:induction false} StripAfterFirstRemoval(body: string, x: string)
    requires RemoveTargetAndComma(body) == x && '(' !in x
    ensures StripTarget(body) == x
  {
    ParenFreeSuffixes(x);
    KeptBySecondRemoval(x);
    KeptByThirdRemoval(x);
  }

  // ---------------------------------------------------------------------
  // The cleanup of the tests' attribute lists

  lemma {:induction false} LoneTargetNoComma(a: string)
    requires PlainArgument(a)
    ensures RemoveTargetAndComma(Fsa(a)) == Fsa(a) && RemoveCommaAndTarget(Fsa(a)) == Fsa(a)
  {
    var f := Fsa(a);
    FsaChars(a);
    TargetLenOfFsa(a, []);
    assert f + [] == f;
    forall i | 0 <= i < |f| ensures TargetCommaLen(f[i..]) == 0 {
      if i == 0 {
        assert f[0..] == f;
      } else {
        if i + |Target| < |f| {
          assert f[i..][|Target|] == f[i + |Target|];
        }
        NoTargetAt(f[i..]);
      }
    }
    KeptByFirstRemoval(f);
    forall i | 0 <= i < |f| ensures CommaTargetLen(f[i..]) == 0 {
      assert f[i..][0] == f[i];
    }
    KeptBySecondRemoval(f);
  }

  lemma {:induction false} LoneTargetRemoved(a: string)
    requires PlainArgument(a)
    ensures RemoveTarget(Fsa(a)) == [] && TargetCount(Fsa(a)) == 1
  {
    FsaChars(a);
    TargetLenOfFsa(a, []);
    assert Fsa(a) + [] == Fsa(a);
    MatchFirst(Fsa(a), [], TargetCall, []);
  }

  /** `FormerlySerializedAs(a)` alone: one target, and nothing is left of the list. */
  lemma {:induction false} LoneTargetCleaned(a: string)
    requires PlainArgument(a)
    ensures TargetCount(Fsa(a)) == 1 && Clean(Fsa(a)) == []
  {
    LoneTargetNoComma(a);
    LoneTargetRemoved(a);
    assert StripTarget(Fsa(a)) == [];
  }

  /** What the remover needs to know of a lone target block's list. */
  lemma {:induction false} LoneTargetFacts(a: string)
    requires PlainArgument(a)
    ensures ']' !in Fsa(a) && '\n' !in Fsa(a) && TargetCount(Fsa(a)) == 1 && Clean(Fsa(a)) == []
  {
    FsaChars(a);
    LoneTargetCleaned(a);
  }

  lemma {:induction false} TargetCommaLenBeforeName(a: string, n: string)
    requires PlainArgument(a) && PlainName(n)
    ensures TargetCommaLen(Fsa(a) + ", " + n) == |Fsa(a)| + 1
  {
    var f := Fsa(a);
    var body := f + ", " + n;
    FsaChars(a);
    TargetLenOfFsa(a, ", " + n);
    assert body == f + (", " + n);
    assert body[|f|..] == ", " + n;
  }

  lemma {:induction false} FirstRemovalAtTarget(a: string, n: string)
    requires PlainArgument(a) && PlainName(n)
    ensures RemoveTargetAndComma(Fsa(a) + ", " + n) == " " + n
  {
    var f := Fsa(a);
    PlainNameFacts(n);
    TargetCommaLenBeforeName(a, n);
    assert f + ", " + n == (f + ",") + (" " + n);
    MatchFirst(f + ",", " " + n, TargetCallThenComma, []);
    ParenFreeSuffixes(" " + n);
    KeptByFirstRemoval(" " + n);
  }

  lemma {:induction false} CountTargetBeforeName(a: string, n: string)
    requires PlainArgument(a) && PlainName(n)
    ensures TargetCount(Fsa(a) + ", " + n) == 1
  {
    FsaChars(a);
    PlainNameFacts(n);
    TargetLenOfFsa(a, ", " + n);
    assert Fsa(a) + ", " + n == Fsa(a) + (", " + n);
    MatchFirst(Fsa(a), ", " + n, TargetCall, []);
    ParenFreeKept(", " + n);
  }

  /** `FormerlySerializedAs(a), n`: one target, and `n` is what is left. */
  lemma {:induction false} TargetThenNameCleaned(a: string, n: string)
    requires PlainArgument(a) && PlainName(n)
    ensures TargetCount(Fsa(a) + ", " + n) == 1 && Clean(Fsa(a) + ", " + n) == n
  {
    PlainNameFacts(n);
    FirstRemovalAtTarget(a, n);
    CountTargetBeforeName(a, n);
    StripAfterFirstRemoval(Fsa(a) + ", " + n, " " + n);
    CommaFreeNormal(" " + n);
    TrimsOfTidy(" " + n, n);
  }

  /** No comma pattern starts inside a name. */
  lemma {:induction false} NoSpacedCommaInName(m: string, r: string)
    requires PlainName(m)
    ensures forall i :: 0 <= i < |m| ==> SpacedCommaLen((m + r)[i..]) == 0
  {
    forall i | 0 <= i < |m| ensures SpacedCommaLen((m + r)[i..]) == 0 {
      var x := (m + r)[i..];
      assert x[0] == m[i] && NameChar(m[i]);
      assert LeadingCount(x, Space) == 0;
    }
  }

  lemma {:induction false} SpacedCommaBeforeName(n: string)
    requires PlainName(n)
    ensures SpacedCommaLen(",  " + n) == 3
  {
    PlainNameFacts(n);
    LeadingCountOfRun("  ", n, Space);
    assert (",  " + n)[1..] == "  " + n;
  }

  lemma {:induction false} NormalizeNameCommaName(m: string, n: string)
    requires PlainName(m) && PlainName(n)
    ensures NormalizeCommas(m + ",  " + n) == m + ", " + n
  {
    var r := ",  " + n;
    calc {
      NormalizeCommas(m + ",  " + n);
      { assert m + ",  " + n == m + r; }
      Replace(m + r, SpacedComma, ", ");
      { NoSpacedCommaInName(m, r); ScanPast(m, r, SpacedComma, ", "); }
      m + Replace(r, SpacedComma, ", ");
      { SpacedCommaBeforeName(n); MatchFirst(",  ", n, SpacedComma, ", "); }
      m + (", " + Replace(n, SpacedComma, ", "));
      { PlainNameFacts(n); CommaFreeNormal(n); }
      m + (", " + n);
    }
  }

  lemma {:induction false} NoTargetBeforeMiddle(m: string, a: string, n: string)
    requires PlainName(m) && PlainArgument(a)
    ensures forall i :: 0 <= i < |m + ", "| ==>
      TargetLen((m + ", " + (Fsa(a) + ", " + n))[i..]) == 0 && TargetCommaLen((m + ", " + (Fsa(a) + ", " + n))[i..]) == 0
  {
    PlainNameFacts(m);
    assert (Fsa(a) + ", " + n)[..|Fsa(a)|] == Fsa(a);
    NoTargetBefore(m + ", ", a, Fsa(a) + ", " + n);
  }

  lemma {:induction false} MiddlePrefixCopied(m: string, a: string, n: string)
    requires PlainName(m) && PlainArgument(a) && PlainName(n)
    ensures Replace(m + ", " + (Fsa(a) + ", " + n), TargetCallThenComma, []) == m + ", " + Replace(Fsa(a) + ", " + n, TargetCallThenComma, [])
  {
    NoTargetBeforeMiddle(m, a, n);
    ScanPast(m + ", ", Fsa(a) + ", " + n, TargetCallThenComma, []);
  }

  lemma {:induction false} DoubleSpace(m: string, n: string)
    ensures m + ", " + (" " + n) == m + ",  " + n
  {
  }

  lemma {:induction false} MiddleFirstRemoval(m: string, a: string, n: string)
    requires PlainName(m) && PlainArgument(a) && PlainName(n)
    ensures RemoveTargetAndComma(m + ", " + Fsa(a) + ", " + n) == m + ",  " + n
  {
    var rest := Fsa(a) + ", " + n;
    calc {
      RemoveTargetAndComma(m + ", " + Fsa(a) + ", " + n);
      { assert m + ", " + Fsa(a) + ", " + n == m + ", " + rest; }
      Replace(m + ", " + rest, TargetCallThenComma, []);
      { MiddlePrefixCopied(m, a, n); }
      m + ", " + Replace(rest, TargetCallThenComma, []);
      { FirstRemovalAtTarget(a, n); }
      m + ", " + (" " + n);
      { DoubleSpace(m, n); }
      m + ",  " + n;
    }
  }

  lemma {:induction false} MiddleCount(m: string, a: string, n: string)
    requires PlainName(m) && PlainArgument(a) && PlainName(n)
    ensures TargetCount(m + ", " + Fsa(a) + ", " + n) == 1
  {
    var p := m + ", ";
    var rest := Fsa(a) + ", " + n;
    calc {
      TargetCount(m + ", " + Fsa(a) + ", " + n);
      { assert m + ", " + Fsa(a) + ", " + n == p + rest; }
      Matches(p + rest, TargetCall);
      { NoTargetBeforeMiddle(m, a, n); ScanPast(p, rest, TargetCall, []); }
      Matches(rest, TargetCall);
      { CountTargetBeforeName(a, n); }
      1;
    }
  }

  lemma {:induction false} MiddleBodyFacts(m: string, a: string, n: string)
    requires PlainName(m) && PlainArgument(a) && PlainName(n)
    ensures ']' !in m + ", " + Fsa(a) + ", " + n && m + ", " + n != []
  {
    FsaChars(a);
    PlainNameFacts(m);
    PlainNameFacts(n);
  }

  /** `m, FormerlySerializedAs(a), n`: one target, and `m, n` is what is left. */
  lemma {:induction false} MiddleTargetCleaned(m: string, a: string, n: string)
    requires PlainName(m) && PlainArgument(a) && PlainName(n)
    ensures TargetCount(m + ", " + Fsa(a) + ", " + n) == 1
    ensures Clean(m + ", " + Fsa(a) + ", " + n) == m + ", " + n
  {
    PlainNameFacts(m);
    PlainNameFacts(n);
    var body := m + ", " + Fsa(a) + ", " + n;
    MiddleCount(m, a, n);
    MiddleFirstRemoval(m, a, n);
    StripAfterFirstRemoval(body, m + ",  " + n);
    NormalizeNameCommaName(m, n);
    var y := m + ", " + n;
    assert y[0] == m[0] && y[|y| - 1] == n[|n| - 1];
    assert y[..0] == [] && y[0..] == y;
    TrimsOfTidy(y, y);
  }

  // ---------------------------------------------------------------------
  // The remover on blocks of each kind

  /** A block whose list keeps only plain attributes is left as it is, and counts nothing. */
  lemma {:induction false} KeptBlock(n: string, space: string, q: string)
    requires PlainName(n) && AllSpace(space) && EndsSpan(Span(n, space, []), q)
    ensures Output(Scan("[" + n + "]" + space + q)) == "[" + n + "]" + space + Output(Scan(q))
    ensures Removed(Scan("[" + n + "]" + space + q)) == Removed(Scan(q))
  {
    var sp := Span(n, space, []);
    PlainNameFacts(n);
    ParenFreeKept(n);
    assert Whole(sp) == "[" + n + "]" + space;
    SpanThenRest(sp, q);
  }

  lemma {:induction false} WholeWithoutComment(body: string, space: string)
    ensures Whole(Span(body, space, [])) == "[" + body + "]" + space
  {
    AppendNothing("[" + body + "]" + space);
  }

  lemma {:induction false} SeparatorsAreSpace()
    ensures AllSpace([]) && AllSpace(" ") && AllSpace("\n")
  {
  }

  /** A block may be followed directly by another block. */
  lemma {:induction false} BeforeBlock(body: string, space: string, x: string)
    ensures EndsSpan(Span(body, space, []), "[" + x + "]")
  {
  }

  lemma {:induction false} BeforeBlockThen(body: string, space: string, x: string, y: string, z: string)
    ensures EndsSpan(Span(body, space, []), "[" + x + "]" + y + z)
  {
  }

  lemma {:induction false} LineCommentText(c: string)
    requires '\n' !in c
    ensures IsLineComment("// " + c)
  {
  }

  lemma {:induction false} BlockInComment(x: string)
    requires '\n' !in x
    ensures IsLineComment("// " + ("[" + x + "]"))
  {
    assert '\n' !in "[" + x + "]";
    LineCommentText("[" + x + "]");
  }

  lemma {:induction false} AppendNothing(s: string)
    ensures s + [] == s
  {
  }

  lemma {:induction false} BlockText(body: string, space: string, comment: string)
    ensures Whole(Span(body, space, comment)) + [] == "[" + body + "]" + space + comment
  {
  }

  lemma {:induction false} BracketsAlone(body: string)
    ensures "[" + body + "]" + [] + [] == "[" + body + "]"
  {
  }

  lemma {:induction false} CommentBlockText(body: string, c: string)
    ensures "[" + body + "]" + " " + ("// " + c) + [] == "[" + body + "] // " + c
  {
  }

  /** A block whose list held only targets is dropped with the whitespace after it. */
  lemma {:induction false} DroppedBlock(body: string, space: string, q: string)
    requires ']' !in body && AllSpace(space) && EndsSpan(Span(body, space, []), q)
    requires TargetCount(body) > 0 && Clean(body) == []
    ensures Output(Scan("[" + body + "]" + space + q)) == Output(Scan(q))
    ensures Removed(Scan("[" + body + "]" + space + q)) == TargetCount(body) + Removed(Scan(q))
  {
    WholeWithoutComment(body, space);
    SpanDropped(Span(body, space, []), q);
  }

  lemma {:induction false} DroppedBlockAlone(body: string)
    requires ']' !in body && TargetCount(body) > 0 && Clean(body) == []
    ensures Output(Scan("[" + body + "]")) == [] && Removed(Scan("[" + body + "]")) == TargetCount(body)
  {
    SeparatorsAreSpace();
    DroppedBlock(body, [], []);
    BracketsAlone(body);
  }

  /** A dropped block followed by a kept one: only the kept one is left ... */
  lemma {:induction false} DroppedBlockThenKept(body: string, space: string, n: string)
    requires ']' !in body && AllSpace(space) && TargetCount(body) > 0 && Clean(body) == [] && PlainName(n)
    ensures Output(Scan("[" + body + "]" + space + ("[" + n + "]"))) == "[" + n + "]"
  {
    BeforeBlock(body, space, n);
    DroppedBlock(body, space, "[" + n + "]");
    KeptNameAlone(n);
  }

  /** ... and only the dropped one is counted. */
  lemma {:induction false} DroppedBlockThenKeptCount(body: string, space: string, n: string)
    requires ']' !in body && AllSpace(space) && TargetCount(body) > 0 && Clean(body) == [] && PlainName(n)
    ensures Removed(Scan("[" + body + "]" + space + ("[" + n + "]"))) == TargetCount(body)
  {
    BeforeBlock(body, space, n);
    DroppedBlock(body, space, "[" + n + "]");
    KeptNameAlone(n);
  }

  /** A block whose list held only targets leaves its trailing comment. */
  lemma {:induction false} DroppedBlockBeforeComment(body: string, space: string, comment: string)
    requires ']' !in body && AllSpace(space) && IsLineComment(comment)
    requires TargetCount(body) > 0 && Clean(body) == []
    ensures Output(Scan("[" + body + "]" + space + comment)) == comment
    ensures Removed(Scan("[" + body + "]" + space + comment)) == TargetCount(body)
  {
    BlockText(body, space, comment);
    SpanDropped(Span(body, space, comment), []);
    assert comment + [] == comment;
  }

  /** A block whose list keeps attributes becomes the cleaned list. */
  lemma {:induction false} CleanedBlockAlone(body: string, kept: string)
    requires ']' !in body && TargetCount(body) > 0 && Clean(body) == kept && kept != []
    ensures Output(Scan("[" + body + "]")) == "[" + kept + "]" && Removed(Scan("[" + body + "]")) == TargetCount(body)
  {
    BlockText(body, [], []);
    BracketsAlone(body);
    SpanCleaned(Span(body, [], []), []);
    BracketsAlone(kept);
    AppendNothing("[" + kept + "]");
  }

  /** The same, with a trailing comment, which is kept after the cleaned list. */
  lemma {:induction false} CleanedBlockWithComment(body: string, kept: string, c: string)
    requires ']' !in body && '\n' !in c && TargetCount(body) > 0 && Clean(body) == kept && kept != []
    ensures Output(Scan("[" + body + "] // " + c)) == "[" + kept + "] // " + c
    ensures Removed(Scan("[" + body + "] // " + c)) == TargetCount(body)
  {
    SeparatorsAreSpace();
    LineCommentText(c);
    BlockText(body, " ", "// " + c);
    CommentBlockText(body, c);
    SpanCleaned(Span(body, " ", "// " + c), []);
    CommentBlockText(kept, c);
  }

  // ---------------------------------------------------------------------
  // The remover on the tests' inputs

  lemma {:induction false} KeptNameAlone(n: string)
    requires PlainName(n)
    ensures Output(Scan("[" + n + "]")) == "[" + n + "]" && Removed(Scan("[" + n + "]")) == 0
  {
    PlainNameFacts(n);
    KeptBlock(n, [], []);
    assert "[" + n + "]" + [] + [] == "[" + n + "]";
  }

  /** Lines 15-22 of the tests: `[FormerlySerializedAs(a)]` disappears, one removal. */
  lemma {:induction false} LoneTargetBlockRemoved(a: string)
    requires PlainArgument(a)
    ensures Output(Scan("[" + Fsa(a) + "]")) == [] && Removed(Scan("[" + Fsa(a) + "]")) == 1
  {
    LoneTargetFacts(a);
    DroppedBlockAlone(Fsa(a));
  }

  /** Lines 24-31: `[FormerlySerializedAs(a), n]` becomes `[n]`, one removal. */
  lemma {:induction false} TargetThenNameBlock(a: string, n: string)
    requires PlainArgument(a) && PlainName(n)
    ensures Output(Scan("[" + (Fsa(a) + ", " + n) + "]")) == "[" + n + "]"
    ensures Removed(Scan("[" + (Fsa(a) + ", " + n) + "]")) == 1
  {
    FsaChars(a);
    PlainNameFacts(n);
    TargetThenNameCleaned(a, n);
    CleanedBlockAlone(Fsa(a) + ", " + n, n);
  }

  /** Lines 33-40: `[FormerlySerializedAs(a)] [n]` becomes `[n]`, one removal. */
  lemma {:induction false} TargetBlockThenNameBlock(a: string, n: string)
    requires PlainArgument(a) && PlainName(n)
    ensures Output(Scan("[" + Fsa(a) + "]" + " " + ("[" + n + "]"))) == "[" + n + "]"
    ensures Removed(Scan("[" + Fsa(a) + "]" + " " + ("[" + n + "]"))) == 1
  {
    LoneTargetFacts(a);
    SeparatorsAreSpace();
    DroppedBlockThenKept(Fsa(a), " ", n);
    DroppedBlockThenKeptCount(Fsa(a), " ", n);
  }

  /** Lines 42-49: two target blocks, then `[n]`: only `[n]` is left, two removals. */
  lemma {:induction false} TwoTargetBlocksThenNameBlock(a: string, b: string, n: string)
    requires PlainArgument(a) && PlainArgument(b) && PlainName(n)
    ensures Output(Scan("[" + Fsa(a) + "]" + " " + ("[" + Fsa(b) + "]" + " " + ("[" + n + "]")))) == "[" + n + "]"
    ensures Removed(Scan("[" + Fsa(a) + "]" + " " + ("[" + Fsa(b) + "]" + " " + ("[" + n + "]")))) == 2
  {
    LoneTargetFacts(a);
    SeparatorsAreSpace();
    BeforeBlockThen(Fsa(a), " ", Fsa(b), " ", "[" + n + "]");
    DroppedBlock(Fsa(a), " ", "[" + Fsa(b) + "]" + " " + ("[" + n + "]"));
    TargetBlockThenNameBlock(b, n);
  }

  /** Lines 51-58: `[FormerlySerializedAs(a), n] // c` becomes `[n] // c`, one removal. */
  lemma {:induction false} TargetThenNameWithComment(a: string, n: string, c: string)
    requires PlainArgument(a) && PlainName(n) && '\n' !in c
    ensures Output(Scan("[" + (Fsa(a) + ", " + n) + "] // " + c)) == "[" + n + "] // " + c
    ensures Removed(Scan("[" + (Fsa(a) + ", " + n) + "] // " + c)) == 1
  {
    FsaChars(a);
    PlainNameFacts(n);
    TargetThenNameCleaned(a, n);
    CleanedBlockWithComment(Fsa(a) + ", " + n, n, c);
  }

  /** Lines 60-67: `[m, FormerlySerializedAs(a), n] // c` becomes `[m, n] // c`, one removal. */
  lemma {:induction false} MiddleTargetWithComment(m: string, a: string, n: string, c: string)
    requires PlainName(m) && PlainArgument(a) && PlainName(n) && '\n' !in c
    ensures Output(Scan("[" + (m + ", " + Fsa(a) + ", " + n) + "] // " + c)) == "[" + (m + ", " + n) + "] // " + c
    ensures Removed(Scan("[" + (m + ", " + Fsa(a) + ", " + n) + "] // " + c)) == 1
  {
    MiddleTargetCleaned(m, a, n);
    MiddleBodyFacts(m, a, n);
    CleanedBlockWithComment(m + ", " + Fsa(a) + ", " + n, m + ", " + n, c);
  }

  /**
    The end of the tests' multi-line inputs: `[n]`, a line break, then the
    declaration. The line break `nl` is any run of whitespace, so `"\n"` and
    `"\r\n"` alike.
   */
  lemma {:induction false} NameLineThenDeclaration(n: string, nl: string, rest: string)
    requires PlainName(n) && AllSpace(nl)
    requires '[' !in rest && (rest == [] || !IsSpace(rest[0])) && !StartsComment(rest)
    ensures Output(Scan("[" + n + "]" + nl + rest)) == "[" + n + "]" + nl + rest
    ensures Removed(Scan("[" + n + "]" + nl + rest)) == 0
  {
    KeptBlock(n, nl, rest);
    PlainTextCopied(rest, []);
    PlainTextUncounted(rest, []);
    assert rest + [] == rest;
  }

  /** Lines 69-78: a target line, `[n]`, then the declaration: the target line is gone, one removal. */
  lemma {:induction false} TargetLineThenName(a: string, n: string, nl: string, rest: string)
    requires PlainArgument(a) && PlainName(n) && AllSpace(nl) && nl != []
    requires '[' !in rest && (rest == [] || !IsSpace(rest[0])) && !StartsComment(rest)
    ensures Output(Scan("[" + Fsa(a) + "]" + nl + ("[" + n + "]" + nl + rest))) == "[" + n + "]" + nl + rest
    ensures Removed(Scan("[" + Fsa(a) + "]" + nl + ("[" + n + "]" + nl + rest))) == 1
  {
    var q := "[" + n + "]" + nl + rest;
    BeforeBlockThen(Fsa(a), nl, n, nl, rest);
    TargetLineDropped(a, nl, q);
    NameLineThenDeclaration(n, nl, rest);
  }

  /** A line holding only a target block disappears with its line break. */
  lemma {:induction false} TargetLineDropped(a: string, nl: string, q: string)
    requires PlainArgument(a) && AllSpace(nl) && EndsSpan(Span(Fsa(a), nl, []), q)
    ensures Output(Scan("[" + Fsa(a) + "]" + nl + q)) == Output(Scan(q))
    ensures Removed(Scan("[" + Fsa(a) + "]" + nl + q)) == 1 + Removed(Scan(q))
  {
    LoneTargetFacts(a);
    DroppedBlock(Fsa(a), nl, q);
  }

  /** Lines 80-90: two target lines, `[n]`, then the declaration: both target lines are gone, two removals. */
  lemma {:induction false} TwoTargetLinesThenName(a: string, b: string, n: string, nl: string, rest: string)
    requires PlainArgument(a) && PlainArgument(b) && PlainName(n) && AllSpace(nl) && nl != []
    requires '[' !in rest && (rest == [] || !IsSpace(rest[0])) && !StartsComment(rest)
    ensures
      var input := "[" + Fsa(a) + "]" + nl + ("[" + Fsa(b) + "]" + nl + ("[" + n + "]" + nl + rest));
      Output(Scan(input)) == "[" + n + "]" + nl + rest && Removed(Scan(input)) == 2
  {
    var q := "[" + Fsa(b) + "]" + nl + ("[" + n + "]" + nl + rest);
    BeforeBlockThen(Fsa(a), nl, Fsa(b), nl, "[" + n + "]" + nl + rest);
    TargetLineDropped(a, nl, q);
    TargetLineThenName(b, n, nl, rest);
  }

  // ---------------------------------------------------------------------
  // Behaviour the code has beyond its tests

  /**
    The rewrite is not idempotent: the trailing comment of a dropped block
    is kept as it is, so a target written inside that comment is removed
    only by a second run.
   */
  lemma {:induction false} SecondRunRemovesMore(a: string, b: string)
    requires PlainArgument(a) && PlainArgument(b)
    ensures
      var once := Output(Scan("[" + Fsa(a) + "]" + " " + ("// " + ("[" + Fsa(b) + "]"))));
      once == "// " + ("[" + Fsa(b) + "]") && Output(Scan(once)) == "// " && Removed(Scan(once)) == 1
  {
    CommentedTargetKept(a, b);
    CommentedTargetRemoved(b);
  }

  /** The first run drops the block and keeps the comment, target and all. */
  lemma {:induction false} CommentedTargetKept(a: string, b: string)
    requires PlainArgument(a) && PlainArgument(b)
    ensures Output(Scan("[" + Fsa(a) + "]" + " " + ("// " + ("[" + Fsa(b) + "]")))) == "// " + ("[" + Fsa(b) + "]")
  {
    LoneTargetFacts(a);
    LoneTargetFacts(b);
    BlockInComment(Fsa(b));
    SeparatorsAreSpace();
    DroppedBlockBeforeComment(Fsa(a), " ", "// " + ("[" + Fsa(b) + "]"));
  }

  /** The second run finds the target the comment held. */
  lemma {:induction false} CommentedTargetRemoved(b: string)
    requires PlainArgument(b)
    ensures Output(Scan("// " + ("[" + Fsa(b) + "]"))) == "// " && Removed(Scan("// " + ("[" + Fsa(b) + "]"))) == 1
  {
    LoneTargetBlockRemoved(b);
    CommentMarkerCopied("[" + Fsa(b) + "]");
    AppendNothing("// ");
  }

  /** The text `// ` holds no `[`: the scan copies it and goes on. */
  lemma {:induction false} CommentMarkerCopied(x: string)
    ensures Output(Scan("// " + x)) == "// " + Output(Scan(x)) && Removed(Scan("// " + x)) == Removed(Scan(x))
  {
    PlainTextCopied("// ", x);
    PlainTextUncounted("// ", x);
  }

  lemma {:induction false} CommentSpanMatched(sp: Span, c: string)
    requires sp.space == " " && sp.comment == "// " + c && ']' !in sp.body && '\n' !in c
    ensures MatchSpan("[" + sp.body + "] // " + c) == Some(sp)
  {
    SeparatorsAreSpace();
    LineCommentText(c);
    BlockText(sp.body, " ", "// " + c);
    CommentBlockText(sp.body, c);
    SpanMatched(sp, []);
  }

  lemma {:induction false} BacktickSpanText(sp: Span, kept: string, c: string)
    requires sp.space == " " && sp.comment == "// " + c
    requires TargetCount(sp.body) > 0 && Clean(sp.body) == kept && kept != []
    ensures EvaluateAsWritten(sp) == "`[" + kept + "] // " + c && Evaluate(sp) == "[" + kept + "] // " + c
  {
    CommentTexts(kept, c);
  }

  lemma {:induction false} CommentTexts(kept: string, c: string)
    ensures "[" + kept + "]" + " " + ("// " + c) == "[" + kept + "] // " + c
    ensures "`" + ("[" + kept + "]" + " " + ("// " + c)) == "`[" + kept + "] // " + c
  {
    assert "[" + kept + "]" + " " + ("// " + c) == "[" + kept + "] // " + c;
  }

  /**
    The evaluator as written on the input of lines 51-58: the whole input
    is one span, and line 72 turns it into `` `[n] // c `` rather than the
    `[n] // c` the test expects, which the corrected evaluator produces.
   */
  lemma {:induction false} BacktickOnKeptList(a: string, n: string, c: string)
    requires PlainArgument(a) && PlainName(n) && '\n' !in c
    ensures
      var sp := Span(Fsa(a) + ", " + n, " ", "// " + c);
      MatchSpan("[" + (Fsa(a) + ", " + n) + "] // " + c) == Some(sp) &&
      EvaluateAsWritten(sp) == "`[" + n + "] // " + c &&
      Evaluate(sp) == "[" + n + "] // " + c
  {
    var sp := Span(Fsa(a) + ", " + n, " ", "// " + c);
    FsaChars(a);
    PlainNameFacts(n);
    TargetThenNameCleaned(a, n);
    CommentSpanMatched(sp, c);
    BacktickSpanText(sp, n, c);
  }
}
