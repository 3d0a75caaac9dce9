/**
  Attribute lists beyond the unit tests' shapes: a list of any number of
  targets and nothing else, a target in last position, and a list with an
  empty entry, which the comma repair of lines 56-60 does not fully mend.
 */
module TargetLists {
  import opened Text
  import opened Patterns
  import opened AttributeCleaner
  import opened Remover
  import opened Scenarios

  /** What stands between two targets of a list: whitespace, a comma, whitespace. */
  datatype Gap = Gap(before: string, after: string)

  function Separator(g: Gap): string {
    g.before + ("," + g.after)
  }

  predicate SpaceGap(g: Gap) {
    AllSpace(g.before) && AllSpace(g.after)
  }

  predicate SpaceGaps(gaps: seq<Gap>) {
    forall i :: 0 <= i < |gaps| ==> SpaceGap(gaps[i])
  }

  /**
    `FormerlySerializedAs(a1) , FormerlySerializedAs(a2) …`: a list of
    targets only, with `gaps[i]` between `args[i]` and `args[i + 1]`.
   */
  function TargetList(args: seq<string>, gaps: seq<Gap>): string
    requires |gaps| + 1 == |args|
    decreases |args|
  {
    if |args| == 1 then Fsa(args[0])
    else Fsa(args[0]) + (Separator(gaps[0]) + TargetList(args[1..], gaps[1..]))
  }

  predicate PlainArguments(args: seq<string>) {
    forall i :: 0 <= i < |args| ==> PlainArgument(args[i])
  }

  /** The whitespace after each comma of a list, run together. */
  function Afters(gaps: seq<Gap>): string
    decreases |gaps|
  {
    if gaps == [] then [] else gaps[0].after + Afters(gaps[1..])
  }

  // ---------------------------------------------------------------------
  // The patterns at a target and away from one

  /** A text that does not start with `F` starts no match of the name patterns. */
  lemma {:induction false} NoTargetStart(t: string)
    requires t != [] && t[0] != 'F'
    ensures TargetLen(t) == 0 && TargetCommaLen(t) == 0
  {
  }

  /** A target directly followed by a comma is taken with that comma by line 49. */
  lemma {:induction false} TargetCommaLenOfFsa(a: string, r: string)
    requires PlainArgument(a) && r != [] && r[0] == ','
    ensures TargetCommaLen(Fsa(a) + r) == |Fsa(a)| + 1
  {
    FsaChars(a);
    TargetLenOfFsa(a, r);
    assert (Fsa(a) + r)[|Fsa(a)|..] == r;
  }

  /** `, FormerlySerializedAs(a)` is one match of line 51's pattern. */
  lemma {:induction false} CommaTargetLenOfFsa(a: string)
    requires PlainArgument(a)
    ensures CommaTargetLen(", " + Fsa(a)) == 2 + |Fsa(a)|
  {
    var t := ", " + Fsa(a);
    FsaChars(a);
    assert Fsa(a)[0] == 'F';
    LeadingCountOfRun(" ", Fsa(a), Space);
    assert t[1..] == " " + Fsa(a) && t[2..] == Fsa(a) + [];
    TargetLenOfFsa(a, []);
  }

  // ---------------------------------------------------------------------
  // A list of targets only

  /** Whitespace holds no `F`, comma, parenthesis or bracket. */
  lemma {:induction false} SpaceChars(w: string)
    requires AllSpace(w)
    ensures forall i :: 0 <= i < |w| ==> w[i] != 'F' && w[i] != ',' && w[i] != '(' && w[i] != ']'
    ensures ',' !in w && ']' !in w
  {
  }

  lemma {:induction false} SeparatorChars(g: Gap)
    requires SpaceGap(g)
    ensures forall i :: 0 <= i < |Separator(g)| ==> Separator(g)[i] != 'F'
    ensures ']' !in Separator(g)
  {
    SpaceChars(g.before);
    SpaceChars(g.after);
    var s := Separator(g);
    forall i | 0 <= i < |s| ensures s[i] != 'F' && s[i] != ']' {
      if i < |g.before| {
        assert s[i] == g.before[i];
      } else if i > |g.before| {
        assert s[i] == g.after[i - |g.before| - 1];
      }
    }
  }

  /** A stretch without `F` starts no match of line 37's or line 49's pattern. */
  lemma {:induction false} NoTargetIn(s: string, rest: string)
    requires forall i :: 0 <= i < |s| ==> s[i] != 'F'
    ensures forall i :: 0 <= i < |s| ==> MatchLen(TargetCall, (s + rest)[i..]) == 0
    ensures forall i :: 0 <= i < |s| ==> MatchLen(TargetCallThenComma, (s + rest)[i..]) == 0
  {
    forall i | 0 <= i < |s|
      ensures MatchLen(TargetCall, (s + rest)[i..]) == 0 && MatchLen(TargetCallThenComma, (s + rest)[i..]) == 0
    {
      assert (s + rest)[i..][0] == s[i];
      NoTargetStart((s + rest)[i..]);
    }
  }

  /** The first argument and gap of a list, and the list that follows them. */
  lemma {:induction false} TailFacts(args: seq<string>, gaps: seq<Gap>)
    requires PlainArguments(args) && SpaceGaps(gaps) && |gaps| + 1 == |args| && |args| > 1
    ensures PlainArgument(args[0]) && SpaceGap(gaps[0])
    ensures PlainArguments(args[1..]) && SpaceGaps(gaps[1..]) && |gaps[1..]| + 1 == |args[1..]|
    ensures args[1..][|args[1..]| - 1] == args[|args| - 1]
  {
    assert forall i :: 0 <= i < |gaps[1..]| ==> gaps[1..][i] == gaps[i + 1];
  }

  lemma {:induction false} TargetListChars(args: seq<string>, gaps: seq<Gap>)
    requires PlainArguments(args) && SpaceGaps(gaps) && |gaps| + 1 == |args|
    ensures ']' !in TargetList(args, gaps)
    decreases |args|
  {
    FsaChars(args[0]);
    if |args| > 1 {
      TailFacts(args, gaps);
      SeparatorChars(gaps[0]);
      TargetListChars(args[1..], gaps[1..]);
    }
  }

  /** Line 37 counts a target and finds nothing in the gap after it. */
  lemma {:induction false} CountStep(a: string, g: Gap, rest: string)
    requires PlainArgument(a) && SpaceGap(g)
    ensures Matches(Fsa(a) + (Separator(g) + rest), TargetCall) == 1 + Matches(rest, TargetCall)
  {
    TargetLenOfFsa(a, Separator(g) + rest);
    MatchFirst(Fsa(a), Separator(g) + rest, TargetCall, []);
    SeparatorChars(g);
    NoTargetIn(Separator(g), rest);
    ScanPast(Separator(g), rest, TargetCall, []);
  }

  /** A target followed by whitespace only: line 37 counts it, and line 49 finds no comma after it. */
  lemma {:induction false} LoneTargetThenSpace(a: string, v: string)
    requires PlainArgument(a) && AllSpace(v)
    ensures TargetCount(Fsa(a) + v) == 1
    ensures RemoveTargetAndComma(Fsa(a) + v) == Fsa(a) + v
  {
    var f := Fsa(a);
    var t := f + v;
    FsaChars(a);
    SpaceChars(v);
    TargetLenOfFsa(a, v);
    MatchFirst(f, v, TargetCall, []);
    NoTargetIn(v, []);
    ScanPast(v, [], TargetCall, []);
    assert v + [] == v;
    forall i | 0 <= i < |t| ensures TargetCommaLen(t[i..]) == 0 {
      if i == 0 {
        assert t[0..] == t && t[|f|..] == v + [];
        LeadingCountOfRun(v, [], Space);
      } else {
        if i + |Target| < |f| {
          assert t[i..][|Target|] == f[i + |Target|];
        } else if i + |Target| < |t| {
          assert t[i..][|Target|] == v[i + |Target| - |f|];
        }
        NoTargetAt(t[i..]);
      }
    }
    KeptByFirstRemoval(t);
  }

  lemma {:induction false} TrailRegrouped(f: string, s: string, l: string, trail: string)
    ensures (f + (s + l)) + trail == f + (s + (l + trail))
  {
  }

  /** Line 37 counts every target of the list, whatever whitespace follows it. */
  lemma {:induction false} TargetListCount(args: seq<string>, gaps: seq<Gap>, trail: string)
    requires PlainArguments(args) && SpaceGaps(gaps) && |gaps| + 1 == |args| && AllSpace(trail)
    ensures TargetCount(TargetList(args, gaps) + trail) == |args|
    decreases |args|
  {
    if |args| == 1 {
      LoneTargetThenSpace(args[0], trail);
    } else {
      TailFacts(args, gaps);
      TrailRegrouped(Fsa(args[0]), Separator(gaps[0]), TargetList(args[1..], gaps[1..]), trail);
      CountStep(args[0], gaps[0], TargetList(args[1..], gaps[1..]) + trail);
      TargetListCount(args[1..], gaps[1..], trail);
    }
  }

  lemma {:induction false} GapRegrouped(f: string, g: Gap, rest: string)
    ensures f + (Separator(g) + rest) == f + (g.before + ("," + (g.after + rest)))
    ensures f + (Separator(g) + rest) == (f + g.before + ",") + (g.after + rest)
  {
  }

  /** Line 49's pattern takes a target, the whitespace after it and the comma. */
  lemma {:induction false} TargetCommaLenAtGap(a: string, g: Gap, rest: string)
    requires PlainArgument(a) && SpaceGap(g)
    ensures TargetCommaLen(Fsa(a) + (g.before + ("," + (g.after + rest)))) == |Fsa(a)| + |g.before| + 1
  {
    var r := g.before + ("," + (g.after + rest));
    var t := Fsa(a) + r;
    TargetLenOfFsa(a, r);
    assert t[|Fsa(a)|..] == r;
    LeadingCountOfRun(g.before, "," + (g.after + rest), Space);
    assert t[|Fsa(a)| + |g.before|] == ',';
  }

  /** One step of line 49 along the list: the target and the gap up to its comma go, the whitespace after the comma stays. */
  lemma {:induction false} RemovalStep(a: string, g: Gap, rest: string)
    requires PlainArgument(a) && SpaceGap(g)
    ensures Replace(Fsa(a) + (Separator(g) + rest), TargetCallThenComma, []) == g.after + Replace(rest, TargetCallThenComma, [])
  {
    GapRegrouped(Fsa(a), g, rest);
    TargetCommaLenAtGap(a, g, rest);
    MatchFirst(Fsa(a) + g.before + ",", g.after + rest, TargetCallThenComma, []);
    SpaceChars(g.after);
    NoTargetIn(g.after, rest);
    ScanPast(g.after, rest, TargetCallThenComma, []);
  }

  lemma {:induction false} ListStep(args: seq<string>, gaps: seq<Gap>, trail: string)
    requires PlainArguments(args) && SpaceGaps(gaps) && |gaps| + 1 == |args| && |args| > 1
    ensures RemoveTargetAndComma(TargetList(args, gaps) + trail) ==
      gaps[0].after + RemoveTargetAndComma(TargetList(args[1..], gaps[1..]) + trail)
  {
    TailFacts(args, gaps);
    TrailRegrouped(Fsa(args[0]), Separator(gaps[0]), TargetList(args[1..], gaps[1..]), trail);
    RemovalStep(args[0], gaps[0], TargetList(args[1..], gaps[1..]) + trail);
  }

  /**
    Line 49 removes every target but the last together with the whitespace
    and the comma after it; the whitespace after each comma stays, and so
    does the whitespace after the list.
   */
  lemma {:induction false} TargetListFirstRemoval(args: seq<string>, gaps: seq<Gap>, trail: string)
    requires PlainArguments(args) && SpaceGaps(gaps) && |gaps| + 1 == |args| && AllSpace(trail)
    ensures RemoveTargetAndComma(TargetList(args, gaps) + trail) == Afters(gaps) + (Fsa(args[|args| - 1]) + trail)
    decreases |args|
  {
    if |args| == 1 {
      LoneTargetThenSpace(args[0], trail);
      NothingAfter(gaps, Fsa(args[0]) + trail);
    } else {
      TailFacts(args, gaps);
      ListStep(args, gaps, trail);
      TargetListFirstRemoval(args[1..], gaps[1..], trail);
      AfterKept(TargetList(args, gaps) + trail, TargetList(args[1..], gaps[1..]) + trail, gaps, Fsa(args[|args| - 1]) + trail);
    }
  }

  lemma {:induction false} NothingAfter(gaps: seq<Gap>, x: string)
    requires gaps == []
    ensures Afters(gaps) + x == x
  {
    assert Afters(gaps) == [];
  }

  /** The whitespace kept by one step joins the whitespace kept by the rest of the list. */
  lemma {:induction false} AfterKept(s: string, rest: string, gaps: seq<Gap>, last: string)
    requires gaps != []
    requires RemoveTargetAndComma(s) == gaps[0].after + RemoveTargetAndComma(rest)
    requires RemoveTargetAndComma(rest) == Afters(gaps[1..]) + last
    ensures RemoveTargetAndComma(s) == Afters(gaps) + last
  {
    assert gaps[0].after + (Afters(gaps[1..]) + last) == (gaps[0].after + Afters(gaps[1..])) + last;
  }

  /** Two whitespace runs make one. */
  lemma {:induction false} SpaceJoin(x: string, y: string)
    requires AllSpace(x) && AllSpace(y)
    ensures AllSpace(x + y)
  {
    forall i | 0 <= i < |x + y| ensures IsSpace((x + y)[i]) {
      if i < |x| {
        assert (x + y)[i] == x[i];
      } else {
        assert (x + y)[i] == y[i - |x|];
      }
    }
  }

  lemma {:induction false} AftersSpace(gaps: seq<Gap>)
    requires SpaceGaps(gaps)
    ensures AllSpace(Afters(gaps))
    decreases |gaps|
  {
    if gaps != [] {
      assert SpaceGap(gaps[0]);
      assert forall i :: 0 <= i < |gaps[1..]| ==> gaps[1..][i] == gaps[i + 1];
      AftersSpace(gaps[1..]);
      SpaceJoin(gaps[0].after, Afters(gaps[1..]));
    }
  }

  /** Line 51 needs a comma: a text without one is kept. */
  lemma {:induction false} CommaFreeKept(x: string)
    requires ',' !in x
    ensures RemoveCommaAndTarget(x) == x
  {
    forall i | 0 <= i < |x| ensures CommaTargetLen(x[i..]) == 0 {
      assert x[i..][0] == x[i] && x[i] in x;
    }
    KeptBySecondRemoval(x);
  }

  lemma {:induction false} CommaFreeJoin(w: string, f: string, v: string)
    requires ',' !in w && ',' !in f && ',' !in v
    ensures ',' !in w + (f + v)
  {
  }

  /** Line 53 copies whitespace. */
  lemma {:induction false} SpacesBeforeKept(w: string, x: string)
    requires AllSpace(w)
    ensures Replace(w + x, TargetCall, []) == w + Replace(x, TargetCall, [])
  {
    SpaceChars(w);
    NoTargetIn(w, x);
    ScanPast(w, x, TargetCall, []);
  }

  /** Line 53 on a target between two whitespace runs leaves the two runs. */
  lemma {:induction false} TargetBetweenSpaces(w: string, f: string, v: string)
    requires AllSpace(w) && AllSpace(v) && f != [] && TargetLen(f + v) == |f|
    ensures RemoveTarget(w + (f + v)) == w + v
  {
    var x := f + v;
    assert MatchLen(TargetCall, x) == |f|;
    MatchFirst(f, v, TargetCall, []);
    SpacesBeforeKept(v, []);
    assert v + [] == v;
    assert Replace(x, TargetCall, []) == v;
    SpacesBeforeKept(w, x);
  }

  /** Lines 51 and 53 then find no comma and take the last target, leaving the whitespace around it. */
  lemma {:induction false} SpacesThenTarget(w: string, b: string, v: string)
    requires AllSpace(w) && PlainArgument(b) && AllSpace(v)
    ensures RemoveCommaAndTarget(w + (Fsa(b) + v)) == w + (Fsa(b) + v)
    ensures RemoveTarget(w + (Fsa(b) + v)) == w + v
  {
    FsaChars(b);
    SpaceChars(w);
    SpaceChars(v);
    CommaFreeJoin(w, Fsa(b), v);
    CommaFreeKept(w + (Fsa(b) + v));
    TargetLenOfFsa(b, v);
    TargetBetweenSpaces(w, Fsa(b), v);
  }

  /** Nothing but whitespace is left of a list of targets, and the trims leave nothing at all. */
  lemma {:induction false} SpacesCleaned(w: string)
    requires AllSpace(w)
    ensures TrimList(NormalizeCommas(w)) == []
  {
    SpaceChars(w);
    CommaFreeNormal(w);
    TrimSpec(w);
  }

  lemma {:induction false} PaddingRegrouped(lead: string, l: string, trail: string, k: string, x: string)
    ensures lead + l + trail == lead + (l + trail)
    ensures lead + (k + x) == (lead + k) + x
  {
  }

  /** The first removal on a padded list: the leading whitespace is copied, then the list goes as before. */
  lemma {:induction false} PaddedFirstRemoval(lead: string, args: seq<string>, gaps: seq<Gap>, trail: string)
    requires AllSpace(lead) && PlainArguments(args) && SpaceGaps(gaps) && |gaps| + 1 == |args| && AllSpace(trail)
    ensures TargetCount(lead + TargetList(args, gaps) + trail) == |args|
    ensures RemoveTargetAndComma(lead + TargetList(args, gaps) + trail) ==
      (lead + Afters(gaps)) + (Fsa(args[|args| - 1]) + trail)
  {
    var l := TargetList(args, gaps);
    PaddingRegrouped(lead, l, trail, Afters(gaps), Fsa(args[|args| - 1]) + trail);
    TargetListCount(args, gaps, trail);
    TargetListFirstRemoval(args, gaps, trail);
    SpaceChars(lead);
    NoTargetIn(lead, l + trail);
    ScanPast(lead, l + trail, TargetCall, []);
    ScanPast(lead, l + trail, TargetCallThenComma, []);
  }

  /**
    A list of one or more targets and nothing else, with any whitespace
    around its commas and before and after the whole list: line 37 counts
    each of them, and lines 49-60 leave nothing of the list.
   */
  lemma {:induction false} TargetListCleaned(lead: string, args: seq<string>, gaps: seq<Gap>, trail: string)
    requires AllSpace(lead) && PlainArguments(args) && SpaceGaps(gaps) && |gaps| + 1 == |args| && AllSpace(trail)
    ensures TargetCount(lead + TargetList(args, gaps) + trail) == |args|
    ensures Clean(lead + TargetList(args, gaps) + trail) == []
  {
    var w := lead + Afters(gaps);
    PaddedFirstRemoval(lead, args, gaps, trail);
    AftersSpace(gaps);
    SpaceJoin(lead, Afters(gaps));
    SpacesThenTarget(w, args[|args| - 1], trail);
    SpaceJoin(w, trail);
    SpacesCleaned(w + trail);
  }

  lemma {:induction false} PaddedListChars(lead: string, args: seq<string>, gaps: seq<Gap>, trail: string)
    requires AllSpace(lead) && PlainArguments(args) && SpaceGaps(gaps) && |gaps| + 1 == |args| && AllSpace(trail)
    ensures ']' !in lead + TargetList(args, gaps) + trail
  {
    TargetListChars(args, gaps);
    SpaceChars(lead);
    SpaceChars(trail);
  }

  /**
    Lines 62-67 on a span whose list holds only targets, with any
    whitespace around its commas and just inside its brackets: the block
    and the whitespace after it go, the trailing comment stays, and every
    target is counted.
   */
  lemma {:induction false} TargetsOnlySpanDropped(lead: string, args: seq<string>, gaps: seq<Gap>, trail: string, space: string, comment: string, q: string)
    requires AllSpace(lead) && PlainArguments(args) && SpaceGaps(gaps) && |gaps| + 1 == |args| && AllSpace(trail)
    requires AllSpace(space) && (comment == [] || IsLineComment(comment))
    requires EndsSpan(Span(lead + TargetList(args, gaps) + trail, space, comment), q)
    ensures Output(Scan(Whole(Span(lead + TargetList(args, gaps) + trail, space, comment)) + q)) == comment + Output(Scan(q))
    ensures Removed(Scan(Whole(Span(lead + TargetList(args, gaps) + trail, space, comment)) + q)) == |args| + Removed(Scan(q))
  {
    PaddedListChars(lead, args, gaps, trail);
    TargetListCleaned(lead, args, gaps, trail);
    SpanDropped(Span(lead + TargetList(args, gaps) + trail, space, comment), q);
  }

  lemma {:induction false} Unpadded(l: string)
    ensures [] + l + [] == l
  {
  }

  /** `[FormerlySerializedAs(a) , FormerlySerializedAs(b)]`, with any whitespace around the comma, disappears, two removals. */
  lemma {:induction false} TwoTargetsInOneBlock(a: string, g: Gap, b: string)
    requires PlainArgument(a) && SpaceGap(g) && PlainArgument(b)
    ensures Output(Scan("[" + (Fsa(a) + (Separator(g) + Fsa(b))) + "]")) == []
    ensures Removed(Scan("[" + (Fsa(a) + (Separator(g) + Fsa(b))) + "]")) == 2
  {
    var args := [a, b];
    assert args[1..] == [b] && [g][1..] == [];
    assert TargetList(args, [g]) == Fsa(a) + (Separator(g) + Fsa(b));
    Unpadded(TargetList(args, [g]));
    TargetListChars(args, [g]);
    TargetListCleaned([], args, [g], []);
    DroppedBlockAlone(TargetList(args, [g]));
  }

  /**
    `[ FormerlySerializedAs(a) ]` and a target alone on its own line
    between the brackets: the whitespace just inside the brackets goes
    with the block, one removal.
   */
  lemma {:induction false} PaddedTargetBlock(lead: string, a: string, trail: string)
    requires AllSpace(lead) && PlainArgument(a) && AllSpace(trail)
    ensures Output(Scan("[" + (lead + Fsa(a) + trail) + "]")) == []
    ensures Removed(Scan("[" + (lead + Fsa(a) + trail) + "]")) == 1
  {
    assert TargetList([a], []) == Fsa(a);
    PaddedListChars(lead, [a], [], trail);
    TargetListCleaned(lead, [a], [], trail);
    DroppedBlockAlone(lead + Fsa(a) + trail);
  }

  // ---------------------------------------------------------------------
  // A target in last position

  /** `m, FormerlySerializedAs(a)`: line 51 removes the target with the comma before it. */
  lemma {:induction false} LastTargetRemoval(m: string, a: string)
    requires PlainName(m) && PlainArgument(a)
    ensures RemoveCommaAndTarget(m + ", " + Fsa(a)) == m
  {
    var r := ", " + Fsa(a);
    PlainNameFacts(m);
    assert m + ", " + Fsa(a) == m + r;
    forall i | 0 <= i < |m| ensures MatchLen(CommaThenTargetCall, (m + r)[i..]) == 0 {
      assert (m + r)[i..][0] == m[i];
    }
    ScanPast(m, r, CommaThenTargetCall, []);
    CommaTargetLenOfFsa(a);
    assert r + [] == r;
    MatchFirst(r, [], CommaThenTargetCall, []);
    assert m + [] == m;
  }

  /** Line 49 finds no target followed by a comma in `m, FormerlySerializedAs(a)`, and line 37 one target. */
  lemma {:induction false} LastTargetKeptByFirstRemoval(m: string, a: string)
    requires PlainName(m) && PlainArgument(a)
    ensures RemoveTargetAndComma(m + ", " + Fsa(a)) == m + ", " + Fsa(a)
    ensures TargetCount(m + ", " + Fsa(a)) == 1
  {
    PlainNameFacts(m);
    var p := m + ", ";
    assert Fsa(a) <= Fsa(a);
    NoTargetBefore(p, a, Fsa(a));
    ScanPast(p, Fsa(a), TargetCallThenComma, []);
    ScanPast(p, Fsa(a), TargetCall, []);
    LoneTargetNoComma(a);
    LoneTargetRemoved(a);
  }

  /** `m, FormerlySerializedAs(a)`: one target, and `m` is what is left. */
  lemma {:induction false} LastTargetCleaned(m: string, a: string)
    requires PlainName(m) && PlainArgument(a)
    ensures TargetCount(m + ", " + Fsa(a)) == 1 && Clean(m + ", " + Fsa(a)) == m
  {
    PlainNameFacts(m);
    LastTargetKeptByFirstRemoval(m, a);
    LastTargetRemoval(m, a);
    ParenFreeSuffixes(m);
    KeptByThirdRemoval(m);
    CommaFreeNormal(m);
    assert m[..0] == [] && m[0..] == m;
    TrimsOfTidy(m, m);
  }

  /** `[m, FormerlySerializedAs(a)]` becomes `[m]`, one removal. */
  lemma {:induction false} LastTargetBlock(m: string, a: string)
    requires PlainName(m) && PlainArgument(a)
    ensures Output(Scan("[" + (m + ", " + Fsa(a)) + "]")) == "[" + m + "]"
    ensures Removed(Scan("[" + (m + ", " + Fsa(a)) + "]")) == 1
  {
    LastTargetCleaned(m, a);
    LastTargetChars(m, a);
    CleanedBlockAlone(m + ", " + Fsa(a), m);
  }

  lemma {:induction false} LastTargetChars(m: string, a: string)
    requires PlainName(m) && PlainArgument(a)
    ensures ']' !in m + ", " + Fsa(a) && m != []
  {
    PlainNameFacts(m);
    FsaChars(a);
  }

  // ---------------------------------------------------------------------
  // An empty entry after a target

  /** Line 49 takes the target with the first comma; the other two stay. */
  lemma {:induction false} EmptyEntriesStrip(a: string, n: string)
    requires PlainArgument(a) && PlainName(n)
    ensures StripTarget(Fsa(a) + ",,, " + n) == ",, " + n
  {
    var body := Fsa(a) + ",,, " + n;
    PlainNameFacts(n);
    SplitEmptyEntries(Fsa(a), n);
    TargetCommaLenOfFsa(a, ",,, " + n);
    MatchFirst(Fsa(a) + ",", ",, " + n, TargetCallThenComma, []);
    ParenFreeSuffixes(",, " + n);
    KeptByFirstRemoval(",, " + n);
    StripAfterFirstRemoval(body, ",, " + n);
  }

  /** Line 37 counts the one target. */
  lemma {:induction false} EmptyEntriesCount(a: string, n: string)
    requires PlainArgument(a) && PlainName(n)
    ensures TargetCount(Fsa(a) + ",,, " + n) == 1
  {
    PlainNameFacts(n);
    FsaChars(a);
    SplitEmptyEntries(Fsa(a), n);
    TargetLenOfFsa(a, ",,, " + n);
    MatchFirst(Fsa(a), ",,, " + n, TargetCall, []);
    ParenFreeKept(",,, " + n);
  }

  lemma {:induction false} SplitEmptyEntries(f: string, n: string)
    ensures f + ",,, " + n == f + (",,, " + n) == (f + ",") + (",, " + n)
    ensures (",,, " + n)[0] == ',' && '(' !in ",, " && '(' !in ",,, "
  {
  }

  /** Line 56 writes each of the two commas as `", "`. */
  lemma {:induction false} EmptyEntriesNormalized(n: string)
    requires PlainName(n)
    ensures NormalizeCommas(",, " + n) == ", , " + n
  {
    PlainNameFacts(n);
    CommasRegrouped(n);
    BareComma(", " + n);
    MatchFirst(",", ", " + n, SpacedComma, ", ");
    CommaAndSpace(n);
    MatchFirst(", ", n, SpacedComma, ", ");
    CommaFreeNormal(n);
  }

  lemma {:induction false} CommasRegrouped(n: string)
    ensures ",, " + n == "," + (", " + n) && ", , " + n == ", " + (", " + n)
  {
  }

  /** A comma with no whitespace after it is one match of line 56's pattern. */
  lemma {:induction false} BareComma(x: string)
    requires x != [] && !IsSpace(x[0])
    ensures SpacedCommaLen("," + x) == 1
  {
    assert ("," + x)[1..] == x;
  }

  /** A comma and one space are one match of line 56's pattern. */
  lemma {:induction false} CommaAndSpace(x: string)
    requires x != [] && !IsSpace(x[0])
    ensures SpacedCommaLen(", " + x) == 2
  {
    assert (", " + x)[1..] == " " + x;
    LeadingCountOfRun(" ", x, Space);
  }

  /** Lines 57-60 drop only the first of the two commas. */
  lemma {:induction false} EmptyEntriesTrimmed(n: string)
    requires PlainName(n)
    ensures TrimList(", , " + n) == ", " + n
  {
    PlainNameFacts(n);
    CommasRegrouped(n);
    TidyEnds(", " + (", " + n));
    LeadingCommaDropped(", " + n);
    SpaceDropped(", " + n);
  }

  /** A text with no whitespace at either end and no comma at the end passes the first two trims unchanged. */
  lemma {:induction false} TidyEnds(x: string)
    requires x != [] && !IsSpace(x[0]) && !IsSpace(x[|x| - 1]) && x[|x| - 1] != ','
    ensures Trim(x) == x && TrimEnd(x, Comma) == x
  {
    assert LeadingCount(x, Space) == 0 && TrailingCount(x, Space) == 0;
    assert x[0..] == x && x[..|x|] == x;
  }

  /** Line 59 drops the comma before the space and no more. */
  lemma {:induction false} LeadingCommaDropped(z: string)
    ensures TrimStart(", " + z, Comma) == " " + z
  {
    var t := ", " + z;
    assert t[1..] == " " + z;
    assert LeadingCount(t[1..], Comma) == 0;
    assert LeadingCount(t, Comma) == 1;
  }

  /** Line 60 drops the space left at the front. */
  lemma {:induction false} SpaceDropped(z: string)
    requires z != [] && !IsSpace(z[0]) && !IsSpace(z[|z| - 1])
    ensures Trim(" " + z) == z
  {
    assert (" " + z)[1..] == z;
    LeadingCountOfRun(" ", z, Space);
    assert TrimStart(" " + z, Space) == z;
    assert TrailingCount(z, Space) == 0 && z[..|z|] == z;
  }

  /**
    A list with an empty entry after the target: `FormerlySerializedAs(a),,, n`
    is cleaned to `, n`, whose leading comma line 59 was meant to remove.
   */
  lemma {:induction false} EmptyEntryLeavesComma(a: string, n: string)
    requires PlainArgument(a) && PlainName(n)
    ensures TargetCount(Fsa(a) + ",,, " + n) == 1 && Clean(Fsa(a) + ",,, " + n) == ", " + n
    ensures !WellFormedList(Clean(Fsa(a) + ",,, " + n))
  {
    EmptyEntriesCount(a, n);
    EmptyEntriesStrip(a, n);
    EmptyEntriesNormalized(n);
    EmptyEntriesTrimmed(n);
  }

  /** `[FormerlySerializedAs(a),,, n]` becomes `[, n]`, one removal. */
  lemma {:induction false} EmptyEntryBlock(a: string, n: string)
    requires PlainArgument(a) && PlainName(n)
    ensures Output(Scan("[" + (Fsa(a) + ",,, " + n) + "]")) == "[" + (", " + n) + "]"
    ensures Removed(Scan("[" + (Fsa(a) + ",,, " + n) + "]")) == 1
  {
    EmptyEntryLeavesComma(a, n);
    EmptyEntriesChars(a, n);
    CleanedBlockAlone(Fsa(a) + ",,, " + n, ", " + n);
  }

  lemma {:induction false} EmptyEntriesChars(a: string, n: string)
    requires PlainArgument(a) && PlainName(n)
    ensures ']' !in Fsa(a) + ",,, " + n
  {
    PlainNameFacts(n);
    FsaChars(a);
  }
}
