// `FormerlySerializedAsRemover.RemoveFormerlySerializedAs`
// (FormerlySerializedAsRemover.cs, lines 15-81): the scan for attribute
// spans, the evaluator that rewrites each span, and the running count.
//
// The scan follows `Regex.Replace` with the pattern
// `(\[([^\]]*)\])(\s*)(\s*//.*)?`: at each position it either matches a
// span, emits the evaluator's text for it and resumes after it, or copies
// one character and moves on.
module Remover {
  import opened Text
  import opened AttributeCleaner

  datatype Option<T> = None | Some(value: T)

  /**
    One match of the span pattern, by the groups the evaluator reads:
    group 2, the text between the brackets; group 3, the whitespace after
    `]`; group 4, the trailing comment (empty when the group did not match).
   */
  datatype Span = Span(body: string, space: string, comment: string)

  /** The text a span was matched from. */
  function Whole(sp: Span): string {
    "[" + sp.body + "]" + sp.space + sp.comment
  }

  /** The scan cuts the input into copied characters and matched spans. */
  datatype Segment = Copied(c: char) | Matched(span: Span)

  predicate StartsComment(t: string) {
    |t| >= 2 && t[0] == '/' && t[1] == '/'
  }

  /** What group 4 can hold: `//` and the rest of its line, without the line break. */
  predicate IsLineComment(c: string) {
    StartsComment(c) && '\n' !in c
  }

  /** What a span of the pattern can be, whatever follows it. */
  predicate WellFormedSpan(sp: Span) {
    ']' !in sp.body && AllSpace(sp.space) && (sp.comment == [] || IsLineComment(sp.comment))
  }

  /**
    Groups 3 and 4, read from the text after the closing bracket: the whole
    run of whitespace, then `//` and the rest of its line if they follow.
   */
  function SpaceAndComment(u: string): (r: (string, string))
    ensures r.0 + r.1 <= u
  {
    var w := LeadingCount(u, Space);
    var rest := u[w..];
    var comment := if StartsComment(rest) then rest[..FirstIndex(rest, '\n')] else [];
    assert u[..w] + comment == u[..w + |comment|];
    (u[..w], comment)
  }

  /**
    Group 3 is the whole run of whitespace; group 4 is empty unless `//`
    follows that run, and then it runs up to the next line feed or the end.
   */
  lemma {:induction false} SpaceAndCommentSpec(u: string)
    ensures var (space, comment) := SpaceAndComment(u);
      && AllSpace(space)
      && (|space| == |u| || !IsSpace(u[|space|]))
      && (comment == [] <==> !StartsComment(u[|space|..]))
      && (comment != [] ==> IsLineComment(comment) && (|space| + |comment| == |u| || u[|space| + |comment|] == '\n'))
  {
    var w := LeadingCount(u, Space);
    LeadingSpaces(u);
    var rest := u[w..];
    if StartsComment(rest) {
      var k := FirstIndex(rest, '\n');
      assert rest[..k][0] == '/' && rest[..k][1] == '/' by {
        assert '\n' !in rest[..2];
      }
      assert k == |rest| || u[w + k] == '\n';
    }
  }

  lemma {:induction false} WholeIsPrefix(t: string, close: nat, space: string, comment: string)
    requires 0 < close < |t| && t[0] == '[' && t[close] == ']'
    requires space + comment <= t[close + 1..]
    ensures Whole(Span(t[1..close], space, comment)) <= t
  {
    var u := t[close + 1..];
    var n := |space| + |comment|;
    assert space + comment == u[..n];
    assert t[..close + 1 + n] == "[" + t[1..close] + "]" + u[..n];
  }

  /**
    The match of the span pattern at the start of `t`, if any. The body
    runs to the first `]`; group 3 takes the whole run of whitespace after
    it, so the optional group 4 can only begin right after that run, with
    `//`, and `.*` runs to the end of the line.
   */
  function MatchSpan(t: string): Option<Span> {
    if t == [] || t[0] != '[' then None
    else
      var close := FirstIndex(t, ']');
      if close == |t| then None
      else
        var (space, comment) := SpaceAndComment(t[close + 1..]);
        Some(Span(t[1..close], space, comment))
  }

  /**
    The span pattern matches exactly where a `[` is followed, somewhere
    later, by a `]`; the match is a prefix of the text, its body holds no
    `]`, and groups 3 and 4 are read from the text after the bracket.
   */
  lemma {:induction false} MatchSpanSpec(t: string)
    ensures MatchSpan(t).None? <==> t == [] || t[0] != '[' || ']' !in t
    ensures MatchSpan(t).Some? ==>
      var sp := MatchSpan(t).value;
      && Whole(sp) <= t && ']' !in sp.body
      && SpaceAndComment(t[|sp.body| + 2..]) == (sp.space, sp.comment)
  {
    if t != [] && t[0] == '[' {
      var close := FirstIndex(t, ']');
      if close < |t| {
        var (space, comment) := SpaceAndComment(t[close + 1..]);
        WholeIsPrefix(t, close, space, comment);
        assert ']' !in t[1..close];
      }
    }
  }

  /** A match is a well-formed span, and it stops only where the pattern must. */
  lemma {:induction false} MatchSpanShape(t: string)
    requires MatchSpan(t).Some?
    ensures WellFormedSpan(MatchSpan(t).value)
    ensures
      var sp := MatchSpan(t).value;
      var k := |sp.body| + 2 + |sp.space|;
      && (k == |t| || !IsSpace(t[k]))
      && (sp.comment == [] <==> !StartsComment(t[k..]))
      && (sp.comment != [] ==> k + |sp.comment| == |t| || t[k + |sp.comment|] == '\n')
  {
    MatchSpanSpec(t);
    var sp := MatchSpan(t).value;
    var u := t[|sp.body| + 2..];
    SpaceAndCommentSpec(u);
    assert u[|sp.space|..] == t[|sp.body| + 2 + |sp.space|..];
  }

  /** What may follow a complete match of `sp`: nothing the pattern could still take. */
  predicate EndsSpan(sp: Span, q: string) {
    if sp.comment == [] then (q == [] || !IsSpace(q[0])) && !StartsComment(q)
    else q == [] || q[0] == '\n'
  }

  lemma {:induction false} SpaceAndCommentOf(space: string, comment: string, q: string)
    requires AllSpace(space) && (comment == [] || IsLineComment(comment))
    requires EndsSpan(Span([], space, comment), q)
    ensures SpaceAndComment(space + comment + q) == (space, comment)
  {
    var u := space + comment + q;
    LeadingCountOfRun(space, comment + q, Space);
    assert u == space + (comment + q);
    var w := LeadingCount(u, Space);
    assert u[..w] == space;
    var rest := u[w..];
    assert rest == comment + q;
    if comment != [] {
      FirstIndexAfter(comment, q, '\n');
      assert rest[..|comment|] == comment;
    }
  }

  /**
    The converse of `MatchSpanSpec`: a well-formed span followed by text
    the pattern cannot take is matched as exactly that span.
   */
  lemma {:induction false} SpanMatched(sp: Span, q: string)
    requires WellFormedSpan(sp) && EndsSpan(sp, q)
    ensures MatchSpan(Whole(sp) + q) == Some(sp)
  {
    FirstClose(sp, q);
    SpaceAndCommentOf(sp.space, sp.comment, q);
  }

  /** In the text of a span, the first `]` is the span's closing bracket. */
  lemma {:induction false} FirstClose(sp: Span, q: string)
    requires ']' !in sp.body
    ensures var t := Whole(sp) + q; var close := |sp.body| + 1;
      && t[0] == '[' && FirstIndex(t, ']') == close
      && t[1..close] == sp.body && t[close + 1..] == sp.space + sp.comment + q
  {
    var t := Whole(sp) + q;
    assert t == "[" + sp.body + ("]" + (sp.space + sp.comment + q));
    FirstIndexAfter("[" + sp.body, "]" + (sp.space + sp.comment + q), ']');
  }

  /** The input text again, from the pieces the scan cut it into. */
  function Flatten(segs: seq<Segment>): string {
    if segs == [] then []
    else
      (match segs[0]
         case Copied(c) => [c]
         case Matched(sp) => Whole(sp))
      + Flatten(segs[1..])
  }

  /** The left-to-right scan of `Regex.Replace` over the whole text. */
  function Scan(t: string): (segs: seq<Segment>)
    ensures Flatten(segs) == t
    decreases |t|
  {
    if t == [] then []
    else
      match MatchSpan(t)
      case Some(sp) =>
        var n := |Whole(sp)|;
        MatchSpanSplits(t);
        FlattenCons(Matched(sp), Scan(t[n..]));
        [Matched(sp)] + Scan(t[n..])
      case None =>
        FlattenCons(Copied(t[0]), Scan(t[1..]));
        assert t == [t[0]] + t[1..];
        [Copied(t[0])] + Scan(t[1..])
  }

  lemma {:induction false} FlattenCons(seg: Segment, rest: seq<Segment>)
    ensures Flatten([seg] + rest) == Flatten([seg]) + Flatten(rest)
  {
    assert ([seg] + rest)[1..] == rest;
    assert [seg][1..] == [];
  }

  /** A match is a non-empty prefix: the text is the match, then the rest. */
  lemma {:induction false} MatchSpanSplits(t: string)
    requires MatchSpan(t).Some?
    ensures 0 < |Whole(MatchSpan(t).value)| <= |t|
    ensures t == Flatten([Matched(MatchSpan(t).value)]) + t[|Whole(MatchSpan(t).value)|..]
  {
    var sp := MatchSpan(t).value;
    MatchSpanSpec(t);
    FlattenOne(sp);
    PrefixSplit(Whole(sp), t);
  }

  lemma {:induction false} FlattenOne(sp: Span)
    ensures Flatten([Matched(sp)]) == Whole(sp)
  {
    assert Flatten([Matched(sp)]) == Whole(sp) + Flatten([]);
  }

  lemma {:induction false} PrefixSplit(a: string, t: string)
    requires a <= t
    ensures t == a + t[|a|..]
  {
    assert t[..|a|] == a;
  }

  /** Every span the scan matches is a well-formed span of the pattern. */
  lemma {:induction false} ScanSpansWellFormed(t: string)
    ensures forall i :: 0 <= i < |Scan(t)| && Scan(t)[i].Matched? ==> WellFormedSpan(Scan(t)[i].span)
    decreases |t|
  {
    if t != [] {
      match MatchSpan(t)
      case Some(sp) =>
        MatchSpanShape(t);
        ScanSpansWellFormed(t[|Whole(sp)|..]);
      case None =>
        ScanSpansWellFormed(t[1..]);
    }
  }

  /**
    The match evaluator of lines 31-73, in the form the unit tests
    assert: a span without the target is returned as matched; a span left
    with no attribute becomes its trailing comment alone; any other span
    becomes the cleaned list in brackets, then the original whitespace and
    comment.
   */
  function Evaluate(sp: Span): (r: string)
    ensures TargetCount(sp.body) == 0 ==> r == Whole(sp)
    ensures TargetCount(sp.body) > 0 && Clean(sp.body) == [] ==> r == sp.comment
    ensures TargetCount(sp.body) > 0 && Clean(sp.body) != [] ==>
      r == "[" + Clean(sp.body) + "]" + sp.space + sp.comment
    ensures |sp.comment| <= |r| && r[|r| - |sp.comment|..] == sp.comment
  {
    var removed := TargetCount(sp.body);
    if removed == 0 then Whole(sp)
    else
      var cleaned := Clean(sp.body);
      if AllSpace(cleaned) then sp.comment
      else "[" + cleaned + "]" + sp.space + sp.comment
  }

  /**
    The evaluator as line 72 writes it: a kept list is emitted with a
    backquote in front of its opening bracket. `Evaluate` is the same
    evaluator without that character, as the unit tests expect it.
   */
  function EvaluateAsWritten(sp: Span): (r: string)
    ensures TargetCount(sp.body) > 0 && Clean(sp.body) != [] ==> r == "`" + Evaluate(sp)
    ensures TargetCount(sp.body) == 0 || Clean(sp.body) == [] ==> r == Evaluate(sp)
  {
    var removed := TargetCount(sp.body);
    if removed == 0 then Whole(sp)
    else
      var cleaned := Clean(sp.body);
      if AllSpace(cleaned) then sp.comment
      else "`" + ("[" + cleaned + "]" + sp.space + sp.comment)
  }

  /** The text the rewrite emits for the pieces of a scan. */
  function Output(segs: seq<Segment>): string {
    if segs == [] then []
    else
      (match segs[0]
         case Copied(c) => [c]
         case Matched(sp) => Evaluate(sp))
      + Output(segs[1..])
  }

  /** The number of targets the evaluator counts over the spans of a scan. */
  function Removed(segs: seq<Segment>): nat {
    if segs == [] then 0
    else
      (match segs[0]
         case Copied(_) => 0
         case Matched(sp) => TargetCount(sp.body))
      + Removed(segs[1..])
  }

  /** A step of the scan at `pos` that matches a span: its text and count, then the rest of the scan from `next`. */
  lemma {:induction false} SpanStep(content: string, pos: nat, sp: Span, next: nat)
    requires pos < |content| && MatchSpan(content[pos..]) == Some(sp)
    requires next == pos + |Whole(sp)|
    ensures next <= |content|
    ensures Output(Scan(content[pos..])) == Evaluate(sp) + Output(Scan(content[next..]))
    ensures Removed(Scan(content[pos..])) == TargetCount(sp.body) + Removed(Scan(content[next..]))
  {
    var t := content[pos..];
    MatchSpanSpec(t);
    var rest := Scan(content[next..]);
    assert t[next - pos..] == content[next..];
    assert Scan(t) == [Matched(sp)] + rest;
    assert ([Matched(sp)] + rest)[1..] == rest;
  }

  /** A step of the scan at `pos` that matches nothing: one character copied, then the rest of the scan from `next`. */
  lemma {:induction false} CopyStep(content: string, pos: nat, next: nat)
    requires pos < |content| && MatchSpan(content[pos..]).None?
    requires next == pos + 1
    ensures Output(Scan(content[pos..])) == [content[pos]] + Output(Scan(content[next..]))
    ensures Removed(Scan(content[pos..])) == Removed(Scan(content[next..]))
  {
    var t := content[pos..];
    assert t[1..] == content[next..];
    var rest := Scan(content[next..]);
    assert Scan(t) == [Copied(t[0])] + rest;
    assert ([Copied(t[0])] + rest)[1..] == rest;
  }

  /** Moving the next piece of the output from the part still to scan to the part already emitted. */
  lemma {:induction false} Regroup(done: string, piece: string, tail: string, rest: string, all: string)
    requires done + rest == all && rest == piece + tail
    ensures (done + piece) + tail == all
  {
  }

  /**
    Lines 15-81: scans `content` once, left to right, and adds each span's
    count to a running total, as the evaluator does with the captured
    counter.
   */
  method RemoveFormerlySerializedAs(content: string) returns (processedContent: string, removedCount: nat)
    ensures processedContent == Output(Scan(content))
    ensures removedCount == Removed(Scan(content))
  {
    var totalRemovedCount: nat := 0;
    var processed: string := [];
    var pos: nat := 0;
    assert content[pos..] == content;
    while pos < |content|
      invariant pos <= |content|
      invariant processed + Output(Scan(content[pos..])) == Output(Scan(content))
      invariant totalRemovedCount + Removed(Scan(content[pos..])) == Removed(Scan(content))
      decreases |content| - pos
    {
      match MatchSpan(content[pos..])
      case Some(sp) =>
        var next := pos + |Whole(sp)|;
        SpanStep(content, pos, sp, next);
        var replacement := Evaluate(sp);
        var currentMatchRemovedCount := TargetCount(sp.body);
        Regroup(processed, replacement, Output(Scan(content[next..])), Output(Scan(content[pos..])), Output(Scan(content)));
        totalRemovedCount := totalRemovedCount + currentMatchRemovedCount;
        processed := processed + replacement;
        pos := next;
      case None =>
        var next := pos + 1;
        CopyStep(content, pos, next);
        Regroup(processed, [content[pos]], Output(Scan(content[next..])), Output(Scan(content[pos..])), Output(Scan(content)));
        processed := processed + [content[pos]];
        pos := next;
    }
    assert content[pos..] == [];
    processedContent, removedCount := processed, totalRemovedCount;
  }

  /** A span at the start of the text is rewritten on its own, and the scan resumes right after it. */
  lemma {:induction false} SpanThenRest(sp: Span, q: string)
    requires WellFormedSpan(sp) && EndsSpan(sp, q)
    ensures Output(Scan(Whole(sp) + q)) == Evaluate(sp) + Output(Scan(q))
    ensures Removed(Scan(Whole(sp) + q)) == TargetCount(sp.body) + Removed(Scan(q))
  {
    var t := Whole(sp) + q;
    SpanMatched(sp, q);
    assert t[0..] == t;
    SpanStep(t, 0, sp, |Whole(sp)|);
    assert t[|Whole(sp)|..] == q;
  }

  /** A span whose list held only targets leaves nothing but its comment. */
  lemma {:induction false} SpanDropped(sp: Span, q: string)
    requires WellFormedSpan(sp) && EndsSpan(sp, q)
    requires TargetCount(sp.body) > 0 && Clean(sp.body) == []
    ensures Output(Scan(Whole(sp) + q)) == sp.comment + Output(Scan(q))
    ensures Removed(Scan(Whole(sp) + q)) == TargetCount(sp.body) + Removed(Scan(q))
  {
    SpanThenRest(sp, q);
  }

  /** A span whose list keeps attributes is rewritten to the cleaned list, with its whitespace and comment. */
  lemma {:induction false} SpanCleaned(sp: Span, q: string)
    requires WellFormedSpan(sp) && EndsSpan(sp, q)
    requires TargetCount(sp.body) > 0 && Clean(sp.body) != []
    ensures Output(Scan(Whole(sp) + q)) == "[" + Clean(sp.body) + "]" + sp.space + sp.comment + Output(Scan(q))
    ensures Removed(Scan(Whole(sp) + q)) == TargetCount(sp.body) + Removed(Scan(q))
  {
    SpanThenRest(sp, q);
  }

  /** Text without `[` cannot start a span: it is copied as it is. */
  lemma {:induction false} PlainTextCopied(p: string, q: string)
    requires '[' !in p
    ensures Output(Scan(p + q)) == p + Output(Scan(q))
    decreases |p|
  {
    if p == [] {
      assert p + q == q;
    } else {
      var t := p + q;
      assert t[0..] == t;
      assert t[1..] == p[1..] + q;
      MatchSpanSpec(t);
      CopyStep(t, 0, 1);
      PlainTextCopied(p[1..], q);
      Regroup([p[0]], p[1..], Output(Scan(q)), Output(Scan(p[1..] + q)), Output(Scan(t)));
      assert [p[0]] + p[1..] == p;
    }
  }

  /** Text without `[` counts nothing. */
  lemma {:induction false} PlainTextUncounted(p: string, q: string)
    requires '[' !in p
    ensures Removed(Scan(p + q)) == Removed(Scan(q))
    decreases |p|
  {
    if p == [] {
      assert p + q == q;
    } else {
      var t := p + q;
      assert t[0..] == t;
      assert t[1..] == p[1..] + q;
      MatchSpanSpec(t);
      CopyStep(t, 0, 1);
      PlainTextUncounted(p[1..], q);
    }
  }

  /** Without a `]` nothing is a span: the text comes back unchanged, with nothing removed. */
  lemma {:induction false} UnclosedTextUnchanged(t: string)
    requires ']' !in t
    ensures Output(Scan(t)) == t && Removed(Scan(t)) == 0
    decreases |t|
  {
    if t != [] {
      assert t[0..] == t;
      MatchSpanSpec(t);
      CopyStep(t, 0, 1);
      UnclosedTextUnchanged(t[1..]);
      assert [t[0]] + t[1..] == t;
    }
  }

  lemma {:induction false} OutputWithoutRemovals(segs: seq<Segment>)
    requires Removed(segs) == 0
    ensures Output(segs) == Flatten(segs)
  {
    if segs != [] {
      OutputWithoutRemovals(segs[1..]);
    }
  }

  /** Where no span holds the target, the rewrite returns the text unchanged. */
  lemma {:induction false} NothingRemovedUnchanged(content: string)
    requires Removed(Scan(content)) == 0
    ensures Output(Scan(content)) == content
  {
    OutputWithoutRemovals(Scan(content));
  }
}
