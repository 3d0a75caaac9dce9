/**
  The cleanup of one attribute list (FormerlySerializedAsRemover.cs,
  lines 37-60): counting the target attribute in the text between the
  brackets, deleting it in three passes, then repairing commas and
  whitespace.
 */
module AttributeCleaner {
  import opened Text
  import opened Patterns

  /** How many target attributes the list holds (line 37). */
  function TargetCount(body: string): nat {
    Matches(body, TargetCall)
  }

  /** Line 49: deletes each target together with the comma after it. */
  function RemoveTargetAndComma(s: string): (r: string)
    ensures IsSubsequence(r, s)
  {
    ReplaceByNothingDeletes(s, TargetCallThenComma);
    Replace(s, TargetCallThenComma, [])
  }

  /** Line 51: deletes each target together with the comma before it. */
  function RemoveCommaAndTarget(s: string): (r: string)
    ensures IsSubsequence(r, s)
  {
    ReplaceByNothingDeletes(s, CommaThenTargetCall);
    Replace(s, CommaThenTargetCall, [])
  }

  /** Line 53: deletes each remaining target. */
  function RemoveTarget(s: string): (r: string)
    ensures IsSubsequence(r, s)
  {
    ReplaceByNothingDeletes(s, TargetCall);
    Replace(s, TargetCall, [])
  }

  /** The three removals of lines 49-53, in order: they only delete, so what remains keeps its order. */
  function StripTarget(body: string): (r: string)
    ensures IsSubsequence(r, body)
  {
    var withoutTrailingComma := RemoveTargetAndComma(body);
    var withoutLeadingComma := RemoveCommaAndTarget(withoutTrailingComma);
    var withoutTarget := RemoveTarget(withoutLeadingComma);
    SubsequenceTransitive(withoutTarget, withoutLeadingComma, withoutTrailingComma);
    SubsequenceTransitive(withoutTarget, withoutTrailingComma, body);
    withoutTarget
  }

  /** Every comma with the whitespace around it becomes `", "` (line 56). */
  function NormalizeCommas(s: string): string {
    Replace(s, SpacedComma, ", ")
  }

  /** The whole cleanup of lines 49-60: removals, comma repair, then the trims. */
  function Clean(body: string): string {
    TrimList(NormalizeCommas(StripTarget(body)))
  }

  /** The trims of lines 57-60: outer whitespace, then commas at either end, then whitespace again. */
  function TrimList(normalized: string): string {
    Trim(TrimStart(TrimEnd(Trim(normalized), Comma), Comma))
  }

  /** Every comma is followed by exactly one space, then by the end or by a character that is not whitespace. */
  predicate OneSpaceAfterCommas(x: string) {
    forall k {:trigger x[k]} :: 0 <= k < |x| && x[k] == ',' ==>
      k + 1 < |x| && x[k + 1] == ' ' && (k + 2 == |x| || !IsSpace(x[k + 2]))
  }

  /** No whitespace stands before a comma, except the space of a `", "` just before it. */
  predicate NoSpaceBeforeCommas(x: string) {
    forall k {:trigger x[k]} :: 0 < k < |x| && x[k] == ',' ==>
      !IsSpace(x[k - 1]) || (2 <= k && x[k - 1] == ' ' && x[k - 2] == ',')
  }

  /** No two commas of `x` have only whitespace between them: the list has no empty entry. */
  predicate NoEmptyEntries(x: string) {
    forall k {:trigger x[k]} :: 0 <= k < |x| && x[k] == ',' ==>
      var rest := TrimStart(x[k + 1..], Space); rest == [] || rest[0] != ','
  }

  lemma {:induction false} NoSpaceBeforeCommaAt(x: string, k: int)
    requires NoSpaceBeforeCommas(x) && 0 < k < |x| && x[k] == ','
    ensures !IsSpace(x[k - 1]) || (2 <= k && x[k - 1] == ' ' && x[k - 2] == ',')
  {
  }

  lemma {:induction false} NormalizeStep(t: string)
    requires t != []
    ensures SpacedCommaLen(t) > 0 ==> NormalizeCommas(t) == ", " + NormalizeCommas(t[SpacedCommaLen(t)..])
    ensures SpacedCommaLen(t) == 0 ==> NormalizeCommas(t) == [t[0]] + NormalizeCommas(t[1..])
  {
  }

  /** The first character the normalization emits for a non-empty text. */
  lemma {:induction false} NormalizeFirst(t: string)
    requires t != []
    ensures NormalizeCommas(t) != []
    ensures NormalizeCommas(t)[0] == (if SpacedCommaLen(t) > 0 then ',' else t[0])
  {
    NormalizeStep(t);
  }

  /** A whitespace character in front of a text does not change whether a comma pattern starts there. */
  lemma {:induction false} SpacedCommaThroughSpace(t: string)
    requires t != [] && IsSpace(t[0])
    ensures SpacedCommaLen(t) > 0 <==> SpacedCommaLen(t[1..]) > 0
  {
    assert LeadingCount(t, Space) == 1 + LeadingCount(t[1..], Space);
    assert TrimStart(t, Space) == TrimStart(t[1..], Space);
  }

  lemma {:induction false} SpacedCommaValue(t: string)
    requires SpacedCommaLen(t) > 0
    ensures var k := LeadingCount(t, Space);
      k < |t| && t[k] == ',' && SpacedCommaLen(t) == k + 1 + LeadingCount(t[k + 1..], Space)
  {
  }

  lemma {:induction false} SpacesAfter(t: string, k: nat, j: nat)
    requires k < |t| && j == LeadingCount(t[k + 1..], Space)
    ensures AllSpace(t[k + 1..k + 1 + j])
  {
    LeadingSpaces(t[k + 1..]);
    assert t[k + 1..k + 1 + j] == t[k + 1..][..j];
  }

  /** What a match of `\\s*,\\s*` consists of. */
  lemma {:induction false} SpacedCommaShape(t: string)
    requires SpacedCommaLen(t) > 0
    ensures var k := LeadingCount(t, Space);
      k < SpacedCommaLen(t) && t[k] == ',' && AllSpace(t[..k]) && AllSpace(t[k + 1..SpacedCommaLen(t)])
  {
    SpacedCommaValue(t);
    LeadingSpaces(t);
    SpacesAfterComma(t);
  }

  lemma {:induction false} SpacesAfterComma(t: string)
    requires SpacedCommaLen(t) > 0
    ensures var k := LeadingCount(t, Space); k < |t| && AllSpace(t[k + 1..SpacedCommaLen(t)])
  {
    var k := LeadingCount(t, Space);
    SpacedCommaValue(t);
    SpacesAfter(t, k, LeadingCount(t[k + 1..], Space));
  }

  lemma {:induction false} NonSpaceOfSpacedComma(t: string)
    requires SpacedCommaLen(t) > 0
    ensures NonSpace(t[..SpacedCommaLen(t)]) == ","
  {
    var n := SpacedCommaLen(t);
    var k := LeadingCount(t, Space);
    SpacedCommaShape(t);
    assert t[..n] == t[..k] + ([','] + t[k + 1..n]);
    NonSpaceOfSpaces(t[..k]);
    NonSpaceOfSpaces(t[k + 1..n]);
    NonSpaceAppend([','], t[k + 1..n]);
    NonSpaceAppend(t[..k], [','] + t[k + 1..n]);
  }

  /** Line 56 changes whitespace only: every other character, each comma included, is kept, in order. */
  lemma {:induction false} NormalizeKeepsNonSpace(s: string)
    ensures NonSpace(NormalizeCommas(s)) == NonSpace(s)
    decreases |s|
  {
    if s != [] {
      var n := SpacedCommaLen(s);
      if n > 0 {
        NormalizeKeepsNonSpace(s[n..]);
        NonSpaceAtSpacedComma(s);
      } else {
        NormalizeKeepsNonSpace(s[1..]);
        NonSpaceAtCopiedChar(s);
      }
    }
  }

  /** A comma with its whitespace becomes `", "`: both hold the one comma and then the rest. */
  lemma {:induction false} NonSpaceAtSpacedComma(s: string)
    requires SpacedCommaLen(s) > 0
    ensures NonSpace(NormalizeCommas(s)) == "," + NonSpace(NormalizeCommas(s[SpacedCommaLen(s)..]))
    ensures NonSpace(s) == "," + NonSpace(s[SpacedCommaLen(s)..])
  {
    var n := SpacedCommaLen(s);
    NormalizeStep(s);
    NonSpaceAppend(", ", NormalizeCommas(s[n..]));
    assert NonSpace(", ") == ",";
    NonSpaceOfSpacedComma(s);
    assert s == s[..n] + s[n..];
    NonSpaceAppend(s[..n], s[n..]);
  }

  /** A character that starts no comma pattern is copied by line 56. */
  lemma {:induction false} NonSpaceAtCopiedChar(s: string)
    requires s != [] && SpacedCommaLen(s) == 0
    ensures NonSpace(NormalizeCommas(s)) == NonSpace([s[0]]) + NonSpace(NormalizeCommas(s[1..]))
    ensures NonSpace(s) == NonSpace([s[0]]) + NonSpace(s[1..])
  {
    NormalizeStep(s);
    NonSpaceAppend([s[0]], NormalizeCommas(s[1..]));
    NonSpaceAppend([s[0]], s[1..]);
    assert [s[0]] + s[1..] == s;
  }

  lemma {:induction false} OneSpaceAfterCommaPrefix(r: string)
    requires OneSpaceAfterCommas(r) && (r == [] || !IsSpace(r[0]))
    ensures OneSpaceAfterCommas(", " + r)
  {
    var x := ", " + r;
    forall k | 0 <= k < |x| && x[k] == ','
      ensures k + 1 < |x| && x[k + 1] == ' ' && (k + 2 == |x| || !IsSpace(x[k + 2]))
    {
      if k >= 2 {
        assert r[k - 2] == ',';
      }
    }
  }

  lemma {:induction false} OneSpaceAfterCharPrefix(c: char, r: string)
    requires OneSpaceAfterCommas(r) && c != ','
    ensures OneSpaceAfterCommas([c] + r)
  {
    var x := [c] + r;
    forall k | 0 <= k < |x| && x[k] == ','
      ensures k + 1 < |x| && x[k + 1] == ' ' && (k + 2 == |x| || !IsSpace(x[k + 2]))
    {
      assert r[k - 1] == ',';
    }
  }

  lemma {:induction false} NoSpaceBeforeCommaPrefix(r: string)
    requires NoSpaceBeforeCommas(r)
    ensures NoSpaceBeforeCommas(", " + r)
  {
    var x := ", " + r;
    forall k | 0 < k < |x| && x[k] == ','
      ensures !IsSpace(x[k - 1]) || (2 <= k && x[k - 1] == ' ' && x[k - 2] == ',')
    {
      if k >= 3 {
        assert r[k - 2] == ',' && x[k - 1] == r[k - 3];
        NoSpaceBeforeCommaAt(r, k - 2);
      }
    }
  }

  lemma {:induction false} NoSpaceBeforeCharPrefix(c: char, r: string)
    requires NoSpaceBeforeCommas(r) && (r != [] && r[0] == ',' ==> !IsSpace(c))
    ensures NoSpaceBeforeCommas([c] + r)
  {
    var x := [c] + r;
    forall k | 0 < k < |x| && x[k] == ','
      ensures !IsSpace(x[k - 1]) || (2 <= k && x[k - 1] == ' ' && x[k - 2] == ',')
    {
      if k >= 2 {
        assert r[k - 1] == ',' && x[k - 1] == r[k - 2];
        NoSpaceBeforeCommaAt(r, k - 1);
      }
    }
  }

  /** After line 56 every comma is followed by exactly one space, and whitespace precedes a comma only as part of a `", "`. */
  lemma {:induction false} NormalizeSpacing(s: string)
    ensures OneSpaceAfterCommas(NormalizeCommas(s))
    ensures NoSpaceBeforeCommas(NormalizeCommas(s))
    decreases |s|
  {
    if s != [] {
      NormalizeStep(s);
      var n := SpacedCommaLen(s);
      if n > 0 {
        var u := s[n..];
        NormalizeSpacing(u);
        if u != [] {
          NormalizeFirst(u);
        }
        OneSpaceAfterCommaPrefix(NormalizeCommas(u));
        NoSpaceBeforeCommaPrefix(NormalizeCommas(u));
      } else {
        var u := s[1..];
        NormalizeSpacing(u);
        assert s[0] != ',';
        OneSpaceAfterCharPrefix(s[0], NormalizeCommas(u));
        if u != [] && NormalizeCommas(u)[0] == ',' && IsSpace(s[0]) {
          NormalizeFirst(u);
          assert SpacedCommaLen(u) > 0;
          SpacedCommaThroughSpace(s);
          assert false;
        }
        NoSpaceBeforeCharPrefix(s[0], NormalizeCommas(u));
      }
    }
  }

  /** No comma stands two characters after another comma. */
  predicate NoCommaTwoAfterComma(x: string) {
    forall k {:trigger x[k]} :: 0 <= k < |x| && x[k] == ',' ==> k + 2 < |x| ==> x[k + 2] != ','
  }

  lemma {:induction false} NoEmptyEntriesSuffix(x: string, j: nat)
    requires NoEmptyEntries(x) && j <= |x|
    ensures NoEmptyEntries(x[j..])
  {
    forall k | 0 <= k < |x[j..]| && x[j..][k] == ','
      ensures var rest := TrimStart(x[j..][k + 1..], Space); rest == [] || rest[0] != ','
    {
      assert x[j..][k + 1..] == x[j + k + 1..];
      assert x[j + k] == ',';
    }
  }

  lemma {:induction false} NoCommaTwoAfterCommaPrefix(r: string)
    requires NoCommaTwoAfterComma(r) && (r == [] || r[0] != ',')
    ensures NoCommaTwoAfterComma(", " + r)
  {
    var x := ", " + r;
    forall k | 0 <= k < |x| && x[k] == ',' && k + 2 < |x|
      ensures x[k + 2] != ','
    {
      if k >= 2 {
        assert r[k - 2] == ',';
      }
    }
  }

  lemma {:induction false} NoCommaTwoAfterCharPrefix(c: char, r: string)
    requires NoCommaTwoAfterComma(r) && c != ','
    ensures NoCommaTwoAfterComma([c] + r)
  {
    var x := [c] + r;
    forall k | 0 <= k < |x| && x[k] == ',' && k + 2 < |x|
      ensures x[k + 2] != ','
    {
      assert r[k - 1] == ',';
    }
  }

  lemma {:induction false} NoCommaAfterSpacedComma(s: string)
    requires NoEmptyEntries(s) && 0 < SpacedCommaLen(s) < |s|
    ensures s[SpacedCommaLen(s)] != ','
  {
    var c := LeadingCount(s, Space);
    SpacedCommaShape(s);
    assert TrimStart(s[c + 1..], Space) == s[SpacedCommaLen(s)..];
  }

  /** Where the list has no empty entry, line 56 never emits `", ,"`. */
  lemma {:induction false} NormalizeWithoutEmptyEntries(s: string)
    requires NoEmptyEntries(s)
    ensures NoCommaTwoAfterComma(NormalizeCommas(s))
    decreases |s|
  {
    if s != [] {
      NormalizeStep(s);
      var n := SpacedCommaLen(s);
      if n > 0 {
        var u := s[n..];
        NoEmptyEntriesSuffix(s, n);
        NormalizeWithoutEmptyEntries(u);
        if u != [] {
          NormalizeFirst(u);
          NoCommaAfterSpacedComma(s);
        }
        NoCommaTwoAfterCommaPrefix(NormalizeCommas(u));
      } else {
        NoEmptyEntriesSuffix(s, 1);
        NormalizeWithoutEmptyEntries(s[1..]);
        NoCommaTwoAfterCharPrefix(s[0], NormalizeCommas(s[1..]));
      }
    }
  }

  /**
    The comma spacing that survives cutting a text at both ends: around a
    comma there is no whitespace or comma before it, and one space, then a
    character that is neither, after it.
   */
  predicate SpacedAroundCommas(x: string) {
    forall k {:trigger x[k]} :: 0 <= k < |x| && x[k] == ',' ==>
      (0 < k ==> !IsSpace(x[k - 1]) && x[k - 1] != ',') &&
      (k + 1 < |x| ==> x[k + 1] == ' ' && (k + 2 < |x| ==> !IsSpace(x[k + 2]) && x[k + 2] != ','))
  }

  /**
    The attribute list as lines 56-60 intend it: no whitespace or comma at
    either end, and each comma written as `", "` between two entries.
   */
  predicate WellFormedList(c: string) {
    (c == [] || (!IsSpace(c[0]) && c[0] != ',' && !IsSpace(c[|c| - 1]) && c[|c| - 1] != ',')) &&
    forall k {:trigger c[k]} :: 0 <= k < |c| && c[k] == ',' ==>
      0 < k && k + 2 < |c| && !IsSpace(c[k - 1]) && c[k - 1] != ',' && c[k + 1] == ' ' && !IsSpace(c[k + 2]) && c[k + 2] != ','
  }

  lemma {:induction false} SpacedAroundCommasInfix(x: string, a: nat, b: nat)
    requires SpacedAroundCommas(x) && a <= b <= |x|
    ensures SpacedAroundCommas(x[a..b])
  {
    var y := x[a..b];
    forall k | 0 <= k < |y| && y[k] == ','
      ensures (0 < k ==> !IsSpace(y[k - 1]) && y[k - 1] != ',') &&
        (k + 1 < |y| ==> y[k + 1] == ' ' && (k + 2 < |y| ==> !IsSpace(y[k + 2]) && y[k + 2] != ','))
    {
      assert x[a + k] == ',';
    }
  }

  lemma {:induction false} NormalizedSpacedAroundCommas(s: string)
    requires NoEmptyEntries(s)
    ensures SpacedAroundCommas(NormalizeCommas(s))
  {
    var x := NormalizeCommas(s);
    NormalizeSpacing(s);
    NormalizeWithoutEmptyEntries(s);
    forall k | 0 <= k < |x| && x[k] == ','
      ensures (0 < k ==> !IsSpace(x[k - 1]) && x[k - 1] != ',') &&
        (k + 1 < |x| ==> x[k + 1] == ' ' && (k + 2 < |x| ==> !IsSpace(x[k + 2]) && x[k + 2] != ','))
    {
      if 0 < k {
        NoSpaceBeforeCommaAt(x, k);
      }
    }
  }

  /** Lines 58-59 cut commas off the ends of a trimmed list whose commas are spaced as line 56 leaves them. */
  lemma {:induction false} TrimCommas(t: string)
    requires SpacedAroundCommas(t)
    requires t == [] || (!IsSpace(t[0]) && !IsSpace(t[|t| - 1]))
    ensures var z := TrimStart(TrimEnd(t, Comma), Comma);
      SpacedAroundCommas(z) &&
      (z == [] || (!IsComma(z[0]) && !IsSpace(z[|z| - 1]) && !IsComma(z[|z| - 1]))) &&
      (z != [] && IsSpace(z[0]) ==> |z| > 1 && z[0] == ' ' && !IsSpace(z[1]) && !IsComma(z[1]))
  {
    var y := TrimEnd(t, Comma);
    SpacedAroundCommasInfix(t, 0, |y|);
    assert t[0..|y|] == y;
    if y != [] && |y| < |t| {
      assert t[|y|] == ',';
    }
    var z := TrimStart(y, Comma);
    var j := |y| - |z|;
    SpacedAroundCommasInfix(y, j, |y|);
    assert y[j..|y|] == z;
    if z != [] && j > 0 {
      assert y[j - 1] == ',';
    }
  }

  /** The final `Trim()` of line 60, on a text cut as `TrimCommas` leaves it. */
  lemma {:induction false} FinalTrim(z: string)
    requires SpacedAroundCommas(z)
    requires z == [] || (!IsComma(z[0]) && !IsSpace(z[|z| - 1]) && !IsComma(z[|z| - 1]))
    requires z != [] && IsSpace(z[0]) ==> |z| > 1 && z[0] == ' ' && !IsSpace(z[1]) && !IsComma(z[1])
    ensures WellFormedList(Trim(z))
  {
    var c := Trim(z);
    if z != [] && IsSpace(z[0]) {
      assert LeadingCount(z, Space) == 1;
      assert TrailingCount(z[1..], Space) == 0;
      assert c == z[1..];
      SpacedAroundCommasInfix(z, 1, |z|);
      assert z[1..|z|] == c;
    } else if z != [] {
      assert LeadingCount(z, Space) == 0;
      assert TrailingCount(z, Space) == 0;
      assert c == z;
    }
  }

  /** Lines 57-60 applied to a list whose commas are spaced as line 56 leaves them. */
  lemma {:induction false} TrimsKeepSpacing(n: string)
    requires SpacedAroundCommas(n)
    ensures WellFormedList(Trim(TrimStart(TrimEnd(Trim(n), Comma), Comma)))
  {
    var t := Trim(n);
    var t0 := TrimStart(n, Space);
    SpacedAroundCommasInfix(n, |n| - |t0|, |n|);
    assert n[|n| - |t0|..|n|] == t0;
    SpacedAroundCommasInfix(t0, 0, |t|);
    assert t0[0..|t|] == t;
    TrimCommas(t);
    FinalTrim(TrimStart(TrimEnd(t, Comma), Comma));
  }

  /**
    When the list left after the removals has no empty entry, the cleaned
    list of lines 56-60 is well formed: no whitespace or comma at either
    end, and each comma written as `", "` between two entries.
   */
  lemma {:induction false} CleanWellFormed(body: string)
    requires NoEmptyEntries(StripTarget(body))
    ensures WellFormedList(Clean(body))
  {
    NormalizedSpacedAroundCommas(StripTarget(body));
    TrimsKeepSpacing(NormalizeCommas(StripTarget(body)));
  }

  /** The characters of `s` other than whitespace and commas: the text of the entries of a list. */
  function EntryText(s: string): string {
    if s == [] then []
    else if IsSpace(s[0]) || s[0] == ',' then EntryText(s[1..])
    else [s[0]] + EntryText(s[1..])
  }

  lemma {:induction false} EntryTextAppend(a: string, b: string)
    ensures EntryText(a + b) == EntryText(a) + EntryText(b)
  {
    if a == [] {
      assert a + b == b;
    } else {
      assert (a + b)[1..] == a[1..] + b;
      EntryTextAppend(a[1..], b);
    }
  }

  lemma {:induction false} EntryTextOfSeparators(a: string)
    requires forall i :: 0 <= i < |a| ==> IsSpace(a[i]) || a[i] == ','
    ensures EntryText(a) == []
  {
    if a != [] {
      EntryTextOfSeparators(a[1..]);
    }
  }

  lemma {:induction false} EntryTextOfNonSpace(s: string)
    ensures EntryText(NonSpace(s)) == EntryText(s)
  {
    if s != [] {
      EntryTextOfNonSpace(s[1..]);
      if !IsSpace(s[0]) {
        EntryTextAppend([s[0]], NonSpace(s[1..]));
      }
    }
  }

  /** Cutting whitespace and commas off the ends keeps the entries' text. */
  lemma {:induction false} CutSeparators(s: string, a: nat, b: nat)
    requires a <= b <= |s|
    requires forall i :: 0 <= i < a ==> IsSpace(s[i]) || s[i] == ','
    requires forall i :: b <= i < |s| ==> IsSpace(s[i]) || s[i] == ','
    ensures EntryText(s[a..b]) == EntryText(s)
  {
    assert s == s[..a] + (s[a..b] + s[b..]);
    EntryTextOfSeparators(s[..a]);
    EntryTextOfSeparators(s[b..]);
    EntryTextAppend(s[a..b], s[b..]);
    EntryTextAppend(s[..a], s[a..b] + s[b..]);
  }

  lemma {:induction false} TrimKeepsEntryText(s: string)
    ensures EntryText(Trim(s)) == EntryText(s)
  {
    var t := TrimStart(s, Space);
    CutSeparators(s, |s| - |t|, |s|);
    assert s[|s| - |t|..|s|] == t;
    var u := TrimEnd(t, Space);
    CutSeparators(t, 0, |u|);
    assert t[0..|u|] == u;
  }

  lemma {:induction false} TrimCommasKeepEntryText(t: string)
    ensures EntryText(TrimStart(TrimEnd(t, Comma), Comma)) == EntryText(t)
  {
    var y := TrimEnd(t, Comma);
    CutSeparators(t, 0, |y|);
    assert t[0..|y|] == y;
    var z := TrimStart(y, Comma);
    CutSeparators(y, |y| - |z|, |y|);
    assert y[|y| - |z|..|y|] == z;
  }

  lemma {:induction false} NormalizeKeepsEntryText(x: string)
    ensures EntryText(NormalizeCommas(x)) == EntryText(x)
  {
    NormalizeKeepsNonSpace(x);
    EntryTextOfNonSpace(NormalizeCommas(x));
    EntryTextOfNonSpace(x);
  }

  /**
    Lines 56-60 delete only whitespace and commas: the text of the entries
    left after the removals reaches the cleaned list unchanged and in order.
   */
  lemma {:induction false} CleanKeepsEntryText(body: string)
    ensures EntryText(Clean(body)) == EntryText(StripTarget(body))
  {
    var n := NormalizeCommas(StripTarget(body));
    NormalizeKeepsEntryText(StripTarget(body));
    TrimKeepsEntryText(n);
    TrimCommasKeepEntryText(Trim(n));
    TrimKeepsEntryText(TrimStart(TrimEnd(Trim(n), Comma), Comma));
  }
}
