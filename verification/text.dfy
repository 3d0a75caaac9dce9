/**
  Characters and the trimming operations of .NET strings, over `seq<char>`.

  The regular-expression class `\s` and `String.Trim` both use Unicode
  whitespace; this model restricts both to the six ASCII whitespace
  characters.
 */
module Text {

  /**
    The whitespace class: space, and the five control characters from tab
    to carriage return (tab, line feed, vertical tab, form feed, carriage
    return).
   */
  predicate IsSpace(c: char) {
    c == ' ' || '\t' <= c <= '\r'
  }

  predicate IsComma(c: char) {
    c == ','
  }

  /** The sets of characters the scanners and trims below stop at. */
  datatype CharClass = Space | Comma | Except(c: char)

  predicate InClass(k: CharClass, ch: char) {
    match k
    case Space => IsSpace(ch)
    case Comma => IsComma(ch)
    case Except(c) => ch != c
  }

  predicate AllSpace(s: string) {
    forall i :: 0 <= i < |s| ==> IsSpace(s[i])
  }

  /** Length of the longest prefix of `s` whose characters all satisfy `p`. */
  function LeadingCount(s: string, p: CharClass): (k: nat)
    ensures k <= |s|
    ensures forall i :: 0 <= i < k ==> InClass(p, s[i])
    ensures k == |s| || !InClass(p, s[k])
  {
    if s == [] || !InClass(p, s[0]) then 0 else 1 + LeadingCount(s[1..], p)
  }

  /** Length of the longest suffix of `s` whose characters all satisfy `p`. */
  function TrailingCount(s: string, p: CharClass): (k: nat)
    ensures k <= |s|
    ensures forall i :: |s| - k <= i < |s| ==> InClass(p, s[i])
    ensures k == |s| || !InClass(p, s[|s| - 1 - k])
  {
    if s == [] || !InClass(p, s[|s| - 1]) then 0 else 1 + TrailingCount(s[..|s| - 1], p)
  }

  /** Index of the first occurrence of `c` in `s`, or `|s|` when there is none. */
  function FirstIndex(s: string, c: char): (k: nat)
    ensures k <= |s|
    ensures k < |s| ==> s[k] == c
    ensures forall i :: 0 <= i < k ==> s[i] != c
  {
    LeadingCount(s, Except(c))
  }

  /** The leading run of whitespace is all whitespace. */
  lemma {:induction false} LeadingSpaces(s: string)
    ensures AllSpace(s[..LeadingCount(s, Space)])
  {
    var k := LeadingCount(s, Space);
    assert forall i :: 0 <= i < k ==> s[..k][i] == s[i];
  }

  /** The run of `p` at the start of `a + b` is `a` when `b` does not start with `p`. */
  lemma {:induction false} LeadingCountOfRun(a: string, b: string, p: CharClass)
    requires forall i :: 0 <= i < |a| ==> InClass(p, a[i])
    requires b == [] || !InClass(p, b[0])
    ensures LeadingCount(a + b, p) == |a|
  {
    if a == [] {
      assert a + b == b;
    } else {
      assert (a + b)[1..] == a[1..] + b;
      LeadingCountOfRun(a[1..], b, p);
    }
  }

  /** The first `c` in `a + b` is where `b` begins, when `a` has none and `b` starts with one. */
  lemma {:induction false} FirstIndexAfter(a: string, b: string, c: char)
    requires c !in a && (b == [] || b[0] == c)
    ensures FirstIndex(a + b, c) == |a|
  {
    assert forall i :: 0 <= i < |a| ==> (a + b)[i] == a[i];
    assert |a| == |a + b| || (a + b)[|a|] == c;
  }

  /** `String.TrimStart`: drops the leading characters that satisfy `p`. */
  function TrimStart(s: string, p: CharClass): (r: string)
    ensures |r| <= |s| && r == s[|s| - |r|..]
    ensures r == [] || !InClass(p, r[0])
    ensures forall i :: 0 <= i < |s| - |r| ==> InClass(p, s[i])
  {
    s[LeadingCount(s, p)..]
  }

  /** `String.TrimEnd`: drops the trailing characters that satisfy `p`. */
  function TrimEnd(s: string, p: CharClass): (r: string)
    ensures |r| <= |s| && r == s[..|r|]
    ensures r == [] || !InClass(p, r[|r| - 1])
    ensures forall i :: |r| <= i < |s| ==> InClass(p, s[i])
  {
    s[..|s| - TrailingCount(s, p)]
  }

  /** `String.Trim()`: drops leading and trailing whitespace. */
  function Trim(s: string): (r: string)
    ensures r == [] || (!IsSpace(r[0]) && !IsSpace(r[|r| - 1]))
    ensures r == [] ==> AllSpace(s)
  {
    TrimEnd(TrimStart(s, Space), Space)
  }

  /**
    What `Trim` leaves is the input with a run of whitespace cut from each
    end, and nothing at all exactly when the input is all whitespace.
   */
  lemma {:induction false} TrimSpec(s: string)
    ensures exists a :: (0 <= a <= |s| - |Trim(s)| && Trim(s) == s[a..a + |Trim(s)|]
      && AllSpace(s[..a]) && AllSpace(s[a + |Trim(s)|..]))
    ensures Trim(s) == [] <==> AllSpace(s)
  {
    var t := TrimStart(s, Space);
    var a := |s| - |t|;
    var r := Trim(s);
    assert r == t[..|r|];
    assert t[..|r|] == s[a..a + |r|];
    assert AllSpace(s[..a]) by {
      assert forall i :: 0 <= i < a ==> s[..a][i] == s[i];
    }
    assert AllSpace(s[a + |r|..]) by {
      var u := s[a + |r|..];
      forall i | 0 <= i < |u| ensures IsSpace(u[i]) {
        assert u[i] == t[|r| + i];
      }
    }
  }

  /** `r` is `s` with some characters deleted: the rest keep their order. */
  predicate IsSubsequence(r: string, s: string)
    decreases |s|
  {
    if r == [] then true
    else if s == [] then false
    else (r[0] == s[0] && IsSubsequence(r[1..], s[1..])) || IsSubsequence(r, s[1..])
  }

  /** The characters of `s` that are not whitespace, in order. */
  function NonSpace(s: string): (r: string)
    ensures IsSubsequence(r, s)
    ensures forall i :: 0 <= i < |r| ==> !IsSpace(r[i])
  {
    if s == [] then []
    else if IsSpace(s[0]) then NonSpace(s[1..])
    else [s[0]] + NonSpace(s[1..])
  }

  lemma {:induction false} NonSpaceAppend(a: string, b: string)
    ensures NonSpace(a + b) == NonSpace(a) + NonSpace(b)
  {
    if a != [] {
      assert (a + b)[1..] == a[1..] + b;
      NonSpaceAppend(a[1..], b);
    } else {
      assert a + b == b;
    }
  }

  lemma {:induction false} NonSpaceOfSpaces(s: string)
    requires AllSpace(s)
    ensures NonSpace(s) == []
  {
    if s != [] {
      NonSpaceOfSpaces(s[1..]);
    }
  }

  /** Deleting a prefix keeps a subsequence a subsequence. */
  lemma {:induction false} SubsequenceOfLonger(r: string, p: string, s: string)
    requires IsSubsequence(r, s)
    ensures IsSubsequence(r, p + s)
    decreases |p|
  {
    if p != [] {
      SubsequenceOfLonger(r, p[1..], s);
      assert (p + s)[1..] == p[1..] + s;
    } else {
      assert p + s == s;
    }
  }

  /** Keeping a common first character keeps a subsequence a subsequence. */
  lemma {:induction false} SubsequenceCons(c: char, r: string, s: string)
    requires IsSubsequence(r, s)
    ensures IsSubsequence([c] + r, [c] + s)
  {
    assert ([c] + r)[1..] == r && ([c] + s)[1..] == s;
  }

  lemma {:induction false} SubsequenceOfSuffix(r: string, t: string, n: nat)
    requires n <= |t| && IsSubsequence(r, t[n..])
    ensures IsSubsequence(r, t)
  {
    SubsequenceOfLonger(r, t[..n], t[n..]);
    assert t[..n] + t[n..] == t;
  }

  lemma {:induction false} SubsequenceKeepingFirst(r: string, t: string)
    requires t != [] && IsSubsequence(r, t[1..])
    ensures IsSubsequence([t[0]] + r, t)
  {
    SubsequenceCons(t[0], r, t[1..]);
    assert [t[0]] + t[1..] == t;
  }

  lemma {:induction false} SubsequenceTransitive(a: string, b: string, c: string)
    requires IsSubsequence(a, b) && IsSubsequence(b, c)
    ensures IsSubsequence(a, c)
    decreases |c|
  {
    if a != [] {
      if IsSubsequence(b, c[1..]) {
        SubsequenceTransitive(a, b, c[1..]);
      } else if a[0] == b[0] && IsSubsequence(a[1..], b[1..]) {
        SubsequenceTransitive(a[1..], b[1..], c[1..]);
      } else {
        SubsequenceTransitive(a, b[1..], c[1..]);
      }
    }
  }
}
