/**
 * The string operations of the .NET base library that the merge engine relies on,
 * written out over `seq<char>`: white space, Trim, IsNullOrWhiteSpace, StartsWith,
 * IndexOf and Replace. Strings are compared character by character; the
 * culture-sensitive rules of the StartsWith and IndexOf overloads the engine calls are
 * not modelled.
 */
module Strings {
  import opened Wrappers

  /** The .NET white-space set: `\s` in a regular expression and char.IsWhiteSpace
      (U+0009..U+000D, U+0085 and the Unicode separators Zs, Zl, Zp) coincide. */
  predicate IsSpace(c: char) {
    var n := c as int;
    (9 <= n <= 13) || n == 0x20 || n == 0x85 || n == 0xA0 || n == 0x1680
    || (0x2000 <= n <= 0x200A) || n == 0x2028 || n == 0x2029 || n == 0x202F
    || n == 0x205F || n == 0x3000
  }

  /** string.IsNullOrWhiteSpace on a non-null string. */
  predicate IsBlank(s: string) {
    forall i :: 0 <= i < |s| ==> IsSpace(s[i])
  }

  predicate NoSpace(s: string) {
    forall i :: 0 <= i < |s| ==> !IsSpace(s[i])
  }

  /** s[i..j] is a (possibly empty) run of white space. */
  predicate Spaces(s: string, i: int, j: int) {
    0 <= i <= j <= |s| && forall k :: i <= k < j ==> IsSpace(s[k])
  }

  /** The end of the longest white-space run starting at i: what a greedy `\s*` consumes. */
  function SkipSpaces(s: string, i: nat): (j: nat)
    requires i <= |s|
    ensures Spaces(s, i, j)
    ensures j == |s| || !IsSpace(s[j])
    decreases |s| - i
  {
    if i < |s| && IsSpace(s[i]) then SkipSpaces(s, i + 1) else i
  }

  /** A white-space run followed by a non-space character (or the end) can only be the
      greedy one: this is why every `\s*` of the placeholder pattern never backtracks. */
  lemma {:induction false} GreedySpacesUnique(s: string, i: nat, j: nat)
    requires Spaces(s, i, j)
    requires j == |s| || !IsSpace(s[j])
    ensures j == SkipSpaces(s, i)
    decreases |s| - i
  {
    if i < j {
      GreedySpacesUnique(s, i + 1, j);
    }
  }

  /** String.TrimStart(): drops the leading white space. */
  function TrimStart(s: string): (r: string)
    ensures |r| <= |s| && r == s[|s| - |r|..]
    ensures IsBlank(s[..|s| - |r|])
    ensures r == [] || !IsSpace(r[0])
  {
    s[SkipSpaces(s, 0)..]
  }

  /** String.TrimEnd(): drops the trailing white space. */
  function TrimEnd(s: string): (r: string)
    ensures |r| <= |s| && r == s[..|r|]
    ensures IsBlank(s[|r|..])
    ensures r == [] || !IsSpace(r[|r| - 1])
    decreases |s|
  {
    if s != [] && IsSpace(s[|s| - 1]) then
      var r := TrimEnd(s[..|s| - 1]);
      assert s[..|s| - 1][..|r|] == s[..|r|];
      assert s[|r|..] == s[..|s| - 1][|r|..] + [s[|s| - 1]];
      r
    else s
  }

  /** String.Trim(): drops white space at both ends and keeps the rest as it is. */
  function Trim(s: string): (r: string)
    ensures exists a :: 0 <= a && a + |r| <= |s| && r == s[a..a + |r|] && IsBlank(s[..a]) && IsBlank(s[a + |r|..])
    ensures r == [] || (!IsSpace(r[0]) && !IsSpace(r[|r| - 1]))
    ensures r == [] <==> IsBlank(s)
  {
    var t := TrimStart(s);
    var r := TrimEnd(t);
    var a := |s| - |t|;
    assert s[a..a + |r|] == r;
    assert s[a + |r|..] == t[|r|..];
    assert IsBlank(s[..a]) && IsBlank(s[a + |r|..]);
    assert r == [] ==> IsBlank(s) by {
      if r == [] {
        assert t == [];
        assert s[..a] == s;
      }
    }
    r
  }

  /** String.StartsWith, compared character by character. */
  predicate StartsWith(s: string, prefix: string) {
    |prefix| <= |s| && s[..|prefix|] == prefix
  }

  /** `pat` occurs in `s` at position i. */
  predicate OccursAt(s: string, pat: string, i: int) {
    0 <= i && i + |pat| <= |s| && s[i..i + |pat|] == pat
  }

  /** The characters of an occurrence are those of the pattern. */
  lemma OccursAtChar(s: string, pat: string, i: int, k: nat)
    requires OccursAt(s, pat, i) && k < |pat|
    ensures s[i + k] == pat[k]
  {
    assert s[i + k] == s[i..i + |pat|][k];
  }

  /** IndexOf finds a pattern no later than any of its occurrences. */
  lemma FoundNoLater(s: string, pat: string, i: int)
    requires OccursAt(s, pat, i)
    ensures IndexOf(s, pat).Some? && IndexOf(s, pat).value <= i
  {
  }

  /** An occurrence cuts a string into the text before it, the pattern and the text after it. */
  lemma SplitAtOccurrence(s: string, pat: string, i: int)
    requires OccursAt(s, pat, i)
    ensures s == s[..i] + pat + s[i + |pat|..]
  {
    assert s == s[..i] + s[i..i + |pat|] + s[i + |pat|..];
  }

  /** String.IndexOf, compared character by character: the first position at which `pat` occurs. */
  function IndexOf(s: string, pat: string): (r: Option<nat>)
    ensures r.Some? ==> OccursAt(s, pat, r.value) && forall j :: 0 <= j < r.value ==> !OccursAt(s, pat, j)
    ensures r.None? ==> forall j :: !OccursAt(s, pat, j)
    decreases |s|
  {
    if |s| < |pat| then None
    else if s[..|pat|] == pat then Some(0)
    else
      match IndexOf(s[1..], pat)
      case None =>
        forall j | 1 <= j ensures OccursAt(s, pat, j) <==> OccursAt(s[1..], pat, j - 1) {
          OccursShift(s, pat, j);
        }
        None
      case Some(k) =>
        forall j | 1 <= j ensures OccursAt(s, pat, j) <==> OccursAt(s[1..], pat, j - 1) {
          OccursShift(s, pat, j);
        }
        Some(k + 1)
  }

  lemma OccursShift(s: string, pat: string, j: int)
    requires 1 <= j && s != []
    ensures OccursAt(s, pat, j) <==> OccursAt(s[1..], pat, j - 1)
  {
    if j + |pat| <= |s| {
      assert s[j..j + |pat|] == s[1..][j - 1..j - 1 + |pat|];
    }
  }

  /** String.Replace(pat, rep): every non-overlapping occurrence of `pat`, scanned from the
      left, is replaced literally. .NET refuses an empty `pat`; the engine never passes one. */
  function ReplaceAll(s: string, pat: string, rep: string): (r: string)
    requires |pat| > 0
    decreases |s|
  {
    if |s| < |pat| then s
    else if s[..|pat|] == pat then rep + ReplaceAll(s[|pat|..], pat, rep)
    else [s[0]] + ReplaceAll(s[1..], pat, rep)
  }

  /** String.Replace cuts at the first occurrence: the text before it, the replacement,
      then the rest replaced likewise. */
  lemma ReplaceAllFirst(s: string, pat: string, rep: string, i: nat)
    requires |pat| > 0 && IndexOf(s, pat) == Some(i)
    ensures ReplaceAll(s, pat, rep) == s[..i] + rep + ReplaceAll(s[i + |pat|..], pat, rep)
  {
    ReplaceAllAt(s, pat, rep, i);
  }

  lemma {:induction false} ReplaceAllAt(s: string, pat: string, rep: string, i: nat)
    requires |pat| > 0 && OccursAt(s, pat, i)
    requires forall j :: 0 <= j < i ==> !OccursAt(s, pat, j)
    ensures ReplaceAll(s, pat, rep) == s[..i] + rep + ReplaceAll(s[i + |pat|..], pat, rep)
    decreases i
  {
    hide ReplaceAll;
    ReplaceAllStep(s, pat, rep);
    if i > 0 {
      var t := s[1..];
      OccursShift(s, pat, i);
      forall j | 0 <= j < i - 1 ensures !OccursAt(t, pat, j) {
        OccursShift(s, pat, j + 1);
      }
      ReplaceAllAt(t, pat, rep, i - 1);
      calc {
        ReplaceAll(s, pat, rep);
        [s[0]] + ReplaceAll(t, pat, rep);
        [s[0]] + (t[..i - 1] + rep + ReplaceAll(t[i - 1 + |pat|..], pat, rep));
        { assert t[i - 1 + |pat|..] == s[i + |pat|..];
          assert [s[0]] + t[..i - 1] == s[..i]; }
        s[..i] + rep + ReplaceAll(s[i + |pat|..], pat, rep);
      }
    }
  }

  /** One step of the scan: an occurrence at the front is replaced, otherwise the first
      character is kept. */
  lemma ReplaceAllStep(s: string, pat: string, rep: string)
    requires |pat| > 0 && |pat| <= |s|
    ensures OccursAt(s, pat, 0) ==> ReplaceAll(s, pat, rep) == rep + ReplaceAll(s[|pat|..], pat, rep)
    ensures !OccursAt(s, pat, 0) ==> ReplaceAll(s, pat, rep) == [s[0]] + ReplaceAll(s[1..], pat, rep)
  {
  }

  /** Replacing a string that does not occur changes nothing. */
  lemma {:induction false} ReplaceAllAbsent(s: string, pat: string, rep: string)
    requires |pat| > 0
    requires forall j :: !OccursAt(s, pat, j)
    ensures ReplaceAll(s, pat, rep) == s
    decreases |s|
  {
    if |s| >= |pat| {
      assert !OccursAt(s, pat, 0);
      forall j | 0 <= j ensures !OccursAt(s[1..], pat, j) {
        OccursShift(s, pat, j + 1);
      }
      ReplaceAllAbsent(s[1..], pat, rep);
    }
  }

  /** Replacing a string by itself changes nothing. */
  lemma {:induction false} ReplaceAllSelf(s: string, pat: string)
    requires |pat| > 0
    ensures ReplaceAll(s, pat, pat) == s
    decreases |s|
  {
    if |s| >= |pat| {
      if s[..|pat|] == pat {
        ReplaceAllSelf(s[|pat|..], pat);
        assert s == s[..|pat|] + s[|pat|..];
      } else {
        ReplaceAllSelf(s[1..], pat);
        assert s == [s[0]] + s[1..];
      }
    }
  }

  /** Regex.Replace(s, @"\s+", ""): every white-space character is dropped. */
  function RemoveSpaces(s: string): (r: string)
    ensures NoSpace(r)
    ensures |r| <= |s|
    decreases |s|
  {
    if s == [] then []
    else if IsSpace(s[0]) then RemoveSpaces(s[1..])
    else [s[0]] + RemoveSpaces(s[1..])
  }

  lemma {:induction false} RemoveSpacesAppend(a: string, b: string)
    ensures RemoveSpaces(a + b) == RemoveSpaces(a) + RemoveSpaces(b)
    decreases |a|
  {
    if a != [] {
      assert (a + b)[0] == a[0];
      assert (a + b)[1..] == a[1..] + b;
      RemoveSpacesAppend(a[1..], b);
      if !IsSpace(a[0]) {
        assert RemoveSpaces(a + b) == [a[0]] + RemoveSpaces(a[1..] + b);
      }
    } else {
      assert a + b == b;
    }
  }

  /** Leading white space contributes nothing. */
  lemma {:induction false} RemoveLeadingSpaces(s: string, j: nat)
    requires Spaces(s, 0, j)
    ensures RemoveSpaces(s) == RemoveSpaces(s[j..])
    decreases j
  {
    if j > 0 {
      assert Spaces(s[1..], 0, j - 1);
      RemoveLeadingSpaces(s[1..], j - 1);
      assert s[1..][j - 1..] == s[j..];
    }
  }

  lemma {:induction false} RemoveSpacesBlank(s: string)
    requires IsBlank(s)
    ensures RemoveSpaces(s) == []
    decreases |s|
  {
    if s != [] {
      RemoveSpacesBlank(s[1..]);
    }
  }

  /** A string without white space is its own normal form. */
  lemma {:induction false} RemoveSpacesNoSpace(s: string)
    requires NoSpace(s)
    ensures RemoveSpaces(s) == s
    decreases |s|
  {
    if s != [] {
      RemoveSpacesNoSpace(s[1..]);
      assert s == [s[0]] + s[1..];
    }
  }
}
