/**
 * Path cleaning and resolution (CleanXPath, ResolveXPath and the walk shared with the
 * two table strategies): a `Select` path is a slash-separated list of element names,
 * each step taking the first child element with that name.
 */
module XPath {
  import opened Wrappers
  import opened Strings
  import opened DataTree

  // Regex.Replace(s, @"\s*/\s*", "/"): scanning left to right, a white-space run that
  // ends at a slash, the slash and the white space after it become one slash.
  function CollapseAroundSlashes(s: string): string
    decreases |s|
  {
    if s == [] then []
    else
      var j := SkipSpaces(s, 0);
      if j < |s| && s[j] == '/' then "/" + CollapseAroundSlashes(s[SkipSpaces(s, j + 1)..])
      else [s[0]] + CollapseAroundSlashes(s[1..])
  }

  /** The first replacement is subsumed by the second: removing all white space after
      collapsing around slashes is the same as removing all white space at once. */
  lemma {:induction false} CollapseThenRemoveSpaces(s: string)
    ensures RemoveSpaces(CollapseAroundSlashes(s)) == RemoveSpaces(s)
    decreases |s|
  {
    if s != [] {
      var j := SkipSpaces(s, 0);
      if j < |s| && s[j] == '/' {
        var k := SkipSpaces(s, j + 1);
        CollapseThenRemoveSpaces(s[k..]);
        RemoveSpacesAppend("/", CollapseAroundSlashes(s[k..]));
        assert RemoveSpaces("/") == "/";
        SlashRunSpaces(s, j, k);
      } else {
        CollapseThenRemoveSpaces(s[1..]);
        assert s == [s[0]] + s[1..];
        RemoveSpacesAppend([s[0]], s[1..]);
        RemoveSpacesAppend([s[0]], CollapseAroundSlashes(s[1..]));
      }
    }
  }

  /** Removing white space from "  /  rest" leaves "/" followed by the cleaned rest. */
  lemma SlashRunSpaces(s: string, j: nat, k: nat)
    requires Spaces(s, 0, j) && j < |s| && s[j] == '/' && Spaces(s, j + 1, k)
    ensures RemoveSpaces(s) == "/" + RemoveSpaces(s[k..])
  {
    RemoveLeadingSpaces(s, j);
    var tail := s[j..];
    assert tail[0] == '/' && tail[1..] == s[j + 1..];
    var after := s[j + 1..];
    assert Spaces(after, 0, k - j - 1);
    RemoveLeadingSpaces(after, k - j - 1);
    assert after[k - j - 1..] == s[k..];
  }

  /** CleanXPath: drops one leading "./" (checked before any white space is touched), then
      applies the two white-space replacements. The result is the path with every
      white-space character removed. */
  function CleanXPath(xpath: string): (r: string)
    ensures NoSpace(r)
    ensures r == RemoveSpaces(if StartsWith(xpath, "./") then xpath[2..] else xpath)
  {
    var s := if StartsWith(xpath, "./") then xpath[2..] else xpath;
    CollapseThenRemoveSpaces(s);
    RemoveSpaces(CollapseAroundSlashes(s))
  }

  /** Glues pieces back together with the separator between them. */
  function Join(parts: seq<string>, sep: char): string
    requires |parts| >= 1
  {
    if |parts| == 1 then parts[0] else parts[0] + [sep] + Join(parts[1..], sep)
  }

  /** String.Split(sep): the pieces between separators, empty ones included, so that
      joining them again gives back the input. */
  function Split(s: string, sep: char): (parts: seq<string>)
    ensures |parts| >= 1
    ensures forall i :: 0 <= i < |parts| ==> sep !in parts[i]
    ensures Join(parts, sep) == s
    decreases |s|
  {
    if s == [] then [[]]
    else
      var rest := Split(s[1..], sep);
      if s[0] == sep then
        assert s == [sep] + s[1..];
        [[]] + rest
      else
        assert s == [s[0]] + s[1..];
        assert [[s[0]] + rest[0]] + rest[1..] == [[s[0]] + rest[0]] + rest[1..];
        assert |rest| > 1 ==> Join(rest, sep) == rest[0] + [sep] + Join(rest[1..], sep);
        [[s[0]] + rest[0]] + rest[1..]
  }

  /** Splitting the join of separator-free pieces gives the pieces back. */
  lemma {:induction false} SplitJoin(parts: seq<string>, sep: char)
    requires |parts| >= 1
    requires forall i :: 0 <= i < |parts| ==> sep !in parts[i]
    ensures Split(Join(parts, sep), sep) == parts
    decreases |parts|, |parts[0]|
  {
    var s := Join(parts, sep);
    if parts[0] == [] {
      if |parts| > 1 {
        assert s == [sep] + Join(parts[1..], sep);
        assert s[1..] == Join(parts[1..], sep);
        SplitJoin(parts[1..], sep);
        assert parts == [[]] + parts[1..];
      }
    } else {
      var c := parts[0][0];
      var tail := [parts[0][1..]] + parts[1..];
      assert tail[1..] == parts[1..];
      assert s == [c] + Join(tail, sep) by {
        if |parts| == 1 {
          assert parts[0] == [c] + parts[0][1..];
        } else {
          assert parts[0] == [c] + parts[0][1..];
          assert Join(tail, sep) == parts[0][1..] + [sep] + Join(parts[1..], sep);
        }
      }
      assert s[1..] == Join(tail, sep);
      forall i | 0 <= i < |tail| ensures sep !in tail[i] {
        if i == 0 {
          assert forall x :: x in parts[0][1..] ==> x in parts[0];
        } else {
          assert tail[i] == parts[i];
        }
      }
      SplitJoin(tail, sep);
      assert parts[0] == [c] + tail[0];
      assert parts == [[c] + tail[0]] + tail[1..];
    }
  }

  /** Splitting around an explicit separator splits both sides independently. */
  lemma SplitAround(a: string, b: string, sep: char)
    ensures Split(a + [sep] + b, sep) == Split(a, sep) + Split(b, sep)
  {
    var pa, pb := Split(a, sep), Split(b, sep);
    var ps := pa + pb;
    JoinAppend(pa, pb, sep);
    assert Join(ps, sep) == a + [sep] + b;
    SeparatorFree(pa, pb, sep);
    SplitJoin(ps, sep);
  }

  lemma SeparatorFree(pa: seq<string>, pb: seq<string>, sep: char)
    requires forall i :: 0 <= i < |pa| ==> sep !in pa[i]
    requires forall i :: 0 <= i < |pb| ==> sep !in pb[i]
    ensures forall i :: 0 <= i < |pa + pb| ==> sep !in (pa + pb)[i]
  {
  }

  lemma {:induction false} JoinAppend(x: seq<string>, y: seq<string>, sep: char)
    requires |x| >= 1 && |y| >= 1
    ensures Join(x + y, sep) == Join(x, sep) + [sep] + Join(y, sep)
    decreases |x|
  {
    assert (x + y)[0] == x[0];
    if |x| > 1 {
      assert (x + y)[1..] == x[1..] + y;
      JoinAppend(x[1..], y, sep);
    } else {
      assert (x + y)[1..] == y;
    }
  }

  /** `.Where(p => !string.IsNullOrEmpty(p))`: the non-empty pieces, in order. */
  function NonEmpty(parts: seq<string>): (r: seq<string>)
  {
    if parts == [] then []
    else if parts[0] == [] then NonEmpty(parts[1..])
    else [parts[0]] + NonEmpty(parts[1..])
  }

  lemma {:induction false} NonEmptyAppend(a: seq<string>, b: seq<string>)
    ensures NonEmpty(a + b) == NonEmpty(a) + NonEmpty(b)
    decreases |a|
  {
    if a == [] {
      assert a + b == b;
    } else {
      assert (a + b)[0] == a[0];
      assert (a + b)[1..] == a[1..] + b;
      NonEmptyAppend(a[1..], b);
    }
  }

  /** The steps of a path: split on '/', empty steps dropped. */
  function Segments(xpath: string): (segs: seq<string>)
  {
    NonEmpty(Split(xpath, '/'))
  }

  /** Segments are compositional: a slash always separates, repeated slashes are harmless. */
  lemma SegmentsAround(a: string, b: string)
    ensures Segments(a + "/" + b) == Segments(a) + Segments(b)
  {
    SplitAround(a, b, '/');
    NonEmptyAppend(Split(a, '/'), Split(b, '/'));
  }

  /** Walks from `e`, taking at each step the first child element with the step's name. */
  function Walk(e: Element, segs: seq<string>): Option<Element>
    decreases |segs|
  {
    if segs == [] then Some(e)
    else
      match FirstChildNamed(e, segs[0])
      case None => None
      case Some(c) => Walk(c, segs[1..])
  }

  lemma {:induction false} WalkAppend(e: Element, a: seq<string>, b: seq<string>)
    ensures Walk(e, a + b) == match Walk(e, a) case None => None case Some(m) => Walk(m, b)
    decreases |a|
  {
    if a == [] {
      assert a + b == b;
    } else {
      assert (a + b)[0] == a[0];
      assert (a + b)[1..] == a[1..] + b;
      match FirstChildNamed(e, a[0])
      case None =>
      case Some(c) => WalkAppend(c, a[1..], b);
    }
  }

  /** The element a path leads to from the root, if every step finds a child. */
  function Locate(root: Element, xpath: string): Option<Element> {
    Walk(root, Segments(xpath))
  }

  /** ResolveXPath: the text of the element the path reaches, "" when a step fails. */
  function ResolveXPath(root: Element, xpath: string): string {
    match Locate(root, xpath)
    case None => ""
    case Some(e) => Value(e)
  }

  /** The data rows under a path: the child elements of the element it reaches, or none
      when the path cannot be walked (the walk shared by both table strategies). */
  function DataRows(root: Element, xpath: string): seq<Element> {
    match Locate(root, xpath)
    case None => []
    case Some(e) => Children(e)
  }

  /** A path without steps resolves to the text of the root. */
  lemma ResolveNoSteps(root: Element, xpath: string)
    requires Segments(xpath) == []
    ensures ResolveXPath(root, xpath) == Value(root)
  {
  }

  /** The walk gives up at the first step that has no matching child: the result is "". */
  lemma ResolveFailsAtMissingStep(root: Element, xpath: string, k: nat, e: Element)
    requires k < |Segments(xpath)|
    requires Walk(root, Segments(xpath)[..k]) == Some(e)
    requires FirstChildNamed(e, Segments(xpath)[k]) == None
    ensures ResolveXPath(root, xpath) == ""
  {
    var segs := Segments(xpath);
    assert segs == segs[..k] + segs[k..];
    WalkAppend(root, segs[..k], segs[k..]);
  }

  /** Resolving "a/b" is resolving b from wherever a leads. */
  lemma ResolveAround(root: Element, a: string, b: string)
    ensures ResolveXPath(root, a + "/" + b) ==
      match Locate(root, a) case None => "" case Some(m) => ResolveXPath(m, b)
  {
    SegmentsAround(a, b);
    WalkAppend(root, Segments(a), Segments(b));
  }

  /** White space anywhere in a path, and one leading "./", make no difference once cleaned. */
  lemma CleanIgnoresSpaces(xpath: string)
    requires NoSpace(xpath)
    ensures CleanXPath(xpath) == (if StartsWith(xpath, "./") then xpath[2..] else xpath)
  {
    var s := if StartsWith(xpath, "./") then xpath[2..] else xpath;
    assert NoSpace(s) by {
      if StartsWith(xpath, "./") {
        forall i | 0 <= i < |s| ensures !IsSpace(s[i]) { assert s[i] == xpath[i + 2]; }
      }
    }
    RemoveSpacesNoSpace(s);
  }
}
