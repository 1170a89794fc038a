// The placeholder scanner: `Regex.Matches` for the two patterns
//   <#\s*<Content\s+Select\s*=\s*["|'](.*?)["|']\s*/>\s*#>
//   <#\s*<Table\s+Select\s*=\s*["|'](.*?)["|']\s*/>\s*#>
// over a paragraph's flattened text. The quote class also admits '|', the opening and
// closing quote need not agree, and the lazy body may not contain a newline.
module Placeholders {
  import opened Wrappers
  import opened Strings

  datatype Kind = ContentTag | TableTag

  function Keyword(k: Kind): string {
    match k
    case ContentTag => "Content"
    case TableTag => "Table"
  }

  /** The character class ["|'] of the pattern. */
  predicate IsQuote(c: char) {
    c == '"' || c == '|' || c == '\''
  }

  /** One match: the whole placeholder is t[start..end], group 1 is t[bodyStart..bodyEnd]. */
  datatype Match = Match(start: nat, bodyStart: nat, bodyEnd: nat, end: nat)

  predicate WellFormed(t: string, m: Match) {
    m.start + 2 < m.bodyStart <= m.bodyEnd < m.end <= |t|
  }

  /** Match.Value: the placeholder text, later used as a literal search key. */
  function MatchText(t: string, m: Match): string
    requires WellFormed(t, m)
  {
    t[m.start..m.end]
  }

  /** A placeholder's text is as long as its span, so it is never empty. */
  lemma MatchTextLength(t: string, m: Match)
    requires WellFormed(t, m)
    ensures |MatchText(t, m)| == m.end - m.start > 2
  {
  }

  /** Match.Groups[1].Value: the path between the quotes, untrimmed. */
  function GroupText(t: string, m: Match): string
    requires WellFormed(t, m)
  {
    t[m.bodyStart..m.bodyEnd]
  }

  /** No newline in t[i..j]: what `.` refuses. */
  predicate NoNewline(t: string, i: int, j: int) {
    0 <= i <= j <= |t| && forall k :: i <= k < j ==> t[k] != '\n'
  }

  // ----- the pattern as a list of tokens -----

  /** One piece of the pattern: a literal, `\s*`, `\s+`, or the class ["|']. */
  datatype Token = Lit(s: string) | Ws | Ws1 | Quote

  /** The head `<#\s*<Kind\s+Select\s*=\s*["|']`, up to and including the opening quote. */
  function Head(kind: Kind): seq<Token> {
    [Lit("<#"), Ws, Lit("<" + Keyword(kind)), Ws1, Lit("Select"), Ws, Lit("="), Ws, Quote]
  }

  // The tail `["|']\s*/>\s*#>`, from the closing quote on.
  function Tail(): seq<Token> {
    [Quote, Ws, Lit("/>"), Ws, Lit("#>")]
  }

  /** The engine running a token list from position i: every `\s*` and `\s+` takes the
      longest white-space run, and the answer is the position after the last token. */
  function Advance(t: string, toks: seq<Token>, i: nat): (r: Option<nat>)
    requires i <= |t|
    ensures r.Some? ==> i + MinLength(toks) <= r.value <= |t|
    decreases |toks|
  {
    if toks == [] then Some(i)
    else
      match toks[0]
      case Lit(s) => if OccursAt(t, s, i) then Advance(t, toks[1..], i + |s|) else None
      case Ws => Advance(t, toks[1..], SkipSpaces(t, i))
      case Ws1 =>
        var j := SkipSpaces(t, i);
        if j == i then None else Advance(t, toks[1..], j)
      case Quote => if i < |t| && IsQuote(t[i]) then Advance(t, toks[1..], i + 1) else None
  }

  /** The fewest characters a token list can match. */
  function MinLength(toks: seq<Token>): nat
    decreases |toks|
  {
    if toks == [] then 0
    else
      (match toks[0]
       case Lit(s) => |s|
       case Ws => 0
       case Ws1 => 1
       case Quote => 1) + MinLength(toks[1..])
  }

  /** The token list matches t[i..j] for SOME choice of white-space runs: the language
      of the pattern, with no commitment to how the engine chooses. */
  ghost predicate Derives(t: string, toks: seq<Token>, i: int, j: int)
    decreases |toks|
  {
    if toks == [] then i == j
    else
      match toks[0]
      case Lit(s) => OccursAt(t, s, i) && Derives(t, toks[1..], i + |s|, j)
      case Ws => exists k :: Spaces(t, i, k) && Derives(t, toks[1..], k, j)
      case Ws1 => exists k :: i < k && Spaces(t, i, k) && Derives(t, toks[1..], k, j)
      case Quote => 0 <= i < |t| && IsQuote(t[i]) && Derives(t, toks[1..], i + 1, j)
  }

  /** A token that can only start at a non-space character. */
  predicate Solid(tok: Token) {
    tok.Quote? || (tok.Lit? && |tok.s| > 0 && !IsSpace(tok.s[0]))
  }

  /** Every white-space token is followed by a solid one: then the longest run is the
      only run that can succeed, so the greedy engine never needs to backtrack. */
  predicate Guarded(toks: seq<Token>) {
    forall k :: 0 <= k < |toks| && (toks[k].Ws? || toks[k].Ws1?) ==> k + 1 < |toks| && Solid(toks[k + 1])
  }

  lemma HeadGuarded(kind: Kind)
    ensures Guarded(Head(kind))
  {
  }

  lemma TailGuarded()
    ensures Guarded(Tail())
  {
  }

  /** A solid token matches only where a non-space character stands. */
  lemma SolidStart(t: string, toks: seq<Token>, k: int, j: int)
    requires toks != [] && Solid(toks[0]) && Derives(t, toks, k, j)
    ensures 0 <= k < |t| && !IsSpace(t[k])
  {
    if toks[0].Lit? {
      OccursAtChar(t, toks[0].s, k, 0);
    }
  }

  /** For a guarded token list the engine's answer is the one and only end of a match. */
  lemma {:induction false} AdvanceExact(t: string, toks: seq<Token>, i: nat, j: int)
    requires i <= |t| && Guarded(toks)
    ensures Advance(t, toks, i) == Some(j) <==> Derives(t, toks, i, j)
    decreases |toks|
  {
    if toks != [] {
      var rest := toks[1..];
      assert Guarded(rest) by {
        forall k | 0 <= k < |rest| && (rest[k].Ws? || rest[k].Ws1?)
          ensures k + 1 < |rest| && Solid(rest[k + 1])
        {
          assert rest[k] == toks[k + 1];
        }
      }
      match toks[0]
      case Lit(s) =>
        if OccursAt(t, s, i) {
          AdvanceExact(t, rest, i + |s|, j);
        }
      case Quote =>
        if i < |t| && IsQuote(t[i]) {
          AdvanceExact(t, rest, i + 1, j);
        }
      case Ws =>
        var g := SkipSpaces(t, i);
        AdvanceExact(t, rest, g, j);
        if Derives(t, toks, i, j) {
          var k :| Spaces(t, i, k) && Derives(t, rest, k, j);
          SolidStart(t, rest, k, j);
          GreedySpacesUnique(t, i, k);
        }
      case Ws1 =>
        var g := SkipSpaces(t, i);
        AdvanceExact(t, rest, g, j);
        if Derives(t, toks, i, j) {
          var k :| i < k && Spaces(t, i, k) && Derives(t, rest, k, j);
          SolidStart(t, rest, k, j);
          GreedySpacesUnique(t, i, k);
        }
    }
  }

  /** The position after the opening quote of a placeholder starting at s, if one does. */
  function OpenEnd(t: string, kind: Kind, s: nat): (r: Option<nat>)
    requires s <= |t|
    ensures r.Some? ==> s + 2 < r.value <= |t|
  {
    assert MinLength(Head(kind)) >= 3 by {
      var h := Head(kind);
      assert MinLength(h) == 2 + MinLength(h[1..]);
      assert MinLength(h[1..]) == MinLength(h[1..][1..]);
      assert MinLength(h[1..][1..]) >= |"<" + Keyword(kind)|;
    }
    Advance(t, Head(kind), s)
  }

  /** The position after the final `#>` when the tail starts at k, if it does. */
  function CloseEnd(t: string, k: nat): (r: Option<nat>)
    requires k <= |t|
    ensures r.Some? ==> k + 5 <= r.value <= |t|
  {
    Advance(t, Tail(), k)
  }

  /** The lazy `(.*?)`: the first position from k on where the tail matches, the body
      growing one non-newline character at a time. */
  function LazyClose(t: string, k: nat): (r: Option<nat>)
    requires k <= |t|
    ensures r.Some? ==> k <= r.value <= |t| && CloseEnd(t, r.value).Some?
    decreases |t| - k
  {
    if CloseEnd(t, k).Some? then Some(k)
    else if k < |t| && t[k] != '\n' then LazyClose(t, k + 1)
    else None
  }

  /** The lazy group is the shortest one: it holds no newline, the tail matches at no
      earlier position, and when there is none the tail matches nowhere the body could
      reach. */
  lemma {:induction false} LazyCloseFirst(t: string, k: nat)
    requires k <= |t|
    ensures var r := LazyClose(t, k);
      && (r.Some? ==> NoNewline(t, k, r.value) && forall j :: k <= j < r.value ==> CloseEnd(t, j).None?)
      && (r.None? ==> forall j :: k <= j <= |t| && NoNewline(t, k, j) ==> CloseEnd(t, j).None?)
    decreases |t| - k
  {
    if CloseEnd(t, k).None? && k < |t| && t[k] != '\n' {
      LazyCloseFirst(t, k + 1);
    }
  }

  /** The match the engine finds when it tries position s, if any. */
  function MatchAt(t: string, kind: Kind, s: nat): (r: Option<Match>)
    requires s <= |t|
    ensures r.Some? ==> r.value.start == s && WellFormed(t, r.value)
  {
    match OpenEnd(t, kind, s)
    case None => None
    case Some(b0) =>
      match LazyClose(t, b0)
      case None => None
      case Some(b1) => Some(Match(s, b0, b1, CloseEnd(t, b1).value))
  }

  /** The whole pattern matches t[s..e] with group 1 = t[b0..b1]. */
  ghost predicate RegexMatch(t: string, kind: Kind, s: int, b0: int, b1: int, e: int) {
    Derives(t, Head(kind), s, b0) && b0 <= b1 && NoNewline(t, b0, b1) && Derives(t, Tail(), b1, e)
  }

  /** The scanner's match at s is a match of the pattern. */
  lemma MatchAtSound(t: string, kind: Kind, s: nat)
    requires s <= |t| && MatchAt(t, kind, s).Some?
    ensures var m := MatchAt(t, kind, s).value; RegexMatch(t, kind, s, m.bodyStart, m.bodyEnd, m.end)
  {
    var m := MatchAt(t, kind, s).value;
    HeadGuarded(kind);
    TailGuarded();
    AdvanceExact(t, Head(kind), s, m.bodyStart);
    AdvanceExact(t, Tail(), m.bodyEnd, m.end);
    LazyCloseFirst(t, m.bodyStart);
  }

  /** Whenever the pattern matches at s, the scanner finds a match there, with the same
      opening and the shortest group the pattern admits (the lazy quantifier). */
  lemma MatchAtShortest(t: string, kind: Kind, s: nat, b0: int, b1: int, e: int)
    requires s <= |t| && RegexMatch(t, kind, s, b0, b1, e)
    ensures MatchAt(t, kind, s).Some?
    ensures MatchAt(t, kind, s).value.bodyStart == b0 && MatchAt(t, kind, s).value.bodyEnd <= b1
  {
    HeadGuarded(kind);
    TailGuarded();
    AdvanceExact(t, Head(kind), s, b0);
    AdvanceExact(t, Tail(), b1, e);
    assert OpenEnd(t, kind, s) == Some(b0);
    assert CloseEnd(t, b1) == Some(e);
    LazyCloseFirst(t, b0);
    assert LazyClose(t, b0).Some? && LazyClose(t, b0).value <= b1;
  }

  /** The head consumes "<#", white space, then "<" and the keyword. */
  lemma HeadKeyword(t: string, kind: Kind, s: nat)
    requires s <= |t| && OpenEnd(t, kind, s).Some?
    ensures OccursAt(t, "<" + Keyword(kind), SkipSpaces(t, s + 2))
    ensures SkipSpaces(t, s + 2) + 1 < |t| && t[SkipSpaces(t, s + 2) + 1] == Keyword(kind)[0]
  {
    var h := Head(kind);
    var a := SkipSpaces(t, s + 2);
    assert h[1..][1..][0] == Lit("<" + Keyword(kind));
    assert Advance(t, h, s) == Advance(t, h[1..], s + 2);
    assert Advance(t, h[1..], s + 2) == Advance(t, h[1..][1..], a);
    OccursAtChar(t, "<" + Keyword(kind), a, 1);
  }

  /** No position starts both a Content and a Table placeholder. */
  lemma KindsExclusive(t: string, s: nat)
    requires s <= |t|
    ensures !(MatchAt(t, ContentTag, s).Some? && MatchAt(t, TableTag, s).Some?)
  {
    if MatchAt(t, ContentTag, s).Some? && MatchAt(t, TableTag, s).Some? {
      var a := SkipSpaces(t, s + 2);
      HeadKeyword(t, ContentTag, s);
      HeadKeyword(t, TableTag, s);
    }
  }

  // ----- Regex.Matches -----

  /** A matcher for a text of length n: at(q) is the match found when the engine tries
      position q. The scanning loop of Regex.Matches does not depend on the pattern. */
  ghost predicate IsMatcher(n: nat, at: nat -> Option<Match>) {
    forall q: nat :: at(q).Some? ==> at(q).value.start == q < at(q).value.end <= n
  }

  /** No match starts in [lo, hi). */
  ghost predicate NoneIn(at: nat -> Option<Match>, lo: nat, hi: nat) {
    forall q :: lo <= q < hi ==> at(q).None?
  }

  /** What Regex.Matches promises about the matches found from position p on: each is
      the engine's match at its start, they are ordered and do not overlap, and no match
      starts in a gap between them (leftmost-first: a gap position would have been taken). */
  ghost predicate IsMatchList(n: nat, at: nat -> Option<Match>, p: nat, r: seq<Match>) {
    && (forall i :: 0 <= i < |r| ==> at(r[i].start) == Some(r[i]))
    && (|r| == 0 ==> NoneIn(at, p, n + 1))
    && (|r| > 0 ==> p <= r[0].start && NoneIn(at, p, r[0].start) && NoneIn(at, r[|r| - 1].end, n + 1))
    && (forall i :: 0 <= i < |r| - 1 ==> r[i].end <= r[i + 1].start && NoneIn(at, r[i].end, r[i + 1].start))
  }

  /** Leftmost, non-overlapping scan from position p, resuming at the end of each match. */
  function ScanFrom(n: nat, at: nat -> Option<Match>, p: nat): (r: seq<Match>)
    requires p <= n && IsMatcher(n, at)
    decreases n - p
  {
    if p == n then []
    else
      match at(p)
      case Some(m) => [m] + ScanFrom(n, at, m.end)
      case None => ScanFrom(n, at, p + 1)
  }

  /** The scan has the three properties of a match list. */
  lemma {:induction false} ScanFromIsMatchList(n: nat, at: nat -> Option<Match>, p: nat)
    requires p <= n && IsMatcher(n, at)
    ensures IsMatchList(n, at, p, ScanFrom(n, at, p))
    decreases n - p
  {
    if p < n {
      match at(p)
      case Some(m) =>
        ScanFromIsMatchList(n, at, m.end);
        MatchListCons(n, at, p, ScanFrom(n, at, m.end));
      case None =>
        ScanFromIsMatchList(n, at, p + 1);
        MatchListSkipBack(n, at, p, ScanFrom(n, at, p + 1));
    }
  }

  lemma MatchListCons(n: nat, at: nat -> Option<Match>, p: nat, rest: seq<Match>)
    requires p < n && IsMatcher(n, at) && at(p).Some?
    requires IsMatchList(n, at, at(p).value.end, rest)
    ensures IsMatchList(n, at, p, [at(p).value] + rest)
  {
    var r := [at(p).value] + rest;
    assert forall i :: 0 <= i < |rest| ==> r[i + 1] == rest[i];
  }

  lemma MatchListSkipBack(n: nat, at: nat -> Option<Match>, p: nat, r: seq<Match>)
    requires p < n && IsMatcher(n, at) && at(p).None?
    requires IsMatchList(n, at, p + 1, r)
    ensures IsMatchList(n, at, p, r)
  {
  }

  /** The properties of IsMatchList pin the list down: the scan is the only list with them. */
  lemma {:induction false} MatchListUnique(n: nat, at: nat -> Option<Match>, p: nat, r: seq<Match>)
    requires p <= n && IsMatcher(n, at)
    requires IsMatchList(n, at, p, r)
    ensures r == ScanFrom(n, at, p)
    decreases n - p
  {
    if p == n {
      MatchListAtEnd(n, at, r);
    } else {
      match at(p)
      case Some(m) =>
        MatchListHead(n, at, p, r);
        MatchListUnique(n, at, m.end, r[1..]);
        calc {
          ScanFrom(n, at, p);
          [m] + ScanFrom(n, at, m.end);
          [m] + r[1..];
          r;
        }
      case None =>
        MatchListSkip(n, at, p, r);
        MatchListUnique(n, at, p + 1, r);
        assert ScanFrom(n, at, p) == ScanFrom(n, at, p + 1);
    }
  }

  lemma MatchListAtEnd(n: nat, at: nat -> Option<Match>, r: seq<Match>)
    requires IsMatcher(n, at) && IsMatchList(n, at, n, r)
    ensures r == []
  {
  }

  lemma MatchListHead(n: nat, at: nat -> Option<Match>, p: nat, r: seq<Match>)
    requires p <= n && IsMatcher(n, at) && IsMatchList(n, at, p, r) && at(p).Some?
    ensures r != [] && r[0] == at(p).value && IsMatchList(n, at, at(p).value.end, r[1..])
  {
    assert |r| > 0;
    assert at(r[0].start) == Some(r[0]);
    var rest := r[1..];
    assert forall i :: 0 <= i < |rest| ==> rest[i] == r[i + 1];
  }

  lemma MatchListSkip(n: nat, at: nat -> Option<Match>, p: nat, r: seq<Match>)
    requires p < n && IsMatcher(n, at) && IsMatchList(n, at, p, r) && at(p).None?
    ensures IsMatchList(n, at, p + 1, r)
  {
    assert r != [] ==> at(r[0].start) == Some(r[0]);
  }

  /** In a match list a later match starts no earlier than an earlier one ends. */
  lemma {:induction false} OrderedStarts(n: nat, at: nat -> Option<Match>, p: nat, r: seq<Match>, i: nat, j: nat)
    requires IsMatcher(n, at) && IsMatchList(n, at, p, r)
    requires i < j < |r|
    ensures r[i].end <= r[j].start
    decreases j - i
  {
    if i + 1 < j {
      OrderedStarts(n, at, p, r, i + 1, j);
      assert at(r[i + 1].start) == Some(r[i + 1]);
    } else {
      assert at(r[i].start) == Some(r[i]);
    }
  }

  /** Every match a matcher over t finds is a well-formed match of t. */
  ghost predicate WellFormedMatches(t: string, at: nat -> Option<Match>) {
    forall q: nat :: at(q).Some? ==> WellFormed(t, at(q).value)
  }

  /** The pattern-specific matcher of one placeholder kind over t. */
  function Matcher(t: string, kind: Kind): (at: nat -> Option<Match>)
    ensures IsMatcher(|t|, at) && WellFormedMatches(t, at)
  {
    (q: nat) => if q <= |t| then MatchAt(t, kind, q) else None
  }

  /** Regex.Matches(t): every placeholder of one kind in a paragraph's text. */
  function Scan(t: string, kind: Kind): (r: seq<Match>)
    ensures forall i :: 0 <= i < |r| ==> WellFormed(t, r[i])
  {
    ScanFromIsMatchList(|t|, Matcher(t, kind), 0);
    ScanFrom(|t|, Matcher(t, kind), 0)
  }

  /** What Regex.Matches promises of the scan: each match is the matcher's match at its
      start, the matches are ordered and disjoint, and no placeholder starts in a gap. */
  lemma ScanSpec(t: string, kind: Kind)
    ensures IsMatchList(|t|, Matcher(t, kind), 0, Scan(t, kind))
    ensures forall i :: 0 <= i < |Scan(t, kind)| ==> MatchAt(t, kind, Scan(t, kind)[i].start) == Some(Scan(t, kind)[i])
  {
    ScanFromIsMatchList(|t|, Matcher(t, kind), 0);
  }

  /** A Content scan and a Table scan of the same text never share a match start. */
  lemma ScansDisjoint(t: string, i: nat, j: nat)
    requires i < |Scan(t, ContentTag)| && j < |Scan(t, TableTag)|
    ensures Scan(t, ContentTag)[i].start != Scan(t, TableTag)[j].start
  {
    ScanSpec(t, ContentTag);
    ScanSpec(t, TableTag);
    var s := Scan(t, ContentTag)[i].start;
    if s == Scan(t, TableTag)[j].start {
      KindsExclusive(t, s);
    }
  }
}
