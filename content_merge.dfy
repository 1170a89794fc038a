/**
 * The content pass: every `<# <Content Select="path"/> #>` placeholder of a paragraph is
 * replaced by the text the path resolves to, and the paragraph collapses to one run.
 * The pass visits the body's own paragraphs, then the paragraphs in the cells of the
 * body's own tables.
 */
module ContentMerge {
  import opened Wrappers
  import opened Strings
  import opened DataTree
  import opened XPath
  import opened Placeholders
  import opened Document
  import opened Dictionaries
  import opened Sequences

  /** The value a placeholder stands for: group 1, trimmed, cleaned and resolved. */
  function PlaceholderValue(root: Element, t: string, m: Match): string
    requires WellFormed(t, m)
  {
    ResolveXPath(root, CleanXPath(Trim(GroupText(t, m))))
  }

  /** `replacements[match.Value] = value` for each match, in scan order. */
  function ReplacementPairs(root: Element, t: string, ms: seq<Match>): (ps: seq<(string, string)>)
    requires forall i :: 0 <= i < |ms| ==> WellFormed(t, ms[i])
    ensures |ps| == |ms|
    ensures forall i :: 0 <= i < |ms| ==> ps[i].0 == MatchText(t, ms[i]) && ps[i].1 == PlaceholderValue(root, t, ms[i])
    ensures forall i :: 0 <= i < |ps| ==> ps[i].0 != []
  {
    hide PlaceholderValue;
    forall i | 0 <= i < |ms| ensures MatchText(t, ms[i]) != [] {
      MatchTextLength(t, ms[i]);
    }
    seq(|ms|, i requires 0 <= i < |ms| => (MatchText(t, ms[i]), PlaceholderValue(root, t, ms[i])))
  }

  /** The replacements dictionary of a paragraph whose text is t. */
  function Replacements(root: Element, t: string): (d: Dictionary<string>)
    ensures Valid(d)
    ensures forall i :: 0 <= i < |d.keys| ==> d.keys[i] != [] && d.keys[i] in d.values
  {
    hide PlaceholderValue;
    var ps := ReplacementPairs(root, t, Scan(t, ContentTag));
    FromPairsKeysNonEmpty(ps);
    FromPairs(ps)
  }

  /** Replace each key by its value, one key after another in enumeration order. */
  function ApplyAll(s: string, keys: seq<string>, values: map<string, string>): string
    requires forall i :: 0 <= i < |keys| ==> keys[i] != [] && keys[i] in values
  {
    if keys == [] then s
    else
      var k := keys[|keys| - 1];
      ReplaceAll(ApplyAll(s, keys[..|keys| - 1], values), k, values[k])
  }

  lemma ApplyAllStep(s: string, keys: seq<string>, values: map<string, string>, j: nat)
    requires forall i :: 0 <= i < |keys| ==> keys[i] != [] && keys[i] in values
    requires j < |keys|
    ensures ApplyAll(s, keys[..j + 1], values) == ReplaceAll(ApplyAll(s, keys[..j], values), keys[j], values[keys[j]])
  {
    assert keys[..j + 1][..j] == keys[..j];
  }

  /** The text a paragraph whose text is t ends up with. */
  function Substituted(root: Element, t: string): string {
    var d := Replacements(root, t);
    ApplyAll(t, d.keys, d.values)
  }

  /** ProcessContentPlaceholders on children cs, given their flattened text. */
  function Rewrite(root: Element, text: string, cs: seq<Inline>): seq<Inline> {
    if Scan(text, ContentTag) == [] then cs
    else RemoveRuns(cs) + [RunChild(TextRun(Substituted(root, text)))]
  }

  /** ProcessParagraph on children cs. */
  function ContentRewrite(root: Element, cs: seq<Inline>): seq<Inline> {
    Rewrite(root, InlineText(cs), cs)
  }

  /** How many times p occurs in ps: how often a pass over ps in order reaches p. */
  function Visits(ps: seq<Paragraph>, p: Paragraph): nat
    decreases |ps|
  {
    if ps == [] then 0 else Visits(ps[..|ps| - 1], p) + (if ps[|ps| - 1] == p then 1 else 0)
  }

  lemma VisitsStep(ps: seq<Paragraph>, k: nat, p: Paragraph)
    requires k < |ps|
    ensures Visits(ps[..k + 1], p) == Visits(ps[..k], p) + (if ps[k] == p then 1 else 0)
  {
    assert ps[..k + 1][..k] == ps[..k];
  }

  lemma {:induction false} VisitsAppend(a: seq<Paragraph>, b: seq<Paragraph>, p: Paragraph)
    ensures Visits(a + b, p) == Visits(a, p) + Visits(b, p)
    decreases |b|
  {
    if b == [] {
      assert a + b == a;
    } else {
      assert (a + b)[..|a + b| - 1] == a + b[..|b| - 1];
      VisitsAppend(a, b[..|b| - 1], p);
    }
  }

  lemma {:induction false} VisitsAbsent(ps: seq<Paragraph>, p: Paragraph)
    requires p !in ps
    ensures Visits(ps, p) == 0
    decreases |ps|
  {
    if ps != [] {
      VisitsAbsent(ps[..|ps| - 1], p);
    }
  }

  /** f applied n times. */
  function Iterate(f: seq<Inline> -> seq<Inline>, cs: seq<Inline>, n: nat): seq<Inline> {
    if n == 0 then cs else f(Iterate(f, cs, n - 1))
  }

  /** One visit of the content pass, as a function on a paragraph's children. */
  function Visit(root: Element): seq<Inline> -> seq<Inline> {
    cs => ContentRewrite(root, cs)
  }

  /** A paragraph visited n times by the content pass. */
  function RewriteN(root: Element, cs: seq<Inline>, n: nat): seq<Inline> {
    Iterate(Visit(root), cs, n)
  }

  // ----- what a rewrite does -----

  /** Without Content placeholders a paragraph is left alone; with them, every run goes,
      the other children stay in order, and one run holding the substituted text is
      appended. */
  lemma ContentRewriteShape(root: Element, cs: seq<Inline>)
    ensures Scan(InlineText(cs), ContentTag) == [] ==> ContentRewrite(root, cs) == cs
    ensures Scan(InlineText(cs), ContentTag) != [] ==>
      var r := ContentRewrite(root, cs);
      && RemoveRuns(r) == RemoveRuns(cs)
      && |r| == |RemoveRuns(cs)| + 1
      && r[|r| - 1] == RunChild(TextRun(Substituted(root, InlineText(cs))))
      && InlineText(r) == Substituted(root, InlineText(cs))
  {
    CollapsedText(cs, Substituted(root, InlineText(cs)));
  }

  /** The dictionary holds exactly the placeholder texts found. */
  lemma ReplacementKeys(root: Element, t: string, k: string)
    ensures var ms := Scan(t, ContentTag);
      k in Replacements(root, t).values <==> exists i :: 0 <= i < |ms| && MatchText(t, ms[i]) == k
  {
    var ms := Scan(t, ContentTag);
    var ps := ReplacementPairs(root, t, ms);
    FromPairsKeys(ps, k);
    if exists i :: 0 <= i < |ms| && MatchText(t, ms[i]) == k {
      var i :| 0 <= i < |ms| && MatchText(t, ms[i]) == k;
      assert ps[i].0 == k;
    }
  }

  /** A placeholder text is replaced by the value of its last occurrence. */
  lemma ReplacementValue(root: Element, t: string, i: nat)
    requires var ms := Scan(t, ContentTag);
      i < |ms| && forall j :: i < j < |ms| ==> MatchText(t, ms[j]) != MatchText(t, ms[i])
    ensures var ms := Scan(t, ContentTag); var d := Replacements(root, t);
      MatchText(t, ms[i]) in d.values && d.values[MatchText(t, ms[i])] == PlaceholderValue(root, t, ms[i])
  {
    var ms := Scan(t, ContentTag);
    FromPairsLastWins(ReplacementPairs(root, t, ms), i);
  }

  /** Replacements are applied in first-seen order: of two keys, the one applied earlier
      was found before the first occurrence of the other. */
  lemma ReplacementOrder(root: Element, t: string, a: nat, b: nat)
    requires a < b < |Replacements(root, t).keys|
    ensures var ms := Scan(t, ContentTag); var keys := Replacements(root, t).keys;
      exists i :: 0 <= i < |ms| && MatchText(t, ms[i]) == keys[a]
        && forall j :: 0 <= j <= i ==> MatchText(t, ms[j]) != keys[b]
  {
    var ms := Scan(t, ContentTag);
    var ps := ReplacementPairs(root, t, ms);
    var keys := Replacements(root, t).keys;
    FromPairsOrder(ps, a, b);
    var i :| 0 <= i < |ps| && ps[i].0 == keys[a] && NotBefore(ps, i, keys[b]);
    assert MatchText(t, ms[i]) == keys[a];
    assert forall j :: 0 <= j <= i ==> MatchText(t, ms[j]) != keys[b] by {
      forall j | 0 <= j <= i ensures MatchText(t, ms[j]) != keys[b] {
        assert ps[j].0 == MatchText(t, ms[j]);
      }
    }
  }

  /** A paragraph with a single placeholder: every occurrence of its text is replaced by
      its value. */
  lemma SinglePlaceholder(root: Element, t: string)
    requires |Scan(t, ContentTag)| == 1
    ensures var m := Scan(t, ContentTag)[0];
      Substituted(root, t) == ReplaceAll(t, MatchText(t, m), PlaceholderValue(root, t, m))
  {
    var m := Scan(t, ContentTag)[0];
    var k, v := MatchText(t, m), PlaceholderValue(root, t, m);
    var ps := ReplacementPairs(root, t, Scan(t, ContentTag));
    assert ps == [(k, v)];
    assert ps[..0] == [];
    var d := Replacements(root, t);
    assert d == FromPairs(ps) == Put(Empty(), k, v);
    assert d.keys == [k] && d.values[k] == v;
    assert d.keys[..0] == [];
    assert ApplyAll(t, d.keys, d.values) == ReplaceAll(ApplyAll(t, d.keys[..0], d.values), k, v);
  }

  /** Once the substituted text holds no placeholder, visiting the paragraph again changes
      nothing: a paragraph visited several times ends as if visited once. */
  lemma RewriteNStable(root: Element, cs: seq<Inline>, n: nat)
    requires n >= 1
    requires Scan(InlineText(cs), ContentTag) != [] ==> Scan(Substituted(root, InlineText(cs)), ContentTag) == []
    ensures RewriteN(root, cs, n) == ContentRewrite(root, cs)
  {
    var f := cs => ContentRewrite(root, cs);
    ContentRewriteShape(root, cs);
    IterateFixed(f, cs, n);
  }

  /** One more visit. */
  lemma RewriteNStep(root: Element, cs: seq<Inline>, n: nat)
    ensures ContentRewrite(root, RewriteN(root, cs, n)) == RewriteN(root, cs, n + 1)
  {
  }

  lemma {:induction false} IterateFixed(f: seq<Inline> -> seq<Inline>, cs: seq<Inline>, n: nat)
    requires n >= 1 && f(f(cs)) == f(cs)
    ensures Iterate(f, cs, n) == f(cs)
    decreases n
  {
    if n > 1 {
      IterateFixed(f, cs, n - 1);
    }
  }

  /** Visiting a paragraph a times and then b times is visiting it a + b times. */
  lemma RewriteNAdd(root: Element, cs: seq<Inline>, a: nat, b: nat)
    ensures RewriteN(root, RewriteN(root, cs, a), b) == RewriteN(root, cs, a + b)
  {
    IterateAdd(cs => ContentRewrite(root, cs), cs, a, b);
  }

  lemma {:induction false} IterateAdd(f: seq<Inline> -> seq<Inline>, cs: seq<Inline>, a: nat, b: nat)
    ensures Iterate(f, Iterate(f, cs, a), b) == Iterate(f, cs, a + b)
    decreases b
  {
    if b > 0 {
      IterateAdd(f, cs, a, b - 1);
    }
  }

  // ----- the pass -----

  /** ProcessContentPlaceholders(paragraph, paragraphText, dataXml). */
  method ProcessContentPlaceholders(p: Paragraph, paragraphText: string, root: Element)
    modifies p
    ensures p.children == Rewrite(root, paragraphText, old(p.children))
  {
    var matches := Scan(paragraphText, ContentTag);
    if |matches| == 0 {
      return;
    }
    var replacements := CollectReplacements(root, paragraphText, matches);
    var combinedText := ApplyReplacements(paragraphText, replacements);
    p.children := RemoveRuns(p.children) + [RunChild(TextRun(combinedText))];
  }

  /** The first loop of ProcessContentPlaceholders: `replacements[match.Value] = value`
      for each match in scan order. */
  method CollectReplacements(root: Element, paragraphText: string, matches: seq<Match>) returns (replacements: Dictionary<string>)
    requires matches == Scan(paragraphText, ContentTag)
    ensures replacements == Replacements(root, paragraphText)
  {
    ghost var pairs := ReplacementPairs(root, paragraphText, matches);
    replacements := Empty();
    for i := 0 to |matches|
      invariant replacements == FromPairs(pairs[..i])
    {
      var placeholder := MatchText(paragraphText, matches[i]);
      var xpath := Trim(GroupText(paragraphText, matches[i]));
      xpath := CleanXPath(xpath);
      var value := ResolveXPath(root, xpath);
      FromPairsStep(pairs, i);
      replacements := Put(replacements, placeholder, value);
    }
    PrefixWhole(pairs);
  }

  /** The second loop: each key in enumeration order is replaced by its value. */
  method ApplyReplacements(paragraphText: string, replacements: Dictionary<string>) returns (combinedText: string)
    requires forall i :: 0 <= i < |replacements.keys| ==> replacements.keys[i] != [] && replacements.keys[i] in replacements.values
    ensures combinedText == ApplyAll(paragraphText, replacements.keys, replacements.values)
  {
    var keys, values := replacements.keys, replacements.values;
    combinedText := paragraphText;
    for j := 0 to |keys|
      invariant combinedText == ApplyAll(paragraphText, keys[..j], values)
    {
      var key := keys[j];
      ApplyAllStep(paragraphText, keys, values, j);
      combinedText := ReplaceAll(combinedText, key, values[key]);
    }
    PrefixWhole(keys);
  }

  /** ProcessParagraph: the paragraph's own text drives the rewrite. */
  method ProcessParagraph(p: Paragraph, root: Element)
    modifies p
    ensures p.children == ContentRewrite(root, old(p.children))
  {
    var paragraphText := ParagraphText(p);
    ProcessContentPlaceholders(p, paragraphText, root);
  }

  /** A sequence of paragraphs visited in order (the paragraphs of a cell, or the body's
      own paragraphs): each is rewritten as many times as it occurs. */
  method ProcessParagraphs(ps: seq<Paragraph>, root: Element)
    modifies set p | p in ps
    ensures forall p {:trigger p in ps} :: p in ps ==> p.children == RewriteN(root, old(p.children), Visits(ps, p))
  {
    hide ContentRewrite;
    ghost var orig := map p | p in ps :: p.children;
    for k := 0 to |ps|
      invariant forall p {:trigger p in ps} :: p in ps ==> p.children == RewriteN(root, orig[p], Visits(ps[..k], p))
    {
      ghost var mid := map p | p in ps :: p.children;
      ProcessParagraph(ps[k], root);
      VisitNext(Visit(root), ps, orig, mid, k);
    }
    PrefixWhole(ps);
  }

  /** One more paragraph of the pass: its visits grow by one, everyone else's stay. */
  lemma VisitNext(f: seq<Inline> -> seq<Inline>, ps: seq<Paragraph>, orig: map<Paragraph, seq<Inline>>, mid: map<Paragraph, seq<Inline>>, k: nat)
    requires k < |ps|
    requires forall p {:trigger p in ps} :: p in ps ==> p in orig && p in mid && mid[p] == Iterate(f, orig[p], Visits(ps[..k], p))
    requires ps[k] in mid && ps[k].children == f(mid[ps[k]])
    requires forall p {:trigger p in ps} :: p in ps && p != ps[k] ==> p.children == mid[p]
    ensures forall p {:trigger p in ps} :: p in ps ==> p.children == Iterate(f, orig[p], Visits(ps[..k + 1], p))
  {
    forall p | p in ps ensures p.children == Iterate(f, orig[p], Visits(ps[..k + 1], p)) {
      VisitsStep(ps, k, p);
    }
  }

  /** Every paragraph in the cells of a table, row by row and cell by cell, is rewritten
      as many times as it occurs there. */
  method ProcessTable(table: Table, root: Element)
    modifies set p | p in RowsParagraphs(table.rows)
    ensures forall p {:trigger p in old(RowsParagraphs(table.rows))} :: p in old(RowsParagraphs(table.rows)) && old(allocated(p)) ==>
      p.children == RewriteN(root, old(p.children), Visits(old(RowsParagraphs(table.rows)), p))
  {
    hide Visit;
    var rows := table.rows;
    ghost var all := RowsParagraphs(rows);
    RowsParagraphsAllocated(rows);
    ghost var orig := map p | p in all :: p.children;
    ghost var done: seq<Paragraph> := [];
    PrefixEmpty(rows);
    for i := 0 to |rows|
      invariant done == RowsParagraphs(rows[..i])
      invariant forall p {:trigger p in all} :: p in all ==> p.children == RewriteN(root, orig[p], Visits(done, p))
    {
      var cells := rows[i].cells;
      ghost var before := done;
      PrefixEmpty(cells);
      AppendEmpty(done);
      for j := 0 to |cells|
        invariant done == before + RowParagraphs(cells[..j])
        invariant forall p {:trigger p in all} :: p in all ==> p.children == RewriteN(root, orig[p], Visits(done, p))
      {
        var paras := CellParagraphs(cells[j].items);
        CellParagraphsInRows(rows, i, j);
        ghost var mid := map p | p in all :: p.children;
        ProcessParagraphs(paras, root);
        ComposeVisits(Visit(root), all, orig, mid, done, paras);
        RowParagraphsStep(cells, j);
        AppendAssoc(before, RowParagraphs(cells[..j]), paras);
        done := done + paras;
      }
      PrefixWhole(cells);
      RowsParagraphsStep(rows, i);
    }
    PrefixWhole(rows);
  }

  /** ProcessBodyContent: the body's own paragraphs, then the body's own tables. Each
      paragraph of the content order is rewritten as many times as it occurs in it. */
  method ProcessBodyContent(body: Body, root: Element)
    modifies set p | p in ContentOrder(body.blocks)
    ensures forall p {:trigger p in old(ContentOrder(body.blocks))} :: p in old(ContentOrder(body.blocks)) && old(allocated(p)) ==>
      p.children == RewriteN(root, old(p.children), Visits(old(ContentOrder(body.blocks)), p))
  {
    hide Visit;
    var blocks := body.blocks;
    ghost var all := ContentOrder(blocks);
    ContentOrderAllocated(blocks);
    ghost var orig := map p | p in all :: p.children;
    var paragraphs := BodyParagraphs(blocks);
    ProcessParagraphs(paragraphs, root);
    ComposeVisits(Visit(root), all, orig, orig, [], paragraphs);
    AppendEmpty(paragraphs);
    ghost var mid := map p | p in all :: p.children;
    var tables := BodyTables(blocks);
    ghost var tps := TablesParagraphs(tables);
    RowListsParagraphsAllocated(TablesRows(tables));
    ProcessTables(tables, root);
    ComposeVisits(Visit(root), all, orig, mid, paragraphs, tps);
  }

  /** The second loop of ProcessBodyContent: the tables in order. */
  method ProcessTables(tables: seq<Table>, root: Element)
    modifies set p | p in TablesParagraphs(tables)
    ensures forall p {:trigger p in old(TablesParagraphs(tables))} :: p in old(TablesParagraphs(tables)) && old(allocated(p)) ==>
      p.children == RewriteN(root, old(p.children), Visits(old(TablesParagraphs(tables)), p))
  {
    hide Visit;
    ghost var rowsOf := TablesRows(tables);
    ghost var all := RowListsParagraphs(rowsOf);
    RowListsParagraphsAllocated(rowsOf);
    ghost var orig := map p | p in all :: p.children;
    ghost var done: seq<Paragraph> := [];
    PrefixEmpty(rowsOf);
    for i := 0 to |tables|
      invariant done == RowListsParagraphs(rowsOf[..i])
      invariant forall j :: 0 <= j < |tables| ==> tables[j].rows == rowsOf[j]
      invariant forall p {:trigger p in all} :: p in all ==> p.children == RewriteN(root, orig[p], Visits(done, p))
    {
      RowsInRowLists(rowsOf, i);
      ghost var ps := RowsParagraphs(rowsOf[i]);
      ghost var mid := map p | p in all :: p.children;
      ProcessTable(tables[i], root);
      ComposeVisits(Visit(root), all, orig, mid, done, ps);
      RowListsParagraphsStep(rowsOf, i);
      done := done + ps;
    }
    PrefixWhole(rowsOf);
  }

  /** A pass over `ps` after a pass over `done` is a pass over `done + ps`: the visits
      of each paragraph add up. `orig` holds the children before both passes, `mid` those
      between them. */
  lemma ComposeVisits(f: seq<Inline> -> seq<Inline>, all: seq<Paragraph>, orig: map<Paragraph, seq<Inline>>,
                      mid: map<Paragraph, seq<Inline>>, done: seq<Paragraph>, ps: seq<Paragraph>)
    requires forall p {:trigger p in all} :: p in all ==> p in orig && p in mid && mid[p] == Iterate(f, orig[p], Visits(done, p))
    requires forall p {:trigger p in ps} :: p in ps ==> p in all && p.children == Iterate(f, mid[p], Visits(ps, p))
    requires forall p {:trigger p in all} :: p in all && p !in ps ==> p.children == mid[p]
    ensures forall p {:trigger p in all} :: p in all ==> p.children == Iterate(f, orig[p], Visits(done + ps, p))
  {
    forall p | p in all ensures p.children == Iterate(f, orig[p], Visits(done + ps, p)) {
      if p in ps {
        VisitsAdd(f, orig[p], done, ps, p);
      } else {
        VisitsAbsent(ps, p);
        VisitsAppend(done, ps, p);
      }
    }
  }

  /** Visiting a paragraph as often as it occurs in `done`, then as often as it occurs in
      `ps`, is visiting it as often as it occurs in `done + ps`. */
  lemma VisitsAdd(f: seq<Inline> -> seq<Inline>, cs: seq<Inline>, done: seq<Paragraph>, ps: seq<Paragraph>, p: Paragraph)
    ensures Iterate(f, Iterate(f, cs, Visits(done, p)), Visits(ps, p)) == Iterate(f, cs, Visits(done + ps, p))
  {
    VisitsAppend(done, ps, p);
    IterateAdd(f, cs, Visits(done, p), Visits(ps, p));
  }
}
