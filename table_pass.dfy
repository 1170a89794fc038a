/**
 * The document-level table pass (FindAndProcessTablePlaceholders): every Table
 * placeholder of every paragraph in the body's descendant list is recorded first; then,
 * placeholder by placeholder, the nearest table after its paragraph in that same list is
 * populated from the data and the placeholder is cut out of the paragraph's text.
 */
module TablePass {
  import opened Wrappers
  import opened Strings
  import opened DataTree
  import opened XPath
  import opened Placeholders
  import opened Document
  import opened TablePopulate
  import opened Sequences

  /** One entry of the placeholder list: the paragraph, the placeholder's text, the
      cleaned path, and the paragraph's position in the descendant list. */
  datatype Found = Found(para: Paragraph, placeholder: string, xpath: string, index: nat)

  /** The paragraphs of a descendant list. */
  function ElemParagraphs(all: seq<Elem>): set<Paragraph> {
    set e | e in all && e.ElemPara? :: e.para
  }

  /** The tables of a descendant list. */
  function ElemTables(all: seq<Elem>): set<Table> {
    set e | e in all && e.ElemTable? :: e.table
  }

  /** GetTextFromParagraph of each descendant that is a paragraph, "" at a table. */
  function Texts(all: seq<Elem>): (r: seq<string>)
    reads ElemParagraphs(all)
    ensures |r| == |all|
    ensures forall i :: 0 <= i < |all| && all[i].ElemPara? ==> r[i] == ParagraphText(all[i].para)
  {
    if all == [] then []
    else [if all[0].ElemPara? then ParagraphText(all[0].para) else ""] + Texts(all[1..])
  }

  // ----- the placeholder list -----

  /** The entries one paragraph at position i contributes, one per Table match, in match order. */
  function FindsIn(p: Paragraph, text: string, i: nat): (r: seq<Found>)
    ensures |r| == |Scan(text, TableTag)|
    ensures forall k :: 0 <= k < |r| ==> r[k] == Found(p, MatchText(text, Scan(text, TableTag)[k]),
      CleanXPath(Trim(GroupText(text, Scan(text, TableTag)[k]))), i)
  {
    var ms := Scan(text, TableTag);
    seq(|ms|, k requires 0 <= k < |ms| => Found(p, MatchText(text, ms[k]), CleanXPath(Trim(GroupText(text, ms[k]))), i))
  }

  /** The entries of the descendant at position i. */
  function FindsAt(all: seq<Elem>, texts: seq<string>, i: nat): seq<Found>
    requires i < |all| == |texts|
  {
    if all[i].ElemPara? then FindsIn(all[i].para, texts[i], i) else []
  }

  /** The list the first loop builds, given each descendant's text. */
  function Finds(all: seq<Elem>, texts: seq<string>): seq<Found>
    requires |texts| == |all|
    decreases |all|
  {
    if all == [] then []
    else
      var n := |all| - 1;
      Finds(all[..n], texts[..n]) + FindsAt(all, texts, n)
  }

  lemma FindsStep(all: seq<Elem>, texts: seq<string>, i: nat)
    requires i < |all| == |texts|
    ensures Finds(all[..i + 1], texts[..i + 1]) == Finds(all[..i], texts[..i]) + FindsAt(all, texts, i)
  {
    assert all[..i + 1][..i] == all[..i];
    assert texts[..i + 1][..i] == texts[..i];
  }

  /** Each entry names a paragraph of the list at its own position, with a non-empty placeholder. */
  predicate Located(fs: seq<Found>, all: seq<Elem>) {
    forall k :: 0 <= k < |fs| ==>
      fs[k].index < |all| && all[fs[k].index] == ElemPara(fs[k].para) && fs[k].placeholder != []
  }

  /** The list holds exactly one entry per Table match of each descendant paragraph: every
      entry comes from such a match, every match has its entry, and the entries follow the
      descendant order. */
  lemma FindsSpec(all: seq<Elem>, texts: seq<string>)
    requires |texts| == |all|
    ensures var fs := Finds(all, texts);
      && Located(fs, all)
      && (forall k :: 0 <= k < |fs| ==> fs[k] in FindsIn(fs[k].para, texts[fs[k].index], fs[k].index))
      && (forall a, b :: 0 <= a < b < |fs| ==> fs[a].index <= fs[b].index)
      && (forall i, m :: 0 <= i < |all| && all[i].ElemPara? && 0 <= m < |Scan(texts[i], TableTag)| ==>
            FindsIn(all[i].para, texts[i], i)[m] in fs)
  {
    FindsSound(all, texts);
    FindsComplete(all, texts);
  }

  /** Every entry comes from a match of its own paragraph, and the entries follow the
      descendant order. */
  lemma FindsSound(all: seq<Elem>, texts: seq<string>)
    requires |texts| == |all|
    ensures var fs := Finds(all, texts);
      && Located(fs, all)
      && (forall k :: 0 <= k < |fs| ==> fs[k] in FindsIn(fs[k].para, texts[fs[k].index], fs[k].index))
      && (forall a, b :: 0 <= a < b < |fs| ==> fs[a].index <= fs[b].index)
  {
    FindsLocated(all, texts);
    FindsOrdered(all, texts);
  }

  lemma {:induction false} FindsLocated(all: seq<Elem>, texts: seq<string>)
    requires |texts| == |all|
    ensures var fs := Finds(all, texts);
      && Located(fs, all)
      && (forall k :: 0 <= k < |fs| ==> fs[k] in FindsIn(fs[k].para, texts[fs[k].index], fs[k].index))
    decreases |all|
  {
    hide FindsIn, CleanXPath, Trim, GroupText, MatchText;
    if all != [] {
      var n := |all| - 1;
      var init, last := Finds(all[..n], texts[..n]), FindsAt(all, texts, n);
      FindsLocated(all[..n], texts[..n]);
      var fs := init + last;
      assert fs == Finds(all, texts);
      forall k | 0 <= k < |init|
        ensures fs[k].index < |all| && all[fs[k].index] == ElemPara(fs[k].para) && fs[k].placeholder != []
        ensures fs[k] in FindsIn(fs[k].para, texts[fs[k].index], fs[k].index)
      {
        assert fs[k] == init[k];
        assert all[..n][init[k].index] == all[init[k].index];
        assert texts[..n][init[k].index] == texts[init[k].index];
      }
      forall k | |init| <= k < |fs|
        ensures fs[k].index < |all| && all[fs[k].index] == ElemPara(fs[k].para) && fs[k].placeholder != []
        ensures fs[k] in FindsIn(fs[k].para, texts[fs[k].index], fs[k].index)
      {
        assert fs[k] == last[k - |init|];
        var ms := Scan(texts[n], TableTag);
        MatchTextLength(texts[n], ms[k - |init|]);
      }
    }
  }

  /** Every entry's position is below n. */
  predicate Below(fs: seq<Found>, n: nat) {
    forall k :: 0 <= k < |fs| ==> fs[k].index < n
  }

  /** The entries' positions never decrease. */
  predicate Nondecreasing(fs: seq<Found>) {
    forall a, b :: 0 <= a < b < |fs| ==> fs[a].index <= fs[b].index
  }

  lemma {:induction false} FindsOrdered(all: seq<Elem>, texts: seq<string>)
    requires |texts| == |all|
    ensures Below(Finds(all, texts), |all|) && Nondecreasing(Finds(all, texts))
    decreases |all|
  {
    hide FindsIn, CleanXPath, Trim, GroupText, MatchText;
    if all != [] {
      var n := |all| - 1;
      var init, last := Finds(all[..n], texts[..n]), FindsAt(all, texts, n);
      FindsOrdered(all[..n], texts[..n]);
      assert Below(init, n);
      forall k | 0 <= k < |last| ensures last[k].index == n {
      }
      ConcatOrdered(init, last, n);
      assert Finds(all, texts) == init + last;
    }
  }

  lemma ConcatOrdered(init: seq<Found>, last: seq<Found>, n: nat)
    requires Below(init, n) && Nondecreasing(init)
    requires forall k :: 0 <= k < |last| ==> last[k].index == n
    ensures Below(init + last, n + 1) && Nondecreasing(init + last)
  {
    var fs := init + last;
    forall k | 0 <= k < |fs| ensures fs[k].index < n + 1 && (k < |init| ==> fs[k].index < n) && (k >= |init| ==> fs[k].index == n) {
      if k < |init| {
        assert fs[k] == init[k];
      } else {
        assert fs[k] == last[k - |init|];
      }
    }
    forall a, b | 0 <= a < b < |fs| ensures fs[a].index <= fs[b].index {
      if b < |init| {
        assert fs[a] == init[a] && fs[b] == init[b];
      }
    }
  }

  /** Every Table match of every descendant paragraph has its entry. */
  lemma {:induction false} FindsComplete(all: seq<Elem>, texts: seq<string>)
    requires |texts| == |all|
    ensures forall i, m :: 0 <= i < |all| && all[i].ElemPara? && 0 <= m < |Scan(texts[i], TableTag)| ==>
      FindsIn(all[i].para, texts[i], i)[m] in Finds(all, texts)
    decreases |all|
  {
    hide FindsIn, CleanXPath, Trim, GroupText, MatchText;
    if all != [] {
      var n := |all| - 1;
      var init, last := Finds(all[..n], texts[..n]), FindsAt(all, texts, n);
      FindsComplete(all[..n], texts[..n]);
      var fs := init + last;
      assert fs == Finds(all, texts);
      forall i, m | 0 <= i < |all| && all[i].ElemPara? && 0 <= m < |Scan(texts[i], TableTag)|
        ensures FindsIn(all[i].para, texts[i], i)[m] in fs
      {
        if i < n {
          assert all[..n][i] == all[i] && texts[..n][i] == texts[i];
        } else {
          assert i == n && last == FindsIn(all[n].para, texts[n], n);
          assert fs[|init| + m] == last[m];
        }
      }
    }
  }

  /** The list the first loop builds over the descendants as they stand. */
  function PassFinds(all: seq<Elem>): (fs: seq<Found>)
    reads ElemParagraphs(all)
    ensures Located(fs, all)
  {
    FindsSpec(all, Texts(all));
    Finds(all, Texts(all))
  }

  // ----- the nearest table -----

  /** The position of the first table strictly after position i, if any. */
  function NearestTable(all: seq<Elem>, i: nat): (r: Option<nat>)
    ensures r.Some? ==> i < r.value < |all| && all[r.value].ElemTable?
    ensures forall j :: i < j < |all| && (r.None? || j < r.value) ==> !all[j].ElemTable?
    decreases |all| - i
  {
    if i + 1 >= |all| then None
    else if all[i + 1].ElemTable? then Some(i + 1)
    else NearestTable(all, i + 1)
  }

  /** The table an entry at position i is routed to, or null. */
  function TableAfter(all: seq<Elem>, i: nat): (t: Table?)
    ensures t != null ==> t in ElemTables(all)
  {
    match NearestTable(all, i)
    case None => null
    case Some(j) => assert all[j] in all; all[j].table
  }

  // ----- routing in terms of the body's blocks -----

  /** The index of the first body table after block j, if any. */
  function NextBodyTable(blocks: seq<Block>, j: nat): (r: Option<nat>)
    ensures r.Some? ==> j < r.value < |blocks| && blocks[r.value].BlockTable?
    ensures forall k :: j < k < |blocks| && (r.None? || k < r.value) ==> !blocks[k].BlockTable?
    decreases |blocks| - j
  {
    if j + 1 >= |blocks| then None
    else if blocks[j + 1].BlockTable? then Some(j + 1)
    else NextBodyTable(blocks, j + 1)
  }

  lemma NearestTableNone(all: seq<Elem>, i: nat)
    requires forall q :: i < q < |all| ==> !all[q].ElemTable?
    ensures NearestTable(all, i).None?
  {
  }

  lemma NearestTableAt(all: seq<Elem>, i: nat, p: nat)
    requires i < p < |all| && all[p].ElemTable?
    requires forall q :: i < q < p ==> !all[q].ElemTable?
    ensures NearestTable(all, i) == Some(p)
  {
  }

  /** A paragraph entry in block j's part of the descendant list (the block itself, or a
      paragraph in the cells of the block's table) is routed to the first body table after
      block j, and to none when no body table follows. */
  lemma RoutedToNextBodyTable(blocks: seq<Block>, j: nat, i: nat)
    requires j < |blocks|
    requires |Descendants(blocks[..j])| <= i < |Descendants(blocks[..j + 1])|
    requires i < |Descendants(blocks)| && Descendants(blocks)[i].ElemPara?
    ensures TableAfter(Descendants(blocks), i) ==
      match NextBodyTable(blocks, j) case None => null case Some(k) => blocks[k].table
  {
    hide Descendants, NearestTable;
    var all := Descendants(blocks);
    var pre, own, post := Descendants(blocks[..j]), Descendants([blocks[j]]), Descendants(blocks[j + 1..]);
    SplitAtBlock(blocks, j);
    var e := |pre| + |own|;
    OwnPartAfterEntry(blocks[j], own, i - |pre|);
    assert forall q :: i < q < e ==> !all[q].ElemTable? by {
      forall q | i < q < e ensures !all[q].ElemTable? {
        assert all[q] == own[q - |pre|];
      }
    }
    match NextBodyTable(blocks, j)
    case None =>
      DescendantsWithoutTables(blocks[j + 1..]);
      forall q | i < q < |all| ensures !all[q].ElemTable? {
        if q >= e {
          assert all[q] == post[q - e];
        }
      }
      NearestTableNone(all, i);
    case Some(k) =>
      var mid := Descendants(blocks[j + 1..k]);
      FirstTableAfter(blocks, j, k);
      var p := e + |mid|;
      forall q | i < q < p ensures !all[q].ElemTable? {
        if q >= e {
          assert all[q] == post[q - e] == mid[q - e];
        }
      }
      assert all[p] == post[|mid|];
      NearestTableAt(all, i, p);
  }

  /** The descendant list cut around block j. */
  lemma SplitAtBlock(blocks: seq<Block>, j: nat)
    requires j < |blocks|
    ensures Descendants(blocks) == Descendants(blocks[..j]) + Descendants([blocks[j]]) + Descendants(blocks[j + 1..])
    ensures Descendants(blocks[..j + 1]) == Descendants(blocks[..j]) + Descendants([blocks[j]])
  {
    hide Descendants;
    assert blocks[..j + 1] == blocks[..j] + [blocks[j]];
    DescendantsAppend(blocks[..j], [blocks[j]]);
    assert blocks == blocks[..j + 1] + blocks[j + 1..];
    DescendantsAppend(blocks[..j + 1], blocks[j + 1..]);
  }

  /** Within one block's own part, every element after a paragraph is a paragraph. */
  lemma OwnPartAfterEntry(b: Block, own: seq<Elem>, r: nat)
    requires own == Descendants([b]) && r < |own| && own[r].ElemPara?
    ensures forall q :: r < q < |own| ==> own[q].ElemPara?
  {
    BlockDescendants(b);
  }

  /** Between block j and the next body table k only paragraphs occur, then k's table. */
  lemma FirstTableAfter(blocks: seq<Block>, j: nat, k: nat)
    requires j < k < |blocks| && blocks[k].BlockTable?
    requires forall l :: j < l < k ==> !blocks[l].BlockTable?
    ensures var mid := Descendants(blocks[j + 1..k]);
      |mid| < |Descendants(blocks[j + 1..])|
      && Descendants(blocks[j + 1..])[|mid|] == ElemTable(blocks[k].table)
      && Descendants(blocks[j + 1..])[..|mid|] == mid
      && forall q :: 0 <= q < |mid| ==> mid[q].ElemPara?
  {
    var mid, tail := blocks[j + 1..k], blocks[k..];
    assert blocks[j + 1..] == mid + tail;
    DescendantsAppend(mid, tail);
    assert tail == [blocks[k]] + blocks[k + 1..];
    DescendantsAppend([blocks[k]], blocks[k + 1..]);
    BlockDescendants(blocks[k]);
    DescendantsWithoutTables(mid);
  }

  /** A body paragraph directly followed by a body table is routed to that table. */
  lemma ParagraphBeforeTable(blocks: seq<Block>, j: nat)
    requires j + 1 < |blocks| && blocks[j].BlockPara? && blocks[j + 1].BlockTable?
    ensures var i := |Descendants(blocks[..j])|;
      i < |Descendants(blocks)| && Descendants(blocks)[i] == ElemPara(blocks[j].para)
      && TableAfter(Descendants(blocks), i) == blocks[j + 1].table
  {
    hide Descendants, NearestTable;
    var i := |Descendants(blocks[..j])|;
    SplitAtBlock(blocks, j);
    BlockDescendants(blocks[j]);
    assert Descendants(blocks)[i] == ElemPara(blocks[j].para);
    RoutedToNextBodyTable(blocks, j, i);
  }

  /** A paragraph in the cells of body table T is never routed to T: it goes to the
      first body table after T, or nowhere. */
  lemma CellParagraphPassesItsTable(blocks: seq<Block>, j: nat, m: nat)
    requires j < |blocks| && blocks[j].BlockTable? && m < |RowsParagraphs(blocks[j].table.rows)|
    ensures var i := |Descendants(blocks[..j])| + 1 + m;
      i < |Descendants(blocks)| && Descendants(blocks)[i] == ElemPara(RowsParagraphs(blocks[j].table.rows)[m])
      && TableAfter(Descendants(blocks), i) ==
           (match NextBodyTable(blocks, j) case None => null case Some(k) => blocks[k].table)
    ensures (forall k :: 0 <= k < |blocks| && k != j ==> blocks[k] != blocks[j]) ==>
      TableAfter(Descendants(blocks), |Descendants(blocks[..j])| + 1 + m) != blocks[j].table
  {
    hide Descendants, NearestTable;
    var i := |Descendants(blocks[..j])| + 1 + m;
    SplitAtBlock(blocks, j);
    BlockDescendants(blocks[j]);
    assert Descendants(blocks)[i] == ElemPara(RowsParagraphs(blocks[j].table.rows)[m]);
    RoutedToNextBodyTable(blocks, j, i);
  }

  // ----- cutting a placeholder out of its paragraph -----

  /** The paragraph's text without the placeholder, collapsed into one run unless only
      white space is left; the children that are not runs stay. */
  function Strip(cs: seq<Inline>, placeholder: string): seq<Inline>
    requires placeholder != []
  {
    var rest := ReplaceAll(InlineText(cs), placeholder, "");
    RemoveRuns(cs) + (if IsBlank(rest) then [] else [RunChild(TextRun(rest))])
  }

  /** Several placeholders cut out one after the other. */
  function StripAll(cs: seq<Inline>, placeholders: seq<string>): seq<Inline>
    requires forall k :: 0 <= k < |placeholders| ==> placeholders[k] != []
    decreases |placeholders|
  {
    if placeholders == [] then cs
    else
      var n := |placeholders| - 1;
      Strip(StripAll(cs, placeholders[..n]), placeholders[n])
  }

  /** After a cut the paragraph's text is the old text without the placeholder (or nothing
      when that is blank), and the children that are not runs are those of before. */
  lemma StripShape(cs: seq<Inline>, placeholder: string)
    requires placeholder != []
    ensures var rest := ReplaceAll(InlineText(cs), placeholder, "");
      && InlineText(Strip(cs, placeholder)) == (if IsBlank(rest) then "" else rest)
      && RemoveRuns(Strip(cs, placeholder)) == RemoveRuns(cs)
  {
    var rest := ReplaceAll(InlineText(cs), placeholder, "");
    if IsBlank(rest) {
      assert Strip(cs, placeholder) == RemoveRuns(cs);
      RemoveRunsNoText(cs);
      RemoveRunsIdempotent(cs);
    } else {
      CollapsedText(cs, rest);
    }
  }

  /** However many placeholders are cut, the children that are not runs survive in order. */
  lemma {:induction false} StripAllKeepsOthers(cs: seq<Inline>, placeholders: seq<string>)
    requires forall k :: 0 <= k < |placeholders| ==> placeholders[k] != []
    ensures RemoveRuns(StripAll(cs, placeholders)) == RemoveRuns(cs)
    decreases |placeholders|
  {
    if placeholders != [] {
      var n := |placeholders| - 1;
      StripAllKeepsOthers(cs, placeholders[..n]);
      StripShape(StripAll(cs, placeholders[..n]), placeholders[n]);
    }
  }

  // ----- the first loop -----

  /** The first loop: every descendant paragraph's Table matches, in order. */
  method CollectFinds(all: seq<Elem>) returns (placeholders: seq<Found>)
    ensures placeholders == Finds(all, Texts(all))
  {
    hide CleanXPath, Trim, GroupText, MatchText, FindsIn, Scan, ParagraphText;
    ghost var texts := Texts(all);
    placeholders := [];
    for i := 0 to |all|
      invariant texts == Texts(all)
      invariant placeholders == Finds(all[..i], texts[..i])
    {
      FindsStep(all, texts, i);
      if all[i].ElemPara? {
        var paragraph := all[i].para;
        var paragraphText := ParagraphText(paragraph);
        var matches := Scan(paragraphText, TableTag);
        if |matches| > 0 {
          ghost var before := placeholders;
          ghost var entries := FindsIn(paragraph, paragraphText, i);
          for m := 0 to |matches|
            invariant texts == Texts(all)
            invariant placeholders == before + entries[..m]
          {
            var placeholder := MatchText(paragraphText, matches[m]);
            var xpath := Trim(GroupText(paragraphText, matches[m]));
            xpath := CleanXPath(xpath);
            assert entries[m] == Found(paragraph, placeholder, xpath, i);
            PrefixStep(entries, m);
            placeholders := placeholders + [Found(paragraph, placeholder, xpath, i)];
          }
          PrefixWhole(entries);
        }
      }
    }
    PrefixWhole(all);
    PrefixWhole(texts);
  }

  // ----- the second loop -----

  /** The inner search of the second loop: the first table after the entry's position. */
  method FindNearestTable(all: seq<Elem>, index: nat) returns (nearestTable: Table?)
    ensures nearestTable == TableAfter(all, index)
  {
    nearestTable := null;
    var i := index + 1;
    while i < |all|
      invariant index + 1 <= i
      invariant forall j :: index < j < i && j < |all| ==> !all[j].ElemTable?
      decreases |all| - i
    {
      if all[i].ElemTable? {
        nearestTable := all[i].table;
        break;
      }
      i := i + 1;
    }
  }

  /** Replace(placeholder, ""), RemoveAllChildren<Run>() and the optional new run. */
  method StripPlaceholder(p: Paragraph, placeholder: string)
    requires placeholder != []
    modifies p
    ensures p.children == Strip(old(p.children), placeholder)
  {
    var paragraphText := ParagraphText(p);
    paragraphText := ReplaceAll(paragraphText, placeholder, "");
    p.children := RemoveRuns(p.children);
    if !IsBlank(paragraphText) {
      p.children := p.children + [RunChild(TextRun(paragraphText))];
    }
  }

  // ----- what the second loop does, entry by entry -----

  /** The placeholders cut out of paragraph p by the entries fs: those of its entries for
      which a table was found, in list order. */
  function Stripped(fs: seq<Found>, all: seq<Elem>, p: Paragraph): (r: seq<string>)
    ensures (forall k :: 0 <= k < |fs| ==> fs[k].placeholder != []) ==> forall j :: 0 <= j < |r| ==> r[j] != []
    decreases |fs|
  {
    if fs == [] then []
    else
      var n := |fs| - 1;
      Stripped(fs[..n], all, p) + (if fs[n].para == p && TableAfter(all, fs[n].index) != null then [fs[n].placeholder] else [])
  }

  /** Some entry is routed to table t. */
  predicate Targeted(fs: seq<Found>, all: seq<Elem>, t: Table) {
    exists k :: 0 <= k < |fs| && TableAfter(all, fs[k].index) == t
  }

  /** Entry k is routed to a table that no other entry is routed to. */
  predicate Sole(fs: seq<Found>, all: seq<Elem>, k: nat)
    requires k < |fs|
  {
    && TableAfter(all, fs[k].index) != null
    && forall j :: 0 <= j < |fs| && j != k ==> TableAfter(all, fs[j].index) != TableAfter(all, fs[k].index)
  }

  /** No entry's paragraph lies in the given rows. */
  predicate Untouched(fs: seq<Found>, rows: seq<Row>) {
    forall k :: 0 <= k < |fs| ==> fs[k].para !in RowsParagraphs(rows)
  }

  /** The template row's paragraphs are among the paragraphs of the rows. */
  lemma TemplateInRows(rows: seq<Row>)
    requires |rows| >= 2
    ensures forall q :: q in RowParagraphs(rows[1].cells) ==> q in RowsParagraphs(rows)
  {
    assert rows[1..][0] == rows[1];
  }

  lemma StrippedStep(fs: seq<Found>, all: seq<Elem>, p: Paragraph, k: nat)
    requires k < |fs|
    ensures Stripped(fs[..k + 1], all, p) == Stripped(fs[..k], all, p)
      + (if fs[k].para == p && TableAfter(all, fs[k].index) != null then [fs[k].placeholder] else [])
  {
    assert fs[..k + 1][..k] == fs[..k];
  }

  lemma StrippedOther(fs: seq<Found>, all: seq<Elem>, p: Paragraph, k: nat)
    requires k < |fs| && fs[k].para != p
    ensures Stripped(fs[..k + 1], all, p) == Stripped(fs[..k], all, p)
  {
    StrippedStep(fs, all, p, k);
    assert Stripped(fs[..k], all, p) + [] == Stripped(fs[..k], all, p);
  }

  /** A paragraph that no entry names keeps its children. */
  lemma {:induction false} StrippedAbsent(fs: seq<Found>, all: seq<Elem>, p: Paragraph)
    requires forall k :: 0 <= k < |fs| ==> fs[k].para != p
    ensures Stripped(fs, all, p) == []
    decreases |fs|
  {
    if fs != [] {
      StrippedAbsent(fs[..|fs| - 1], all, p);
    }
  }

  lemma StripAllNone(cs: seq<Inline>)
    ensures StripAll(cs, []) == cs
  {
  }

  /** Every paragraph of the rows, those of the template row included, is allocated. */
  lemma RowsAllocated(rows: seq<Row>)
    requires allocated(rows)
    ensures allocated(RowsParagraphs(rows))
    ensures |rows| >= 2 ==> forall q :: q in RowParagraphs(rows[1].cells) ==> allocated(q)
  {
    RowsParagraphsAllocated(rows);
    if |rows| >= 2 {
      TemplateInRows(rows);
    }
  }

  lemma ElemsAllocated(all: seq<Elem>)
    requires allocated(all)
    ensures forall p :: p in ElemParagraphs(all) ==> allocated(p)
  {
  }

  lemma NotTargetedBefore(fs: seq<Found>, all: seq<Elem>, t: Table, k: nat)
    requires k <= |fs|
    requires forall j :: 0 <= j < k ==> TableAfter(all, fs[j].index) != t
    ensures !Targeted(fs[..k], all, t)
  {
    forall j | 0 <= j < k ensures TableAfter(all, fs[..k][j].index) != t {
      assert fs[..k][j] == fs[j];
    }
  }

  lemma StripAllSnoc(cs: seq<Inline>, placeholders: seq<string>, placeholder: string)
    requires forall k :: 0 <= k < |placeholders| ==> placeholders[k] != []
    requires placeholder != []
    ensures StripAll(cs, placeholders + [placeholder]) == Strip(StripAll(cs, placeholders), placeholder)
  {
    assert (placeholders + [placeholder])[..|placeholders|] == placeholders;
  }

  lemma TargetedStep(fs: seq<Found>, all: seq<Elem>, t: Table, k: nat)
    requires k < |fs|
    ensures Targeted(fs[..k + 1], all, t) <==> Targeted(fs[..k], all, t) || TableAfter(all, fs[k].index) == t
  {
    if Targeted(fs[..k + 1], all, t) {
      var j :| 0 <= j < k + 1 && TableAfter(all, fs[..k + 1][j].index) == t;
      if j < k {
        assert fs[..k][j] == fs[..k + 1][j];
      }
    }
    if Targeted(fs[..k], all, t) {
      var j :| 0 <= j < k && TableAfter(all, fs[..k][j].index) == t;
      assert fs[..k + 1][j] == fs[..k][j];
    }
    if TableAfter(all, fs[k].index) == t {
      assert fs[..k + 1][k] == fs[k];
    }
  }

  /** The second loop: each entry, in list order, populates the nearest table after its
      paragraph and has its placeholder cut out; an entry without such a table does nothing. */
  method ApplyFinds(all: seq<Elem>, fs: seq<Found>, root: Element)
    requires Located(fs, all)
    modifies ElemParagraphs(all), ElemTables(all)
    ensures forall p :: p in ElemParagraphs(all) ==> p.children == StripAll(old(p.children), Stripped(fs, all, p))
    ensures forall t :: t in ElemTables(all) && !Targeted(fs, all, t) ==> t.rows == old(t.rows)
    ensures forall k :: 0 <= k < |fs| && Sole(fs, all, k) && Untouched(fs, old(TableAfter(all, fs[k].index).rows)) ==>
      Updated(old(TableAfter(all, fs[k].index).rows), old(TemplateTexts(TableAfter(all, fs[k].index).rows)),
        TableAfter(all, fs[k].index).rows, root, fs[k].xpath)
    ensures forall t :: t in ElemTables(all) ==> forall q :: q in RowsParagraphs(t.rows) ==> q in old(RowsParagraphs(t.rows)) || fresh(q)
  {
    hide Progress, Updated, Populated, Plan, TemplateTexts, StripAll, Strip, Stripped, Targeted, Untouched, RowsParagraphs;
    ghost var c0 := map p | p in ElemParagraphs(all) :: p.children;
    ghost var r0 := map t | t in ElemTables(all) :: t.rows;
    ghost var tt0 := map t | t in ElemTables(all) :: TemplateTexts(t.rows);
    ProgressStart(all, fs, c0, r0, tt0, root);
    for k := 0 to |fs|
      invariant Progress(all, fs, k, c0, r0, tt0, root)
      invariant forall t :: t in ElemTables(all) ==> forall q :: q in RowsParagraphs(t.rows) ==> q in RowsParagraphs(r0[t]) || fresh(q)
    {
      label start:
      forall t | t in ElemTables(all) {
        RowsAllocated(t.rows);
      }
      var placeholderInfo := fs[k];
      var nearestTable := FindNearestTable(all, placeholderInfo.index);
      if nearestTable != null {
        assert all[placeholderInfo.index] in all;
        ApplyEntry(all, fs, k, c0, r0, tt0, root);
        forall t | t in ElemTables(all) ensures forall q :: q in RowsParagraphs(t.rows) ==> q in RowsParagraphs(r0[t]) || fresh(q) {
          assert forall q :: q in RowsParagraphs(t.rows) ==> q in old@start(RowsParagraphs(t.rows)) || !old@start(allocated(q));
        }
      } else {
        SkipEntry(all, fs, k, c0, r0, tt0, root);
      }
    }
    ProgressDone(all, fs, c0, r0, tt0, root);
  }

  /** What the second loop has done after its first k entries, against the paragraphs'
      children c0, the tables' rows r0 and their template texts tt0 before it. */
  ghost predicate Progress(all: seq<Elem>, fs: seq<Found>, k: nat, c0: map<Paragraph, seq<Inline>>, r0: map<Table, seq<Row>>,
                           tt0: map<Table, seq<string>>, root: Element)
    requires Located(fs, all) && k <= |fs|
    reads ElemParagraphs(all), ElemTables(all)
    reads set t, q | t in ElemTables(all) && q in RowsParagraphs(t.rows) :: q
    reads set t, q | t in ElemTables(all) && |t.rows| >= 2 && q in RowParagraphs(t.rows[1].cells) :: q
  {
    && (forall p :: p in ElemParagraphs(all) ==> p in c0)
    && (forall t :: t in ElemTables(all) ==> t in r0 && t in tt0)
    && StrippedSoFar(all, fs, k, c0)
    && KeptSoFar(all, fs, k, r0)
    && RowsOrigin(all, r0)
    && TemplatesSoFar(all, fs, k, r0, tt0)
    && UpdatedSoFar(all, fs, k, r0, tt0, root)
  }

  /** Each paragraph has had the placeholders of its first k entries cut out. */
  ghost predicate StrippedSoFar(all: seq<Elem>, fs: seq<Found>, k: nat, c0: map<Paragraph, seq<Inline>>)
    requires Located(fs, all) && k <= |fs|
    requires forall p :: p in ElemParagraphs(all) ==> p in c0
    reads ElemParagraphs(all)
  {
    forall p :: p in ElemParagraphs(all) ==> p.children == StripAll(c0[p], Stripped(fs[..k], all, p))
  }

  /** A table none of the first k entries was routed to keeps its rows. */
  ghost predicate KeptSoFar(all: seq<Elem>, fs: seq<Found>, k: nat, r0: map<Table, seq<Row>>)
    requires k <= |fs|
    requires forall t :: t in ElemTables(all) ==> t in r0
    reads ElemTables(all)
  {
    forall t :: t in ElemTables(all) && !Targeted(fs[..k], all, t) ==> t.rows == r0[t]
  }

  /** The paragraphs now in a table's rows were there before, or are not the document's. */
  ghost predicate RowsOrigin(all: seq<Elem>, r0: map<Table, seq<Row>>)
    requires forall t :: t in ElemTables(all) ==> t in r0
    reads ElemTables(all)
  {
    forall t :: t in ElemTables(all) ==> forall q :: q in RowsParagraphs(t.rows) ==> q in RowsParagraphs(r0[t]) || q !in ElemParagraphs(all)
  }

  /** A table not yet routed to, whose rows hold no entry's paragraph, keeps its template texts. */
  ghost predicate TemplatesSoFar(all: seq<Elem>, fs: seq<Found>, k: nat, r0: map<Table, seq<Row>>, tt0: map<Table, seq<string>>)
    requires k <= |fs|
    requires forall t :: t in ElemTables(all) ==> t in r0 && t in tt0
    reads ElemTables(all)
    reads set t, q | t in ElemTables(all) && |t.rows| >= 2 && q in RowParagraphs(t.rows[1].cells) :: q
  {
    forall t :: t in ElemTables(all) && !Targeted(fs[..k], all, t) && Untouched(fs, r0[t]) ==> TemplateTexts(t.rows) == tt0[t]
  }

  /** Each of the first k entries that alone was routed to its table has populated it. */
  ghost predicate UpdatedSoFar(all: seq<Elem>, fs: seq<Found>, k: nat, r0: map<Table, seq<Row>>, tt0: map<Table, seq<string>>, root: Element)
    requires k <= |fs|
    requires forall t :: t in ElemTables(all) ==> t in r0 && t in tt0
    reads ElemTables(all)
    reads set t, q | t in ElemTables(all) && q in RowsParagraphs(t.rows) :: q
  {
    forall i :: 0 <= i < k && Sole(fs, all, i) && Untouched(fs, r0[TableAfter(all, fs[i].index)]) ==>
      Updated(r0[TableAfter(all, fs[i].index)], tt0[TableAfter(all, fs[i].index)], TableAfter(all, fs[i].index).rows, root, fs[i].xpath)
  }

  lemma ProgressStart(all: seq<Elem>, fs: seq<Found>, c0: map<Paragraph, seq<Inline>>, r0: map<Table, seq<Row>>,
                      tt0: map<Table, seq<string>>, root: Element)
    requires Located(fs, all)
    requires forall p :: p in ElemParagraphs(all) ==> p in c0 && c0[p] == p.children
    requires forall t :: t in ElemTables(all) ==> t in r0 && r0[t] == t.rows && t in tt0 && tt0[t] == TemplateTexts(t.rows)
    ensures Progress(all, fs, 0, c0, r0, tt0, root)
  {
    hide Updated, Populated, Plan, TemplateTexts, StripAll, Strip, Stripped, Targeted, Untouched, RowsParagraphs;
    forall p | p in ElemParagraphs(all) ensures p.children == StripAll(c0[p], Stripped(fs[..0], all, p)) {
      StrippedAbsent(fs[..0], all, p);
      StripAllNone(c0[p]);
    }
    forall t | t in ElemTables(all) ensures !Targeted(fs[..0], all, t) {
      NotTargetedBefore(fs, all, t, 0);
    }
  }

  lemma ProgressDone(all: seq<Elem>, fs: seq<Found>, c0: map<Paragraph, seq<Inline>>, r0: map<Table, seq<Row>>,
                     tt0: map<Table, seq<string>>, root: Element)
    requires Located(fs, all)
    requires Progress(all, fs, |fs|, c0, r0, tt0, root)
    ensures forall p :: p in ElemParagraphs(all) ==> p in c0 && p.children == StripAll(c0[p], Stripped(fs, all, p))
    ensures forall t :: t in ElemTables(all) ==> t in r0 && t in tt0
    ensures forall t :: t in ElemTables(all) && !Targeted(fs, all, t) ==> t.rows == r0[t]
    ensures forall t :: t in ElemTables(all) ==> forall q :: q in RowsParagraphs(t.rows) ==> q in RowsParagraphs(r0[t]) || q !in ElemParagraphs(all)
    ensures forall i :: 0 <= i < |fs| && Sole(fs, all, i) && Untouched(fs, r0[TableAfter(all, fs[i].index)]) ==>
      Updated(r0[TableAfter(all, fs[i].index)], tt0[TableAfter(all, fs[i].index)], TableAfter(all, fs[i].index).rows, root, fs[i].xpath)
  {
    PrefixWhole(fs);
  }

  /** One entry for which a table was found: the table is populated, then the placeholder
      is cut out of the entry's paragraph. */
  method ApplyEntry(all: seq<Elem>, fs: seq<Found>, k: nat, ghost c0: map<Paragraph, seq<Inline>>, ghost r0: map<Table, seq<Row>>,
                    ghost tt0: map<Table, seq<string>>, root: Element)
    requires Located(fs, all) && k < |fs| && TableAfter(all, fs[k].index) != null
    requires Progress(all, fs, k, c0, r0, tt0, root)
    modifies TableAfter(all, fs[k].index), fs[k].para
    ensures Progress(all, fs, k + 1, c0, r0, tt0, root)
    ensures forall t :: t in ElemTables(all) ==> forall q :: q in RowsParagraphs(t.rows) ==> q in old(RowsParagraphs(t.rows)) || fresh(q)
  {
    hide StrippedSoFar, KeptSoFar, RowsOrigin, TemplatesSoFar, UpdatedSoFar;
    hide Updated, Populated, Plan, TemplateTexts, StripAll, Strip, Stripped, Targeted, Untouched, RowsParagraphs;
    ElemsAllocated(all);
    forall t | t in ElemTables(all) {
      RowsAllocated(t.rows);
    }
    RouteEntry(all, fs, k, root, r0, tt0);
    label routed:
    CutEntry(all, fs, k, c0, r0, tt0, root);
    forall t | t in ElemTables(all) ensures t.rows == old@routed(t.rows) {
    }
  }

  /** An entry for which no table was found changes nothing, and the loop's bookkeeping
      moves past it. */
  lemma SkipEntry(all: seq<Elem>, fs: seq<Found>, k: nat, c0: map<Paragraph, seq<Inline>>, r0: map<Table, seq<Row>>,
                  tt0: map<Table, seq<string>>, root: Element)
    requires Located(fs, all) && k < |fs| && TableAfter(all, fs[k].index) == null
    requires Progress(all, fs, k, c0, r0, tt0, root)
    ensures Progress(all, fs, k + 1, c0, r0, tt0, root)
  {
    hide Updated, Populated, Plan, TemplateTexts, StripAll, Strip, Stripped, Targeted, Untouched, RowsParagraphs;
    assert !Sole(fs, all, k);
    forall p | p in ElemParagraphs(all) ensures Stripped(fs[..k + 1], all, p) == Stripped(fs[..k], all, p) {
      StrippedStep(fs, all, p, k);
    }
    forall t | t in ElemTables(all) ensures Targeted(fs[..k + 1], all, t) == Targeted(fs[..k], all, t) {
      TargetedStep(fs, all, t, k);
    }
  }

  /** The table side of one entry whose table was found: UpdateExistingTableWithXmlData
      on that table, and what the loop's bookkeeping keeps through it. */
  method RouteEntry(all: seq<Elem>, fs: seq<Found>, k: nat, root: Element, ghost r0: map<Table, seq<Row>>, ghost tt0: map<Table, seq<string>>)
    requires Located(fs, all) && k < |fs| && TableAfter(all, fs[k].index) != null
    requires forall t :: t in ElemTables(all) ==> t in r0 && t in tt0
    requires KeptSoFar(all, fs, k, r0) && RowsOrigin(all, r0)
    requires TemplatesSoFar(all, fs, k, r0, tt0) && UpdatedSoFar(all, fs, k, r0, tt0, root)
    modifies TableAfter(all, fs[k].index)
    ensures KeptSoFar(all, fs, k + 1, r0) && RowsOrigin(all, r0)
    ensures TemplatesSoFar(all, fs, k + 1, r0, tt0) && UpdatedSoFar(all, fs, k + 1, r0, tt0, root)
    ensures forall t :: t in ElemTables(all) ==> forall q :: q in RowsParagraphs(t.rows) ==> q in old(RowsParagraphs(t.rows)) || fresh(q)
  {
    hide Updated, Populated, Plan, TemplateTexts, Targeted, Untouched, RowsParagraphs;
    var t := TableAfter(all, fs[k].index);
    assert all[fs[k].index] in all;
    ElemsAllocated(all);
    forall u | u in ElemTables(all) {
      RowsAllocated(u.rows);
    }
    if Sole(fs, all, k) && Untouched(fs, r0[t]) {
      NotTargetedBefore(fs, all, t, k);
    }
    forall u | u in ElemTables(all) ensures Targeted(fs[..k + 1], all, u) == (Targeted(fs[..k], all, u) || u == t) {
      TargetedStep(fs, all, u, k);
    }
    UpdateExistingTable(t, root, fs[k].xpath);
    forall u | u in ElemTables(all) && u != t
      ensures u.rows == old(u.rows)
      ensures TemplateTexts(u.rows) == old(TemplateTexts(u.rows))
      ensures forall q :: q in RowsParagraphs(u.rows) ==> q.children == old(q.children)
    {
    }
    forall i | 0 <= i < k && Sole(fs, all, i) && Untouched(fs, r0[TableAfter(all, fs[i].index)])
      ensures TableAfter(all, fs[i].index) != t
    {
    }
  }

  /** The paragraph side of one entry whose table was found: the placeholder is cut out of
      its paragraph, and nothing the loop has established about the tables is disturbed. */
  method CutEntry(all: seq<Elem>, fs: seq<Found>, k: nat, ghost c0: map<Paragraph, seq<Inline>>, ghost r0: map<Table, seq<Row>>,
                  ghost tt0: map<Table, seq<string>>, root: Element)
    requires Located(fs, all) && k < |fs| && TableAfter(all, fs[k].index) != null
    requires forall p :: p in ElemParagraphs(all) ==> p in c0
    requires forall t :: t in ElemTables(all) ==> t in r0 && t in tt0
    requires StrippedSoFar(all, fs, k, c0)
    requires KeptSoFar(all, fs, k + 1, r0) && RowsOrigin(all, r0)
    requires TemplatesSoFar(all, fs, k + 1, r0, tt0) && UpdatedSoFar(all, fs, k + 1, r0, tt0, root)
    modifies fs[k].para
    ensures StrippedSoFar(all, fs, k + 1, c0)
    ensures TemplatesSoFar(all, fs, k + 1, r0, tt0) && UpdatedSoFar(all, fs, k + 1, r0, tt0, root)
  {
    hide Updated, Populated, Plan, TemplateTexts, StripAll, Strip, Stripped, Targeted, RowsParagraphs;
    var p0 := fs[k].para;
    assert all[fs[k].index] in all;
    ElemsAllocated(all);
    forall u | u in ElemTables(all) {
      RowsAllocated(u.rows);
    }
    forall u | u in ElemTables(all) && !Targeted(fs[..k + 1], all, u) && Untouched(fs, r0[u]) && |u.rows| >= 2
      ensures p0 !in RowParagraphs(u.rows[1].cells)
    {
      TemplateInRows(u.rows);
    }
    forall i | 0 <= i < k + 1 && Sole(fs, all, i) && Untouched(fs, r0[TableAfter(all, fs[i].index)])
      ensures p0 !in RowsParagraphs(TableAfter(all, fs[i].index).rows)
    {
    }
    StripPlaceholder(p0, fs[k].placeholder);
    forall p | p in ElemParagraphs(all) && p != p0 ensures p.children == old(p.children) {
    }
    forall p | p in ElemParagraphs(all) && p != p0 ensures Stripped(fs[..k + 1], all, p) == Stripped(fs[..k], all, p) {
      StrippedOther(fs, all, p, k);
    }
    StrippedStep(fs, all, p0, k);
    StripAllSnoc(c0[p0], Stripped(fs[..k], all, p0), fs[k].placeholder);
  }

  // ----- the pass -----

  /** The body's paragraphs and tables, and the paragraphs of the tables' rows, are in the
      descendant list. */
  lemma BodyInDescendants(blocks: seq<Block>)
    ensures forall q :: q in BodyParagraphs(blocks) ==> q in ElemParagraphs(Descendants(blocks))
    ensures forall t :: t in BodyTables(blocks) ==> t in ElemTables(Descendants(blocks))
    ensures forall t, q :: t in BodyTables(blocks) && q in RowsParagraphs(t.rows) ==> q in ElemParagraphs(Descendants(blocks))
  {
    forall q | q in BodyParagraphs(blocks) ensures q in ElemParagraphs(Descendants(blocks)) {
      BodyParagraphInDescendants(blocks, q);
    }
    forall t | t in BodyTables(blocks) ensures t in ElemTables(Descendants(blocks)) {
      BodyTableInDescendants(blocks, t);
    }
    forall t, q | t in BodyTables(blocks) && q in RowsParagraphs(t.rows) ensures q in ElemParagraphs(Descendants(blocks)) {
      TableRowsInDescendants(blocks, t, q);
    }
  }

  /** A paragraph the content pass visits is one of the body's own or lies in the rows of
      one of the body's tables. */
  lemma ContentOrderOrigin(blocks: seq<Block>)
    ensures forall q :: q in ContentOrder(blocks) ==>
      q in BodyParagraphs(blocks) || exists t :: t in BodyTables(blocks) && q in RowsParagraphs(t.rows)
  {
    forall q | q in ContentOrder(blocks) && q !in BodyParagraphs(blocks)
      ensures exists t :: t in BodyTables(blocks) && q in RowsParagraphs(t.rows)
    {
      TablesParagraphsOrigin(BodyTables(blocks), q);
    }
  }

  /** FindAndProcessTablePlaceholders: the entries are those of the descendant list as it
      was before the pass; each paragraph loses the placeholders routed to a table, a
      table no entry reaches keeps its rows, and a table reached by one entry only, whose
      rows hold no entry's paragraph, is populated from the data. */
  method FindAndProcessTablePlaceholders(body: Body, root: Element)
    modifies ElemParagraphs(Descendants(body.blocks)), ElemTables(Descendants(body.blocks))
    ensures var all := old(Descendants(body.blocks)); var fs := old(PassFinds(all));
      forall p :: p in ElemParagraphs(all) ==> p.children == StripAll(old(p.children), Stripped(fs, all, p))
    ensures var all := old(Descendants(body.blocks)); var fs := old(PassFinds(all));
      forall t :: t in ElemTables(all) && !Targeted(fs, all, t) ==> t.rows == old(t.rows)
    ensures var all := old(Descendants(body.blocks)); var fs := old(PassFinds(all));
      forall k :: 0 <= k < |fs| && Sole(fs, all, k) && Untouched(fs, old(TableAfter(all, fs[k].index).rows)) ==>
        Updated(old(TableAfter(all, fs[k].index).rows), old(TemplateTexts(TableAfter(all, fs[k].index).rows)),
          TableAfter(all, fs[k].index).rows, root, fs[k].xpath)
    ensures forall t :: t in old(ElemTables(Descendants(body.blocks))) ==>
      forall q :: q in RowsParagraphs(t.rows) ==> q in old(RowsParagraphs(t.rows)) || fresh(q)
    ensures forall q :: q in ContentOrder(body.blocks) ==> q in old(ElemParagraphs(Descendants(body.blocks))) || fresh(q)
  {
    hide Updated, Populated, Plan, TemplateTexts, StripAll, Strip, Stripped, Targeted, Finds, Texts;
    var allElements := Descendants(body.blocks);
    forall t | t in ElemTables(allElements) {
      RowsAllocated(t.rows);
    }
    var placeholders := CollectFinds(allElements);
    assert allElements == old(Descendants(body.blocks));
    assert placeholders == old(PassFinds(allElements));
    ghost var blocks := body.blocks;
    BodyInDescendants(blocks);
    ElemsAllocated(allElements);
    ApplyFinds(allElements, placeholders, root);
    ContentOrderOrigin(blocks);
  }
}
