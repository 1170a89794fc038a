/**
 * The word-processing document tree the engine edits, reduced to what it reads and
 * writes. Paragraphs and tables are objects: the engine keeps references to them across
 * edits (the table pass collects paragraphs first and rewrites them later, and a
 * populated table loses its template row while its paragraphs live on). Rows and cells
 * are values that refer to paragraph objects. Formatting payloads (run, cell, row and
 * table properties, borders, shading) are opaque tags.
 */
module Document {
  import opened Strings
  import opened Sequences

  datatype Format = Plain | Opaque(tag: string) | SingleBorders | HeaderShading

  /** A direct child of a run: a Text element, or anything else (a break, a tab, properties). */
  datatype RunItem = TextItem(text: string) | OtherItem(tag: string)

  datatype Run = Run(props: Format, items: seq<RunItem>)

  /** A direct child of a paragraph: a run, or anything else (properties, a hyperlink, a bookmark). */
  datatype Inline = RunChild(run: Run) | OtherChild(tag: string)

  class Paragraph {
    var children: seq<Inline>

    constructor (children: seq<Inline>)
      ensures this.children == children
    {
      this.children := children;
    }
  }

  /** A direct child of a table cell: a paragraph, or anything else. */
  datatype CellItem = CellPara(para: Paragraph) | CellOther(tag: string)

  datatype Cell = Cell(props: Format, items: seq<CellItem>)

  datatype Row = Row(props: Format, cells: seq<Cell>)

  class Table {
    const props: Format
    var rows: seq<Row>

    constructor (props: Format, rows: seq<Row>)
      ensures this.props == props && this.rows == rows
    {
      this.props := props;
      this.rows := rows;
    }
  }

  /** A direct child of the document body. */
  datatype Block = BlockPara(para: Paragraph) | BlockTable(table: Table) | BlockOther(tag: string)

  class Body {
    var blocks: seq<Block>
  }

  // ----- text -----

  /** The concatenated Text children of a run. */
  function RunText(items: seq<RunItem>): string {
    if items == [] then ""
    else (match items[0] case TextItem(s) => s case OtherItem(_) => "") + RunText(items[1..])
  }

  /** GetTextFromParagraph over a list of paragraph children: the text of the direct runs. */
  function InlineText(cs: seq<Inline>): string {
    if cs == [] then ""
    else (match cs[0] case RunChild(r) => RunText(r.items) case OtherChild(_) => "") + InlineText(cs[1..])
  }

  function ParagraphText(p: Paragraph): string
    reads p
  {
    InlineText(p.children)
  }

  /** `new Run(new Text(s))`. */
  function TextRun(s: string): Run {
    Run(Plain, [TextItem(s)])
  }

  /** RemoveAllChildren<Run>(): the children that are not runs, in their order. */
  function RemoveRuns(cs: seq<Inline>): (r: seq<Inline>)
    ensures forall i :: 0 <= i < |r| ==> r[i].OtherChild?
    ensures forall x :: x in r <==> x in cs && x.OtherChild?
    ensures |r| <= |cs|
  {
    if cs == [] then []
    else (if cs[0].OtherChild? then [cs[0]] else []) + RemoveRuns(cs[1..])
  }

  lemma {:induction false} InlineTextAppend(a: seq<Inline>, b: seq<Inline>)
    ensures InlineText(a + b) == InlineText(a) + InlineText(b)
    decreases |a|
  {
    if a != [] {
      assert (a + b)[0] == a[0];
      assert (a + b)[1..] == a[1..] + b;
      InlineTextAppend(a[1..], b);
    } else {
      assert a + b == b;
    }
  }

  /** Without runs a paragraph has no text. */
  lemma {:induction false} RemoveRunsNoText(cs: seq<Inline>)
    ensures InlineText(RemoveRuns(cs)) == ""
    decreases |cs|
  {
    if cs != [] {
      RemoveRunsNoText(cs[1..]);
      InlineTextAppend(if cs[0].OtherChild? then [cs[0]] else [], RemoveRuns(cs[1..]));
    }
  }

  /** Removing the runs twice is removing them once. */
  lemma {:induction false} RemoveRunsIdempotent(cs: seq<Inline>)
    ensures RemoveRuns(RemoveRuns(cs)) == RemoveRuns(cs)
    decreases |cs|
  {
    if cs != [] {
      RemoveRunsIdempotent(cs[1..]);
      RemoveRunsAppend(if cs[0].OtherChild? then [cs[0]] else [], RemoveRuns(cs[1..]));
    }
  }

  lemma {:induction false} RemoveRunsAppend(a: seq<Inline>, b: seq<Inline>)
    ensures RemoveRuns(a + b) == RemoveRuns(a) + RemoveRuns(b)
    decreases |a|
  {
    if a != [] {
      var head := if a[0].OtherChild? then [a[0]] else [];
      assert (a + b)[0] == a[0];
      assert (a + b)[1..] == a[1..] + b;
      RemoveRunsAppend(a[1..], b);
      calc {
        RemoveRuns(a + b);
        head + RemoveRuns(a[1..] + b);
        head + (RemoveRuns(a[1..]) + RemoveRuns(b));
        { AppendAssoc(head, RemoveRuns(a[1..]), RemoveRuns(b)); }
        (head + RemoveRuns(a[1..])) + RemoveRuns(b);
        RemoveRuns(a) + RemoveRuns(b);
      }
    } else {
      assert a + b == b;
    }
  }

  /** Collapsing a paragraph to the non-run children plus one text run: its text is
      exactly that run's text, and the other children survive in order. */
  lemma CollapsedText(cs: seq<Inline>, s: string)
    ensures InlineText(RemoveRuns(cs) + [RunChild(TextRun(s))]) == s
    ensures RemoveRuns(RemoveRuns(cs) + [RunChild(TextRun(s))]) == RemoveRuns(cs)
  {
    var run := [RunChild(TextRun(s))];
    InlineTextAppend(RemoveRuns(cs), run);
    RemoveRunsNoText(cs);
    SingleRunText(s);
    RemoveRunsAppend(RemoveRuns(cs), run);
    RemoveRunsIdempotent(cs);
    assert RemoveRuns(run) == [] + RemoveRuns([]);
  }

  // ----- cells -----

  /** cell.Elements<Paragraph>(). */
  function CellParagraphs(items: seq<CellItem>): (r: seq<Paragraph>)
    ensures forall i :: 0 <= i < |r| ==> CellPara(r[i]) in items
    ensures forall i :: 0 <= i < |items| && items[i].CellPara? ==> items[i].para in r
  {
    if items == [] then []
    else (if items[0].CellPara? then [items[0].para] else []) + CellParagraphs(items[1..])
  }

  /** Consecutive cell items keep their paragraphs in order: together with
      CellParagraphsOne this fixes the order and multiplicity of Elements<Paragraph>(). */
  lemma {:induction false} CellParagraphsAppend(a: seq<CellItem>, b: seq<CellItem>)
    ensures CellParagraphs(a + b) == CellParagraphs(a) + CellParagraphs(b)
    decreases |a|
  {
    if a == [] {
      assert a + b == b;
    } else {
      assert (a + b)[0] == a[0] && (a + b)[1..] == a[1..] + b;
      CellParagraphsAppend(a[1..], b);
    }
  }

  lemma CellParagraphsOne(item: CellItem)
    ensures CellParagraphs([item]) == if item.CellPara? then [item.para] else []
  {
    assert [item][1..] == [];
  }

  /** The concatenated text of a list of paragraphs. */
  function ParagraphsText(ps: seq<Paragraph>): string
    reads set p | p in ps
  {
    if ps == [] then "" else ParagraphText(ps[0]) + ParagraphsText(ps[1..])
  }

  /** GetTextFromCell: the cell's paragraph texts run together, then trimmed. */
  function CellText(c: Cell): (r: string)
    reads set p | p in CellParagraphs(c.items)
    ensures r == [] || (!IsSpace(r[0]) && !IsSpace(r[|r| - 1]))
    ensures
      exists a ::
        && 0 <= a && a + |r| <= |ParagraphsText(CellParagraphs(c.items))|
        && r == ParagraphsText(CellParagraphs(c.items))[a..a + |r|]
        && IsBlank(ParagraphsText(CellParagraphs(c.items))[..a])
        && IsBlank(ParagraphsText(CellParagraphs(c.items))[a + |r|..])
    ensures r == [] <==> IsBlank(ParagraphsText(CellParagraphs(c.items)))
  {
    Trim(ParagraphsText(CellParagraphs(c.items)))
  }

  /** A cell holding one fresh paragraph with one text run, as the engine builds them. */
  predicate IsTextCell(c: Cell, props: Format, s: string)
    reads if |c.items| == 1 && c.items[0].CellPara? then {c.items[0].para} else {}
  {
    c.props == props && |c.items| == 1 && c.items[0].CellPara? && c.items[0].para.children == [RunChild(TextRun(s))]
  }

  /** GetTextFromCell on such a cell is the trimmed value. */
  lemma TextCellText(c: Cell, props: Format, s: string)
    requires IsTextCell(c, props, s)
    ensures CellText(c) == Trim(s)
  {
    var p := c.items[0].para;
    assert c.items == [CellPara(p)];
    assert CellParagraphs(c.items) == [p] by {
      assert c.items[1..] == [];
    }
    assert ParagraphsText([p]) == ParagraphText(p) by {
      assert [p][1..] == [];
    }
    SingleRunText(s);
  }

  lemma SingleRunText(s: string)
    ensures InlineText([RunChild(TextRun(s))]) == s
  {
    assert RunText([TextItem(s)]) == s + RunText([]);
    assert [RunChild(TextRun(s))][1..] == [];
  }

  /** A row whose cells are text cells showing `values`, one per column. */
  predicate ShowsValues(row: Row, cellProps: Format, values: seq<string>)
    reads set i | 0 <= i < |row.cells| && |row.cells[i].items| == 1 && row.cells[i].items[0].CellPara?
      :: row.cells[i].items[0].para
  {
    && row.props == Plain
    && |row.cells| == |values|
    && forall i :: 0 <= i < |values| ==> IsTextCell(row.cells[i], cellProps, values[i])
  }

  /** The cells the engine builds, `new TableCell(props, paragraph)`: one paragraph each. */
  function TextCells(props: Format, paras: seq<Paragraph>): (cs: seq<Cell>)
    ensures |cs| == |paras| && forall i :: 0 <= i < |paras| ==> cs[i] == Cell(props, [CellPara(paras[i])])
  {
    seq(|paras|, i requires 0 <= i < |paras| => Cell(props, [CellPara(paras[i])]))
  }

  /** Each paragraph is `new Paragraph(new Run(new Text(value)))` for its value. */
  predicate HasTexts(paras: seq<Paragraph>, values: seq<string>)
    reads set p | p in paras
  {
    |paras| == |values| && forall i :: 0 <= i < |paras| ==> paras[i].children == [RunChild(TextRun(values[i]))]
  }

  /** A row built from such cells shows the paragraphs' values. */
  lemma TextRowShows(props: Format, paras: seq<Paragraph>, values: seq<string>)
    requires HasTexts(paras, values)
    ensures ShowsValues(Row(Plain, TextCells(props, paras)), props, values)
  {
    var cs := TextCells(props, paras);
    forall i | 0 <= i < |values| ensures IsTextCell(cs[i], props, values[i]) {
      assert cs[i].items == [CellPara(paras[i])];
    }
  }

  /** The paragraphs of such a row are exactly the ones it was built from. */
  lemma {:induction false} TextCellsParagraphs(props: Format, paras: seq<Paragraph>)
    ensures RowParagraphs(TextCells(props, paras)) == paras
    decreases |paras|
  {
    if paras != [] {
      var cs := TextCells(props, paras);
      assert cs[1..] == TextCells(props, paras[1..]);
      TextCellsParagraphs(props, paras[1..]);
      assert cs[0].items[1..] == [];
      assert CellParagraphs(cs[0].items) == [paras[0]];
      assert paras == [paras[0]] + paras[1..];
    }
  }

  // ----- paragraph collections -----

  /** The paragraphs of a row's cells, cell by cell. */
  function RowParagraphs(cells: seq<Cell>): seq<Paragraph> {
    if cells == [] then [] else CellParagraphs(cells[0].items) + RowParagraphs(cells[1..])
  }

  /** The paragraphs of a list of rows, row by row. */
  function RowsParagraphs(rows: seq<Row>): seq<Paragraph> {
    if rows == [] then [] else RowParagraphs(rows[0].cells) + RowsParagraphs(rows[1..])
  }

  lemma {:induction false} RowsParagraphsAppend(a: seq<Row>, b: seq<Row>)
    ensures RowsParagraphs(a + b) == RowsParagraphs(a) + RowsParagraphs(b)
    decreases |a|
  {
    if a != [] {
      assert (a + b)[0] == a[0];
      assert (a + b)[1..] == a[1..] + b;
      RowsParagraphsAppend(a[1..], b);
    } else {
      assert a + b == b;
    }
  }

  // ----- allocation: the paragraphs reachable from allocated values are allocated -----

  lemma {:induction false} CellParagraphsAllocated(items: seq<CellItem>)
    requires allocated(items)
    ensures allocated(CellParagraphs(items))
    decreases |items|
  {
    if items != [] {
      CellParagraphsAllocated(items[1..]);
    }
  }

  lemma {:induction false} RowParagraphsAllocated(cells: seq<Cell>)
    requires allocated(cells)
    ensures allocated(RowParagraphs(cells))
    decreases |cells|
  {
    if cells != [] {
      CellParagraphsAllocated(cells[0].items);
      RowParagraphsAllocated(cells[1..]);
    }
  }

  lemma {:induction false} RowsParagraphsAllocated(rows: seq<Row>)
    requires allocated(rows)
    ensures allocated(RowsParagraphs(rows))
    decreases |rows|
  {
    if rows != [] {
      RowParagraphsAllocated(rows[0].cells);
      RowsParagraphsAllocated(rows[1..]);
    }
  }

  /** body.Elements<Paragraph>(). */
  function BodyParagraphs(blocks: seq<Block>): (r: seq<Paragraph>)
    ensures forall i :: 0 <= i < |r| ==> BlockPara(r[i]) in blocks
    ensures forall i :: 0 <= i < |blocks| && blocks[i].BlockPara? ==> blocks[i].para in r
  {
    if blocks == [] then []
    else (if blocks[0].BlockPara? then [blocks[0].para] else []) + BodyParagraphs(blocks[1..])
  }

  /** Consecutive blocks keep their paragraphs in order (with BodyParagraphsOne: document order). */
  lemma {:induction false} BodyParagraphsAppend(a: seq<Block>, b: seq<Block>)
    ensures BodyParagraphs(a + b) == BodyParagraphs(a) + BodyParagraphs(b)
    decreases |a|
  {
    if a == [] {
      assert a + b == b;
    } else {
      assert (a + b)[0] == a[0] && (a + b)[1..] == a[1..] + b;
      BodyParagraphsAppend(a[1..], b);
    }
  }

  lemma BodyParagraphsOne(b: Block)
    ensures BodyParagraphs([b]) == if b.BlockPara? then [b.para] else []
  {
    assert [b][1..] == [];
  }

  /** body.Elements<Table>(). */
  function BodyTables(blocks: seq<Block>): (r: seq<Table>)
    ensures forall i :: 0 <= i < |r| ==> BlockTable(r[i]) in blocks
    ensures forall i :: 0 <= i < |blocks| && blocks[i].BlockTable? ==> blocks[i].table in r
  {
    if blocks == [] then []
    else (if blocks[0].BlockTable? then [blocks[0].table] else []) + BodyTables(blocks[1..])
  }

  /** Consecutive blocks keep their tables in order (with BodyTablesOne: document order). */
  lemma {:induction false} BodyTablesAppend(a: seq<Block>, b: seq<Block>)
    ensures BodyTables(a + b) == BodyTables(a) + BodyTables(b)
    decreases |a|
  {
    if a == [] {
      assert a + b == b;
    } else {
      assert (a + b)[0] == a[0] && (a + b)[1..] == a[1..] + b;
      BodyTablesAppend(a[1..], b);
    }
  }

  lemma BodyTablesOne(b: Block)
    ensures BodyTables([b]) == if b.BlockTable? then [b.table] else []
  {
    assert [b][1..] == [];
  }

  /** The rows of each table of a list, read once. */
  function TablesRows(ts: seq<Table>): (r: seq<seq<Row>>)
    reads set t | t in ts
    ensures |r| == |ts| && forall j :: 0 <= j < |ts| ==> r[j] == ts[j].rows
  {
    if ts == [] then [] else [ts[0].rows] + TablesRows(ts[1..])
  }

  /** The paragraphs of several tables' rows, table by table. */
  function RowListsParagraphs(rs: seq<seq<Row>>): seq<Paragraph> {
    if rs == [] then [] else RowsParagraphs(rs[0]) + RowListsParagraphs(rs[1..])
  }

  /** The paragraphs of a list of tables, table by table, row by row, cell by cell. */
  function TablesParagraphs(ts: seq<Table>): seq<Paragraph>
    reads set t | t in ts
  {
    RowListsParagraphs(TablesRows(ts))
  }

  lemma {:induction false} RowListsParagraphsAppend(a: seq<seq<Row>>, b: seq<seq<Row>>)
    ensures RowListsParagraphs(a + b) == RowListsParagraphs(a) + RowListsParagraphs(b)
    decreases |a|
  {
    if a != [] {
      assert (a + b)[0] == a[0];
      assert (a + b)[1..] == a[1..] + b;
      RowListsParagraphsAppend(a[1..], b);
    } else {
      assert a + b == b;
    }
  }

  lemma RowListsParagraphsStep(rs: seq<seq<Row>>, i: nat)
    requires i < |rs|
    ensures RowListsParagraphs(rs[..i + 1]) == RowListsParagraphs(rs[..i]) + RowsParagraphs(rs[i])
  {
    assert rs[..i + 1] == rs[..i] + [rs[i]];
    RowListsParagraphsAppend(rs[..i], [rs[i]]);
    assert [rs[i]][1..] == [];
  }

  /** The paragraphs of the i-th table are among those of all the tables. */
  lemma RowsInRowLists(rs: seq<seq<Row>>, i: nat)
    requires i < |rs|
    ensures forall p :: p in RowsParagraphs(rs[i]) ==> p in RowListsParagraphs(rs)
  {
    assert rs == rs[..i] + [rs[i]] + rs[i + 1..];
    RowListsParagraphsAppend(rs[..i] + [rs[i]], rs[i + 1..]);
    RowListsParagraphsAppend(rs[..i], [rs[i]]);
    assert [rs[i]][1..] == [];
  }

  lemma {:induction false} BodyParagraphsAllocated(blocks: seq<Block>)
    requires allocated(blocks)
    ensures allocated(BodyParagraphs(blocks))
    decreases |blocks|
  {
    if blocks != [] {
      BodyParagraphsAllocated(blocks[1..]);
    }
  }

  lemma {:induction false} RowListsParagraphsAllocated(rs: seq<seq<Row>>)
    requires allocated(rs)
    ensures allocated(RowListsParagraphs(rs))
    decreases |rs|
  {
    if rs != [] {
      RowsParagraphsAllocated(rs[0]);
      RowListsParagraphsAllocated(rs[1..]);
    }
  }

  lemma ContentOrderAllocated(blocks: seq<Block>)
    requires allocated(blocks)
    ensures allocated(ContentOrder(blocks))
  {
    BodyParagraphsAllocated(blocks);
    RowListsParagraphsAllocated(TablesRows(BodyTables(blocks)));
  }

  /** The order in which the content pass visits paragraphs: the body's own paragraphs,
      then those in the cells of the body's own tables. */
  function ContentOrder(blocks: seq<Block>): seq<Paragraph>
    reads set t | t in BodyTables(blocks)
  {
    BodyParagraphs(blocks) + TablesParagraphs(BodyTables(blocks))
  }

  // ----- the pre-order descendant list -----

  /** The paragraphs and tables of body.Descendants() that the model can see: body
      paragraphs, body tables and the paragraphs of body-table cells. The other
      descendants (runs, texts, rows, cells, properties) never matter to the engine, and
      leaving them out keeps the relative order of the rest; what sits inside an opaque
      item (a content control, a nested table) is not represented. */
  datatype Elem = ElemPara(para: Paragraph) | ElemTable(table: Table)

  function ParagraphElems(ps: seq<Paragraph>): (r: seq<Elem>)
    ensures |r| == |ps| && forall i :: 0 <= i < |ps| ==> r[i] == ElemPara(ps[i])
  {
    seq(|ps|, i requires 0 <= i < |ps| => ElemPara(ps[i]))
  }

  /** Pre-order: a table comes before the paragraphs of its cells. */
  function Descendants(blocks: seq<Block>): seq<Elem>
    reads set t | t in BodyTables(blocks)
  {
    if blocks == [] then []
    else
      (match blocks[0]
       case BlockPara(p) => [ElemPara(p)]
       case BlockTable(t) => [ElemTable(t)] + ParagraphElems(RowsParagraphs(t.rows))
       case BlockOther(_) => []) + Descendants(blocks[1..])
  }

  /** The descendants of consecutive blocks follow one another. */
  lemma {:induction false} DescendantsAppend(a: seq<Block>, b: seq<Block>)
    ensures Descendants(a + b) == Descendants(a) + Descendants(b)
    decreases |a|
  {
    if a == [] {
      assert a + b == b;
    } else {
      assert (a + b)[0] == a[0] && (a + b)[1..] == a[1..] + b;
      DescendantsAppend(a[1..], b);
    }
  }

  /** One block's own part of the list: a paragraph, a table followed by the
      paragraphs of its cells, or nothing. */
  lemma BlockDescendants(b: Block)
    ensures b.BlockPara? ==> Descendants([b]) == [ElemPara(b.para)]
    ensures b.BlockTable? ==> Descendants([b]) == [ElemTable(b.table)] + ParagraphElems(RowsParagraphs(b.table.rows))
    ensures b.BlockOther? ==> Descendants([b]) == []
  {
    assert [b][1..] == [];
  }

  /** Blocks without a table contribute only paragraphs. */
  lemma {:induction false} DescendantsWithoutTables(blocks: seq<Block>)
    requires forall k :: 0 <= k < |blocks| ==> !blocks[k].BlockTable?
    ensures forall q :: 0 <= q < |Descendants(blocks)| ==> Descendants(blocks)[q].ElemPara?
    decreases |blocks|
  {
    if blocks != [] {
      DescendantsWithoutTables(blocks[1..]);
      assert blocks == [blocks[0]] + blocks[1..];
      DescendantsAppend([blocks[0]], blocks[1..]);
      BlockDescendants(blocks[0]);
    }
  }

  /** Every paragraph the content pass visits is in the descendant list. */
  lemma {:induction false} ContentOrderInDescendants(blocks: seq<Block>, p: Paragraph)
    requires p in ContentOrder(blocks)
    ensures ElemPara(p) in Descendants(blocks)
  {
    if p in BodyParagraphs(blocks) {
      BodyParagraphInDescendants(blocks, p);
    } else {
      TableParagraphInDescendants(blocks, BodyTables(blocks), p);
    }
  }

  lemma {:induction false} BodyParagraphInDescendants(blocks: seq<Block>, p: Paragraph)
    requires BlockPara(p) in blocks
    ensures ElemPara(p) in Descendants(blocks)
    decreases |blocks|
  {
    if blocks[0] != BlockPara(p) {
      assert BlockPara(p) in blocks[1..];
      BodyParagraphInDescendants(blocks[1..], p);
    }
  }

  lemma {:induction false} TableParagraphInDescendants(blocks: seq<Block>, ts: seq<Table>, p: Paragraph)
    requires forall t :: t in ts ==> BlockTable(t) in blocks
    requires p in TablesParagraphs(ts)
    ensures ElemPara(p) in Descendants(blocks)
    decreases |ts|
  {
    if p in RowsParagraphs(ts[0].rows) {
      TableRowsInDescendants(blocks, ts[0], p);
    } else {
      TableParagraphInDescendants(blocks, ts[1..], p);
    }
  }

  lemma {:induction false} TableRowsInDescendants(blocks: seq<Block>, t: Table, p: Paragraph)
    requires BlockTable(t) in blocks
    requires p in RowsParagraphs(t.rows)
    ensures ElemPara(p) in Descendants(blocks)
    decreases |blocks|
  {
    if blocks[0] == BlockTable(t) {
      var ps := RowsParagraphs(t.rows);
      var i :| 0 <= i < |ps| && ps[i] == p;
      var head := [ElemTable(t)] + ParagraphElems(ps);
      assert head[i + 1] == ElemPara(p);
      assert Descendants(blocks) == head + Descendants(blocks[1..]);
      assert (head + Descendants(blocks[1..]))[i + 1] == ElemPara(p);
    } else {
      assert BlockTable(t) in blocks[1..];
      TableRowsInDescendants(blocks[1..], t, p);
    }
  }

  /** A paragraph of the tables' cells lies in the rows of one of the tables. */
  lemma {:induction false} TablesParagraphsOrigin(ts: seq<Table>, p: Paragraph)
    requires p in TablesParagraphs(ts)
    ensures exists t :: t in ts && p in RowsParagraphs(t.rows)
    decreases |ts|
  {
    if p in RowsParagraphs(ts[0].rows) {
      assert ts[0] in ts;
    } else {
      TablesParagraphsOrigin(ts[1..], p);
      var t :| t in ts[1..] && p in RowsParagraphs(t.rows);
      assert t in ts;
    }
  }

  /** A table of the body is in the descendant list. */
  lemma {:induction false} BodyTableInDescendants(blocks: seq<Block>, t: Table)
    requires BlockTable(t) in blocks
    ensures ElemTable(t) in Descendants(blocks)
    decreases |blocks|
  {
    if blocks[0] != BlockTable(t) {
      assert BlockTable(t) in blocks[1..];
      BodyTableInDescendants(blocks[1..], t);
    }
  }

  // ----- membership in rows -----

  lemma {:induction false} CellParagraphInRows(rows: seq<Row>, i: nat, j: nat, p: Paragraph)
    requires i < |rows| && j < |rows[i].cells| && p in CellParagraphs(rows[i].cells[j].items)
    ensures p in RowsParagraphs(rows)
    decreases i
  {
    if i == 0 {
      CellParagraphInRow(rows[0].cells, j, p);
    } else {
      CellParagraphInRows(rows[1..], i - 1, j, p);
    }
  }

  /** The paragraphs of a cell are among the paragraphs of the table's rows. */
  lemma CellParagraphsInRows(rows: seq<Row>, i: nat, j: nat)
    requires i < |rows| && j < |rows[i].cells|
    ensures forall p :: p in CellParagraphs(rows[i].cells[j].items) ==> p in RowsParagraphs(rows)
  {
    forall p | p in CellParagraphs(rows[i].cells[j].items) ensures p in RowsParagraphs(rows) {
      CellParagraphInRows(rows, i, j, p);
    }
  }

  lemma {:induction false} CellParagraphInRow(cells: seq<Cell>, j: nat, p: Paragraph)
    requires j < |cells| && p in CellParagraphs(cells[j].items)
    ensures p in RowParagraphs(cells)
    decreases j
  {
    if j > 0 {
      CellParagraphInRow(cells[1..], j - 1, p);
    }
  }

  lemma {:induction false} RowParagraphsAppend(a: seq<Cell>, b: seq<Cell>)
    ensures RowParagraphs(a + b) == RowParagraphs(a) + RowParagraphs(b)
    decreases |a|
  {
    if a != [] {
      assert (a + b)[0] == a[0];
      assert (a + b)[1..] == a[1..] + b;
      RowParagraphsAppend(a[1..], b);
    } else {
      assert a + b == b;
    }
  }

  lemma RowParagraphsStep(cells: seq<Cell>, j: nat)
    requires j < |cells|
    ensures RowParagraphs(cells[..j + 1]) == RowParagraphs(cells[..j]) + CellParagraphs(cells[j].items)
  {
    assert cells[..j + 1] == cells[..j] + [cells[j]];
    RowParagraphsAppend(cells[..j], [cells[j]]);
    assert [cells[j]][1..] == [];
  }

  lemma RowsParagraphsStep(rows: seq<Row>, i: nat)
    requires i < |rows|
    ensures RowsParagraphs(rows[..i + 1]) == RowsParagraphs(rows[..i]) + RowParagraphs(rows[i].cells)
  {
    assert rows[..i + 1] == rows[..i] + [rows[i]];
    RowsParagraphsAppend(rows[..i], [rows[i]]);
    assert [rows[i]][1..] == [];
  }
}
