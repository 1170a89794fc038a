/**
 * The table-synthesis strategy: a table built from scratch from the children of the
 * element a path leads to (GenerateTableFromXmlData), and the paragraph-level pass that
 * would splice such tables into the paragraph's parent in place of the placeholders
 * (ProcessTablePlaceholders). The orchestrator never calls either: ProcessParagraph has
 * its call to ProcessTablePlaceholders commented out.
 */
module TableSynthesize {
  import opened Wrappers
  import opened Strings
  import opened DataTree
  import opened XPath
  import opened Placeholders
  import opened Document
  import opened Dictionaries
  import opened Sequences
  import opened TablePopulate

  // ----- GenerateTableFromXmlData -----

  /** The values of the generated row for a data row: for each column name, the text of
      the data row's first child with that name, "" when it has none. */
  function SynthValues(xmlRow: Element, names: seq<string>): (r: seq<string>)
    ensures |r| == |names|
    ensures forall i :: 0 <= i < |names| ==> r[i] == ChildValue(xmlRow, names[i])
  {
    seq(|names|, i requires 0 <= i < |names| => ChildValue(xmlRow, names[i]))
  }

  /** The paragraphs of the single-paragraph cells of some rows: what the text of a
      generated table depends on. */
  function TextCellParagraphs(rows: seq<Row>): set<Paragraph> {
    set k, i | 0 <= k < |rows| && 0 <= i < |rows[k].cells| && |rows[k].cells[i].items| == 1
      && rows[k].cells[i].items[0].CellPara? :: rows[k].cells[i].items[0].para
  }

  lemma TextCellParagraphsInRows(rows: seq<Row>)
    ensures forall p :: p in TextCellParagraphs(rows) ==> p in RowsParagraphs(rows)
  {
    forall p | p in TextCellParagraphs(rows) ensures p in RowsParagraphs(rows) {
      var k, i :| 0 <= k < |rows| && 0 <= i < |rows[k].cells| && |rows[k].cells[i].items| == 1
        && rows[k].cells[i].items[0].CellPara? && rows[k].cells[i].items[0].para == p;
      CellParagraphInRows(rows, k, i, p);
    }
  }

  /** A generated table's rows for the data rows `xmlRows`: a header of shaded cells
      naming the columns (the children of the first data row), then one plain row per
      data row, in order, holding that row's value for each column. */
  predicate ShowsTable(rows: seq<Row>, xmlRows: seq<Element>)
    requires xmlRows != []
    reads TextCellParagraphs(rows)
  {
    && |rows| == |xmlRows| + 1
    && ShowsValues(rows[0], HeaderShading, ColumnNames(xmlRows))
    && forall k :: 0 <= k < |xmlRows| ==> ShowsValues(rows[k + 1], Plain, SynthValues(xmlRows[k], ColumnNames(xmlRows)))
  }

  /** What GenerateTableFromXmlData(xml, path) returns: an empty table without properties
      when the path cannot be walked or leads to an element without children, otherwise
      a table with single borders showing the data rows. */
  predicate Synthesized(t: Table, root: Element, xpath: string)
    reads t, TextCellParagraphs(t.rows)
  {
    var xmlRows := DataRows(root, xpath);
    if xmlRows == [] then t.props == Plain && t.rows == []
    else t.props == SingleBorders && ShowsTable(t.rows, xmlRows)
  }

  /** GenerateTableFromXmlData(xml, xpath). */
  method GenerateTable(root: Element, xpath: string) returns (table: Table)
    ensures fresh(table)
    ensures Synthesized(table, root, xpath)
    ensures forall p :: p in RowsParagraphs(table.rows) ==> fresh(p)
  {
    var located := Locate(root, xpath);
    if located.None? {
      table := new Table(Plain, []);
      return;
    }
    var rows := Children(located.value);
    if |rows| == 0 {
      table := new Table(Plain, []);
      return;
    }
    var columnNames := Names(Children(rows[0]));
    var headerRow;
    ghost var headerParas;
    headerRow, headerParas := HeaderRow(columnNames);
    var dataRows;
    ghost var parasOf;
    dataRows, parasOf := DataRowsFor(rows, columnNames);
    table := new Table(SingleBorders, [headerRow] + dataRows);
    TextRowShows(HeaderShading, headerParas, columnNames);
    ghost var shown := seq(|rows|, k requires 0 <= k < |rows| => SynthValues(rows[k], columnNames));
    InsertedShow(dataRows, parasOf, shown);
    forall k | 0 <= k < |rows| ensures ShowsValues(table.rows[k + 1], Plain, SynthValues(rows[k], columnNames)) {
      assert table.rows[k + 1] == dataRows[k];
    }
    TextCellsParagraphs(HeaderShading, headerParas);
    InsertedParagraphs(dataRows, parasOf);
    RowsParagraphsAppend([headerRow], dataRows);
    assert [headerRow][1..] == [];
  }

  /** The header row: one shaded cell per column name, holding the name. */
  method HeaderRow(columnNames: seq<string>) returns (row: Row, ghost paras: seq<Paragraph>)
    ensures row == Row(Plain, TextCells(HeaderShading, paras))
    ensures HasTexts(paras, columnNames)
    ensures forall p :: p in paras ==> fresh(p)
  {
    var cells: seq<Cell> := [];
    paras := [];
    for i := 0 to |columnNames|
      invariant |cells| == i && |paras| == i
      invariant forall j :: 0 <= j < i ==> cells[j] == Cell(HeaderShading, [CellPara(paras[j])])
      invariant forall j :: 0 <= j < i ==> paras[j].children == [RunChild(TextRun(columnNames[j]))]
      invariant forall p :: p in paras ==> fresh(p)
    {
      var p := new Paragraph([RunChild(TextRun(columnNames[i]))]);
      cells := cells + [Cell(HeaderShading, [CellPara(p)])];
      paras := paras + [p];
    }
    row := Row(Plain, cells);
  }

  /** One generated data row: a plain cell per column name, holding the value of the
      data row's first child with that name, or "". */
  method DataRow(xmlRow: Element, columnNames: seq<string>) returns (row: Row, ghost paras: seq<Paragraph>)
    ensures row == Row(Plain, TextCells(Plain, paras))
    ensures HasTexts(paras, SynthValues(xmlRow, columnNames))
    ensures forall p :: p in paras ==> fresh(p)
  {
    var cells: seq<Cell> := [];
    paras := [];
    for i := 0 to |columnNames|
      invariant |cells| == i && |paras| == i
      invariant forall j :: 0 <= j < i ==> cells[j] == Cell(Plain, [CellPara(paras[j])])
      invariant forall j :: 0 <= j < i ==> paras[j].children == [RunChild(TextRun(ChildValue(xmlRow, columnNames[j])))]
      invariant forall p :: p in paras ==> fresh(p)
    {
      var cell := FirstChildNamed(xmlRow, columnNames[i]);
      var cellValue := if cell.Some? then Value(cell.value) else "";
      var p := new Paragraph([RunChild(TextRun(cellValue))]);
      cells := cells + [Cell(Plain, [CellPara(p)])];
      paras := paras + [p];
    }
    row := Row(Plain, cells);
  }

  /** The loop over the data rows, one generated row each, in order. */
  method DataRowsFor(xmlRows: seq<Element>, columnNames: seq<string>) returns (rows: seq<Row>, ghost parasOf: seq<seq<Paragraph>>)
    ensures |rows| == |xmlRows| && |parasOf| == |xmlRows|
    ensures forall k :: 0 <= k < |xmlRows| ==> rows[k] == Row(Plain, TextCells(Plain, parasOf[k]))
    ensures forall k :: 0 <= k < |xmlRows| ==> HasTexts(parasOf[k], SynthValues(xmlRows[k], columnNames))
    ensures forall k, p :: 0 <= k < |xmlRows| && p in parasOf[k] ==> fresh(p)
  {
    rows, parasOf := [], [];
    for k := 0 to |xmlRows|
      invariant |rows| == k && |parasOf| == k
      invariant forall j :: 0 <= j < k ==> rows[j] == Row(Plain, TextCells(Plain, parasOf[j]))
      invariant forall j :: 0 <= j < k ==> HasTexts(parasOf[j], SynthValues(xmlRows[j], columnNames))
      invariant forall j, p :: 0 <= j < k && p in parasOf[j] ==> fresh(p)
    {
      var row;
      ghost var paras;
      label before:
      row, paras := DataRow(xmlRows[k], columnNames);
      forall j | 0 <= j < k ensures HasTexts(parasOf[j], SynthValues(xmlRows[j], columnNames)) {
        assert forall p :: p in parasOf[j] ==> p.children == old@before(p.children);
        assert old@before(HasTexts(parasOf[j], SynthValues(xmlRows[j], columnNames)));
      }
      ghost var done := parasOf;
      rows := rows + [row];
      parasOf := parasOf + [paras];
      forall j | 0 <= j <= k ensures HasTexts(parasOf[j], SynthValues(xmlRows[j], columnNames)) {
        if j < k {
          assert parasOf[j] == done[j];
        }
      }
    }
  }

  // ----- ProcessTablePlaceholders -----

  /** The path of a table placeholder: group 1, trimmed, then cleaned. */
  function TablePath(t: string, m: Match): string
    requires WellFormed(t, m)
  {
    CleanXPath(Trim(GroupText(t, m)))
  }

  /** `replacements[placeholder] = table` for each table match, in scan order, with each
      table standing for the path it is generated from. */
  function TablePairs(t: string): (ps: seq<(string, string)>)
    ensures |ps| == |Scan(t, TableTag)|
    ensures forall i :: 0 <= i < |ps| ==> ps[i].0 == MatchText(t, Scan(t, TableTag)[i]) && ps[i].1 == TablePath(t, Scan(t, TableTag)[i])
    ensures forall i :: 0 <= i < |ps| ==> ps[i].0 != []
  {
    var ms := Scan(t, TableTag);
    forall i | 0 <= i < |ms| ensures MatchText(t, ms[i]) != [] {
      MatchTextLength(t, ms[i]);
    }
    seq(|ms|, i requires 0 <= i < |ms| => (MatchText(t, ms[i]), TablePath(t, ms[i])))
  }

  /** The replacements dictionary of a paragraph whose text is t: its keys in enumeration
      order, and for each key the path of the table the key ends up with. */
  function TableRequests(t: string): (d: Dictionary<string>)
    ensures Valid(d)
    ensures forall i :: 0 <= i < |d.keys| ==> d.keys[i] != [] && d.keys[i] in d.values
  {
    var ps := TablePairs(t);
    FromPairsKeysNonEmpty(ps);
    FromPairs(ps)
  }

  /** One block put in place of the paragraph: a paragraph holding some text, or the
      table of a placeholder. */
  datatype Piece = TextPiece(text: string) | TablePiece(key: string)

  /** A text piece for `s`, unless `s` is blank (string.IsNullOrWhiteSpace). */
  function TextPieces(s: string): (r: seq<Piece>)
    ensures |r| <= 1 && forall j :: 0 <= j < |r| ==> r[j] == TextPiece(s) && !IsBlank(s)
  {
    if IsBlank(s) then [] else [TextPiece(s)]
  }

  function Prepend(ps: seq<Piece>, o: Option<seq<Piece>>): Option<seq<Piece>> {
    match o
    case None => None
    case Some(rest) => Some(ps + rest)
  }

  /** The blocks that replace a paragraph whose remaining text is `rest`, taking the keys
      in turn: the text before the key's first occurrence, the key's table, and on with
      the text after that occurrence; the text left at the end comes last. None when a
      key does not occur (IndexOf returns -1 and Substring throws). */
  function Layout(rest: string, keys: seq<string>): (r: Option<seq<Piece>>)
    requires forall i :: 0 <= i < |keys| ==> keys[i] != []
    decreases |keys|
  {
    if keys == [] then Some(TextPieces(rest))
    else
      match IndexOf(rest, keys[0])
      case None => None
      case Some(i) =>
        Prepend(TextPieces(rest[..i]) + [TablePiece(keys[0])], Layout(rest[i + |keys[0]|..], keys[1..]))
  }

  /** The text of a layout, each table standing for its placeholder. */
  function Flat(pieces: seq<Piece>): string {
    if pieces == [] then ""
    else (match pieces[0] case TextPiece(s) => s case TablePiece(k) => k) + Flat(pieces[1..])
  }

  /** The placeholders whose tables a layout holds, in order. */
  function TableKeys(pieces: seq<Piece>): seq<string> {
    if pieces == [] then []
    else (match pieces[0] case TextPiece(_) => [] case TablePiece(k) => [k]) + TableKeys(pieces[1..])
  }

  lemma {:induction false} FlatAppend(a: seq<Piece>, b: seq<Piece>)
    ensures Flat(a + b) == Flat(a) + Flat(b)
    ensures TableKeys(a + b) == TableKeys(a) + TableKeys(b)
    decreases |a|
  {
    if a == [] {
      assert a + b == b;
    } else {
      assert (a + b)[0] == a[0];
      assert (a + b)[1..] == a[1..] + b;
      FlatAppend(a[1..], b);
    }
  }

  /** The layout step for the key at position j. */
  lemma LayoutStep(rest: string, keys: seq<string>, j: nat)
    requires forall i :: 0 <= i < |keys| ==> keys[i] != []
    requires j < |keys|
    ensures IndexOf(rest, keys[j]).None? ==> Layout(rest, keys[j..]).None?
    ensures IndexOf(rest, keys[j]).Some? ==>
      var i := IndexOf(rest, keys[j]).value;
      Layout(rest, keys[j..]) == Prepend(TextPieces(rest[..i]) + [TablePiece(keys[j])], Layout(rest[i + |keys[j]|..], keys[j + 1..]))
  {
    hide IndexOf, TextPieces, Prepend;
    assert keys[j..][0] == keys[j] && keys[j..][1..] == keys[j + 1..];
  }

  lemma PrependPrepend(a: seq<Piece>, b: seq<Piece>, o: Option<seq<Piece>>)
    ensures Prepend(a, Prepend(b, o)) == Prepend(a + b, o)
  {
    if o.Some? {
      AppendAssoc(a, b, o.value);
    }
  }

  /** Every non-white-space character of the paragraph text survives the layout, in
      order, with each placeholder turned into its table: only blank text is dropped. */
  lemma {:induction false} LayoutKeepsText(rest: string, keys: seq<string>)
    requires forall i :: 0 <= i < |keys| ==> keys[i] != []
    requires Layout(rest, keys).Some?
    ensures RemoveSpaces(Flat(Layout(rest, keys).value)) == RemoveSpaces(rest)
    decreases |keys|
  {
    hide Layout;
    if keys == [] {
      LayoutEnd(rest);
      TextPiecesText(rest);
    } else {
      var k := keys[0];
      LayoutStep(rest, keys, 0);
      assert keys[0..] == keys;
      var i := IndexOf(rest, k).value;
      var before, after := rest[..i], rest[i + |k|..];
      var tail := Layout(after, keys[1..]).value;
      assert Layout(rest, keys).value == TextPieces(before) + [TablePiece(k)] + tail;
      LayoutKeepsText(after, keys[1..]);
      SplitAtOccurrence(rest, k, i);
      StepKeepsText(before, k, after, tail);
    }
  }

  /** One step of the layout keeps the text of the step. */
  lemma StepKeepsText(before: string, k: string, after: string, tail: seq<Piece>)
    requires RemoveSpaces(Flat(tail)) == RemoveSpaces(after)
    ensures RemoveSpaces(Flat(TextPieces(before) + [TablePiece(k)] + tail)) == RemoveSpaces(before + k + after)
  {
    var b := Flat(TextPieces(before));
    assert Flat([TablePiece(k)]) == k by {
      assert Flat([TablePiece(k)]) == k + Flat([]);
      AppendEmpty(k);
    }
    FlatAppend(TextPieces(before) + [TablePiece(k)], tail);
    FlatAppend(TextPieces(before), [TablePiece(k)]);
    TextPiecesText(before);
    calc {
      RemoveSpaces(Flat(TextPieces(before) + [TablePiece(k)] + tail));
      RemoveSpaces(b + k + Flat(tail));
      { RemoveSpacesAppend(b + k, Flat(tail)); RemoveSpacesAppend(b, k); }
      RemoveSpaces(b) + RemoveSpaces(k) + RemoveSpaces(Flat(tail));
      RemoveSpaces(before) + RemoveSpaces(k) + RemoveSpaces(after);
      { RemoveSpacesAppend(before + k, after); RemoveSpacesAppend(before, k); }
      RemoveSpaces(before + k + after);
    }
  }

  lemma TextPiecesText(s: string)
    ensures RemoveSpaces(Flat(TextPieces(s))) == RemoveSpaces(s)
    ensures TableKeys(TextPieces(s)) == []
  {
    if IsBlank(s) {
      RemoveSpacesBlank(s);
    } else {
      assert Flat([TextPiece(s)]) == s + Flat([]);
      assert s + [] == s;
    }
  }

  /** The layout holds one table per key, in the dictionary's enumeration order. */
  lemma {:induction false} LayoutTables(rest: string, keys: seq<string>)
    requires forall i :: 0 <= i < |keys| ==> keys[i] != []
    requires Layout(rest, keys).Some?
    ensures TableKeys(Layout(rest, keys).value) == keys
    decreases |keys|
  {
    if keys == [] {
      TextPiecesText(rest);
    } else {
      var k := keys[0];
      var i := IndexOf(rest, k).value;
      var tail := Layout(rest[i + |k|..], keys[1..]).value;
      LayoutTables(rest[i + |k|..], keys[1..]);
      FlatAppend(TextPieces(rest[..i]) + [TablePiece(k)], tail);
      FlatAppend(TextPieces(rest[..i]), [TablePiece(k)]);
      TextPiecesText(rest[..i]);
      assert TableKeys([TablePiece(k)]) == [k] + TableKeys([]);
      assert keys == [k] + keys[1..];
    }
  }

  // ----- why every key is found -----

  /** The position of the first pair assigning key k, |ps| when there is none. */
  function FirstAt(ps: seq<(string, string)>, k: string): (r: nat)
    ensures r <= |ps| && forall i :: 0 <= i < r ==> ps[i].0 != k
    ensures r < |ps| ==> ps[r].0 == k
  {
    if ps == [] then 0
    else if ps[0].0 == k then 0
    else
      var r := FirstAt(ps[1..], k);
      assert forall i :: 1 <= i < r + 1 ==> ps[i] == ps[1..][i - 1];
      r + 1
  }

  /** Keys are enumerated in the order of their first assignment. */
  lemma FirstAtOrder(ps: seq<(string, string)>, a: nat, b: nat)
    requires a < b < |FromPairs(ps).keys|
    ensures FirstAt(ps, FromPairs(ps).keys[a]) < FirstAt(ps, FromPairs(ps).keys[b]) < |ps|
  {
    var keys := FromPairs(ps).keys;
    FromPairsOrder(ps, a, b);
    var i :| 0 <= i < |ps| && ps[i].0 == keys[a] && NotBefore(ps, i, keys[b]);
    assert keys[b] in FromPairs(ps).values;
    FromPairsKeys(ps, keys[b]);
    var j :| 0 <= j < |ps| && ps[j].0 == keys[b];
    assert FirstAt(ps, keys[b]) <= j;
  }

  /** Every key of the dictionary was assigned by some pair. */
  lemma FirstAtKey(ps: seq<(string, string)>, a: nat)
    requires a < |FromPairs(ps).keys|
    ensures FirstAt(ps, FromPairs(ps).keys[a]) < |ps|
  {
    var k := FromPairs(ps).keys[a];
    assert k in FromPairs(ps).values;
    FromPairsKeys(ps, k);
    var j :| 0 <= j < |ps| && ps[j].0 == k;
    assert FirstAt(ps, k) <= j;
  }

  /** From a position no later than the first match of key j, the rest of the keys are
      all found, each at or before its own first match. Here `ms` are ordered, disjoint
      matches of t, `ps` assigns each match's text, and `keys` enumerates the result. */
  lemma {:induction false} LayoutFrom(t: string, ms: seq<Match>, ps: seq<(string, string)>, keys: seq<string>, j: nat, p: nat)
    requires |ps| == |ms| && forall i :: 0 <= i < |ms| ==> WellFormed(t, ms[i]) && ps[i].0 == MatchText(t, ms[i])
    requires forall a, b :: 0 <= a < b < |ms| ==> ms[a].end <= ms[b].start
    requires keys == FromPairs(ps).keys && forall i :: 0 <= i < |keys| ==> keys[i] != []
    requires j <= |keys| && p <= |t|
    requires j < |keys| ==> FirstAt(ps, keys[j]) < |ms| && p <= ms[FirstAt(ps, keys[j])].start
    ensures Layout(t[p..], keys[j..]).Some?
    decreases |keys| - j
  {
    hide Layout, FromPairs, IndexOf;
    if j < |keys| {
      var o, q := NextFrom(t, ms, ps, keys, j, p);
      LayoutFrom(t, ms, ps, keys, j + 1, q);
      StepSome(t[p..], keys, j, o, t[q..]);
    } else {
      assert keys[j..] == [];
      LayoutEnd(t[p..]);
    }
  }

  /** Key j is found at or before its first match; the text after it starts no later
      than the first match of key j + 1. */
  lemma NextFrom(t: string, ms: seq<Match>, ps: seq<(string, string)>, keys: seq<string>, j: nat, p: nat) returns (o: nat, q: nat)
    requires |ps| == |ms| && forall i :: 0 <= i < |ms| ==> WellFormed(t, ms[i]) && ps[i].0 == MatchText(t, ms[i])
    requires forall a, b :: 0 <= a < b < |ms| ==> ms[a].end <= ms[b].start
    requires keys == FromPairs(ps).keys && forall i :: 0 <= i < |keys| ==> keys[i] != []
    requires j <= |keys| && p <= |t|
    requires j < |keys| ==> FirstAt(ps, keys[j]) < |ms| && p <= ms[FirstAt(ps, keys[j])].start
    requires j < |keys|
    ensures IndexOf(t[p..], keys[j]) == Some(o) && q == p + o + |keys[j]| <= |t|
    ensures t[p..][o + |keys[j]|..] == t[q..]
    ensures j + 1 < |keys| ==> FirstAt(ps, keys[j + 1]) < |ms| && q <= ms[FirstAt(ps, keys[j + 1])].start
  {
    hide Layout, FromPairs;
    var k := keys[j];
    var m := ms[FirstAt(ps, k)];
    var rest := t[p..];
    MatchTextLength(t, m);
    OccursInSuffix(t, p, m);
    FoundNoLater(rest, k, m.start - p);
    o := IndexOf(rest, k).value;
    q := p + o + |k|;
    assert q <= m.end;
    if j + 1 < |keys| {
      FirstAtOrder(ps, j, j + 1);
    }
  }

  /** A key found, and the rest of the layout done from after it: the layout from the
      key is done too. */
  lemma StepSome(rest: string, keys: seq<string>, j: nat, o: nat, after: string)
    requires forall i :: 0 <= i < |keys| ==> keys[i] != []
    requires j < |keys| && IndexOf(rest, keys[j]) == Some(o) && after == rest[o + |keys[j]|..]
    requires Layout(after, keys[j + 1..]).Some?
    ensures Layout(rest, keys[j..]).Some?
  {
    hide Layout;
    LayoutStep(rest, keys, j);
  }

  /** A match at or after p occurs in the suffix from p. */
  lemma OccursInSuffix(t: string, p: nat, m: Match)
    requires WellFormed(t, m) && p <= m.start
    ensures OccursAt(t[p..], MatchText(t, m), m.start - p)
  {
    assert t[p..][m.start - p..m.end - p] == t[m.start..m.end];
  }

  /** The text is always cut successfully: each key's IndexOf finds it in the text left
      after the previous key, so the Substring calls of ProcessTablePlaceholders never
      throw. */
  lemma LayoutSome(t: string)
    ensures Layout(t, TableRequests(t).keys).Some?
  {
    var keys := TableRequests(t).keys;
    var ps := TablePairs(t);
    var ms := Scan(t, TableTag);
    if keys != [] {
      FirstAtKey(ps, 0);
    }
    ScanSpec(t, TableTag);
    forall a, b | 0 <= a < b < |ms| ensures ms[a].end <= ms[b].start {
      OrderedStarts(|t|, Matcher(t, TableTag), 0, ms, a, b);
    }
    LayoutFrom(t, ms, ps, keys, 0, 0);
    assert t[0..] == t && keys[0..] == keys;
  }

  /** The layout of a paragraph whose text is t: what ProcessTablePlaceholders puts in
      the paragraph's place. */
  function Pieces(t: string): (r: seq<Piece>)
    ensures Layout(t, TableRequests(t).keys) == Some(r)
  {
    LayoutSome(t);
    Layout(t, TableRequests(t).keys).value
  }

  lemma LayoutEnd(rest: string)
    ensures Layout(rest, []) == Some(TextPieces(rest))
  {
  }

  /** The first loop of ProcessTablePlaceholders: a table generated for each table match,
      in scan order, stored under the placeholder's text (a later match with the same
      text replaces the earlier table). */
  method CollectTables(paragraphText: string, root: Element) returns (replacements: Dictionary<Table>)
    ensures Valid(replacements) && replacements.keys == TableRequests(paragraphText).keys
    ensures forall k :: k in replacements.values <==> k in TableRequests(paragraphText).values
    ensures forall k :: k in replacements.values ==>
      fresh(replacements.values[k]) && Synthesized(replacements.values[k], root, TableRequests(paragraphText).values[k])
  {
    var matches := Scan(paragraphText, TableTag);
    ghost var ps := TablePairs(paragraphText);
    replacements := Empty();
    ghost var paths: Dictionary<string> := Empty();
    assert ps[..0] == [];
    assert FromPairs(ps[..0]) == paths;
    assert TableRequests(paragraphText) == FromPairs(ps);
    hide FromPairs, TablePairs, Scan, TableRequests, ShowsTable, Synthesized, CleanXPath, Trim, GroupText, MatchText;
    for i := 0 to |matches|
      invariant paths == FromPairs(ps[..i])
      invariant Valid(replacements) && Valid(paths) && replacements.keys == paths.keys
      invariant forall k :: k in replacements.values <==> k in paths.values
      invariant forall k :: k in replacements.values ==> fresh(replacements.values[k])
      invariant forall k :: k in replacements.values ==> Synthesized(replacements.values[k], root, paths.values[k])
    {
      var placeholder := MatchText(paragraphText, matches[i]);
      var xpath := CleanXPath(Trim(GroupText(paragraphText, matches[i])));
      FromPairsStep(ps, i);
      ghost var prev := replacements;
      replacements := AddTable(replacements, paths, placeholder, xpath, root);
      paths := Put(paths, placeholder, xpath);
      forall k | k in replacements.values ensures fresh(replacements.values[k]) {
        if k in prev.values && replacements.values[k] == prev.values[k] {
          assert fresh(prev.values[k]);
        }
      }
    }
    PrefixWhole(ps);
  }

  /** One turn of that loop: `replacements[placeholder] = GenerateTableFromXmlData(xml,
      xpath)`, with `paths` recording the path each table was generated from. The tables
      already stored are left as they are. */
  method AddTable(replacements: Dictionary<Table>, ghost paths: Dictionary<string>, placeholder: string, xpath: string, root: Element)
    returns (r: Dictionary<Table>)
    requires Valid(replacements) && Valid(paths) && replacements.keys == paths.keys
    requires forall k :: k in replacements.values <==> k in paths.values
    requires forall k :: k in replacements.values ==> Synthesized(replacements.values[k], root, paths.values[k])
    ensures Valid(r) && r.keys == Put(paths, placeholder, xpath).keys
    ensures forall k :: k in r.values <==> k in Put(paths, placeholder, xpath).values
    ensures forall k :: k in r.values ==> Synthesized(r.values[k], root, Put(paths, placeholder, xpath).values[k])
    ensures forall k :: k in r.values ==> fresh(r.values[k]) || (k in replacements.values && r.values[k] == replacements.values[k])
  {
    hide ShowsTable;
    label before:
    var table := GenerateTable(root, xpath);
    r := Put(replacements, placeholder, table);
    forall k | k in r.values && k != placeholder
      ensures Synthesized(r.values[k], root, Put(paths, placeholder, xpath).values[k])
    {
      var t := replacements.values[k];
      assert t.rows == old@before(t.rows);
      assert forall p :: p in TextCellParagraphs(t.rows) ==> p.children == old@before(p.children);
      assert old@before(Synthesized(t, root, paths.values[k]));
    }
  }

  /** A block put in place of the paragraph shows a piece of the layout: a paragraph
      holding a single run with the piece's text, or the table generated for the path
      of the piece's placeholder. */
  predicate ShowsPiece(b: Block, piece: Piece, root: Element, paths: map<string, string>)
    reads if b.BlockPara? then {b.para} else {}
    reads if b.BlockTable? then {b.table} + TextCellParagraphs(b.table.rows) else {}
  {
    match piece
    case TextPiece(s) => b.BlockPara? && b.para.children == [RunChild(TextRun(s))]
    case TablePiece(k) => b.BlockTable? && k in paths && Synthesized(b.table, root, paths[k])
  }

  /** The position of a paragraph among the blocks (a node occurs once in its parent). */
  function BlockIndex(blocks: seq<Block>, p: Paragraph): (r: nat)
    requires BlockPara(p) in blocks
    ensures r < |blocks| && blocks[r] == BlockPara(p)
  {
    if blocks[0] == BlockPara(p) then 0 else 1 + BlockIndex(blocks[1..], p)
  }

  /** ProcessTablePlaceholders(paragraph, paragraphText, xml), with the paragraph's
      parent passed explicitly. Without table placeholders, or without a parent, nothing
      changes; otherwise the paragraph is replaced in its parent by the blocks of the
      layout of its text: the text between placeholders as new paragraphs (blank text
      dropped) and a newly generated table for each distinct placeholder. */
  method ProcessTablePlaceholders(paragraph: Paragraph, paragraphText: string, root: Element, parent: Body?)
    requires parent != null ==> BlockPara(paragraph) in parent.blocks
    modifies parent
    ensures parent != null && Scan(paragraphText, TableTag) == [] ==> parent.blocks == old(parent.blocks)
    ensures parent != null && Scan(paragraphText, TableTag) != [] ==>
      var at, pieces := BlockIndex(old(parent.blocks), paragraph), Pieces(paragraphText);
      && |parent.blocks| == |old(parent.blocks)| - 1 + |pieces|
      && parent.blocks[..at] == old(parent.blocks)[..at]
      && parent.blocks[at + |pieces|..] == old(parent.blocks)[at + 1..]
      && forall i :: 0 <= i < |pieces| ==>
        && ShowsPiece(parent.blocks[at + i], pieces[i], root, TableRequests(paragraphText).values)
        && (parent.blocks[at + i].BlockPara? ==> fresh(parent.blocks[at + i].para))
        && (parent.blocks[at + i].BlockTable? ==> fresh(parent.blocks[at + i].table))
  {
    hide Layout, Scan, TableRequests, Pieces, ShowsTable, DataRows, Synthesized;
    var matches := Scan(paragraphText, TableTag);
    if |matches| == 0 {
      return;
    }
    var replacements := CollectTables(paragraphText, root);
    RequestsNonEmpty(paragraphText);
    assert |replacements.keys| > 0;
    if |replacements.keys| > 0 {
      if parent == null {
        return;
      }
      label collected:
      ghost var requests := TableRequests(paragraphText);
      ghost var all := Pieces(paragraphText);
      var inserted;
      ghost var pieces;
      inserted, pieces := Cut(paragraphText, replacements.keys, replacements.values);
      var at := BlockIndex(parent.blocks, paragraph);
      Splice(parent.blocks, at, inserted);
      parent.blocks := parent.blocks[..at] + inserted + parent.blocks[at + 1..];
      forall k | k in replacements.values ensures Synthesized(replacements.values[k], root, requests.values[k]) {
        var t := replacements.values[k];
        assert t.rows == old@collected(t.rows);
        assert forall p :: p in TextCellParagraphs(t.rows) ==> p.children == old@collected(p.children);
        assert old@collected(Synthesized(t, root, requests.values[k]));
      }
      assert at == BlockIndex(old(parent.blocks), paragraph) && all == pieces;
      forall i | 0 <= i < |all|
        ensures ShowsPiece(parent.blocks[at + i], all[i], root, requests.values)
        ensures parent.blocks[at + i].BlockPara? ==> fresh(parent.blocks[at + i].para)
        ensures parent.blocks[at + i].BlockTable? ==> fresh(parent.blocks[at + i].table)
      {
        assert parent.blocks[at + i] == inserted[i];
      }
    }
  }

  /** A block placed for a piece of the layout: a paragraph holding a single run with the
      piece's text, or the table stored for the piece's placeholder. */
  predicate Places(b: Block, piece: Piece, tables: map<string, Table>)
    reads if b.BlockPara? then {b.para} else {}
  {
    match piece
    case TextPiece(s) => b.BlockPara? && b.para.children == [RunChild(TextRun(s))]
    case TablePiece(k) => k in tables && b == BlockTable(tables[k])
  }

  /** Block i was put in for piece i: a table piece's stored table, or a new paragraph
      holding the text piece. */
  ghost predicate PlacedAt(inserted: seq<Block>, pieces: seq<Piece>, tables: map<string, Table>, i: int)
    requires 0 <= i < |inserted| && |inserted| == |pieces|
  {
    && (pieces[i].TablePiece? ==> pieces[i].key in tables && inserted[i] == BlockTable(tables[pieces[i].key]))
    && (pieces[i].TextPiece? ==> inserted[i].BlockPara?)
  }

  /** The second loop of ProcessTablePlaceholders: for each placeholder in turn, a new
      paragraph with the text before its first occurrence in what is left of the text
      (unless blank) and its table; then a paragraph with the text left at the end
      (unless blank). The blocks come out in the order InsertBefore puts them. */
  method Cut(paragraphText: string, keys: seq<string>, tables: map<string, Table>) returns (inserted: seq<Block>, ghost pieces: seq<Piece>)
    requires forall i :: 0 <= i < |keys| ==> keys[i] != [] && keys[i] in tables
    requires Layout(paragraphText, keys).Some?
    ensures Layout(paragraphText, keys) == Some(pieces)
    ensures |inserted| == |pieces|
    ensures forall i :: 0 <= i < |inserted| ==> Places(inserted[i], pieces[i], tables)
    ensures forall i :: 0 <= i < |inserted| && inserted[i].BlockPara? ==> fresh(inserted[i].para)
  {
    hide Layout;
    pieces := [];
    var text := paragraphText;
    inserted := [];
    assert keys[0..] == keys;
    PrependNothing(Layout(paragraphText, keys));
    for j := 0 to |keys|
      invariant Layout(paragraphText, keys) == Prepend(pieces, Layout(text, keys[j..]))
      invariant |inserted| == |pieces|
      invariant forall i :: 0 <= i < |inserted| ==> PlacedAt(inserted, pieces, tables, i)
      invariant forall i :: 0 <= i < |inserted| && pieces[i].TextPiece? ==>
        inserted[i].BlockPara? && fresh(inserted[i].para) && inserted[i].para.children == [RunChild(TextRun(pieces[i].text))]
    {
      var key := keys[j];
      LayoutStep(text, keys, j);
      var at := IndexOf(text, key).value;
      var before := text[..at];
      var added: seq<Block>;
      if !IsBlank(before) {
        var beforePara := new Paragraph([RunChild(TextRun(before))]);
        added := [BlockPara(beforePara), BlockTable(tables[key])];
      } else {
        added := [BlockTable(tables[key])];
      }
      ghost var step := TextPieces(before) + [TablePiece(key)];
      PrependPrepend(pieces, step, Layout(text[at + |key|..], keys[j + 1..]));
      ghost var done, donePieces := inserted, pieces;
      inserted := inserted + added;
      pieces := pieces + step;
      forall i | 0 <= i < |inserted|
        ensures PlacedAt(inserted, pieces, tables, i)
        ensures pieces[i].TextPiece? ==>
          inserted[i].BlockPara? && fresh(inserted[i].para) && inserted[i].para.children == [RunChild(TextRun(pieces[i].text))]
      {
        if i < |done| {
          assert PlacedAt(done, donePieces, tables, i) && inserted[i] == done[i] && pieces[i] == donePieces[i];
        } else {
          assert inserted[i] == added[i - |done|] && pieces[i] == step[i - |done|];
        }
      }
      text := text[at + |key|..];
    }
    LayoutEnd(text);
    assert keys[|keys|..] == [];
    ghost var done, donePieces := inserted, pieces;
    if !IsBlank(text) {
      var afterPara := new Paragraph([RunChild(TextRun(text))]);
      inserted := inserted + [BlockPara(afterPara)];
    }
    pieces := pieces + TextPieces(text);
    forall i | 0 <= i < |inserted|
      ensures Places(inserted[i], pieces[i], tables)
      ensures inserted[i].BlockPara? ==> fresh(inserted[i].para)
    {
      if i < |done| {
        assert PlacedAt(done, donePieces, tables, i) && inserted[i] == done[i] && pieces[i] == donePieces[i];
      }
    }
  }

  /** The placeholders of a paragraph with table matches ask for at least one table. */
  lemma RequestsNonEmpty(t: string)
    requires Scan(t, TableTag) != []
    ensures TableRequests(t).keys != []
  {
    var ps := TablePairs(t);
    FromPairsKeys(ps, ps[0].0);
  }

  lemma PrependNothing(o: Option<seq<Piece>>)
    ensures Prepend([], o) == o
  {
    if o.Some? {
      assert [] + o.value == o.value;
    }
  }
}
