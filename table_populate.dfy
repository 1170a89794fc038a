/**
 * UpdateExistingTableWithXmlData: fills a template table with the data rows found under
 * a path. The table's second row is the template: a cell whose text is "./Name" shows
 * each data row's child element Name. The template row is removed and one new row per
 * data row is inserted right after the header, each in front of the previous one, so
 * the data appears in reverse order, followed by whatever rows came after the template.
 */
module TablePopulate {
  import opened Wrappers
  import opened Strings
  import opened DataTree
  import opened XPath
  import opened Document
  import opened Dictionaries

  // ----- the template row -----

  /** `cellText.StartsWith("./")`: a template cell that names a data column. */
  predicate IsColumnRef(s: string) {
    StartsWith(s, "./")
  }

  /** `cellText.Substring(2)`: the column such a cell names. */
  function ColumnOf(s: string): string
    requires IsColumnRef(s)
  {
    s[2..]
  }

  predicate HasColumnRef(texts: seq<string>) {
    exists i :: 0 <= i < |texts| && IsColumnRef(texts[i])
  }

  /** Template cell i names a column that the first data row has. */
  predicate Mapped(texts: seq<string>, names: seq<string>, i: int) {
    0 <= i < |texts| && IsColumnRef(texts[i]) && ColumnOf(texts[i]) in names
  }

  /** Cell i is the last template cell naming its column, so the column is shown there. */
  predicate Wins(texts: seq<string>, names: seq<string>, i: int) {
    Mapped(texts, names, i) &&
    forall j :: i < j < |texts| && Mapped(texts, names, j) ==> ColumnOf(texts[j]) != ColumnOf(texts[i])
  }

  /** The column mapping: `columnMapping[column] = i` for each mapped cell, left to right. */
  function Mapping(texts: seq<string>, names: seq<string>): (d: Dictionary<int>)
    ensures Valid(d)
    decreases |texts|
  {
    if texts == [] then Empty()
    else
      var n := |texts| - 1;
      var d := Mapping(texts[..n], names);
      if Mapped(texts, names, n) then Put(d, ColumnOf(texts[n]), n) else d
  }

  /** The mapping holds exactly the mapped columns, each at the last cell naming it. */
  lemma {:induction false} MappingSpec(texts: seq<string>, names: seq<string>, k: string)
    ensures k in Mapping(texts, names).values <==> exists i :: Mapped(texts, names, i) && ColumnOf(texts[i]) == k
    ensures k in Mapping(texts, names).values ==>
      var i := Mapping(texts, names).values[k];
      Wins(texts, names, i) && ColumnOf(texts[i]) == k
    decreases |texts|
  {
    if texts != [] {
      var n := |texts| - 1;
      var init := texts[..n];
      MappingSpec(init, names, k);
      forall i | 0 <= i < n ensures Mapped(init, names, i) == Mapped(texts, names, i) {
        assert init[i] == texts[i];
      }
      var d := Mapping(init, names);
      if k in d.values && !(Mapped(texts, names, n) && ColumnOf(texts[n]) == k) {
        var i := d.values[k];
        assert Wins(init, names, i);
        assert init[i] == texts[i];
      }
    }
  }

  /** `foreach (var mapping in columnMapping) if (mapping.Value == i) ... break;`: the
      first key, in enumeration order, mapped to cell i. */
  function ColumnFor(keys: seq<string>, values: map<string, int>, i: int): (r: Option<string>)
    requires forall k :: k in keys ==> k in values
    ensures r.Some? ==> r.value in keys && values[r.value] == i
    ensures r.None? ==> forall k :: k in keys ==> values[k] != i
  {
    if keys == [] then None
    else if values[keys[0]] == i then Some(keys[0])
    else ColumnFor(keys[1..], values, i)
  }

  /** Enumeration order does not matter: a cell shows the column it names exactly when it
      is the last cell naming that column; every other cell is unmapped. */
  lemma MappedColumn(texts: seq<string>, names: seq<string>, i: int)
    requires 0 <= i < |texts|
    ensures var d := Mapping(texts, names);
      ColumnFor(d.keys, d.values, i) == if Wins(texts, names, i) then Some(ColumnOf(texts[i])) else None
  {
    var d := Mapping(texts, names);
    match ColumnFor(d.keys, d.values, i)
    case Some(k) =>
      MappingSpec(texts, names, k);
    case None =>
      if Wins(texts, names, i) {
        WinnerMapped(texts, names, i);
        assert false;
      }
  }

  /** The last cell naming a column is where the mapping sends that column. */
  lemma WinnerMapped(texts: seq<string>, names: seq<string>, i: int)
    requires Wins(texts, names, i)
    ensures var d := Mapping(texts, names);
      ColumnOf(texts[i]) in d.keys && d.values[ColumnOf(texts[i])] == i
  {
    var k := ColumnOf(texts[i]);
    MappingSpec(texts, names, k);
    var j := Mapping(texts, names).values[k];
    assert Wins(texts, names, j) && ColumnOf(texts[j]) == k;
    assert Mapped(texts, names, i) && Mapped(texts, names, j);
  }

  /** The text a new cell in column i shows for a data row: the value of the mapped
      child element, "" when the column is unmapped or the child is missing. */
  function CellValue(xmlRow: Element, d: Dictionary<int>, i: int): string
    requires Valid(d)
  {
    match ColumnFor(d.keys, d.values, i)
    case None => ""
    case Some(k) => ChildValue(xmlRow, k)
  }

  function RowValues(xmlRow: Element, d: Dictionary<int>, n: nat): (r: seq<string>)
    requires Valid(d)
    ensures |r| == n
  {
    seq(n, i requires 0 <= i < n => CellValue(xmlRow, d, i))
  }

  // ----- the outcome -----

  /** Why the table is left alone, or the values of the rows that replace the template. */
  datatype Outcome =
    | PathNotFound
    | NoDataRows
    | NoTemplateRow
    | NoColumnRefs
    | NoMappedColumns
    | Filled(values: seq<seq<string>>)

  /** The column names: the local names of the first data row's children. */
  function ColumnNames(xmlRows: seq<Element>): seq<string>
    requires xmlRows != []
  {
    Names(Children(xmlRows[0]))
  }

  /** What UpdateExistingTableWithXmlData does to a table with `rowCount` rows whose
      template row (when there is one) has the cell texts `template`. */
  function Plan(root: Element, xpath: string, rowCount: nat, template: seq<string>): Outcome {
    match Locate(root, xpath)
    case None => PathNotFound
    case Some(e) =>
      var xmlRows := Children(e);
      if xmlRows == [] then NoDataRows
      else if rowCount < 2 then NoTemplateRow
      else if !HasColumnRef(template) then NoColumnRefs
      else
        var mapping := Mapping(template, ColumnNames(xmlRows));
        if mapping.keys == [] then NoMappedColumns
        else Filled(seq(|xmlRows|, k requires 0 <= k < |xmlRows| => RowValues(xmlRows[k], mapping, |template|)))
  }

  /** The table is filled exactly when the path leads to an element with children, the
      table has a template row, some template cell starts with "./", and some such cell
      names a child of the first data row. */
  lemma PlanFilled(root: Element, xpath: string, rowCount: nat, template: seq<string>)
    ensures Plan(root, xpath, rowCount, template).Filled? <==>
      && DataRows(root, xpath) != []
      && rowCount >= 2
      && HasColumnRef(template)
      && exists i :: Mapped(template, ColumnNames(DataRows(root, xpath)), i)
  {
    if DataRows(root, xpath) != [] && rowCount >= 2 && HasColumnRef(template) {
      MappingEmpty(template, ColumnNames(DataRows(root, xpath)));
    }
  }

  /** The mapping is empty exactly when no template cell names a column of the first data row. */
  lemma MappingEmpty(texts: seq<string>, names: seq<string>)
    ensures Mapping(texts, names).keys == [] <==> !exists i :: Mapped(texts, names, i)
  {
    var d := Mapping(texts, names);
    if exists i :: Mapped(texts, names, i) {
      var i :| Mapped(texts, names, i);
      MappingSpec(texts, names, ColumnOf(texts[i]));
    } else if d.keys != [] {
      MappingSpec(texts, names, d.keys[0]);
    }
  }

  /** A filled table gets one row per data row, as wide as the template; a cell shows the
      named child's value when it is the last template cell naming a column of the
      first data row, and "" otherwise. */
  lemma FilledValues(root: Element, xpath: string, rowCount: nat, template: seq<string>, k: nat, i: nat)
    requires Plan(root, xpath, rowCount, template).Filled?
    requires k < |DataRows(root, xpath)| && i < |template|
    ensures var vs := Plan(root, xpath, rowCount, template).values;
      var xmlRows := DataRows(root, xpath);
      && |vs| == |xmlRows|
      && |vs[k]| == |template|
      && vs[k][i] == if Wins(template, ColumnNames(xmlRows), i) then ChildValue(xmlRows[k], ColumnOf(template[i])) else ""
  {
    MappedColumn(template, ColumnNames(DataRows(root, xpath)), i);
  }

  // ----- the table -----

  /** GetTextFromCell for each cell of a row. */
  function CellTexts(cells: seq<Cell>): (r: seq<string>)
    reads set p | p in RowParagraphs(cells)
    ensures |r| == |cells|
  {
    if cells == [] then [] else [CellText(cells[0])] + CellTexts(cells[1..])
  }

  lemma {:induction false} CellTextsAt(cells: seq<Cell>, i: nat)
    requires i < |cells|
    ensures CellTexts(cells)[i] == CellText(cells[i])
    decreases i
  {
    if i > 0 {
      CellTextsAt(cells[1..], i - 1);
    }
  }

  /** The template row's cell texts, or none when the table has fewer than two rows. */
  function TemplateTexts(rows: seq<Row>): seq<string>
    reads if |rows| >= 2 then set p | p in RowParagraphs(rows[1].cells) else {}
  {
    if |rows| >= 2 then CellTexts(rows[1].cells) else []
  }

  /** `after` is `before` with the template row replaced by rows showing `values` in
      reverse order, right after the header. */
  predicate Populated(before: seq<Row>, after: seq<Row>, values: seq<seq<string>>)
    reads set k, i | 0 <= k < |after| && 0 <= i < |after[k].cells| && |after[k].cells[i].items| == 1
      && after[k].cells[i].items[0].CellPara? :: after[k].cells[i].items[0].para
  {
    && |before| >= 2
    && |after| == |before| - 1 + |values|
    && after[0] == before[0]
    && after[|values| + 1..] == before[2..]
    && forall k :: 1 <= k <= |values| ==> ShowsValues(after[k], Plain, values[|values| - k])
  }

  /** What one call of UpdateExistingTableWithXmlData does: the rows `before`, whose
      template row had the cell texts `template`, become `after`. */
  ghost predicate Updated(before: seq<Row>, template: seq<string>, after: seq<Row>, root: Element, xpath: string)
    reads set q | q in RowsParagraphs(after)
  {
    CellsInRows(after);
    var o := Plan(root, xpath, |before|, template);
    && (!o.Filled? ==> after == before)
    && (o.Filled? ==> Populated(before, after, o.values))
  }

  /** The paragraph of a one-paragraph cell is among the paragraphs of the rows. */
  lemma CellsInRows(rows: seq<Row>)
    ensures forall k, i ::
      (0 <= k < |rows| && 0 <= i < |rows[k].cells| && |rows[k].cells[i].items| == 1 && rows[k].cells[i].items[0].CellPara?)
      ==> rows[k].cells[i].items[0].para in RowsParagraphs(rows)
  {
    forall k, i | 0 <= k < |rows| && 0 <= i < |rows[k].cells| && |rows[k].cells[i].items| == 1
      && rows[k].cells[i].items[0].CellPara?
      ensures rows[k].cells[i].items[0].para in RowsParagraphs(rows)
    {
      CellParagraphInRows(rows, k, i, rows[k].cells[i].items[0].para);
    }
  }

  /** UpdateExistingTableWithXmlData(table, xml, xpath). */
  method UpdateExistingTable(table: Table, root: Element, xpath: string)
    modifies table
    ensures Updated(old(table.rows), old(TemplateTexts(table.rows)), table.rows, root, xpath)
    ensures forall p :: p in RowsParagraphs(table.rows) ==> p in old(RowsParagraphs(table.rows)) || fresh(p)
  {
    hide Plan;
    ghost var template := TemplateTexts(table.rows);
    PlanFilled(root, xpath, |table.rows|, template);
    var located := Locate(root, xpath);
    if located.None? {
      return;
    }
    var xmlRows := Children(located.value);
    if |xmlRows| == 0 {
      return;
    }
    var existingRows := table.rows;
    if |existingRows| < 2 {
      return;
    }
    var templateRow := existingRows[1];
    var texts := CellTexts(templateRow.cells);
    assert texts == template;
    var hasPlaceholders := HasPlaceholders(texts);
    if !hasPlaceholders {
      return;
    }
    var columnNames := Names(Children(xmlRows[0]));
    var columnMapping := BuildMapping(texts, columnNames);
    MappingEmpty(texts, columnNames);
    if |columnMapping.keys| == 0 {
      return;
    }
    PlanIsFilled(root, xpath, |existingRows|, texts);
    FillTable(table, xmlRows, columnMapping, |texts|);
  }

  lemma PlanIsFilled(root: Element, xpath: string, rowCount: nat, template: seq<string>)
    requires Locate(root, xpath).Some? && Children(Locate(root, xpath).value) != []
    requires rowCount >= 2 && HasColumnRef(template)
    requires Mapping(template, ColumnNames(Children(Locate(root, xpath).value))).keys != []
    ensures var xmlRows := Children(Locate(root, xpath).value);
      var mapping := Mapping(template, ColumnNames(xmlRows));
      Plan(root, xpath, rowCount, template) ==
        Filled(seq(|xmlRows|, k requires 0 <= k < |xmlRows| => RowValues(xmlRows[k], mapping, |template|)))
  {
  }

  /** Replaces the template row by one row per data row, each inserted after the header. */
  method FillTable(table: Table, xmlRows: seq<Element>, columnMapping: Dictionary<int>, n: nat)
    requires Valid(columnMapping) && |table.rows| >= 2
    modifies table
    ensures Populated(old(table.rows), table.rows,
      seq(|xmlRows|, k requires 0 <= k < |xmlRows| => RowValues(xmlRows[k], columnMapping, n)))
    ensures forall p :: p in RowsParagraphs(table.rows) ==> p in old(RowsParagraphs(table.rows)) || fresh(p)
  {
    ghost var values := seq(|xmlRows|, k requires 0 <= k < |xmlRows| => RowValues(xmlRows[k], columnMapping, n));
    var existingRows := table.rows;
    table.rows := [existingRows[0]] + existingRows[2..];
    DropTemplate(existingRows);
    InsertRows(table, xmlRows, columnMapping, n, values);
  }

  /** Removing the template row brings in no paragraph. */
  lemma DropTemplate(rows: seq<Row>)
    requires |rows| >= 2
    ensures forall p :: p in RowsParagraphs([rows[0]] + rows[2..]) ==> p in RowsParagraphs(rows)
  {
    RowsParagraphsAppend([rows[0]], rows[2..]);
    assert rows == [rows[0]] + [rows[1]] + rows[2..];
    RowsParagraphsAppend([rows[0]] + [rows[1]], rows[2..]);
    RowsParagraphsAppend([rows[0]], [rows[1]]);
  }

  /** Adds one row per data row right after the header, each in front of the previous one. */
  method InsertRows(table: Table, xmlRows: seq<Element>, columnMapping: Dictionary<int>, n: nat, ghost values: seq<seq<string>>)
    requires Valid(columnMapping) && |table.rows| >= 1
    requires |values| == |xmlRows| && forall k :: 0 <= k < |xmlRows| ==> values[k] == RowValues(xmlRows[k], columnMapping, n)
    modifies table
    ensures |table.rows| == |old(table.rows)| + |xmlRows|
    ensures table.rows[0] == old(table.rows[0]) && table.rows[|xmlRows| + 1..] == old(table.rows[1..])
    ensures forall k :: 1 <= k <= |xmlRows| ==> ShowsValues(table.rows[k], Plain, values[|xmlRows| - k])
    ensures forall p :: p in RowsParagraphs(table.rows) ==> p in old(RowsParagraphs(table.rows)) || fresh(p)
  {
    var inserted;
    ghost var parasOf, shown;
    inserted, parasOf, shown := NewRows(xmlRows, columnMapping, n, values);
    InsertedShow(inserted, parasOf, shown);
    InsertedParagraphs(inserted, parasOf);
    var header := table.rows[0];
    ghost var tail := table.rows[1..];
    table.rows := [header] + inserted + table.rows[1..];
    forall k | 1 <= k <= |xmlRows| ensures ShowsValues(table.rows[k], Plain, values[|xmlRows| - k]) {
      assert table.rows[k] == inserted[k - 1];
    }
    RowsSpliced(header, inserted, tail);
  }

  /** The rows InsertRows puts after the header, the last data row first: row j is built
      from the fresh paragraphs parasOf[j], which show shown[j], the values of data row
      |xmlRows| - 1 - j. */
  method NewRows(xmlRows: seq<Element>, columnMapping: Dictionary<int>, n: nat, ghost values: seq<seq<string>>)
    returns (inserted: seq<Row>, ghost parasOf: seq<seq<Paragraph>>, ghost shown: seq<seq<string>>)
    requires Valid(columnMapping)
    requires |values| == |xmlRows| && forall k :: 0 <= k < |xmlRows| ==> values[k] == RowValues(xmlRows[k], columnMapping, n)
    ensures |inserted| == |xmlRows| && |parasOf| == |xmlRows| && |shown| == |xmlRows|
    ensures forall j :: 0 <= j < |xmlRows| ==> inserted[j] == Row(Plain, TextCells(Plain, parasOf[j]))
    ensures forall j :: 0 <= j < |xmlRows| ==> shown[j] == values[|xmlRows| - 1 - j]
    ensures forall j :: 0 <= j < |xmlRows| ==> HasTexts(parasOf[j], shown[j])
    ensures forall j, p :: 0 <= j < |xmlRows| && p in parasOf[j] ==> fresh(p)
  {
    hide RowValues;
    inserted, parasOf, shown := [], [], [];
    var k := 0;
    while k < |xmlRows|
      invariant 0 <= k <= |xmlRows|
      invariant |inserted| == k && |parasOf| == k && |shown| == k
      invariant forall j :: 0 <= j < k ==> inserted[j] == Row(Plain, TextCells(Plain, parasOf[j]))
      invariant forall j :: 0 <= j < k ==> shown[j] == values[k - 1 - j]
      invariant forall j :: 0 <= j < k ==> HasTexts(parasOf[j], shown[j])
      invariant forall j, p :: 0 <= j < k && p in parasOf[j] ==> fresh(p)
    {
      ghost var paras;
      var newRow;
      newRow, paras := BuildRow(xmlRows[k], columnMapping, n);
      PushFrontAll(newRow, inserted);
      PushFrontAll(paras, parasOf);
      PushFrontAll(values[k], shown);
      inserted := [newRow] + inserted;
      parasOf := [paras] + parasOf;
      shown := [values[k]] + shown;
      k := k + 1;
    }
  }

  /** Rows built from paragraphs showing `shown` show it, row by row. */
  lemma InsertedShow(inserted: seq<Row>, parasOf: seq<seq<Paragraph>>, shown: seq<seq<string>>)
    requires |inserted| == |parasOf| == |shown|
    requires forall j :: 0 <= j < |inserted| ==> inserted[j] == Row(Plain, TextCells(Plain, parasOf[j]))
    requires forall j :: 0 <= j < |inserted| ==> HasTexts(parasOf[j], shown[j])
    ensures forall j :: 0 <= j < |inserted| ==> ShowsValues(inserted[j], Plain, shown[j])
  {
    forall j | 0 <= j < |inserted| ensures ShowsValues(inserted[j], Plain, shown[j]) {
      TextRowShows(Plain, parasOf[j], shown[j]);
    }
  }

  /** Every paragraph of rows built from paragraph lists is in one of the lists. */
  lemma {:induction false} InsertedParagraphs(inserted: seq<Row>, parasOf: seq<seq<Paragraph>>)
    requires |inserted| == |parasOf|
    requires forall j :: 0 <= j < |inserted| ==> inserted[j] == Row(Plain, TextCells(Plain, parasOf[j]))
    ensures forall p :: p in RowsParagraphs(inserted) ==> exists j :: 0 <= j < |parasOf| && p in parasOf[j]
    decreases |inserted|
  {
    if inserted != [] {
      var rest, restParas := inserted[1..], parasOf[1..];
      forall j | 0 <= j < |rest| ensures rest[j] == Row(Plain, TextCells(Plain, restParas[j])) {
        assert rest[j] == inserted[j + 1] && restParas[j] == parasOf[j + 1];
      }
      InsertedParagraphs(rest, restParas);
      TextCellsParagraphs(Plain, parasOf[0]);
      assert RowsParagraphs(inserted) == parasOf[0] + RowsParagraphs(rest);
      forall p | p in RowsParagraphs(inserted) ensures exists j :: 0 <= j < |parasOf| && p in parasOf[j] {
        if p !in parasOf[0] {
          assert p in RowsParagraphs(rest);
          var j :| 0 <= j < |restParas| && p in restParas[j];
          assert p in parasOf[j + 1];
        }
      }
    }
  }

  /** Putting a row right after the header of `[header] + inserted + tail`. */
  lemma PushFront(header: Row, newRow: Row, inserted: seq<Row>, tail: seq<Row>)
    ensures [header] + [newRow] + ([header] + inserted + tail)[1..] == [header] + ([newRow] + inserted) + tail
    ensures RowsParagraphs([newRow] + inserted) == RowParagraphs(newRow.cells) + RowsParagraphs(inserted)
  {
    assert ([header] + inserted + tail)[1..] == inserted + tail;
  }

  /** Indexing after putting an element in front. */
  lemma PushFrontAll<T>(x: T, s: seq<T>)
    ensures forall j :: 0 < j <= |s| ==> ([x] + s)[j] == s[j - 1]
    ensures ([x] + s)[0] == x
  {
  }

  /** Rows put between the header and the rest bring in only their own paragraphs. */
  lemma RowsSpliced(header: Row, inserted: seq<Row>, tail: seq<Row>)
    ensures forall p :: p in RowsParagraphs([header] + inserted + tail) ==>
      p in RowsParagraphs(inserted) || p in RowsParagraphs([header] + tail)
  {
    RowsParagraphsAppend([header] + inserted, tail);
    RowsParagraphsAppend([header], inserted);
    RowsParagraphsAppend([header], tail);
  }

  /** The loop looking for a cell whose text starts with "./". */
  method HasPlaceholders(texts: seq<string>) returns (found: bool)
    ensures found == HasColumnRef(texts)
  {
    found := false;
    var i := 0;
    while i < |texts|
      invariant 0 <= i <= |texts|
      invariant forall j :: 0 <= j < i ==> !IsColumnRef(texts[j])
    {
      if IsColumnRef(texts[i]) {
        found := true;
        return;
      }
      i := i + 1;
    }
  }

  /** The loop building the column mapping from the template cells. */
  method BuildMapping(texts: seq<string>, columnNames: seq<string>) returns (columnMapping: Dictionary<int>)
    ensures columnMapping == Mapping(texts, columnNames)
  {
    columnMapping := Empty();
    var i := 0;
    while i < |texts|
      invariant 0 <= i <= |texts|
      invariant columnMapping == Mapping(texts[..i], columnNames)
    {
      var prefix := texts[..i + 1];
      assert prefix[..i] == texts[..i];
      assert Mapped(prefix, columnNames, i) == Mapped(texts, columnNames, i);
      if IsColumnRef(texts[i]) {
        var placeholder := texts[i][2..];
        if placeholder in columnNames {
          columnMapping := Put(columnMapping, placeholder, i);
        }
      }
      i := i + 1;
    }
    assert texts[..|texts|] == texts;
  }

  /** The loop over the mapping entries, stopping at the first one for cell i. */
  method FindColumn(columnMapping: Dictionary<int>, i: int) returns (column: Option<string>)
    requires Valid(columnMapping)
    ensures column == ColumnFor(columnMapping.keys, columnMapping.values, i)
  {
    var keys := columnMapping.keys;
    var j := 0;
    while j < |keys|
      invariant 0 <= j <= |keys|
      invariant ColumnFor(keys, columnMapping.values, i) == ColumnFor(keys[j..], columnMapping.values, i)
    {
      if columnMapping.values[keys[j]] == i {
        return Some(keys[j]);
      }
      assert keys[j..][1..] == keys[j + 1..];
      j := j + 1;
    }
    return None;
  }

  /** One new row for a data row: a plain text cell per template cell, built from
      `paras`, new paragraphs showing the cell values. */
  method BuildRow(xmlRow: Element, columnMapping: Dictionary<int>, n: nat) returns (row: Row, ghost paras: seq<Paragraph>)
    requires Valid(columnMapping)
    ensures row == Row(Plain, TextCells(Plain, paras))
    ensures HasTexts(paras, RowValues(xmlRow, columnMapping, n))
    ensures forall p :: p in paras ==> fresh(p)
  {
    var cells: seq<Cell> := [];
    paras := [];
    var i := 0;
    while i < n
      invariant 0 <= i <= n && |cells| == i && |paras| == i
      invariant forall j :: 0 <= j < i ==> cells[j] == Cell(Plain, [CellPara(paras[j])])
      invariant forall j :: 0 <= j < i ==> paras[j].children == [RunChild(TextRun(CellValue(xmlRow, columnMapping, j)))]
      invariant forall p :: p in paras ==> fresh(p)
    {
      var column := FindColumn(columnMapping, i);
      var cellValue := if column.Some? then ChildValue(xmlRow, column.value) else "";
      var p := new Paragraph([RunChild(TextRun(cellValue))]);
      cells := cells + [Cell(Plain, [CellPara(p)])];
      paras := paras + [p];
      i := i + 1;
    }
    row := Row(Plain, cells);
  }
}
