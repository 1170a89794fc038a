# Template merge engine, modelled in Dafny

A model of the merge engine of the document-merge service: given a word-processing
document (a body of paragraphs and tables) and an XML data tree, it fills the
template's placeholders with data.

* **Content placeholders** `<#<Content Select="path"/>#>` are replaced by the text of
  the data element the path leads to. A paragraph with at least one of them loses its
  runs and gets a single run with the substituted text.
* **Table placeholders** `<#<Table Select="path"/>#>` populate the nearest table after
  their paragraph in the body's depth-first descendant list. The model's list holds the
  body's paragraphs, the body's tables and the paragraphs of those tables' cells, so the
  nearest table is the next body table (see "Left out"). The table's second
  row is the template: cells whose text starts with `./` name columns of the data rows.
  The template row is replaced by one row per data row. Each new row is inserted right
  after the header, so the rows end up in reverse data order. The placeholder is then
  cut out of its paragraph.
* `ProcessDocumentParts` runs the table pass first, over the body as it stands, then the
  content pass over the body's own paragraphs and the paragraphs of its own tables.

The modules follow the structure of the controller:

| module | file | models |
|---|---|---|
| `Wrappers` | wrappers.dfy | the optional value used wherever the code returns null |
| `Strings` | strings.dfy | `.Trim()`, `IndexOf`, `Replace`, `StartsWith` (all compared character by character) and the `\s` class of .NET |
| `Sequences` | sequences.dfy | generic sequence facts |
| `DataTree` | data_tree.dfy | the XML data tree: `Value`, `Elements()`, `Element(name)` |
| `XPath` | xpath.dfy | `CleanXPath`, `ResolveXPath` and the path walk shared by both table strategies |
| `Placeholders` | placeholders.dfy | the placeholder regular expression and `Regex.Matches` |
| `Dictionaries` | dictionary.dfy | `Dictionary<string, V>` with its insertion-ordered enumeration |
| `Document` | document.dfy | paragraphs, runs, cells, rows, tables and the body; `GetTextFromParagraph`, `GetTextFromCell`, `body.Descendants()` |
| `ContentMerge` | content_merge.dfy | `ProcessContentPlaceholders`, `ProcessParagraph`, `ProcessTable`, `ProcessBodyContent` |
| `TablePopulate` | table_populate.dfy | `UpdateExistingTableWithXmlData` |
| `TableSynthesize` | table_synthesize.dfy | `GenerateTableFromXmlData` and `ProcessTablePlaceholders` |
| `TablePass` | table_pass.dfy | `FindAndProcessTablePlaceholders` |
| `MergeEngine` | merge_engine.dfy | `ProcessDocumentParts` |

## Modelling decisions

* Paragraphs, tables and the body are classes, because the engine holds references to
  them across edits: the table pass collects paragraphs and rewrites them later, and a
  paragraph can sit in a table that the pass is populating. Rows and cells are values
  that refer to paragraph objects. Formatting (run, cell, row and table properties,
  borders, shading) is an opaque tag.
* The regular expression is a list of tokens run by a greedy engine. Every `\s*` and
  `\s+` in it is followed by a literal that starts with a non-space character, so the
  longest white-space run is the only one that can succeed. The lemmas in
  `Placeholders` show that the engine finds exactly the matches of the pattern, with the
  shortest group for the lazy `(.*?)`, and that the scan is the leftmost,
  non-overlapping list that `Regex.Matches` returns. `.` excludes only `\n`, as in .NET.
  The class `["|']` is modelled as written, so `|` counts as a quote as well.
* `\s` and `char.IsWhiteSpace` are the same character set here: U+0009-U+000D, U+0020,
  U+0085, U+00A0, U+1680, U+2000-U+200A, U+2028, U+2029, U+202F, U+205F and U+3000.
* A `Dictionary<string, V>` is a map plus the order of first insertion. That is the
  order in which `foreach` enumerates a dictionary that is only ever added to.
* The content pass visits a paragraph once per occurrence in its visiting order.
  `RewriteN` applies the one-visit rewrite that many times. In a well-formed document
  each paragraph occurs once.
* Rows built by `UpdateExistingTableWithXmlData` get plain cells holding one paragraph
  with one run. The code copies no style from the template row, and the model follows
  the code.
* `ProcessTablePlaceholders` (the synthesize strategy) is never reached, because the
  call at line 127 is commented out. It is modelled on its own, with the paragraph's
  parent given as a body or null.

## Model

| member | source | states |
|---|---|---|
| Strings.SkipSpaces | filemergeapi/filemergeapi/Controllers/DocumentMergeController.cs:161 | what a greedy `\s*` consumes from i: the longest white-space run there, so the next character is not white space |
| Strings.GreedySpacesUnique | filemergeapi/filemergeapi/Controllers/DocumentMergeController.cs:161 | a white-space run followed by a non-space character is exactly what the greedy run takes, so `\s*` before a literal never needs backtracking |
| Strings.TrimStart | filemergeapi/filemergeapi/Controllers/DocumentMergeController.cs:778 | drops a blank prefix and nothing more; the result starts with a non-space character or is empty |
| Strings.TrimEnd | filemergeapi/filemergeapi/Controllers/DocumentMergeController.cs:778 | drops a blank suffix and nothing more; the result ends with a non-space character or is empty |
| Strings.Trim | filemergeapi/filemergeapi/Controllers/DocumentMergeController.cs:178 | the result is a contiguous piece of the input with only white space cut from both ends, has no white space at either end, and is empty exactly when the input is blank |
| Strings.StartsWith | filemergeapi/filemergeapi/Controllers/DocumentMergeController.cs:369 | `s.StartsWith(prefix)`, compared character by character; no contract of its own, its use is stated by XPath.CleanXPath and XPath.CleanIgnoresSpaces (a leading "./" is dropped exactly when the path starts with it) |
| Strings.IndexOf | filemergeapi/filemergeapi/Controllers/DocumentMergeController.cs:254 | the first position at which the pattern occurs; None exactly when it occurs nowhere |
| Strings.FoundNoLater | filemergeapi/filemergeapi/Controllers/DocumentMergeController.cs:254 | IndexOf finds a pattern that occurs, at or before any of its occurrences |
| Strings.SplitAtOccurrence | filemergeapi/filemergeapi/Controllers/DocumentMergeController.cs:254 | an occurrence cuts the text into the text before it, the pattern and the rest (the Substring calls of the cut) |
| Strings.ReplaceAll | filemergeapi/filemergeapi/Controllers/DocumentMergeController.cs:197 | `String.Replace(key, value)`: no contract of its own; its meaning is stated by Strings.ReplaceAllFirst, Strings.ReplaceAllAbsent and Strings.ReplaceAllSelf |
| Strings.ReplaceAllFirst | filemergeapi/filemergeapi/Controllers/DocumentMergeController.cs:197 | String.Replace cuts at the first occurrence IndexOf finds: the text before it, the replacement, then the rest of the text replaced likewise (leftmost, non-overlapping) |
| Strings.ReplaceAllAbsent | filemergeapi/filemergeapi/Controllers/DocumentMergeController.cs:197 | String.Replace of a key that does not occur leaves the text unchanged |
| Strings.ReplaceAllSelf | filemergeapi/filemergeapi/Controllers/DocumentMergeController.cs:197 | String.Replace of a key by itself leaves the text unchanged |
| Strings.RemoveSpaces | filemergeapi/filemergeapi/Controllers/DocumentMergeController.cs:377 | `Regex.Replace(s, @"\s+", "")` leaves no white space |
| Strings.RemoveSpacesAppend | filemergeapi/filemergeapi/Controllers/DocumentMergeController.cs:377 | dropping white space distributes over concatenation |
| Strings.RemoveLeadingSpaces | filemergeapi/filemergeapi/Controllers/DocumentMergeController.cs:377 | a leading white-space run contributes nothing |
| Strings.RemoveSpacesBlank | filemergeapi/filemergeapi/Controllers/DocumentMergeController.cs:377 | a blank string becomes empty |
| Strings.RemoveSpacesNoSpace | filemergeapi/filemergeapi/Controllers/DocumentMergeController.cs:377 | a string without white space is unchanged |
| DataTree.Value | filemergeapi/filemergeapi/Controllers/DocumentMergeController.cs:347 | XElement.Value, the text of every descendant text node in document order; stated by DataTree.ValueOfTextElement and used through XPath.ResolveNoSteps |
| DataTree.ElementsOf | filemergeapi/filemergeapi/Controllers/DocumentMergeController.cs:302 | XElement.Elements(): exactly the child elements, nothing else; order and multiplicity are fixed by ElementsOfAppend and ElementsOfOne |
| DataTree.ElementsOfAppend | filemergeapi/filemergeapi/Controllers/DocumentMergeController.cs:302 | the child elements of consecutive content follow one another, so Elements() keeps document order |
| DataTree.ElementsOfOne | filemergeapi/filemergeapi/Controllers/DocumentMergeController.cs:302 | one node contributes itself when it is an element and nothing otherwise |
| DataTree.FirstNamed | filemergeapi/filemergeapi/Controllers/DocumentMergeController.cs:394 | FirstOrDefault over Elements(name): the first element with that name; None exactly when no element has it |
| DataTree.FirstChildNamed | filemergeapi/filemergeapi/Controllers/DocumentMergeController.cs:346 | `row.Element(name)`: the FIRST child with that name (no earlier child has it), None exactly when no child has it |
| DataTree.Names | filemergeapi/filemergeapi/Controllers/DocumentMergeController.cs:324 | `.Select(e => e.Name.LocalName)`: one name per element, in order |
| DataTree.ValueOfTextElement | filemergeapi/filemergeapi/Controllers/DocumentMergeController.cs:347 | the Value of an element holding only text is that text |
| XPath.CleanXPath | filemergeapi/filemergeapi/Controllers/DocumentMergeController.cs:366-382 | the cleaned path holds no white space and is the input, less one leading "./" tested before any white space is touched, with all white space removed |
| XPath.CollapseAroundSlashes | filemergeapi/filemergeapi/Controllers/DocumentMergeController.cs:374 | `Regex.Replace(xpath, @"\s*/\s*", "/")`; no contract of its own, XPath.CollapseThenRemoveSpaces and XPath.SlashRunSpaces state what it does to the cleaned path |
| XPath.CollapseThenRemoveSpaces | filemergeapi/filemergeapi/Controllers/DocumentMergeController.cs:374-377 | the first replacement (`\s*/\s*` to "/") is subsumed by the second: removing all white space gives the same result with or without it |
| XPath.SlashRunSpaces | filemergeapi/filemergeapi/Controllers/DocumentMergeController.cs:374 | white space around a slash disappears, the slash stays |
| XPath.CleanIgnoresSpaces | filemergeapi/filemergeapi/Controllers/DocumentMergeController.cs:366-382 | a path without white space is only stripped of a leading "./" |
| XPath.Split | filemergeapi/filemergeapi/Controllers/DocumentMergeController.cs:389 | String.Split('/'): at least one piece, none holding a separator, and joining the pieces gives the input back |
| XPath.SplitJoin | filemergeapi/filemergeapi/Controllers/DocumentMergeController.cs:389 | splitting the join of separator-free pieces gives the pieces back (the inverse direction of Split) |
| XPath.SplitAround | filemergeapi/filemergeapi/Controllers/DocumentMergeController.cs:389 | splitting around an explicit separator splits both sides independently |
| XPath.NonEmptyAppend | filemergeapi/filemergeapi/Controllers/DocumentMergeController.cs:389 | `.Where(p => !string.IsNullOrEmpty(p))` distributes over concatenation |
| XPath.Segments | filemergeapi/filemergeapi/Controllers/DocumentMergeController.cs:389 | the path's steps: Split('/') with RemoveEmptyEntries; stated by XPath.SegmentsAround (slashes separate, repeated slashes do not add steps) |
| XPath.SegmentsAround | filemergeapi/filemergeapi/Controllers/DocumentMergeController.cs:389 | the steps of "a/b" are the steps of a followed by those of b, whatever slashes a and b carry |
| XPath.Walk | filemergeapi/filemergeapi/Controllers/DocumentMergeController.cs:391-400 | the foreach over the steps, taking the first child element with the step's name and stopping at the first missing one; stated by XPath.WalkAppend and XPath.ResolveFailsAtMissingStep |
| XPath.WalkAppend | filemergeapi/filemergeapi/Controllers/DocumentMergeController.cs:392-400 | walking a+b is walking a, then walking b from where a ended; a failed step ends the walk |
| XPath.Locate | filemergeapi/filemergeapi/Controllers/DocumentMergeController.cs:389-400 | the element the path reaches from the root, or none; stated by XPath.ResolveAround and TablePopulate.PlanFilled |
| XPath.ResolveXPath | filemergeapi/filemergeapi/Controllers/DocumentMergeController.cs:384-409 | ResolveXPath: the Value of the element reached, "" when a step fails; stated by XPath.ResolveNoSteps, XPath.ResolveFailsAtMissingStep and XPath.ResolveAround |
| XPath.DataRows | filemergeapi/filemergeapi/Controllers/DocumentMergeController.cs:642-661 | the child elements of the element the path reaches, none when it cannot be walked; stated by TablePopulate.PlanFilled and TableSynthesize.GenerateTable |
| XPath.ResolveNoSteps | filemergeapi/filemergeapi/Controllers/DocumentMergeController.cs:384-409 | a path without steps resolves to the text of the root |
| XPath.ResolveFailsAtMissingStep | filemergeapi/filemergeapi/Controllers/DocumentMergeController.cs:392-399 | once a step finds no child of that name the result is the empty string, whatever steps follow |
| XPath.ResolveAround | filemergeapi/filemergeapi/Controllers/DocumentMergeController.cs:384-409 | resolving "a/b" is resolving b from the element a leads to, or "" when a leads nowhere |
| Placeholders.MatchTextLength | filemergeapi/filemergeapi/Controllers/DocumentMergeController.cs:177 | a placeholder's text is as long as its span and never empty, so it can serve as a Replace key |
| Placeholders.Advance | filemergeapi/filemergeapi/Controllers/DocumentMergeController.cs:161 | the greedy engine's end position is at least the pattern's shortest length past the start |
| Placeholders.HeadGuarded | filemergeapi/filemergeapi/Controllers/DocumentMergeController.cs:161 | in the head of the pattern, up to the opening quote, every white-space token is followed by a token that starts at a non-space character |
| Placeholders.TailGuarded | filemergeapi/filemergeapi/Controllers/DocumentMergeController.cs:161 | the same for the tail of the pattern, from the closing quote to "#>" |
| Placeholders.SolidStart | filemergeapi/filemergeapi/Controllers/DocumentMergeController.cs:161 | a token list led by a literal or the quote class can only start at a non-space character |
| Placeholders.AdvanceExact | filemergeapi/filemergeapi/Controllers/DocumentMergeController.cs:161 | for a guarded token list the greedy engine succeeds with end j exactly when the token list can match the text from i to j |
| Placeholders.OpenEnd | filemergeapi/filemergeapi/Controllers/DocumentMergeController.cs:161 | the opening part, when present, ends after the position following "<#" |
| Placeholders.CloseEnd | filemergeapi/filemergeapi/Controllers/DocumentMergeController.cs:161 | the closing part, when present, is at least five characters long |
| Placeholders.LazyClose | filemergeapi/filemergeapi/Controllers/DocumentMergeController.cs:161 | the lazy group ends at a position where the closing part matches |
| Placeholders.LazyCloseFirst | filemergeapi/filemergeapi/Controllers/DocumentMergeController.cs:161 | `(.*?)` is the shortest group: it holds no newline and the closing part matches at no earlier position; when it fails, no newline-free group can be closed |
| Placeholders.MatchAt | filemergeapi/filemergeapi/Controllers/DocumentMergeController.cs:161 | a match found at s starts at s and is well formed |
| Placeholders.MatchAtSound | filemergeapi/filemergeapi/Controllers/DocumentMergeController.cs:161 | every match the scanner finds is a match of the regular expression, group 1 included |
| Placeholders.MatchAtShortest | filemergeapi/filemergeapi/Controllers/DocumentMergeController.cs:161 | whenever the regular expression matches at s, the scanner finds a match there with the same group start and a group no longer than the given one |
| Placeholders.HeadKeyword | filemergeapi/filemergeapi/Controllers/DocumentMergeController.cs:212 | an opening part holds "<" and the keyword after "<#" and white space |
| Placeholders.KindsExclusive | filemergeapi/filemergeapi/Controllers/DocumentMergeController.cs:565 | no position starts both a Content and a Table placeholder |
| Placeholders.ScanFromIsMatchList | filemergeapi/filemergeapi/Controllers/DocumentMergeController.cs:162 | the leftmost, non-overlapping scan has the properties Regex.Matches promises: each match is the engine's match at its start, matches are ordered and disjoint, and no match starts in a gap |
| Placeholders.MatchListUnique | filemergeapi/filemergeapi/Controllers/DocumentMergeController.cs:162 | those properties determine the list: the scan is the only list having them |
| Placeholders.MatchListCons | filemergeapi/filemergeapi/Controllers/DocumentMergeController.cs:162 | a match at p followed by a match list from its end is a match list from p |
| Placeholders.MatchListSkipBack | filemergeapi/filemergeapi/Controllers/DocumentMergeController.cs:162 | a position without a match can be added in front of a match list |
| Placeholders.MatchListAtEnd | filemergeapi/filemergeapi/Controllers/DocumentMergeController.cs:162 | from the end of the text no match remains |
| Placeholders.MatchListHead | filemergeapi/filemergeapi/Controllers/DocumentMergeController.cs:162 | a match list from a position where a match starts begins with that match |
| Placeholders.MatchListSkip | filemergeapi/filemergeapi/Controllers/DocumentMergeController.cs:162 | a match list from a position without a match is one from the next position |
| Placeholders.OrderedStarts | filemergeapi/filemergeapi/Controllers/DocumentMergeController.cs:162 | in a match list a later match starts no earlier than an earlier one ends |
| Placeholders.Matcher | filemergeapi/filemergeapi/Controllers/DocumentMergeController.cs:162 | the matcher of one placeholder kind only yields well-formed matches starting where it was tried |
| Placeholders.Scan | filemergeapi/filemergeapi/Controllers/DocumentMergeController.cs:162 | every match of `Regex.Matches(paragraphText)` is well formed in the text |
| Placeholders.ScanSpec | filemergeapi/filemergeapi/Controllers/DocumentMergeController.cs:162 | the scan is a match list of the placeholder's regular expression from position 0, and each match is the scanner's match at its start |
| Placeholders.ScansDisjoint | filemergeapi/filemergeapi/Controllers/DocumentMergeController.cs:212 | a Content scan and a Table scan of the same text never share a match start |
| Dictionaries.Empty | filemergeapi/filemergeapi/Controllers/DocumentMergeController.cs:173 | a new dictionary is valid and enumerates no key |
| Dictionaries.Put | filemergeapi/filemergeapi/Controllers/DocumentMergeController.cs:188 | `d[key] = value`: key maps to value, other keys keep their values, a new key is enumerated last, an existing key keeps its place |
| Dictionaries.FromPairs | filemergeapi/filemergeapi/Controllers/DocumentMergeController.cs:175-189 | the dictionary built by a loop of assignments is valid: every key once, enumerated keys = stored keys |
| Dictionaries.FromPairsStep | filemergeapi/filemergeapi/Controllers/DocumentMergeController.cs:188 | one more assignment is one more Put |
| Dictionaries.FromPairsKeys | filemergeapi/filemergeapi/Controllers/DocumentMergeController.cs:188 | the keys are exactly the keys assigned |
| Dictionaries.FromPairsKeysNonEmpty | filemergeapi/filemergeapi/Controllers/DocumentMergeController.cs:188 | assigning only non-empty keys leaves only non-empty keys |
| Dictionaries.FromPairsLastWins | filemergeapi/filemergeapi/Controllers/DocumentMergeController.cs:188 | a key holds the value of its last assignment |
| Dictionaries.FromPairsOrder | filemergeapi/filemergeapi/Controllers/DocumentMergeController.cs:195 | enumeration follows first assignment: an earlier-enumerated key was assigned before the later one was ever assigned |
| Document.InlineText | filemergeapi/filemergeapi/Controllers/DocumentMergeController.cs:144-155 | GetTextFromParagraph over a child list: the texts of the runs' text children in order; stated by Document.InlineTextAppend, Document.RemoveRunsNoText and Document.CollapsedText |
| Document.ParagraphText | filemergeapi/filemergeapi/Controllers/DocumentMergeController.cs:144-155 | GetTextFromParagraph(paragraph); stated through TablePass.Texts and ContentMerge.ProcessContentPlaceholders |
| Document.RemoveRuns | filemergeapi/filemergeapi/Controllers/DocumentMergeController.cs:201 | RemoveAllChildren<Run>(): exactly the children that are not runs remain, in order |
| Document.InlineTextAppend | filemergeapi/filemergeapi/Controllers/DocumentMergeController.cs:147-154 | GetTextFromParagraph distributes over the paragraph's children |
| Document.RemoveRunsNoText | filemergeapi/filemergeapi/Controllers/DocumentMergeController.cs:201 | a paragraph without runs has no text |
| Document.RemoveRunsIdempotent | filemergeapi/filemergeapi/Controllers/DocumentMergeController.cs:201 | removing the runs twice is removing them once |
| Document.RemoveRunsAppend | filemergeapi/filemergeapi/Controllers/DocumentMergeController.cs:201 | removing runs distributes over concatenation |
| Document.CollapsedText | filemergeapi/filemergeapi/Controllers/DocumentMergeController.cs:200-205 | after removing the runs and appending one text run, the paragraph's text is that run's text and its other children are unchanged |
| Document.SingleRunText | filemergeapi/filemergeapi/Controllers/DocumentMergeController.cs:204 | `new Run(new Text(s))` alone gives the paragraph text s |
| Document.CellParagraphs | filemergeapi/filemergeapi/Controllers/DocumentMergeController.cs:774 | cell.Elements<Paragraph>(): exactly the cell's paragraphs; order and multiplicity are fixed by CellParagraphsAppend and CellParagraphsOne |
| Document.CellParagraphsAppend | filemergeapi/filemergeapi/Controllers/DocumentMergeController.cs:774 | consecutive cell items keep their paragraphs in document order |
| Document.CellParagraphsOne | filemergeapi/filemergeapi/Controllers/DocumentMergeController.cs:774 | one item contributes its paragraph, or nothing when it is not a paragraph |
| Document.CellText | filemergeapi/filemergeapi/Controllers/DocumentMergeController.cs:771-779 | GetTextFromCell is the concatenated paragraph text with a blank prefix and a blank suffix cut off, has no white space at either end, and is empty exactly when that text is blank |
| Document.TextCellText | filemergeapi/filemergeapi/Controllers/DocumentMergeController.cs:746-748 | GetTextFromCell of a cell built from one text is that text, trimmed |
| Document.TextCells | filemergeapi/filemergeapi/Controllers/DocumentMergeController.cs:746-749 | one cell per paragraph, each holding just that paragraph |
| Document.TextRowShows | filemergeapi/filemergeapi/Controllers/DocumentMergeController.cs:746-749 | a row built from paragraphs holding the values shows those values, cell by cell |
| Document.TextCellsParagraphs | filemergeapi/filemergeapi/Controllers/DocumentMergeController.cs:746-749 | the paragraphs of such a row are exactly the ones it was built from |
| Document.BodyParagraphs | filemergeapi/filemergeapi/Controllers/DocumentMergeController.cs:106 | body.Elements<Paragraph>(): exactly the body's own paragraphs; order and multiplicity are fixed by BodyParagraphsAppend and BodyParagraphsOne |
| Document.BodyParagraphsAppend | filemergeapi/filemergeapi/Controllers/DocumentMergeController.cs:106 | consecutive blocks keep their paragraphs in document order |
| Document.BodyParagraphsOne | filemergeapi/filemergeapi/Controllers/DocumentMergeController.cs:106 | one block contributes its paragraph, or nothing when it is not a paragraph |
| Document.BodyTables | filemergeapi/filemergeapi/Controllers/DocumentMergeController.cs:112 | body.Elements<Table>(): exactly the body's own tables; order and multiplicity are fixed by BodyTablesAppend and BodyTablesOne |
| Document.BodyTablesAppend | filemergeapi/filemergeapi/Controllers/DocumentMergeController.cs:112 | consecutive blocks keep their tables in document order |
| Document.BodyTablesOne | filemergeapi/filemergeapi/Controllers/DocumentMergeController.cs:112 | one block contributes its table, or nothing when it is not a table |
| Document.ContentOrder | filemergeapi/filemergeapi/Controllers/DocumentMergeController.cs:103-142 | the order in which ProcessBodyContent visits paragraphs: body paragraphs first, then the paragraphs of each body table's cells; stated by Document.ContentOrderInDescendants and ContentMerge.ProcessBodyContent |
| Document.Descendants | filemergeapi/filemergeapi/Controllers/DocumentMergeController.cs:568 | body.Descendants() restricted to body paragraphs, body tables and body-table cell paragraphs, in pre-order; stated by Document.DescendantsAppend, Document.DescendantsWithoutTables and the InDescendants lemmas |
| Document.DescendantsAppend | filemergeapi/filemergeapi/Controllers/DocumentMergeController.cs:568 | the descendants of consecutive blocks follow one another in the list |
| Document.DescendantsWithoutTables | filemergeapi/filemergeapi/Controllers/DocumentMergeController.cs:568 | blocks that hold no table contribute only paragraphs to the list |
| Document.ContentOrderInDescendants | filemergeapi/filemergeapi/Controllers/DocumentMergeController.cs:568 | every paragraph the content pass visits is among body.Descendants() |
| Document.TableRowsInDescendants | filemergeapi/filemergeapi/Controllers/DocumentMergeController.cs:568 | every paragraph in a body table's rows is among body.Descendants() |
| Document.BodyTableInDescendants | filemergeapi/filemergeapi/Controllers/DocumentMergeController.cs:568 | every body table is among body.Descendants() |
| Document.TablesParagraphsOrigin | filemergeapi/filemergeapi/Controllers/DocumentMergeController.cs:112-115 | a paragraph of the tables' cells lies in the rows of one of the tables |
| ContentMerge.PlaceholderValue | filemergeapi/filemergeapi/Controllers/DocumentMergeController.cs:177-184 | group 1, trimmed, cleaned and resolved; stated by ContentMerge.ReplacementPairs and ContentMerge.ReplacementValue |
| ContentMerge.ReplacementPairs | filemergeapi/filemergeapi/Controllers/DocumentMergeController.cs:175-189 | one (match.Value, value) pair per Content match, in scan order, each key non-empty and each value the resolved, trimmed and cleaned group 1 |
| ContentMerge.Replacements | filemergeapi/filemergeapi/Controllers/DocumentMergeController.cs:173-189 | the replacements dictionary is valid and every enumerated key is non-empty and stored |
| ContentMerge.ReplacementKeys | filemergeapi/filemergeapi/Controllers/DocumentMergeController.cs:175-189 | the dictionary holds exactly the placeholder texts found in the paragraph |
| ContentMerge.ReplacementValue | filemergeapi/filemergeapi/Controllers/DocumentMergeController.cs:188 | a placeholder text is replaced by the value of its last occurrence |
| ContentMerge.ReplacementOrder | filemergeapi/filemergeapi/Controllers/DocumentMergeController.cs:195-198 | replacements are applied in first-seen order of the placeholder texts |
| ContentMerge.ApplyAll | filemergeapi/filemergeapi/Controllers/DocumentMergeController.cs:195-198 | the foreach over the replacements; stated by ContentMerge.ApplyAllStep (one Replace per key, in enumeration order) and ContentMerge.ApplyReplacements |
| ContentMerge.ApplyAllStep | filemergeapi/filemergeapi/Controllers/DocumentMergeController.cs:195-198 | applying one more key is one more String.Replace on the text so far |
| ContentMerge.Substituted | filemergeapi/filemergeapi/Controllers/DocumentMergeController.cs:173-198 | the paragraph's text after all replacements; stated by ContentMerge.SinglePlaceholder, ContentMerge.ReplacementValue and ContentMerge.ReplacementOrder |
| ContentMerge.SinglePlaceholder | filemergeapi/filemergeapi/Controllers/DocumentMergeController.cs:192-198 | with one placeholder, every occurrence of its text is replaced by its value |
| ContentMerge.Rewrite | filemergeapi/filemergeapi/Controllers/DocumentMergeController.cs:157-206 | ProcessContentPlaceholders on a child list: unchanged without a match, otherwise runs removed and one run with the substituted text appended; stated by ContentMerge.ContentRewriteShape and ContentMerge.ProcessContentPlaceholders |
| ContentMerge.ContentRewriteShape | filemergeapi/filemergeapi/Controllers/DocumentMergeController.cs:157-206 | no Content match: the paragraph is unchanged; otherwise every run goes, the other children stay in order, and one run holding the substituted text is appended |
| ContentMerge.RewriteNStable | filemergeapi/filemergeapi/Controllers/DocumentMergeController.cs:118-128 | once the substituted text holds no placeholder, visiting a paragraph again changes nothing |
| ContentMerge.RewriteNStep | filemergeapi/filemergeapi/Controllers/DocumentMergeController.cs:118-128 | one more visit is one more ProcessParagraph |
| ContentMerge.RewriteNAdd | filemergeapi/filemergeapi/Controllers/DocumentMergeController.cs:103-116 | visiting a times, then b times, is visiting a + b times |
| ContentMerge.IterateFixed | filemergeapi/filemergeapi/Controllers/DocumentMergeController.cs:118-128 | a rewrite that is idempotent on a paragraph gives the same result however many times it is applied |
| ContentMerge.VisitsAppend | filemergeapi/filemergeapi/Controllers/DocumentMergeController.cs:103-116 | a pass over a + b visits a paragraph as often as the two passes together |
| ContentMerge.ProcessContentPlaceholders | filemergeapi/filemergeapi/Controllers/DocumentMergeController.cs:157-206 | the paragraph's children become the rewrite of their text: unchanged without matches, otherwise the non-run children followed by one run with the substituted text |
| ContentMerge.CollectReplacements | filemergeapi/filemergeapi/Controllers/DocumentMergeController.cs:175-189 | the first loop builds the replacements dictionary of the paragraph text |
| ContentMerge.ApplyReplacements | filemergeapi/filemergeapi/Controllers/DocumentMergeController.cs:192-198 | the second loop applies each key's String.Replace in enumeration order |
| ContentMerge.ProcessParagraph | filemergeapi/filemergeapi/Controllers/DocumentMergeController.cs:118-128 | the paragraph's own text drives the rewrite of its children |
| ContentMerge.ProcessParagraphs | filemergeapi/filemergeapi/Controllers/DocumentMergeController.cs:106-109 | after a pass over a list every paragraph has been rewritten once per occurrence in the list |
| ContentMerge.ProcessTable | filemergeapi/filemergeapi/Controllers/DocumentMergeController.cs:130-142 | every paragraph of the table's cells that existed before is rewritten once per occurrence, row by row and cell by cell |
| ContentMerge.ProcessTables | filemergeapi/filemergeapi/Controllers/DocumentMergeController.cs:112-115 | the same over all the body's tables, table by table |
| ContentMerge.ProcessBodyContent | filemergeapi/filemergeapi/Controllers/DocumentMergeController.cs:103-116 | every paragraph the content pass reaches (body paragraphs, then table-cell paragraphs) is rewritten once per visit |
| ContentMerge.ComposeVisits | filemergeapi/filemergeapi/Controllers/DocumentMergeController.cs:103-116 | a pass over ps after a pass over done is a pass over done + ps |
| ContentMerge.VisitsAdd | filemergeapi/filemergeapi/Controllers/DocumentMergeController.cs:103-116 | visiting as often as in done and then as often as in ps is visiting as often as in done + ps |
| TablePopulate.Mapping | filemergeapi/filemergeapi/Controllers/DocumentMergeController.cs:699-713 | the column mapping is a valid dictionary |
| TablePopulate.MappingSpec | filemergeapi/filemergeapi/Controllers/DocumentMergeController.cs:699-713 | the mapping holds exactly the columns named by a `./` template cell and present in the first data row, each mapped to the last cell naming it |
| TablePopulate.MappingEmpty | filemergeapi/filemergeapi/Controllers/DocumentMergeController.cs:715-719 | the mapping is empty exactly when no template cell names a column of the first data row |
| TablePopulate.ColumnFor | filemergeapi/filemergeapi/Controllers/DocumentMergeController.cs:736-744 | the first mapping entry for cell i, or None exactly when no entry maps to i |
| TablePopulate.MappedColumn | filemergeapi/filemergeapi/Controllers/DocumentMergeController.cs:731-744 | a cell shows the column it names exactly when it is the last cell naming a mapped column, whatever the enumeration order |
| TablePopulate.WinnerMapped | filemergeapi/filemergeapi/Controllers/DocumentMergeController.cs:710 | the last cell naming a mapped column is where the mapping sends that column |
| TablePopulate.CellValue | filemergeapi/filemergeapi/Controllers/DocumentMergeController.cs:733-744 | a new cell's text: the mapped child's Value, "" for an unmapped column or a missing child; stated by TablePopulate.FilledValues |
| TablePopulate.ColumnNames | filemergeapi/filemergeapi/Controllers/DocumentMergeController.cs:695-696 | the local names of the first data row's children; stated by TablePopulate.MappingSpec and TablePopulate.PlanFilled |
| TablePopulate.RowValues | filemergeapi/filemergeapi/Controllers/DocumentMergeController.cs:731-750 | a new row has as many values as the template has cells |
| TablePopulate.Plan | filemergeapi/filemergeapi/Controllers/DocumentMergeController.cs:642-761 | the outcome of UpdateExistingTableWithXmlData for each early return, or the values of the new rows; stated by TablePopulate.PlanFilled and TablePopulate.FilledValues |
| TablePopulate.PlanFilled | filemergeapi/filemergeapi/Controllers/DocumentMergeController.cs:642-719 | the table is filled exactly when the path leads to an element with children, the table has at least two rows, a template cell starts with "./" and a named column exists in the first data row |
| TablePopulate.PlanIsFilled | filemergeapi/filemergeapi/Controllers/DocumentMergeController.cs:642-719 | when every guard passes, the plan fills one row of values per data row, from the mapping |
| TablePopulate.FilledValues | filemergeapi/filemergeapi/Controllers/DocumentMergeController.cs:725-750 | a filled table gets one row per data row, as wide as the template; a cell shows the value of the column it wins, "" otherwise |
| TablePopulate.Populated | filemergeapi/filemergeapi/Controllers/DocumentMergeController.cs:722-761 | the template row replaced by one row per data row, inserted after the header so they end in reverse order; stated by TablePopulate.FillTable |
| TablePopulate.Updated | filemergeapi/filemergeapi/Controllers/DocumentMergeController.cs:642-761 | one call of UpdateExistingTableWithXmlData: rows unchanged on every early return, populated otherwise; stated by TablePopulate.UpdateExistingTable |
| TablePopulate.CellTexts | filemergeapi/filemergeapi/Controllers/DocumentMergeController.cs:678-680 | one GetTextFromCell per template cell |
| TablePopulate.CellTextsAt | filemergeapi/filemergeapi/Controllers/DocumentMergeController.cs:704 | the i-th text is GetTextFromCell of the i-th cell |
| TablePopulate.DropTemplate | filemergeapi/filemergeapi/Controllers/DocumentMergeController.cs:722 | removing the template row brings in no paragraph |
| TablePopulate.PushFront | filemergeapi/filemergeapi/Controllers/DocumentMergeController.cs:755 | inserting a row right after the header of [header] + inserted + tail gives [header] + [new] + inserted + tail |
| TablePopulate.RowsSpliced | filemergeapi/filemergeapi/Controllers/DocumentMergeController.cs:753-756 | rows put between the header and the rest bring in only their own paragraphs |
| TablePopulate.HasPlaceholders | filemergeapi/filemergeapi/Controllers/DocumentMergeController.cs:677-686 | the found flag is true exactly when some template cell's text starts with "./" |
| TablePopulate.BuildMapping | filemergeapi/filemergeapi/Controllers/DocumentMergeController.cs:699-713 | the loop builds the column mapping |
| TablePopulate.FindColumn | filemergeapi/filemergeapi/Controllers/DocumentMergeController.cs:736-744 | the loop stops at the first mapping entry for cell i |
| TablePopulate.BuildRow | filemergeapi/filemergeapi/Controllers/DocumentMergeController.cs:728-750 | a new row of plain text cells, one per template cell, holding the row's values |
| TablePopulate.NewRows | filemergeapi/filemergeapi/Controllers/DocumentMergeController.cs:725-761 | one new row per data row, the last data row first, each showing its values in fresh paragraphs |
| TablePopulate.InsertRows | filemergeapi/filemergeapi/Controllers/DocumentMergeController.cs:725-761 | the header stays first, the new rows follow in reverse data order, then the rows after the template, unchanged |
| TablePopulate.FillTable | filemergeapi/filemergeapi/Controllers/DocumentMergeController.cs:721-761 | the template row is replaced by the new rows, in reverse data order, after the header |
| TablePopulate.UpdateExistingTable | filemergeapi/filemergeapi/Controllers/DocumentMergeController.cs:637-769 | a table no guard lets through keeps its rows; otherwise its template row is replaced by one row per data row, after the header and in reverse data order, each cell showing the value of the column it wins; only fresh paragraphs are added |
| TableSynthesize.ShowsTable | filemergeapi/filemergeapi/Controllers/DocumentMergeController.cs:323-357 | the generated rows: a shaded header naming the columns, then one row per data row with its values; stated by TableSynthesize.GenerateTable |
| TableSynthesize.Synthesized | filemergeapi/filemergeapi/Controllers/DocumentMergeController.cs:280-364 | GenerateTableFromXmlData's result: an empty table when the path fails or has no data rows, else a bordered table showing them; stated by TableSynthesize.GenerateTable |
| TableSynthesize.SynthValues | filemergeapi/filemergeapi/Controllers/DocumentMergeController.cs:344-348 | one value per column name: the text of the same-named child of the data row, "" when missing |
| TableSynthesize.GenerateTable | filemergeapi/filemergeapi/Controllers/DocumentMergeController.cs:280-364 | a fresh table, empty and without properties when the path leads nowhere or to an element without children; otherwise single borders, a shaded header naming the first data row's children, and one row per data row in order |
| TableSynthesize.HeaderRow | filemergeapi/filemergeapi/Controllers/DocumentMergeController.cs:327-338 | one shaded cell per column name, holding the name |
| TableSynthesize.DataRow | filemergeapi/filemergeapi/Controllers/DocumentMergeController.cs:343-354 | one plain cell per column name, holding the row's value for it |
| TableSynthesize.DataRowsFor | filemergeapi/filemergeapi/Controllers/DocumentMergeController.cs:341-355 | one generated row per data row, in order |
| TableSynthesize.TablePairs | filemergeapi/filemergeapi/Controllers/DocumentMergeController.cs:223-237 | one (match.Value, cleaned path) pair per Table match, in scan order, keys non-empty |
| TableSynthesize.TableRequests | filemergeapi/filemergeapi/Controllers/DocumentMergeController.cs:221-237 | the dictionary of table placeholders is valid and its enumerated keys are non-empty and stored |
| TableSynthesize.TextPieces | filemergeapi/filemergeapi/Controllers/DocumentMergeController.cs:255-259 | a text piece for the text unless it is blank |
| TableSynthesize.Layout | filemergeapi/filemergeapi/Controllers/DocumentMergeController.cs:251-273 | the split of the paragraph text around the table placeholders, in dictionary order; stated by TableSynthesize.LayoutStep, LayoutKeepsText, LayoutTables and LayoutSome |
| TableSynthesize.LayoutStep | filemergeapi/filemergeapi/Controllers/DocumentMergeController.cs:251-266 | the cut for one key: text before its first occurrence (if not blank), its table, then the cut of the rest; no occurrence means no layout |
| TableSynthesize.LayoutKeepsText | filemergeapi/filemergeapi/Controllers/DocumentMergeController.cs:251-273 | every non-white-space character of the paragraph text survives, in order, each table standing for its placeholder |
| TableSynthesize.LayoutTables | filemergeapi/filemergeapi/Controllers/DocumentMergeController.cs:251-266 | the layout holds one table per key, in the dictionary's enumeration order |
| TableSynthesize.FirstAt | filemergeapi/filemergeapi/Controllers/DocumentMergeController.cs:236 | the position of the first pair assigning key k |
| TableSynthesize.FirstAtOrder | filemergeapi/filemergeapi/Controllers/DocumentMergeController.cs:251 | keys are enumerated in the order of their first assignment |
| TableSynthesize.LayoutFrom | filemergeapi/filemergeapi/Controllers/DocumentMergeController.cs:254 | from a position no later than key j's first match, the rest of the keys are all found |
| TableSynthesize.NextFrom | filemergeapi/filemergeapi/Controllers/DocumentMergeController.cs:254-265 | IndexOf finds key j at or before its first match, and the rest of the text starts no later than the next key's first match |
| TableSynthesize.LayoutSome | filemergeapi/filemergeapi/Controllers/DocumentMergeController.cs:254 | the cut never fails: each key's IndexOf finds it in the text left by the previous keys |
| TableSynthesize.Pieces | filemergeapi/filemergeapi/Controllers/DocumentMergeController.cs:251-273 | the layout of the paragraph text |
| TableSynthesize.LayoutEnd | filemergeapi/filemergeapi/Controllers/DocumentMergeController.cs:269-273 | with no key left, the remaining text becomes a paragraph unless blank |
| TableSynthesize.CollectTables | filemergeapi/filemergeapi/Controllers/DocumentMergeController.cs:223-237 | one generated table per distinct table placeholder, enumerated like the path dictionary, each table what GenerateTableFromXmlData gives for the placeholder's last path |
| TableSynthesize.AddTable | filemergeapi/filemergeapi/Controllers/DocumentMergeController.cs:232-236 | `replacements[placeholder] = GenerateTableFromXmlData(xml, xpath)`: the new table is stored under the placeholder, the others stay |
| TableSynthesize.BlockIndex | filemergeapi/filemergeapi/Controllers/DocumentMergeController.cs:258 | the paragraph's position among its parent's blocks |
| TableSynthesize.Cut | filemergeapi/filemergeapi/Controllers/DocumentMergeController.cs:251-273 | the blocks inserted before the paragraph, one per piece of the layout: a fresh paragraph for a text piece, the stored table for a table piece |
| TableSynthesize.ProcessTablePlaceholders | filemergeapi/filemergeapi/Controllers/DocumentMergeController.cs:208-278 | without Table matches, or without a parent, nothing changes; otherwise the paragraph is replaced in place by the layout's blocks: text before each placeholder, its generated table, trailing text |
| TableSynthesize.RequestsNonEmpty | filemergeapi/filemergeapi/Controllers/DocumentMergeController.cs:240 | a paragraph with Table matches asks for at least one table |
| TablePass.Texts | filemergeapi/filemergeapi/Controllers/DocumentMergeController.cs:578 | GetTextFromParagraph at every paragraph position of the descendant list |
| TablePass.FindsIn | filemergeapi/filemergeapi/Controllers/DocumentMergeController.cs:583-593 | one entry per Table match of the paragraph, in match order: the paragraph, match.Value, the trimmed and cleaned group 1, and the position |
| TablePass.FindsStep | filemergeapi/filemergeapi/Controllers/DocumentMergeController.cs:574-596 | one more descendant adds its own entries at the end |
| TablePass.FindsSpec | filemergeapi/filemergeapi/Controllers/DocumentMergeController.cs:574-596 | the list holds exactly one entry per Table match of each descendant paragraph, each at its paragraph's position, in descendant order |
| TablePass.FindsSound | filemergeapi/filemergeapi/Controllers/DocumentMergeController.cs:574-596 | every entry comes from a match of its own paragraph and entries follow the descendant order |
| TablePass.FindsLocated | filemergeapi/filemergeapi/Controllers/DocumentMergeController.cs:574-596 | every entry names the paragraph at its position and a non-empty placeholder |
| TablePass.FindsOrdered | filemergeapi/filemergeapi/Controllers/DocumentMergeController.cs:574-596 | entry positions lie in the list and never decrease |
| TablePass.ConcatOrdered | filemergeapi/filemergeapi/Controllers/DocumentMergeController.cs:591 | appending entries for the next position keeps positions ordered |
| TablePass.FindsComplete | filemergeapi/filemergeapi/Controllers/DocumentMergeController.cs:574-596 | every Table match of every descendant paragraph has its entry |
| TablePass.PassFinds | filemergeapi/filemergeapi/Controllers/DocumentMergeController.cs:568-596 | the entries of the descendant list as it stands name its paragraphs at their positions |
| TablePass.NearestTable | filemergeapi/filemergeapi/Controllers/DocumentMergeController.cs:604-612 | the first table strictly after position i; None exactly when no table follows |
| TablePass.TableAfter | filemergeapi/filemergeapi/Controllers/DocumentMergeController.cs:601-612 | the table an entry is routed to, if any, is one of the descendant tables |
| TablePass.Strip | filemergeapi/filemergeapi/Controllers/DocumentMergeController.cs:620-628 | cutting one placeholder: text without it collapsed into one run unless blank; stated by TablePass.StripShape and TablePass.StripPlaceholder |
| TablePass.StripAll | filemergeapi/filemergeapi/Controllers/DocumentMergeController.cs:620-628 | the cuts of several entries on one paragraph, in order; stated by TablePass.StripAllKeepsOthers, TablePass.StripAllSnoc and TablePass.StripAllNone |
| TablePass.NextBodyTable | filemergeapi/filemergeapi/Controllers/DocumentMergeController.cs:601-612 | the first body table after a block, if any: a table lies after it and no table lies between |
| TablePass.RoutedToNextBodyTable | filemergeapi/filemergeapi/Controllers/DocumentMergeController.cs:601-612 | an entry from a block's own part of the descendant list is routed to the first body table after that block, or nowhere |
| TablePass.ParagraphBeforeTable | filemergeapi/filemergeapi/Controllers/DocumentMergeController.cs:601-612 | a body paragraph directly followed by a body table is routed to that table |
| TablePass.CellParagraphPassesItsTable | filemergeapi/filemergeapi/Controllers/DocumentMergeController.cs:601-612 | a paragraph in a body table's cells is routed to the first body table after it, never to its own table |
| TablePass.StripShape | filemergeapi/filemergeapi/Controllers/DocumentMergeController.cs:620-628 | after a cut the paragraph's text is the old text with the placeholder removed, or nothing when that is blank; its other children stay |
| TablePass.StripAllKeepsOthers | filemergeapi/filemergeapi/Controllers/DocumentMergeController.cs:620-628 | however many placeholders are cut, the children that are not runs survive, in order |
| TablePass.StripAllSnoc | filemergeapi/filemergeapi/Controllers/DocumentMergeController.cs:620-628 | cutting one more placeholder is one more cut on the result |
| TablePass.Stripped | filemergeapi/filemergeapi/Controllers/DocumentMergeController.cs:599-634 | the placeholders cut out of a paragraph are non-empty |
| TablePass.StrippedStep | filemergeapi/filemergeapi/Controllers/DocumentMergeController.cs:614-629 | an entry routed to a table adds its placeholder to its own paragraph's cuts |
| TablePass.StrippedAbsent | filemergeapi/filemergeapi/Controllers/DocumentMergeController.cs:599-634 | a paragraph that no entry names is never cut |
| TablePass.TargetedStep | filemergeapi/filemergeapi/Controllers/DocumentMergeController.cs:614 | a table is targeted by one more entry exactly when it was, or that entry is routed to it |
| TablePass.CollectFinds | filemergeapi/filemergeapi/Controllers/DocumentMergeController.cs:568-596 | the first loop builds the entry list of the descendant list as it stands |
| TablePass.FindNearestTable | filemergeapi/filemergeapi/Controllers/DocumentMergeController.cs:601-612 | the inner search returns the table the entry is routed to, or null |
| TablePass.StripPlaceholder | filemergeapi/filemergeapi/Controllers/DocumentMergeController.cs:620-628 | Replace(placeholder, ""), RemoveAllChildren<Run>() and the run appended when the text is not blank |
| TablePass.ProgressStart | filemergeapi/filemergeapi/Controllers/DocumentMergeController.cs:599 | before the second loop nothing has been cut or populated |
| TablePass.ProgressDone | filemergeapi/filemergeapi/Controllers/DocumentMergeController.cs:599-634 | after the second loop the invariant gives the final state of paragraphs and tables |
| TablePass.ApplyEntry | filemergeapi/filemergeapi/Controllers/DocumentMergeController.cs:614-629 | one routed entry: its table is populated and its placeholder cut from its paragraph |
| TablePass.SkipEntry | filemergeapi/filemergeapi/Controllers/DocumentMergeController.cs:630-633 | an entry without a table after it changes nothing |
| TablePass.RouteEntry | filemergeapi/filemergeapi/Controllers/DocumentMergeController.cs:617 | populating the routed table keeps every other table and the record of earlier populations |
| TablePass.CutEntry | filemergeapi/filemergeapi/Controllers/DocumentMergeController.cs:620-628 | cutting the placeholder changes only the entry's paragraph |
| TablePass.ApplyFinds | filemergeapi/filemergeapi/Controllers/DocumentMergeController.cs:599-634 | every listed paragraph has exactly its routed placeholders cut, in list order; untargeted tables keep their rows; a table targeted once whose rows hold no listed paragraph is updated as UpdateExistingTableWithXmlData does; only fresh paragraphs enter tables |
| TablePass.FindAndProcessTablePlaceholders | filemergeapi/filemergeapi/Controllers/DocumentMergeController.cs:562-635 | the two loops over body.Descendants() as it stood: routed placeholders are cut out of their paragraphs, untargeted tables are unchanged, a sole target is populated from the entry's path, and every paragraph the content pass will visit was there before or is fresh |
| MergeEngine.ProcessDocumentParts | filemergeapi/filemergeapi/Controllers/DocumentMergeController.cs:79-101 | no body: nothing changes; otherwise the table pass runs first and the content pass second: each original paragraph ends as its table-pass cuts followed by one content rewrite per visit, and untargeted tables keep their rows |

## Left out

- The HTTP endpoints (`MergeDocx`, `DownloadFile`, `GenerateSampleDocx`), file upload, loading the XML and opening and saving the document (`filemergeapi/filemergeapi/Controllers/DocumentMergeController.cs:28-77`, line 100): I/O outside the engine. Program.cs (service setup) is not part of this model.
- Logging: every `_logger` call is left out because it has no effect on the document.
- The `try`/`catch` blocks of `ResolveXPath`, `GenerateTableFromXmlData` and `UpdateExistingTableWithXmlData`: nothing in the model can throw, so their fallback paths are not modelled.
- `GenerateTableFromXml` (lines 411-478) is never called, so it is not modelled.
- Document parts other than the main body (headers, footers, footnotes) are not modelled; the engine never visits them either.
- Cell content other than paragraphs, such as a nested table, is an opaque item. Only `cell.Elements<Paragraph>()` is traversed, and the descendant list includes only paragraphs of a body table's cells. A placeholder inside a nested table is therefore not modelled.
- Body children other than paragraphs and tables are opaque items.
- Document.Descendants: paragraphs and tables inside opaque items (a content control around a block, a nested table in a cell, any other wrapper) are not in the descendant list. They are never scanned for table placeholders and never chosen as a routing target. Where the code routes a placeholder to such a hidden table, the model routes it to a later body table, or to none.
- Element names are plain strings. The code looks children up by a namespace-less `XName` built from a string (`Elements(part)` at lines 394, 647 and 290, `Element(columnName)` at line 346, `Element(mapping.Key)` at line 740), while column names come from `Name.LocalName` (lines 324 and 696). With a data file that declares a default namespace, every such lookup fails in the code and succeeds in the model. Namespaces are not modelled.
- `StartsWith("./")` (lines 369, 681 and 705) and `IndexOf(key)` (lines 254 and 265) use the current culture in .NET. The model compares characters one by one, which is what the ordinal overloads do; culture-specific comparison rules (ignorable characters, for one) are not modelled.
- Runs are direct paragraph children only; runs inside hyperlinks and other wrappers are opaque and contribute no text, as in `paragraph.Elements<Run>()`.
- `InsertAfter`, `InsertBefore`, `Remove` and `RemoveChild` change the row or block sequence in one assignment. The final sequence is the same as the code's step-by-step edits, but parent links are not modelled.
- TablePass.ApplyFinds: states the final rows only of a table that exactly one entry targets and whose rows hold no listed paragraph. A table targeted several times, or one whose rows hold a placeholder paragraph, is updated several times or has a template cut between updates. Only the bound on its paragraphs (old or fresh) is stated for it.
- TablePass.FindAndProcessTablePlaceholders: the same limit as ApplyFinds on tables targeted more than once.
- MergeEngine.ProcessDocumentParts: states the fate of the paragraphs and of the untargeted tables present before the call. It does not follow the content pass over the fresh paragraphs of a populated table; their initial contents come from TablePass.FindAndProcessTablePlaceholders and TablePopulate.UpdateExistingTable.
- TableSynthesize.ProcessTablePlaceholders: requires that the given parent really holds the paragraph, which is what `paragraph.Parent` guarantees. Parents other than the body (a table cell) are not modelled.
