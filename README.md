# filterCSV outline tree, modelled in Dafny

filterCSV reads a mind-map outline as flat CSV rows and keeps it as a tree of
`CSVTree` nodes. Each node holds six data fields: `shape`, `colour`, `note`,
`level`, `position` and `cell`. It also holds an ordered list of child nodes, a
parent reference and a `matched` flag. The program matches criteria against
nodes, annotates the matched ones with a palette colour and a note, and writes
the tree back out as rows.

This project models that node class and the behaviour the test file pins down:

- building a node;
- adding, listing and deleting children in place;
- matching a criterion against four of the fields;
- the maximum level of a subtree;
- writing a subtree into the caller's output array, one row per visible node, in document order;
- the annotate run `'^A1$' '3 note'`: the action names palette entry 3, the pass
  colours and notes the matching node, and the report lists the rule and the
  colour the pass applied.

Modules:

- `Patterns` (`patterns.dfy`): criterion search over one text. A criterion is
  literal text with an optional leading `^` and trailing `$` anchor.
  `Search` is proved equal to "there is an anchored occurrence".
- `Records` (`records.dfy`): the six fields, `IsMatch` over shape, colour, note
  and cell, the annotate step on one record, and the row a record writes. The
  row is `[colour, note, position, shape, level, "" × level, cell]`, with a
  decoder proved to be its inverse.
- `Outline` (`outline.dfy`): the tree as a value (`Node`). It defines:
  - its records in document order;
  - the rows a subtree writes;
  - the maximum level;
  - the annotate pass.

  Each of these is related to the flat document-order list of records.
- `Trees` (`csvtree.dfy`): the `CSVTree` class. Its fields are the source's:
  `data`, `childNodes`, `parent` and `matched`. Methods update them in place.
  The ghost field `model` holds the subtree as an `Outline.Node`, `Valid()`
  keeps it in step with the objects, and every operation is specified against
  `model`. `OutputArray` is the caller's list that `WriteCSVTree` appends to and
  hands back.
- `Report` (`report.dfy`): the diagnostic report of an annotate run:
  - a two-column rule table whose first column is 41 characters wide;
  - two empty lines;
  - one `<palette index> <hex>` line per colour used.

  It also defines a one-rule run, `AnnotateRun`. The run reads the palette index
  from the action, annotates the tree, and derives the used-colour list from the
  matches the pass made.
- `Fixtures` (`fixtures.dfy`): the unit tests replayed on the class as methods
  with assertions, and the expected annotate output and report stated as lemmas.

In this model a negative level hides only the node's own row; its children are
still written (see `Trees.CSVTree.WriteCSVTree` under "Left out"). The sample
outline has two top-level rows (A and X) in one output. It is modelled as a
hidden root with level -1 whose children are written. The
palette is a parameter (`palette: seq<string>`); the lemmas only need entry 3
to be `FFFFB2`.

## Model

| member | source | states |
|---|---|---|
| Trees.CSVTree.constructor | test_filterCSV.py:14-23 | the six arguments land in `shape, colour, note, level, position, cell` in that order; no children, no parent, not matched; the subtree is a single node |
| Trees.CSVTree.SetLevel | test_filterCSV.py:47-52 | assigning the level changes only the level, in the data and in the subtree's value |
| Trees.CSVTree.AddChild | test_filterCSV.py:26-30 | the child is appended last, all earlier children keep their places, the child's parent is this node, and the subtree gains the child's subtree as its last child |
| Trees.CSVTree.GetChildren | test_filterCSV.py:31 | returns the child list itself, in order |
| Trees.CSVTree.DeleteChild | test_filterCSV.py:32-34 | afterwards the child is absent; if it was a child, exactly its one position is removed from the list and from the subtree, and every other child keeps its order; otherwise nothing changes |
| Fixtures.AddThenDelete | test_filterCSV.py:26-34 | deleting the child just added gives back exactly the earlier child list and subtree |
| Trees.CSVTree.IsMatch | test_filterCSV.py:37-42 | the node matches exactly when the criterion has an anchored occurrence in its shape, colour, note or cell |
| Records.IsMatchMeaning | test_filterCSV.py:37-42 | `Records.IsMatch` holds exactly when the criterion has an anchored occurrence in one of shape, colour, note and cell; level and position are not searched |
| Records.IsMatchIgnoresLevelAndPosition | test_filterCSV.py:41-42 | changing level or position never changes the match result |
| Patterns.Search | test_filterCSV.py:37-42 | the search is true exactly when the criterion occurs in the text, starting at 0 under `^` and ending at the end under `$` |
| Patterns.ContainsCorrect | test_filterCSV.py:37-42 | the left-to-right scan finds a text exactly when it occurs at some index |
| Patterns.ParseRender | test_filterCSV.py:102 | splitting a criterion into anchors and literal text loses nothing |
| Patterns.MatchHasEveryCharacter | test_filterCSV.py:41-42 | a matched text contains every character of the criterion's literal part |
| Fixtures.MatchingCriteriaMatch | test_filterCSV.py:39-40 | each of `shape ape colour col r note no cell ell` matches the test record |
| Fixtures.NonMatchingCriteriaFail | test_filterCSV.py:41-42 | none of `level position x X y Y z Z 1 … 0` matches the test record, whatever its level |
| Fixtures.MissingCharacter | test_filterCSV.py:41-42 | a criterion with a character that none of the four searched fields holds does not match |
| Fixtures.IsMatchScenario | test_filterCSV.py:37-42 | both lists of the isMatch test, as one statement |
| Trees.CSVTree.CalculateMaximumLevel | test_filterCSV.py:45-56 | the node's answer is the maximum level of its subtree's value |
| Trees.CSVTree.MaxFrom | test_filterCSV.py:45-56 | the fold over the children from index `i` gives the largest of the node's level and those children's maximum levels |
| Outline.MaxLevelIsMaximum | test_filterCSV.py:45-56 | `Outline.MaxLevel` is at least every level in the subtree and equals one of them |
| Outline.MaxLevelAllIsMaximum | test_filterCSV.py:45-56 | the same for `Outline.MaxLevelAll` over a list of subtrees and a floor value |
| Outline.LeafMaxLevel | test_filterCSV.py:46-50 | a leaf's maximum level is its own level |
| Outline.OneChildMaxLevel | test_filterCSV.py:51-54 | with one leaf child, the maximum level is the larger of the two levels |
| Trees.OutputArray.constructor | test_filterCSV.py:60 | the caller's array starts out holding exactly the entries it is given |
| Trees.CSVTree.WriteCSVTree | test_filterCSV.py:59-75 | hands back the array it was given; the array's earlier entries stay, in order, followed by the subtree's rows in document order |
| Records.Padding | test_filterCSV.py:62-64 | `n` empty strings |
| Records.CSVRow | test_filterCSV.py:62-69 | the row is colour, note, position, shape, level, `level` empty strings, cell: length `level + 6`, cell at index `5 + level` |
| Records.DecodeEncode | test_filterCSV.py:62-69 | a visible record's row reads back as exactly that record |
| Records.EncodeDecode | test_filterCSV.py:62-69 | a row that reads back is exactly the row of the record it gives |
| Outline.OwnRows | test_filterCSV.py:59-75 | a node with a non-negative level writes exactly its one row; a node with a negative level writes nothing |
| Outline.VisibleRows | test_filterCSV.py:110-115 | a list of records writes at most one row each, and exactly one each when no level is negative |
| Outline.RowsInDocOrder | test_filterCSV.py:110-115 | what `Outline.Rows` writes for a subtree is the rows of its visible records, taken in `Outline.DocOrder` (the node, then each child's subtree in turn); a negative level hides only the node's own row |
| Outline.RowsAllInDocOrder | test_filterCSV.py:110-115 | the same for `Outline.RowsAll` and `Outline.DocOrderAll` over a list of subtrees |
| Outline.VisibleRowsAppend | test_filterCSV.py:110-115 | the rows of two record lists, one after the other, are the rows of the joined list |
| Outline.RowsAllSnoc | test_filterCSV.py:63-70 | writing one more child appends that child's rows |
| Records.Annotate | test_filterCSV.py:111 | a matched record takes the palette colour and gains `Matched <criterion>` in its note; every other field stays |
| Records.AnnotateIfMatch | test_filterCSV.py:110-115 | one annotate step: a matching record takes the colour and gains the note, any other record is unchanged, and only colour and note can differ |
| Records.AnnotateKeepsLevel | test_filterCSV.py:111 | annotating never changes level or cell |
| Outline.AnnotateTree | test_filterCSV.py:110-115 | the annotated node is flagged matched exactly when it matches; then it takes the colour and the note, otherwise its data is unchanged; its level and number of children stay |
| Outline.AnnotateTreeAll | test_filterCSV.py:110-115 | annotating a list of subtrees annotates each, keeping their number and order |
| Outline.AnnotateRecords | test_filterCSV.py:110-115 | the annotate step applied to each record of a list, in order |
| Outline.MatchCount | test_filterCSV.py:105 | a subtree has at most one match per record, and at least one when its root matches |
| Outline.MatchCountAll | test_filterCSV.py:105 | at most one match per record over a list of subtrees |
| Outline.CountMatches | test_filterCSV.py:105 | the count of matching records is at most their number, and is 0 exactly when none matches |
| Outline.CountMatchesAppend | test_filterCSV.py:105 | match counts add over joined lists |
| Outline.AnnotateTreeDocOrder | test_filterCSV.py:110-115 | after `Outline.AnnotateTree`, the tree's records in `Outline.DocOrder` are the annotate step applied to each earlier record, in the same order, and `Outline.MatchCount` counts exactly the matching records |
| Outline.AnnotateTreeAllDocOrder | test_filterCSV.py:110-115 | the same for a list of subtrees |
| Outline.AnnotateTreeEffect | test_filterCSV.py:110-115 | record by record: a match takes the colour and the note, a non-match is unchanged, and only colour and note ever change |
| Outline.AnnotateNoMatch | test_filterCSV.py:110-115 | when nothing matches, the records are left exactly as they were |
| Fixtures.AnnotateFixture | test_filterCSV.py:108-115 | annotating the sample outline with `^A1$` and FFFFB2 writes exactly the six expected rows, with one match |
| Fixtures.SampleDocOrder | test_filterCSV.py:110-115 | the sample outline's records in document order |
| Fixtures.WholeA1 | test_filterCSV.py:102 | `^A1$` matches a text exactly when the text is `A1` |
| Fixtures.SampleAnnotated | test_filterCSV.py:111 | of the sample's records only A1 matches; it alone takes colour FFFFB2 and note `Matched ^A1$` |
| Fixtures.SampleMatches | test_filterCSV.py:110-115 | of the sample's seven records, `^A1$` matches the A1 record and no other |
| Fixtures.Unmatched | test_filterCSV.py:110-115 | a record with `A1` in none of its searched fields is not matched by `^A1$` |
| Fixtures.A1Matched | test_filterCSV.py:111 | the A1 record is matched, and annotating it gives colour FFFFB2 and note `Matched ^A1$` |
| Fixtures.OneMatch | test_filterCSV.py:105 | seven records of which only the third matches count exactly one match |
| Fixtures.MatchNoteA1 | test_filterCSV.py:111 | the note added for `^A1$` to an empty note is `Matched ^A1$` |
| Fixtures.RowIs | test_filterCSV.py:110-115 | a row equals a record's row when it has the same value at every place |
| Fixtures.ExpectedRowsAreVisible | test_filterCSV.py:110-115 | the annotated sample records write the six expected rows; the hidden root writes none |
| Fixtures.VisibleAfterRoot | test_filterCSV.py:110-115 | seven records of which only the first is hidden write the other six records' rows, in order |
| Fixtures.FirstExpectedRows | test_filterCSV.py:110-112 | the first three expected rows are the rows of A, the annotated A1 and A2 |
| Fixtures.LastExpectedRows | test_filterCSV.py:113-115 | the last three expected rows are the rows of A2A, A2A1 and X |
| Report.Spaces | test_filterCSV.py:100-102 | `n` spaces |
| Report.LeftJustify | test_filterCSV.py:100-102 | the text padded with spaces to the width; a longer text is kept whole |
| Report.Underline | test_filterCSV.py:101 | a dash under every character |
| Report.TableLine | test_filterCSV.py:100-102 | the left text is followed by spaces up to column 41, and the right text starts there |
| Report.TableLineSplits | test_filterCSV.py:100-102 | trimming the first column of a table line gives back a criterion shorter than 41 characters |
| Report.TrimRight | test_filterCSV.py:100-102 | drops exactly the trailing spaces |
| Report.TrimRightSpaces | test_filterCSV.py:100-102 | trimming a text padded with spaces gives back the text |
| Report.Digit | test_filterCSV.py:105 | the decimal digit character of a number below ten |
| Report.NatToString | test_filterCSV.py:105 | a number is written as decimal digits with no leading zero |
| Report.ParseNatToString | test_filterCSV.py:105 | reading a written number back gives the number |
| Report.ColourLine | test_filterCSV.py:105 | a colour line is digits, a space, then the palette entry's hex code |
| Report.ColourLineNamesIndex | test_filterCSV.py:105 | the digits before the space read back as the palette index |
| Report.ReportLines | test_filterCSV.py:99-106 | heading, underline, one line per rule in order, two empty lines, one line per used colour in order |
| Fixtures.ReportFixture | test_filterCSV.py:99-106 | the report for rule `^A1$` / `3 note` with palette entry 3 = FFFFB2 and colour 3 used is exactly the six lines of the expected report |
| Report.FirstSpace | test_filterCSV.py:102 | the index of the first space of a text, or its length when it has none |
| Report.ColourAction | test_filterCSV.py:120 | an action names a palette index only when it is decimal digits followed by ` note`, and the index is the number those digits denote |
| Report.ColourActionOf | test_filterCSV.py:120 | `<n> note` names index `n`; `3 note` names 3 |
| Report.UsedColours | test_filterCSV.py:105 | a pass used its colour exactly when some record of the tree matched |
| Report.AnnotateRun | test_filterCSV.py:99-120 | a run exists exactly when the action names an index inside the palette, and its tree's records are the annotate step with that palette entry applied to each record |
| Report.AnnotateRunReportsColour | test_filterCSV.py:99-120 | the report lists the rule, has a colour line exactly when some record matched, and that line names the palette entry every matched record now carries |
| Report.RunIs | test_filterCSV.py:99-120 | a run whose action names an index inside the palette annotates with that palette entry and reports the colours its pass used |
| Report.RunReport | test_filterCSV.py:99-106 | the report part of a run: the rule line, and a colour line exactly when something matched |
| Report.OneRuleReport | test_filterCSV.py:99-106 | a one-rule report has the rule third and, when one colour was used, that colour's line sixth |
| Fixtures.RunFixture | test_filterCSV.py:99-120 | the run `'^A1$' '3 note'` on the sample outline writes exactly the expected rows and prints exactly the expected report, its colour line following from the one match |

`Fixtures.ConstructorScenario`, `AddGetDeleteScenario`, `IsMatchNodeScenario`,
`MaximumLevelScenario` and `WriteScenario` replay test_filterCSV.py:17-75 on the
class, using the contracts above. `IsMatchNodeScenario` calls `isMatch` on a node
for every criterion of both lists of test_filterCSV.py:37-42. The scenarios have
no contract of their own.

## Left out

- The implementation file that defines `CSVTree` is not part of this model. The behaviour is taken from the assertions and fixtures of test_filterCSV.py.
- Patterns.Search: Python regular expressions are reduced to literal text with `^`/`$` anchors, which is all the tests use. Other metacharacters are literal here, and invalid-pattern errors are not modelled.
- Trees.CSVTree.constructor: the level is an integer. The tests pass the text `"level"` there. Storing and coercing textual levels is not modelled.
- Trees.CSVTree.SetLevel: if this node sits under another node, that ancestor's ghost view is not updated, so the ancestor is no longer `Valid()` afterwards (after `t.AddChild(c); c.SetLevel(5);` the model cannot show `t.Valid()`). Only the node operated on is kept valid.
- Trees.CSVTree.AddChild: requires the child's subtree to be disjoint from this node's, so sharing and cycles are not modelled. If this node itself sits under another node, that ancestor's ghost view is not updated either.
- Trees.CSVTree.DeleteChild: deleting a node that is not a child changes nothing here. What the implementation does in that case is not shown. The parent reference of a deleted child is left as it was. As with `SetLevel` and `AddChild`, an ancestor of this node does not see the change in its ghost view.
- The annotate pass is modelled on values (`Outline.AnnotateTree`), not as a method on `CSVTree` objects. The model does not capture the pass updating each object's `data` and `matched` fields in place, or an alias of a node seeing those updates.
- Only one rule per annotate run is modelled, and only actions of the form `<index> note`. Applying several rules in order, and actions that set other fields, are left out. An action of another form, or an index past the palette, gives no run here; what the implementation does then is not shown.
- The `check repairsubtree`, `keep` and `promote 2` actions appear only as command-line strings, with no expected result.
- The palette table itself: only entry 3 (`FFFFB2`) is known, so the palette is a parameter.
- Trees.CSVTree.WriteCSVTree: a node with a negative level writes no row of its own, but its children are still written, as `Outline.Rows` defines it. A design that skips a deleted node's whole subtree is not followed. The tests only show a negative level on a node with no children (test_filterCSV.py:71-75). The sample output needs the children of the hidden root written, and the root is not otherwise told apart from other nodes.
- Report.ReportLines: the colour summary line is `<palette index> <hex>` (`3 FFFFB2`), as the expected report shows. It does not give a usage count. A criterion of 41 characters or more is assumed to push the action right; it is not truncated.
- The CSV header row (`level0` … `level20`), CSV quoting as text, and reading rows back from CSV text.
- `formatWhitespaceCharacters`, a display helper for diagnostics (test_filterCSV.py:85-96).
- `test_file_processing`, which runs the program through subprocesses, stdin and files (test_filterCSV.py:121-153).
