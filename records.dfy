/**
 * The data of one outline node and the flat row it is written as.
 */
module Records {
  import opened Patterns

  /** The six data fields of a node, in the order the constructor takes them. */
  datatype Fields = Fields(shape: string, colour: string, note: string, level: int, position: string, cell: string)

  /** The criterion matches one of the four searched fields: shape, colour, note and cell. */
  predicate IsMatch(f: Fields, criterion: string)
  {
    Search(criterion, f.shape) || Search(criterion, f.colour) || Search(criterion, f.note) || Search(criterion, f.cell)
  }

  /** A match is a search hit, with the anchors respected, in one of the four searched fields. */
  lemma IsMatchMeaning(f: Fields, criterion: string)
    ensures IsMatch(f, criterion) <==>
      exists k :: 0 <= k < 4 && exists i :: MatchesAt(Parse(criterion), SearchedTexts(f)[k], i)
  {
    var texts := SearchedTexts(f);
    forall k | 0 <= k < 4
      ensures Search(criterion, texts[k]) <==> exists i :: MatchesAt(Parse(criterion), texts[k], i)
    {
    }
    assert texts[0] == f.shape && texts[1] == f.colour && texts[2] == f.note && texts[3] == f.cell;
    if IsMatch(f, criterion) {
      var k := if Search(criterion, f.shape) then 0 else if Search(criterion, f.colour) then 1
               else if Search(criterion, f.note) then 2 else 3;
      assert Search(criterion, texts[k]);
    }
  }

  /** The four fields a criterion is searched in, in the order they are tried. */
  function SearchedTexts(f: Fields): seq<string>
  {
    [f.shape, f.colour, f.note, f.cell]
  }

  /** Matching never looks at level or position. */
  lemma IsMatchIgnoresLevelAndPosition(f: Fields, level: int, position: string, criterion: string)
    ensures IsMatch(f.(level := level, position := position), criterion) == IsMatch(f, criterion)
  {
  }

  /** The text an annotation adds to the note of a matched node. */
  function MatchNote(criterion: string): string
  {
    "Matched " + criterion
  }

  /** Annotate a matched node: take the palette colour and record the criterion in the note. */
  function Annotate(f: Fields, criterion: string, hex: string): (g: Fields)
    ensures g.colour == hex && g.note == f.note + MatchNote(criterion)
    ensures g.(colour := f.colour, note := f.note) == f
  {
    f.(colour := hex, note := f.note + MatchNote(criterion))
  }

  /**
   * One annotate step on one node: a matching node takes the colour and gains the
   * note, any other node is left as it was, and nothing but colour and note changes.
   */
  function AnnotateIfMatch(f: Fields, criterion: string, hex: string): (g: Fields)
    ensures IsMatch(f, criterion) ==> g.colour == hex && g.note == f.note + MatchNote(criterion)
    ensures !IsMatch(f, criterion) ==> g == f
    ensures g.(colour := f.colour, note := f.note) == f
  {
    if IsMatch(f, criterion) then Annotate(f, criterion, hex) else f
  }

  /** Annotating never changes the level, so a visible node stays visible. */
  lemma AnnotateKeepsLevel(f: Fields, criterion: string, hex: string)
    ensures AnnotateIfMatch(f, criterion, hex).level == f.level
    ensures AnnotateIfMatch(f, criterion, hex).cell == f.cell
  {
  }

  /** One value of an output row: text, or the level written as a number. */
  datatype Value = Text(s: string) | Number(n: int)

  /** An element of the output array: the rows written so far, after whatever the caller put there first. */
  datatype Entry = Item(s: string) | Row(values: seq<Value>)

  /** `n` empty strings, one per level column before the node's own. */
  function Padding(n: nat): (r: seq<Value>)
    ensures |r| == n && forall k :: 0 <= k < n ==> r[k] == Text("")
  {
    seq(n, _ => Text(""))
  }

  /**
   * The row a visible node writes: colour, note, position, shape, level, then one
   * empty string for each level above zero, then the cell, so the cell lands in the
   * column of the node's own level.
   */
  function CSVRow(f: Fields): (r: seq<Value>)
    requires f.level >= 0
    ensures |r| == f.level + 6
    ensures r[..5] == [Text(f.colour), Text(f.note), Text(f.position), Text(f.shape), Number(f.level)]
    ensures forall k :: 5 <= k < 5 + f.level ==> r[k] == Text("")
    ensures r[5 + f.level] == Text(f.cell)
  {
    [Text(f.colour), Text(f.note), Text(f.position), Text(f.shape), Number(f.level)] + Padding(f.level) + [Text(f.cell)]
  }

  datatype Option<T> = None | Some(value: T)

  /** Read a node's fields back from a row, if it has the shape of a written row. */
  function DecodeRow(r: seq<Value>): Option<Fields>
  {
    if |r| < 6 || !r[4].Number? || r[4].n < 0 || |r| != r[4].n + 6 then None
    else if !(r[0].Text? && r[1].Text? && r[2].Text? && r[3].Text? && r[|r| - 1].Text?) then None
    else if r[5..|r| - 1] != Padding(r[4].n) then None
    else Some(Fields(r[3].s, r[0].s, r[1].s, r[4].n, r[2].s, r[|r| - 1].s))
  }

  /** Every visible node's row reads back as exactly that node's fields. */
  lemma DecodeEncode(f: Fields)
    requires f.level >= 0
    ensures DecodeRow(CSVRow(f)) == Some(f)
  {
    var r := CSVRow(f);
    assert r[5..|r| - 1] == Padding(f.level);
  }

  /** A row that reads back is exactly the row its fields write. */
  lemma EncodeDecode(r: seq<Value>, f: Fields)
    requires DecodeRow(r) == Some(f)
    ensures f.level >= 0 && CSVRow(f) == r
  {
    var w := CSVRow(f);
    assert |w| == |r|;
    forall k | 0 <= k < |r|
      ensures w[k] == r[k]
    {
      if k < 5 {
        assert w[k] == w[..5][k];
      } else if k < |r| - 1 {
        assert r[k] == r[5..|r| - 1][k - 5];
      }
    }
  }
}
