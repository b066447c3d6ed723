/**
 * The behaviour the test file pins down, stated against the model: the unit
 * tests of the node class, replayed on `Trees.CSVTree`, and the expected output
 * of an annotate run with the rule `^A1$` / `3 note`.
 */
module Fixtures {
  import opened Patterns
  import opened Records
  import opened Outline
  import opened Report
  import opened Trees

  /** The record the unit tests build every node from, with the level they then assign. */
  function TestFields(level: int): Fields
  {
    Fields("shape", "colour", "note", level, "position", "cell")
  }

  /** A new node stores its six arguments, by name, and starts with no children, no parent and no match. */
  method ConstructorScenario(level: int)
  {
    var t := new CSVTree("shape", "colour", "note", level, "position", "cell");
    assert t.childNodes == [];
    assert t.data.shape == "shape" && t.data.colour == "colour" && t.data.note == "note";
    assert t.data.level == level && t.data.position == "position" && t.data.cell == "cell";
    assert t.parent == null && !t.matched;
  }

  /** Adding a child makes it the only child; deleting it empties the list again. */
  method AddGetDeleteScenario(level: int, childLevel: int)
  {
    var t := new CSVTree("shape", "colour", "note", level, "position", "cell");
    var child := new CSVTree("child", "child", "child", childLevel, "child", "child");
    t.AddChild(child);
    assert |t.childNodes| == 1;
    var cs := t.GetChildren();
    assert child in cs;
    t.DeleteChild(child);
    assert t.childNodes == [];
    cs := t.GetChildren();
    assert child !in cs;
  }

  /** Deleting the child just added gives back the child list and the subtree the node had before. */
  method AddThenDelete(t: CSVTree, c: CSVTree)
    requires t.Valid() && c.Valid() && t.repr !! c.repr
    modifies t`childNodes, t`repr, t`model, c`parent
    ensures t.Valid()
    ensures t.childNodes == old(t.childNodes) && t.model == old(t.model)
  {
    ghost var before := t.childNodes;
    assert c !in before by {
      forall k | 0 <= k < |before|
        ensures before[k] != c
      {
        assert before[k] in t.repr;
      }
    }
    t.AddChild(c);
    t.DeleteChild(c);
    ghost var k :| 0 <= k < |before| + 1 && (before + [c])[k] == c && t.childNodes == RemoveAt(before + [c], k);
    assert k == |before|;
    assert t.childNodes == before;
  }

  /** The criteria the isMatch test expects to match the test record, and those it expects not to. */
  const MatchingCriteria := ["shape", "ape", "colour", "col", "r", "note", "no", "cell", "ell"]
  const NonMatchingCriteria := ["level", "position", "x", "X", "y", "Y", "z", "Z",
                                "1", "2", "3", "4", "5", "6", "7", "8", "9", "0"]

  /** A criterion with a character that none of the four searched texts holds does not match. */
  lemma MissingCharacter(f: Fields, c: string, j: int)
    requires 0 <= j < |Parse(c).body|
    requires var ch := Parse(c).body[j]; ch !in f.shape && ch !in f.colour && ch !in f.note && ch !in f.cell
    ensures !IsMatch(f, c)
  {
    MatchHasEveryCharacter(c, f.shape, j);
    MatchHasEveryCharacter(c, f.colour, j);
    MatchHasEveryCharacter(c, f.note, j);
    MatchHasEveryCharacter(c, f.cell, j);
  }

  /** Each criterion of the first list occurs in one of the searched fields of the test record. */
  lemma MatchingCriteriaMatch(level: int, k: int)
    requires 0 <= k < |MatchingCriteria|
    ensures IsMatch(TestFields(level), MatchingCriteria[k])
  {
    var f := TestFields(level);
    var c := MatchingCriteria[k];
    assert Parse(c) == Pattern(false, c, false);
    if k == 0 { assert MatchesAt(Parse(c), f.shape, 0); }
    else if k == 1 { assert MatchesAt(Parse(c), f.shape, 2); }
    else if k == 2 { assert MatchesAt(Parse(c), f.colour, 0); }
    else if k == 3 { assert MatchesAt(Parse(c), f.colour, 0); }
    else if k == 4 { assert MatchesAt(Parse(c), f.colour, 5); }
    else if k == 5 { assert MatchesAt(Parse(c), f.note, 0); }
    else if k == 6 { assert MatchesAt(Parse(c), f.note, 0); }
    else if k == 7 { assert MatchesAt(Parse(c), f.cell, 0); }
    else { assert MatchesAt(Parse(c), f.cell, 1); }
  }

  /** No criterion of the second list matches: each has a character no searched field of the test record holds. */
  lemma NonMatchingCriteriaFail(level: int, k: int)
    requires 0 <= k < |NonMatchingCriteria|
    ensures !IsMatch(TestFields(level), NonMatchingCriteria[k])
  {
    var c := NonMatchingCriteria[k];
    assert Parse(c) == Pattern(false, c, false);
    // "level" holds a 'v' and "position" an 'i'; no searched text has either.
    MissingCharacter(TestFields(level), c, if k == 0 then 2 else if k == 1 then 5 else 0);
  }

  /** Text in shape, colour, note or cell matches; text found only in level or position does not. */
  lemma IsMatchScenario(level: int)
    ensures forall k :: 0 <= k < |MatchingCriteria| ==> IsMatch(TestFields(level), MatchingCriteria[k])
    ensures forall k :: 0 <= k < |NonMatchingCriteria| ==> !IsMatch(TestFields(level), NonMatchingCriteria[k])
  {
    forall k | 0 <= k < |MatchingCriteria|
      ensures IsMatch(TestFields(level), MatchingCriteria[k])
    {
      MatchingCriteriaMatch(level, k);
    }
    forall k | 0 <= k < |NonMatchingCriteria|
      ensures !IsMatch(TestFields(level), NonMatchingCriteria[k])
    {
      NonMatchingCriteriaFail(level, k);
    }
  }

  /** The isMatch test on a node: every criterion of the first list matches it, none of the second does. */
  method IsMatchNodeScenario(level: int)
  {
    var t := new CSVTree("shape", "colour", "note", level, "position", "cell");
    var k := 0;
    while k < |MatchingCriteria|
      invariant 0 <= k <= |MatchingCriteria| && t.data == TestFields(level)
    {
      MatchingCriteriaMatch(level, k);
      var m := t.IsMatch(MatchingCriteria[k]);
      assert m;
      k := k + 1;
    }
    k := 0;
    while k < |NonMatchingCriteria|
      invariant 0 <= k <= |NonMatchingCriteria| && t.data == TestFields(level)
    {
      NonMatchingCriteriaFail(level, k);
      var m := t.IsMatch(NonMatchingCriteria[k]);
      assert !m;
      k := k + 1;
    }
  }

  /** The maximum level follows the node's own level, rises to a deeper child's and falls back when it is deleted. */
  method MaximumLevelScenario(childLevel: int)
    requires childLevel > 2
  {
    var t := new CSVTree("shape", "colour", "note", 0, "position", "cell");
    t.SetLevel(1);
    LeafMaxLevel(t.data, false);
    var m := t.CalculateMaximumLevel();
    assert m == 1;
    t.SetLevel(2);
    LeafMaxLevel(t.data, false);
    m := t.CalculateMaximumLevel();
    assert m == 2;
    var child := new CSVTree("child", "child", "child", childLevel, "child", "child");
    t.AddChild(child);
    OneChildMaxLevel(t.data, false, child.model);
    m := t.CalculateMaximumLevel();
    assert m == childLevel;
    t.DeleteChild(child);
    LeafMaxLevel(t.data, false);
    m := t.CalculateMaximumLevel();
    assert m == 2;
  }

  /** The row the test record writes at `level`. */
  function TestRow(level: nat): Entry
  {
    Row([Text("colour"), Text("note"), Text("position"), Text("shape"), Number(level)] + Padding(level) + [Text("cell")])
  }

  /** Rows accumulate in the caller's array behind what it held; a negative level adds nothing. */
  method WriteScenario()
  {
    var out := new OutputArray([Item("a"), Item("b"), Item("c")]);
    var t := new CSVTree("shape", "colour", "note", 0, "position", "cell");
    t.SetLevel(1);
    var r := t.WriteCSVTree(out);
    assert r == out;
    assert out.items == [Item("a"), Item("b"), Item("c"), TestRow(1)];
    t.SetLevel(0);
    r := t.WriteCSVTree(out);
    assert out.items == [Item("a"), Item("b"), Item("c"), TestRow(1), TestRow(0)];
    t.SetLevel(-1);
    r := t.WriteCSVTree(out);
    assert out.items == [Item("a"), Item("b"), Item("c"), TestRow(1), TestRow(0)];
  }

  // ---------------------------------------------------------------- the annotate fixture

  /** A node of the sample outline: only shape, level and cell are filled in. */
  function Sample(shape: string, level: int, cell: string, children: seq<Node>): Node
  {
    Node(Fields(shape, "", "", level, "", cell), false, children)
  }

  /**
   * The sample outline: two top-level nodes A and X under a root that is not written
   * (its level is negative), A holding A1 and A2, A2 holding A2A, which holds A2A1.
   */
  function SampleTree(): Node
  {
    Sample("", -1, "", [
      Sample("", 0, "A", [
        Sample("", 1, "A1", []),
        Sample("", 1, "A2", [
          Sample("", 2, "A2A", [
            Sample("", 3, "A2A1", [])])])]),
      Sample("square", 0, "X", [])])
  }

  /** The six data rows of the expected output, in document order. */
  function ExpectedRows(): seq<Entry>
  {
    [ Row([Text(""), Text(""), Text(""), Text(""), Number(0), Text("A")]),
      Row([Text("FFFFB2"), Text("Matched ^A1$"), Text(""), Text(""), Number(1), Text(""), Text("A1")]),
      Row([Text(""), Text(""), Text(""), Text(""), Number(1), Text(""), Text("A2")]),
      Row([Text(""), Text(""), Text(""), Text(""), Number(2), Text(""), Text(""), Text("A2A")]),
      Row([Text(""), Text(""), Text(""), Text(""), Number(3), Text(""), Text(""), Text(""), Text("A2A1")]),
      Row([Text(""), Text(""), Text(""), Text("square"), Number(0), Text("X")]) ]
  }

  /** The sample outline's records in document order. */
  function SampleRecords(): seq<Fields>
  {
    [ Fields("", "", "", -1, "", ""), Fields("", "", "", 0, "", "A"), Fields("", "", "", 1, "", "A1"),
      Fields("", "", "", 1, "", "A2"), Fields("", "", "", 2, "", "A2A"), Fields("", "", "", 3, "", "A2A1"),
      Fields("square", "", "", 0, "", "X") ]
  }

  lemma SampleDocOrder()
    ensures DocOrder(SampleTree()) == SampleRecords()
  {
    var t := SampleTree();
    var a, x := t.children[0], t.children[1];
    var a2 := a.children[1];
    var a2a := a2.children[0];
    assert DocOrder(a2a) == [a2a.fields] + DocOrder(a2a.children[0]);
    assert DocOrder(a2) == [a2.fields] + DocOrder(a2a);
    assert DocOrderAll(a.children) == DocOrder(a.children[0]) + DocOrderAll([a2]);
    assert DocOrderAll(t.children) == DocOrder(a) + DocOrderAll([x]);
  }

  /** The criterion `^A1$` matches a text exactly when the text is A1. */
  lemma WholeA1(s: string)
    ensures Search("^A1$", s) <==> s == "A1"
  {
    assert Parse("^A1$") == Pattern(true, "A1", true);
    if s == "A1" {
      assert MatchesAt(Parse("^A1$"), s, 0);
    }
  }

  /** Annotating the sample with `^A1$` and palette colour FFFFB2 writes exactly the expected rows, one match. */
  lemma AnnotateFixture()
    ensures Rows(AnnotateTree(SampleTree(), "^A1$", "FFFFB2")) == ExpectedRows()
    ensures MatchCount(SampleTree(), "^A1$") == 1
  {
    var c, h := "^A1$", "FFFFB2";
    var fs := SampleRecords();
    SampleDocOrder();
    AnnotateTreeDocOrder(SampleTree(), c, h);
    RowsInDocOrder(AnnotateTree(SampleTree(), c, h));
    SampleAnnotated();
    ExpectedRowsAreVisible(AnnotateRecords(fs, c, h));
  }

  /** Of the sample's records only A1 matches `^A1$`; it alone takes the colour and the note. */
  lemma SampleAnnotated()
    ensures AnnotateRecords(SampleRecords(), "^A1$", "FFFFB2")
            == SampleRecords()[2 := Fields("", "FFFFB2", "Matched ^A1$", 1, "", "A1")]
    ensures CountMatches(SampleRecords(), "^A1$") == 1
  {
    var c, h := "^A1$", "FFFFB2";
    var fs := SampleRecords();
    SampleMatches();
    A1Matched();
    var gs := AnnotateRecords(fs, c, h);
    assert forall k :: 0 <= k < 7 && k != 2 ==> gs[k] == fs[k];
    assert gs == fs[2 := Fields("", "FFFFB2", "Matched ^A1$", 1, "", "A1")];
    OneMatch(fs);
  }

  /** The third record of the sample, A1, is the only one `^A1$` matches. */
  lemma SampleMatches()
    ensures IsMatch(SampleRecords()[2], "^A1$")
    ensures forall k :: 0 <= k < 7 && k != 2 ==> !IsMatch(SampleRecords()[k], "^A1$")
  {
    var fs := SampleRecords();
    A1Matched();
    forall k | 0 <= k < 7 && k != 2
      ensures !IsMatch(fs[k], "^A1$")
    {
      Unmatched(fs[k]);
    }
  }

  /** A record holding `A1` in none of its searched fields is not matched by `^A1$`. */
  lemma Unmatched(f: Fields)
    requires f.shape != "A1" && f.colour != "A1" && f.note != "A1" && f.cell != "A1"
    ensures !IsMatch(f, "^A1$")
  {
    WholeA1(f.shape);
    WholeA1(f.colour);
    WholeA1(f.note);
    WholeA1(f.cell);
  }

  /** The record A1 is matched and annotated. */
  lemma A1Matched()
    ensures IsMatch(Fields("", "", "", 1, "", "A1"), "^A1$")
    ensures AnnotateIfMatch(Fields("", "", "", 1, "", "A1"), "^A1$", "FFFFB2")
            == Fields("", "FFFFB2", "Matched ^A1$", 1, "", "A1")
  {
    WholeA1("A1");
    MatchNoteA1();
  }

  /** Seven records of which only the third matches count one match. */
  lemma OneMatch(fs: seq<Fields>)
    requires |fs| == 7 && IsMatch(fs[2], "^A1$")
    requires forall k :: 0 <= k < 7 && k != 2 ==> !IsMatch(fs[k], "^A1$")
    ensures CountMatches(fs, "^A1$") == 1
  {
    var c := "^A1$";
    assert fs == fs[..3] + fs[3..];
    CountMatchesAppend(fs[..3], fs[3..], c);
    assert CountMatches(fs[3..], c) == 0;
    assert fs[..3] == [fs[0], fs[1]] + [fs[2]];
    CountMatchesAppend([fs[0], fs[1]], [fs[2]], c);
    assert CountMatches([fs[0], fs[1]], c) == 0;
  }

  lemma MatchNoteA1()
    ensures "" + MatchNote("^A1$") == "Matched ^A1$"
  {
    assert "" + MatchNote("^A1$") == "Matched " + "^A1$";
  }

  /** A row is equal to the row a record writes once it has the same values at every place. */
  lemma RowIs(f: Fields, values: seq<Value>)
    requires f.level >= 0 && |values| == f.level + 6
    requires values[..5] == [Text(f.colour), Text(f.note), Text(f.position), Text(f.shape), Number(f.level)]
    requires forall k :: 5 <= k < 5 + f.level ==> values[k] == Text("")
    requires values[5 + f.level] == Text(f.cell)
    ensures CSVRow(f) == values
  {
    var r := CSVRow(f);
    forall k | 0 <= k < |r|
      ensures r[k] == values[k]
    {
      if k < 5 {
        assert r[k] == r[..5][k] && values[k] == values[..5][k];
      }
    }
  }

  /** The annotated records of the sample write the expected rows: all but the hidden root. */
  lemma ExpectedRowsAreVisible(gs: seq<Fields>)
    requires gs == SampleRecords()[2 := Fields("", "FFFFB2", "Matched ^A1$", 1, "", "A1")]
    ensures VisibleRows(gs) == ExpectedRows()
  {
    VisibleAfterRoot(gs);
    FirstExpectedRows();
    LastExpectedRows();
    assert ExpectedRows() == ExpectedRows()[..3] + ExpectedRows()[3..];
  }

  /** Seven records of which only the first is hidden write the rows of the other six, in order. */
  lemma VisibleAfterRoot(gs: seq<Fields>)
    requires |gs| == 7 && gs[0].level < 0 && forall k :: 1 <= k < 7 ==> gs[k].level >= 0
    ensures VisibleRows(gs) == [Row(CSVRow(gs[1])), Row(CSVRow(gs[2])), Row(CSVRow(gs[3]))]
                             + [Row(CSVRow(gs[4])), Row(CSVRow(gs[5])), Row(CSVRow(gs[6]))]
  {
    var vs := [Row(CSVRow(gs[1])), Row(CSVRow(gs[2])), Row(CSVRow(gs[3]))]
            + [Row(CSVRow(gs[4])), Row(CSVRow(gs[5])), Row(CSVRow(gs[6]))];
    VisibleSuffix(gs, vs, 6);
    assert vs[0..] == vs;
  }

  lemma {:induction false} VisibleSuffix(gs: seq<Fields>, vs: seq<Entry>, n: nat)
    requires |gs| == 7 && |vs| == 6 && n <= 6 && forall k :: 1 <= k < 7 ==> gs[k].level >= 0
    requires forall k :: 0 <= k < 6 ==> vs[k] == Row(CSVRow(gs[k + 1]))
    ensures VisibleRows(gs[7 - n..]) == vs[6 - n..]
  {
    if n > 0 {
      VisibleSuffix(gs, vs, n - 1);
      assert gs[7 - n..][1..] == gs[7 - (n - 1)..];
      assert vs[6 - n..] == [vs[6 - n]] + vs[6 - (n - 1)..];
    }
  }

  /** The rows of A, A1 (annotated) and A2. */
  lemma FirstExpectedRows()
    ensures ExpectedRows()[..3] == [Row(CSVRow(Fields("", "", "", 0, "", "A"))),
      Row(CSVRow(Fields("", "FFFFB2", "Matched ^A1$", 1, "", "A1"))), Row(CSVRow(Fields("", "", "", 1, "", "A2")))]
  {
    RowIs(Fields("", "", "", 0, "", "A"),
      [Text(""), Text(""), Text(""), Text(""), Number(0), Text("A")]);
    RowIs(Fields("", "FFFFB2", "Matched ^A1$", 1, "", "A1"),
      [Text("FFFFB2"), Text("Matched ^A1$"), Text(""), Text(""), Number(1), Text(""), Text("A1")]);
    RowIs(Fields("", "", "", 1, "", "A2"),
      [Text(""), Text(""), Text(""), Text(""), Number(1), Text(""), Text("A2")]);
  }

  /** The rows of A2A, A2A1 and X. */
  lemma LastExpectedRows()
    ensures ExpectedRows()[3..] == [Row(CSVRow(Fields("", "", "", 2, "", "A2A"))),
      Row(CSVRow(Fields("", "", "", 3, "", "A2A1"))), Row(CSVRow(Fields("square", "", "", 0, "", "X")))]
  {
    RowIs(Fields("", "", "", 2, "", "A2A"),
      [Text(""), Text(""), Text(""), Text(""), Number(2), Text(""), Text(""), Text("A2A")]);
    RowIs(Fields("", "", "", 3, "", "A2A1"),
      [Text(""), Text(""), Text(""), Text(""), Number(3), Text(""), Text(""), Text(""), Text("A2A1")]);
    RowIs(Fields("square", "", "", 0, "", "X"),
      [Text(""), Text(""), Text(""), Text("square"), Number(0), Text("X")]);
  }

  /**
   * The report of that run, for any palette whose entry 3 is FFFFB2: the criterion
   * column is 41 characters wide, so "Criterion" is followed by 32 spaces.
   */
  lemma ReportFixture(palette: seq<string>)
    requires |palette| > 3 && palette[3] == "FFFFB2"
    ensures ReportLines([Rule("^A1$", "3 note")], [3], palette) ==
      [ "Criterion" + Spaces(32) + "Actions",
        "---------" + Spaces(32) + "-------",
        "^A1$" + Spaces(37) + "3 note",
        "",
        "",
        "3 FFFFB2" ]
  {
    var r := ReportLines([Rule("^A1$", "3 note")], [3], palette);
    assert |CriterionHeading| == 9;
    assert r[0] == "Criterion" + Spaces(32) + "Actions";
    assert Underline(CriterionHeading) == "---------" && Underline(ActionsHeading) == "-------";
    assert r[1] == "---------" + Spaces(32) + "-------";
    assert r[2] == "^A1$" + Spaces(37) + "3 note";
    assert NatToString(3) == "3";
    assert r[5] == "3" + " " + "FFFFB2";
    assert "3" + " " + "FFFFB2" == "3 FFFFB2";
    assert |r| == 6 && r[3] == "" && r[4] == "";
    assert r == [r[0], r[1], r[2], r[3], r[4], r[5]];
  }

  /**
   * The whole run `'^A1$' '3 note'` on the sample outline: the action names palette
   * entry 3, the tree then writes exactly the expected rows, and the report is the
   * expected one, its colour line coming from the match the pass made.
   */
  lemma RunFixture(palette: seq<string>)
    requires |palette| > 3 && palette[3] == "FFFFB2"
    ensures var r := AnnotateRun(SampleTree(), Rule("^A1$", "3 note"), palette);
      && r.Some?
      && Rows(r.value.tree) == ExpectedRows()
      && r.value.report ==
        [ "Criterion" + Spaces(32) + "Actions",
          "---------" + Spaces(32) + "-------",
          "^A1$" + Spaces(37) + "3 note",
          "",
          "",
          "3 FFFFB2" ]
  {
    var c := "^A1$";
    assert NatToString(3) + " note" == "3 note";
    ColourActionOf(3);
    RunIs(SampleTree(), Rule(c, "3 note"), palette, 3);
    AnnotateFixture();
    assert UsedColours(SampleTree(), c, 3) == [3];
    ReportFixture(palette);
  }
}
