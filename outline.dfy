/**
 * The outline tree as a value: a node's fields and its ordered children. This is
 * the abstract view of a tree of CSVTree objects; writing, the maximum level and
 * the annotate pass are defined on it and related here to the flat, document-order
 * list of the tree's records.
 */
module Outline {
  import opened Records

  datatype Node = Node(fields: Fields, matched: bool, children: seq<Node>)

  /** Every node's fields in document order: the node first, then each child's subtree in turn. */
  function DocOrder(t: Node): seq<Fields>
    decreases t
  {
    [t.fields] + DocOrderAll(t.children)
  }

  function DocOrderAll(ts: seq<Node>): seq<Fields>
    decreases ts
  {
    if ts == [] then [] else DocOrder(ts[0]) + DocOrderAll(ts[1..])
  }

  // ---------------------------------------------------------------- writing

  /** The rows one node writes for itself: one row when it is visible, none when its level is negative. */
  function OwnRows(f: Fields): (r: seq<Entry>)
    ensures |r| == (if f.level >= 0 then 1 else 0)
    ensures f.level >= 0 ==> r[0] == Row(CSVRow(f))
  {
    if f.level >= 0 then [Row(CSVRow(f))] else []
  }

  /** The rows a whole subtree writes, in pre-order. */
  function Rows(t: Node): seq<Entry>
    decreases t
  {
    OwnRows(t.fields) + RowsAll(t.children)
  }

  function RowsAll(ts: seq<Node>): seq<Entry>
    decreases ts
  {
    if ts == [] then [] else Rows(ts[0]) + RowsAll(ts[1..])
  }

  /** The rows of a document-order list of records: one per visible record, in order. */
  function VisibleRows(fs: seq<Fields>): (r: seq<Entry>)
    ensures |r| <= |fs|
    ensures (forall k :: 0 <= k < |fs| ==> fs[k].level >= 0) ==> |r| == |fs|
  {
    if fs == [] then [] else OwnRows(fs[0]) + VisibleRows(fs[1..])
  }

  lemma {:induction false} VisibleRowsAppend(a: seq<Fields>, b: seq<Fields>)
    ensures VisibleRows(a + b) == VisibleRows(a) + VisibleRows(b)
    decreases a
  {
    if a == [] {
      assert a + b == b;
    } else {
      assert (a + b)[1..] == a[1..] + b;
      VisibleRowsAppend(a[1..], b);
    }
  }

  /**
   * A tree writes exactly the rows of its visible records, in document order;
   * a hidden node keeps its own row back but not its descendants'.
   */
  lemma {:induction false} RowsInDocOrder(t: Node)
    ensures Rows(t) == VisibleRows(DocOrder(t))
    decreases t
  {
    RowsAllInDocOrder(t.children);
    VisibleRowsAppend([t.fields], DocOrderAll(t.children));
    assert VisibleRows([t.fields]) == OwnRows(t.fields);
  }

  lemma {:induction false} RowsAllInDocOrder(ts: seq<Node>)
    ensures RowsAll(ts) == VisibleRows(DocOrderAll(ts))
    decreases ts
  {
    if ts != [] {
      RowsInDocOrder(ts[0]);
      RowsAllInDocOrder(ts[1..]);
      VisibleRowsAppend(DocOrder(ts[0]), DocOrderAll(ts[1..]));
    }
  }

  /** Writing the children one after another writes the rows of the first `i`, then those of child `i`. */
  lemma {:induction false} RowsAllSnoc(ts: seq<Node>, i: nat)
    requires i < |ts|
    ensures RowsAll(ts[..i + 1]) == RowsAll(ts[..i]) + Rows(ts[i])
    decreases i
  {
    if i == 0 {
      assert ts[..1][1..] == [];
    } else {
      assert ts[..i + 1][1..] == ts[1..][..i];
      assert ts[..i][1..] == ts[1..][..i - 1];
      RowsAllSnoc(ts[1..], i - 1);
    }
  }

  // ---------------------------------------------------------------- maximum level

  function Max(a: int, b: int): int
  {
    if a < b then b else a
  }

  /** The largest level in a subtree: the node's own level, or a descendant's when deeper. */
  function MaxLevel(t: Node): int
    decreases t
  {
    MaxLevelAll(t.children, t.fields.level)
  }

  /** The largest of `floor` and the maximum level of each subtree in `ts`. */
  function MaxLevelAll(ts: seq<Node>, floor: int): int
    decreases ts
  {
    if ts == [] then floor else Max(MaxLevel(ts[0]), MaxLevelAll(ts[1..], floor))
  }

  /** The maximum level is the largest level over the node and all its descendants. */
  lemma {:induction false} MaxLevelIsMaximum(t: Node)
    ensures forall k :: 0 <= k < |DocOrder(t)| ==> DocOrder(t)[k].level <= MaxLevel(t)
    ensures exists k :: 0 <= k < |DocOrder(t)| && DocOrder(t)[k].level == MaxLevel(t)
    decreases t
  {
    MaxLevelAllIsMaximum(t.children, t.fields.level);
    var d := DocOrderAll(t.children);
    assert DocOrder(t) == [t.fields] + d;
    if MaxLevel(t) == t.fields.level {
      assert DocOrder(t)[0].level == MaxLevel(t);
    } else {
      var k :| 0 <= k < |d| && d[k].level == MaxLevel(t);
      assert DocOrder(t)[k + 1] == d[k];
    }
  }

  lemma {:induction false} MaxLevelAllIsMaximum(ts: seq<Node>, floor: int)
    ensures floor <= MaxLevelAll(ts, floor)
    ensures forall k :: 0 <= k < |DocOrderAll(ts)| ==> DocOrderAll(ts)[k].level <= MaxLevelAll(ts, floor)
    ensures MaxLevelAll(ts, floor) == floor
            || exists k :: 0 <= k < |DocOrderAll(ts)| && DocOrderAll(ts)[k].level == MaxLevelAll(ts, floor)
    decreases ts
  {
    if ts != [] {
      MaxLevelIsMaximum(ts[0]);
      MaxLevelAllIsMaximum(ts[1..], floor);
      var a: seq<Fields> := DocOrder(ts[0]);
      var b: seq<Fields> := DocOrderAll(ts[1..]);
      var m := MaxLevelAll(ts, floor);
      assert DocOrderAll(ts) == a + b;
      forall k | 0 <= k < |a + b|
        ensures (a + b)[k].level <= m
      {
        if k >= |a| {
          assert (a + b)[k] == b[k - |a|];
        }
      }
      if m == MaxLevel(ts[0]) {
        var k :| 0 <= k < |a| && a[k].level == m;
        assert (a + b)[k] == a[k];
      } else if m != floor {
        var k :| 0 <= k < |b| && b[k].level == m;
        assert (a + b)[|a| + k] == b[k];
      }
    }
  }

  /** A leaf's maximum level is its own level. */
  lemma LeafMaxLevel(f: Fields, matched: bool)
    ensures MaxLevel(Node(f, matched, [])) == f.level
  {
  }

  /** Under a single leaf child, the maximum level is the larger of the two levels. */
  lemma OneChildMaxLevel(f: Fields, matched: bool, c: Node)
    requires c.children == []
    ensures MaxLevel(Node(f, matched, [c])) == Max(c.fields.level, f.level)
  {
    assert [c][1..] == [];
    assert MaxLevel(c) == c.fields.level;
    assert MaxLevelAll([c], f.level) == Max(MaxLevel(c), MaxLevelAll([], f.level));
  }

  // ---------------------------------------------------------------- annotate

  /** One annotate pass in pre-order: every node records whether it matched, and matched nodes are annotated. */
  function AnnotateTree(t: Node, criterion: string, hex: string): (r: Node)
    ensures r.matched <==> IsMatch(t.fields, criterion)
    ensures r.matched ==> r.fields.colour == hex && r.fields.note == t.fields.note + MatchNote(criterion)
    ensures !r.matched ==> r.fields == t.fields
    ensures r.fields.level == t.fields.level && |r.children| == |t.children|
    decreases t
  {
    Node(AnnotateIfMatch(t.fields, criterion, hex), IsMatch(t.fields, criterion),
         AnnotateTreeAll(t.children, criterion, hex))
  }

  function AnnotateTreeAll(ts: seq<Node>, criterion: string, hex: string): (r: seq<Node>)
    ensures |r| == |ts|
    ensures forall k :: 0 <= k < |ts| ==> r[k] == AnnotateTree(ts[k], criterion, hex)
    decreases ts
  {
    if ts == [] then [] else [AnnotateTree(ts[0], criterion, hex)] + AnnotateTreeAll(ts[1..], criterion, hex)
  }

  /** The number of nodes of the subtree that match the criterion: at most one per node, at least one when the node itself matches. */
  function MatchCount(t: Node, criterion: string): (n: nat)
    ensures n <= |DocOrder(t)|
    ensures IsMatch(t.fields, criterion) ==> n >= 1
    decreases t
  {
    (if IsMatch(t.fields, criterion) then 1 else 0) + MatchCountAll(t.children, criterion)
  }

  function MatchCountAll(ts: seq<Node>, criterion: string): (n: nat)
    ensures n <= |DocOrderAll(ts)|
    decreases ts
  {
    if ts == [] then 0 else MatchCount(ts[0], criterion) + MatchCountAll(ts[1..], criterion)
  }

  /** The annotate step applied to each record of a document-order list. */
  function AnnotateRecords(fs: seq<Fields>, criterion: string, hex: string): (gs: seq<Fields>)
    ensures |gs| == |fs|
    ensures forall k :: 0 <= k < |fs| ==> gs[k] == AnnotateIfMatch(fs[k], criterion, hex)
  {
    if fs == [] then [] else [AnnotateIfMatch(fs[0], criterion, hex)] + AnnotateRecords(fs[1..], criterion, hex)
  }

  /** The number of records of a list that match the criterion. */
  function CountMatches(fs: seq<Fields>, criterion: string): (n: nat)
    ensures n <= |fs|
    ensures n == 0 <==> forall k :: 0 <= k < |fs| ==> !IsMatch(fs[k], criterion)
  {
    if fs == [] then 0
    else
      var rest := CountMatches(fs[1..], criterion);
      assert forall k :: 1 <= k < |fs| ==> fs[k] == fs[1..][k - 1];
      (if IsMatch(fs[0], criterion) then 1 else 0) + rest
  }

  lemma {:induction false} CountMatchesAppend(a: seq<Fields>, b: seq<Fields>, criterion: string)
    ensures CountMatches(a + b, criterion) == CountMatches(a, criterion) + CountMatches(b, criterion)
    decreases a
  {
    if a == [] {
      assert a + b == b;
    } else {
      assert (a + b)[1..] == a[1..] + b;
      CountMatchesAppend(a[1..], b, criterion);
    }
  }

  /**
   * The annotate pass edits the records in place and keeps their order: the tree's
   * records afterwards are the annotate step applied to each record before, and the
   * pass counts exactly the matching records.
   */
  lemma {:induction false} AnnotateTreeDocOrder(t: Node, criterion: string, hex: string)
    ensures DocOrder(AnnotateTree(t, criterion, hex)) == AnnotateRecords(DocOrder(t), criterion, hex)
    ensures MatchCount(t, criterion) == CountMatches(DocOrder(t), criterion)
    decreases t
  {
    AnnotateTreeAllDocOrder(t.children, criterion, hex);
    CountMatchesAppend([t.fields], DocOrderAll(t.children), criterion);
    assert [t.fields][1..] == [];
  }

  lemma {:induction false} AnnotateTreeAllDocOrder(ts: seq<Node>, criterion: string, hex: string)
    ensures DocOrderAll(AnnotateTreeAll(ts, criterion, hex)) == AnnotateRecords(DocOrderAll(ts), criterion, hex)
    ensures MatchCountAll(ts, criterion) == CountMatches(DocOrderAll(ts), criterion)
    decreases ts
  {
    if ts != [] {
      var r := AnnotateTreeAll(ts, criterion, hex);
      assert r[0] == AnnotateTree(ts[0], criterion, hex);
      assert r[1..] == AnnotateTreeAll(ts[1..], criterion, hex);
      AnnotateTreeDocOrder(ts[0], criterion, hex);
      AnnotateTreeAllDocOrder(ts[1..], criterion, hex);
      CountMatchesAppend(DocOrder(ts[0]), DocOrderAll(ts[1..]), criterion);
    }
  }

  /** A node whose criterion does not match anywhere in its subtree is left exactly as it was, bar the flags. */
  lemma AnnotateNoMatch(fs: seq<Fields>, criterion: string, hex: string)
    requires CountMatches(fs, criterion) == 0
    ensures AnnotateRecords(fs, criterion, hex) == fs
  {
  }

  /**
   * What the annotate pass does to each record, in document order: a matching record
   * takes the colour and gains the note, any other record is left exactly as it was,
   * and no record changes level or cell, so the same rows stay visible.
   */
  lemma AnnotateTreeEffect(t: Node, criterion: string, hex: string)
    ensures |DocOrder(AnnotateTree(t, criterion, hex))| == |DocOrder(t)|
    ensures forall k :: 0 <= k < |DocOrder(t)| ==>
      var f, g := DocOrder(t)[k], DocOrder(AnnotateTree(t, criterion, hex))[k];
      && (IsMatch(f, criterion) ==> g.colour == hex && g.note == f.note + MatchNote(criterion))
      && (!IsMatch(f, criterion) ==> g == f)
      && g.(colour := f.colour, note := f.note) == f
  {
    AnnotateTreeDocOrder(t, criterion, hex);
  }
}
