/**
 * The outline-tree node class. A node owns its data fields, an ordered list of
 * child nodes, a back-reference to its parent and a "matched" flag. The ghost
 * field `model` holds the subtree as an `Outline.Node` value, kept in step with
 * the objects by `Valid()`; the operations are specified against it.
 */
module Trees {
  import opened Patterns
  import opened Records
  import opened Outline

  /** The caller's output list: writeCSVTree appends rows to it and hands the same list back. */
  class OutputArray {
    var items: seq<Entry>

    constructor (initial: seq<Entry>)
      ensures items == initial
    {
      items := initial;
    }
  }

  /** `s` with the element at index `k` taken out. */
  function RemoveAt<T>(s: seq<T>, k: nat): (r: seq<T>)
    requires k < |s|
    ensures |r| == |s| - 1
    ensures forall j :: 0 <= j < k ==> r[j] == s[j]
    ensures forall j :: k <= j < |r| ==> r[j] == s[j + 1]
  {
    s[..k] + s[k + 1..]
  }

  /** The index of the first occurrence of `x` in `s`, or -1 when it does not occur. */
  function IndexOf<T(==)>(s: seq<T>, x: T): (k: int)
    ensures -1 <= k < |s|
    ensures k == -1 <==> x !in s
    ensures 0 <= k ==> s[k] == x && x !in s[..k]
  {
    if s == [] then -1
    else if s[0] == x then 0
    else
      var k := IndexOf(s[1..], x);
      assert s[1..] == s[..|s|][1..];
      if k == -1 then -1
      else
        assert s[..k + 1] == [s[0]] + s[1..][..k];
        k + 1
  }

  class CSVTree {
    var data: Fields
    var childNodes: seq<CSVTree>
    var parent: CSVTree?
    var matched: bool
    /** The nodes of this subtree. */
    ghost var repr: set<CSVTree>
    /** This subtree as a value. */
    ghost var model: Node

    /**
     * The subtree is a tree: each child's subtree lies inside this one and does not
     * contain this node, and children's subtrees are pairwise disjoint. `model` is
     * this node's data and flag over its children's models, in order.
     */
    ghost predicate Valid()
      reads this`data, this`matched, this`childNodes, this`repr, this`model
      reads repr`data, repr`matched, repr`childNodes, repr`repr, repr`model
      decreases repr
    {
      && this in repr
      && model.fields == data && model.matched == matched
      && |model.children| == |childNodes|
      && (forall k :: 0 <= k < |childNodes| ==>
            && childNodes[k] in repr && childNodes[k].repr <= repr && this !in childNodes[k].repr
            && childNodes[k].Valid()
            && model.children[k] == childNodes[k].model)
      && (forall i, j :: 0 <= i < j < |childNodes| ==> childNodes[i].repr !! childNodes[j].repr)
    }

    /** A new node holds the six fields given, in order, with no children, no parent and no match. */
    constructor (shape: string, colour: string, note: string, level: int, position: string, cell: string)
      ensures Valid() && repr == {this}
      ensures data == Fields(shape, colour, note, level, position, cell)
      ensures childNodes == [] && parent == null && !matched
      ensures model == Node(Fields(shape, colour, note, level, position, cell), false, [])
    {
      data := Fields(shape, colour, note, level, position, cell);
      childNodes := [];
      parent := null;
      matched := false;
      repr := {this};
      model := Node(data, false, []);
    }

    /** Give this node a new level, as the tests do by assigning the level field of a root node. */
    method SetLevel(level: int)
      requires Valid()
      modifies this`data, this`model
      ensures Valid()
      ensures data == old(data).(level := level)
      ensures model == old(model).(fields := data)
    {
      data := data.(level := level);
      model := model.(fields := data);
    }

    /** Append `c` as the last child and make this node its parent. */
    method AddChild(c: CSVTree)
      requires Valid() && c.Valid() && repr !! c.repr
      modifies this`childNodes, this`repr, this`model, c`parent
      ensures Valid() && c.Valid()
      ensures childNodes == old(childNodes) + [c] && repr == old(repr) + c.repr
      ensures c.parent == this
      ensures model == old(model).(children := old(model).children + [c.model])
    {
      childNodes := childNodes + [c];
      repr := repr + c.repr;
      model := model.(children := model.children + [c.model]);
      c.parent := this;
    }

    /** The children, in order. */
    method GetChildren() returns (cs: seq<CSVTree>)
      ensures cs == childNodes
    {
      cs := childNodes;
    }

    /** Remove `c` from the children if it is one of them; otherwise change nothing. */
    method DeleteChild(c: CSVTree)
      requires Valid()
      modifies this`childNodes, this`repr, this`model
      ensures Valid()
      ensures c !in childNodes
      ensures c !in old(childNodes) ==> childNodes == old(childNodes) && repr == old(repr) && model == old(model)
      ensures c in old(childNodes) ==>
        exists k :: 0 <= k < |old(childNodes)| && old(childNodes)[k] == c
          && childNodes == RemoveAt(old(childNodes), k)
          && model == old(model).(children := RemoveAt(old(model).children, k))
    {
      var k := IndexOf(childNodes, c);
      if k >= 0 {
        ghost var was := childNodes;
        forall j | 0 <= j < |was| && j != k
          ensures was[j] != c
        {
          if j < k { assert was[j] in was[..k]; } else { assert was[j].repr !! was[k].repr; }
        }
        childNodes := RemoveAt(childNodes, k);
        repr := repr - c.repr;
        model := model.(children := RemoveAt(model.children, k));
        forall j | 0 <= j < |childNodes|
          ensures childNodes[j].repr <= repr
        {
          var j' := if j < k then j else j + 1;
          assert was[j'] == childNodes[j];
          assert if j' < k then was[j'].repr !! was[k].repr else was[k].repr !! was[j'].repr;
        }
      }
    }

    /** The criterion occurs, with its anchors respected, in this node's shape, colour, note or cell. */
    function IsMatch(criterion: string): (r: bool)
      reads this`data
      ensures r <==> exists k :: 0 <= k < 4 && exists i :: MatchesAt(Parse(criterion), SearchedTexts(data)[k], i)
    {
      IsMatchMeaning(data, criterion);
      Records.IsMatch(data, criterion)
    }

    /** The largest level in this subtree. */
    function CalculateMaximumLevel(): (r: int)
      reads this`data, this`matched, this`childNodes, this`repr, this`model
      reads repr`data, repr`matched, repr`childNodes, repr`repr, repr`model
      requires Valid()
      ensures r == MaxLevel(model)
      decreases repr, 1
    {
      MaxFrom(0)
    }

    /** The largest of this node's level and the maximum levels of the children from index `i` on. */
    function MaxFrom(i: nat): (r: int)
      reads this`data, this`matched, this`childNodes, this`repr, this`model
      reads repr`data, repr`matched, repr`childNodes, repr`repr, repr`model
      requires Valid() && i <= |childNodes|
      ensures r == MaxLevelAll(model.children[i..], data.level)
      decreases repr, 0, |childNodes| - i
    {
      if i == |childNodes| then data.level
      else
        assert model.children[i..][1..] == model.children[i + 1..];
        Max(childNodes[i].CalculateMaximumLevel(), MaxFrom(i + 1))
    }

    /**
     * Append the rows of this subtree, in pre-order, to `out` and hand `out` back:
     * a node with a non-negative level writes its own row, and every child then
     * writes its subtree.
     */
    method WriteCSVTree(out: OutputArray) returns (r: OutputArray)
      requires Valid()
      modifies out
      ensures r == out
      ensures out.items == old(out.items) + Rows(model)
      decreases repr
    {
      if data.level >= 0 {
        out.items := out.items + [Row(CSVRow(data))];
      }
      var i := 0;
      while i < |childNodes|
        invariant 0 <= i <= |childNodes|
        invariant out.items == old(out.items) + OwnRows(data) + RowsAll(model.children[..i])
      {
        var _ := childNodes[i].WriteCSVTree(out);
        RowsAllSnoc(model.children, i);
        i := i + 1;
      }
      assert model.children[..i] == model.children;
      r := out;
    }
  }
}
