/**
 * The diagnostic report an annotate run prints: a two-column table of the rules
 * (criterion, action) under a heading and its underline, two empty lines, then
 * one line per palette colour used, giving its index and its hex code. A one-rule
 * annotate run is defined here too, so that the colour the report names is the
 * one the pass applied.
 */
module Report {
  import Records
  import Outline

  /** The criterion column is this wide; the action starts right after it. */
  const CriterionWidth: nat := 41

  const CriterionHeading := "Criterion"
  const ActionsHeading := "Actions"

  /** One rule as given on the command line: a criterion and its action text. */
  datatype Rule = Rule(criterion: string, action: string)

  /** `n` spaces. */
  function Spaces(n: nat): (r: string)
    ensures |r| == n && forall k :: 0 <= k < n ==> r[k] == ' '
  {
    seq(n, _ => ' ')
  }

  /** `s` padded on the right with spaces to width `w`; text already that wide is left whole. */
  function LeftJustify(s: string, w: nat): (r: string)
    ensures |r| == if |s| < w then w else |s|
    ensures r[..|s|] == s
    ensures forall k :: |s| <= k < |r| ==> r[k] == ' '
  {
    if |s| < w then s + Spaces(w - |s|) else s
  }

  /** A row of dashes as long as `s`, to underline it. */
  function Underline(s: string): (r: string)
    ensures |r| == |s| && forall k :: 0 <= k < |r| ==> r[k] == '-'
  {
    seq(|s|, _ => '-')
  }

  /** Two texts set in the two columns of the rule table. */
  function TableLine(left: string, right: string): (r: string)
    ensures |r| == (if |left| < CriterionWidth then CriterionWidth else |left|) + |right|
    ensures r[..|left|] == left
    ensures |left| < CriterionWidth ==>
      && r[CriterionWidth..] == right
      && forall k :: |left| <= k < CriterionWidth ==> r[k] == ' '
    ensures |left| >= CriterionWidth ==> r[|left|..] == right
  {
    LeftJustify(left, CriterionWidth) + right
  }

  /** A criterion shorter than the column is read back from a table line by dropping the trailing spaces. */
  lemma TableLineSplits(left: string, right: string)
    requires |left| < CriterionWidth && (left == [] || left[|left| - 1] != ' ')
    ensures TrimRight(TableLine(left, right)[..CriterionWidth]) == left
  {
    var r := TableLine(left, right);
    assert r[..CriterionWidth] == left + Spaces(CriterionWidth - |left|);
    TrimRightSpaces(left, CriterionWidth - |left|);
  }

  /** `s` without its trailing spaces. */
  function TrimRight(s: string): (r: string)
    ensures |r| <= |s| && r == s[..|r|]
    ensures r == [] || r[|r| - 1] != ' '
    ensures forall k :: |r| <= k < |s| ==> s[k] == ' '
  {
    if s == [] || s[|s| - 1] != ' ' then s else TrimRight(s[..|s| - 1])
  }

  lemma {:induction false} TrimRightSpaces(s: string, n: nat)
    requires s == [] || s[|s| - 1] != ' '
    ensures TrimRight(s + Spaces(n)) == s
  {
    if n > 0 {
      assert (s + Spaces(n))[..|s| + n - 1] == s + Spaces(n - 1);
      TrimRightSpaces(s, n - 1);
    } else {
      assert s + Spaces(0) == s;
    }
  }

  /** The decimal digit for `d`. */
  function Digit(d: nat): (c: char)
    requires d < 10
    ensures '0' <= c <= '9' && (c as int) - ('0' as int) == d
  {
    (('0' as int) + d) as char
  }

  /** `n` in decimal, without leading zeros. */
  function NatToString(n: nat): (r: string)
    ensures |r| >= 1 && IsDigits(r)
    ensures r[0] == '0' ==> n == 0
    decreases n
  {
    if n < 10 then [Digit(n)] else NatToString(n / 10) + [Digit(n % 10)]
  }

  predicate IsDigits(s: string)
  {
    forall k :: 0 <= k < |s| ==> '0' <= s[k] <= '9'
  }

  /** The number a string of decimal digits denotes. */
  function ParseDigits(s: string): nat
    requires IsDigits(s)
  {
    if s == [] then 0 else 10 * ParseDigits(s[..|s| - 1]) + ((s[|s| - 1] as int) - ('0' as int))
  }

  /** Reading a written number back gives the number. */
  lemma {:induction false} ParseNatToString(n: nat)
    ensures ParseDigits(NatToString(n)) == n
    decreases n
  {
    var r := NatToString(n);
    if n >= 10 {
      assert r[..|r| - 1] == NatToString(n / 10);
      ParseNatToString(n / 10);
    }
  }

  /** The usage line for palette colour `index`: its index, a space, its hex code. */
  function ColourLine(index: nat, palette: seq<string>): (r: string)
    requires index < |palette|
    ensures exists p :: 1 <= p < |r| && r[p] == ' ' && IsDigits(r[..p]) && r[p + 1..] == palette[index]
  {
    var digits := NatToString(index);
    var r := digits + " " + palette[index];
    assert r[..|digits|] == digits && r[|digits| + 1..] == palette[index];
    r
  }

  /** A colour line names its palette entry: the digits before the first space give back the index. */
  lemma ColourLineNamesIndex(index: nat, palette: seq<string>)
    requires index < |palette|
    ensures var r := ColourLine(index, palette); var p := |NatToString(index)|;
      p < |r| && r[p] == ' ' && IsDigits(r[..p]) && ParseDigits(r[..p]) == index && r[p + 1..] == palette[index]
  {
    var r := ColourLine(index, palette);
    var digits := NatToString(index);
    assert r[..|digits|] == digits;
    ParseNatToString(index);
  }

  /**
   * The whole report: heading and underline, one table line per rule in rule order,
   * two empty lines, then one line per used palette index in the order given.
   */
  function ReportLines(rules: seq<Rule>, used: seq<nat>, palette: seq<string>): (r: seq<string>)
    requires forall k :: 0 <= k < |used| ==> used[k] < |palette|
    ensures |r| == |rules| + |used| + 4
    ensures r[0] == TableLine(CriterionHeading, ActionsHeading)
    ensures r[1] == TableLine(Underline(CriterionHeading), Underline(ActionsHeading))
    ensures forall k :: 0 <= k < |rules| ==> r[2 + k] == TableLine(rules[k].criterion, rules[k].action)
    ensures r[2 + |rules|] == "" && r[3 + |rules|] == ""
    ensures forall k :: 0 <= k < |used| ==> r[4 + |rules| + k] == ColourLine(used[k], palette)
  {
    [TableLine(CriterionHeading, ActionsHeading), TableLine(Underline(CriterionHeading), Underline(ActionsHeading))]
    + seq(|rules|, k requires 0 <= k < |rules| => TableLine(rules[k].criterion, rules[k].action))
    + ["", ""]
    + seq(|used|, k requires 0 <= k < |used| => ColourLine(used[k], palette))
  }

  // ---------------------------------------------------------------- one annotate run

  /** The index of the first space in `s`, or `|s|` when it has none. */
  function FirstSpace(s: string): (p: nat)
    ensures p <= |s| && (p < |s| ==> s[p] == ' ')
    ensures forall k :: 0 <= k < p ==> s[k] != ' '
  {
    if s == [] || s[0] == ' ' then 0 else 1 + FirstSpace(s[1..])
  }

  /**
   * The palette index an action names when it reads `<index> note`: decimal digits,
   * one space, then `note`. An action of any other form names none.
   */
  function ColourAction(action: string): (r: Records.Option<nat>)
    ensures r.Some? ==> exists p :: 1 <= p < |action| && IsDigits(action[..p])
                                    && ParseDigits(action[..p]) == r.value && action[p..] == " note"
  {
    var p := FirstSpace(action);
    if 1 <= p < |action| && IsDigits(action[..p]) && action[p..] == " note" then Records.Some(ParseDigits(action[..p]))
    else Records.None
  }

  /** A written index followed by ` note` names that index. */
  lemma ColourActionOf(n: nat)
    ensures ColourAction(NatToString(n) + " note") == Records.Some(n)
  {
    var d := NatToString(n);
    var a := d + " note";
    assert a[|d|] == ' ';
    assert forall k :: 0 <= k < |d| ==> a[k] == d[k];
    assert FirstSpace(a) == |d|;
    assert a[..|d|] == d && a[|d|..] == " note";
    ParseNatToString(n);
  }

  /** Some record of the list matches the criterion. */
  predicate AnyMatch(fs: seq<Records.Fields>, criterion: string)
  {
    exists k :: 0 <= k < |fs| && Records.IsMatch(fs[k], criterion)
  }

  /** The palette indices a one-rule pass used: its own index when some record matched, none otherwise. */
  function UsedColours(t: Outline.Node, criterion: string, index: nat): (r: seq<nat>)
    ensures r == [] || r == [index]
    ensures r == [index] <==> AnyMatch(Outline.DocOrder(t), criterion)
  {
    Outline.AnnotateTreeDocOrder(t, criterion, "");
    if Outline.MatchCount(t, criterion) > 0 then [index] else []
  }

  /** What a run leaves behind: the annotated tree and the report it prints. */
  datatype Outcome = Outcome(tree: Outline.Node, report: seq<string>)

  /**
   * One annotate run with one rule whose action is `<index> note`: every matching
   * node takes palette entry `index` as its colour and gains the note, and the report
   * lists the rule and the colours used. An action of another form, or an index past
   * the end of the palette, gives no run.
   */
  function AnnotateRun(t: Outline.Node, rule: Rule, palette: seq<string>): (r: Records.Option<Outcome>)
    ensures r.Some? <==> ColourAction(rule.action).Some? && ColourAction(rule.action).value < |palette|
    ensures r.Some? ==>
      Outline.DocOrder(r.value.tree)
      == Outline.AnnotateRecords(Outline.DocOrder(t), rule.criterion, palette[ColourAction(rule.action).value])
  {
    match ColourAction(rule.action)
    case None => Records.None
    case Some(n) =>
      if n < |palette| then
        Outline.AnnotateTreeDocOrder(t, rule.criterion, palette[n]);
        Records.Some(Outcome(Outline.AnnotateTree(t, rule.criterion, palette[n]),
                             ReportLines([rule], UsedColours(t, rule.criterion, n), palette)))
      else Records.None
  }

  /**
   * The report of a run names the colour the run applied: it lists the rule, it has a
   * colour line exactly when some record matched, that line gives palette entry
   * `index`, and every record that matched now carries that entry as its colour.
   */
  lemma AnnotateRunReportsColour(t: Outline.Node, rule: Rule, palette: seq<string>, index: nat)
    requires ColourAction(rule.action) == Records.Some(index) && index < |palette|
    ensures AnnotateRun(t, rule, palette).Some?
    ensures var o := AnnotateRun(t, rule, palette).value;
      var fs, gs := Outline.DocOrder(t), Outline.DocOrder(o.tree);
      && o.report[2] == TableLine(rule.criterion, rule.action)
      && (|o.report| == 6 <==> AnyMatch(fs, rule.criterion))
      && (|o.report| == 6 ==> o.report[5] == ColourLine(index, palette))
      && |o.report| >= 5 && |gs| == |fs|
      && forall k :: 0 <= k < |fs| && Records.IsMatch(fs[k], rule.criterion) ==> gs[k].colour == palette[index]
  {
    var o := AnnotateRun(t, rule, palette).value;
    var fs, gs := Outline.DocOrder(t), Outline.DocOrder(o.tree);
    RunReport(t, rule, palette, index);
    forall k | 0 <= k < |fs| && Records.IsMatch(fs[k], rule.criterion)
      ensures gs[k].colour == palette[index]
    {
      assert gs[k] == Records.AnnotateIfMatch(fs[k], rule.criterion, palette[index]);
    }
  }

  /** The report part of a run: the rule's line, and a colour line exactly when something matched. */
  lemma RunReport(t: Outline.Node, rule: Rule, palette: seq<string>, index: nat)
    requires ColourAction(rule.action) == Records.Some(index) && index < |palette|
    ensures AnnotateRun(t, rule, palette).Some?
    ensures var r := AnnotateRun(t, rule, palette).value.report; var fs := Outline.DocOrder(t);
      && r[2] == TableLine(rule.criterion, rule.action)
      && (|r| == 6 <==> AnyMatch(fs, rule.criterion))
      && (|r| == 6 ==> r[5] == ColourLine(index, palette))
      && |r| >= 5
  {
    var used := UsedColours(t, rule.criterion, index);
    RunIs(t, rule, palette, index);
    OneRuleReport(rule, used, palette, index);
    if AnyMatch(Outline.DocOrder(t), rule.criterion) {
      assert used == [index];
    } else {
      assert used == [];
    }
  }

  /** A run whose action names `index` annotates with palette entry `index` and reports the colours that pass used. */
  lemma RunIs(t: Outline.Node, rule: Rule, palette: seq<string>, index: nat)
    requires ColourAction(rule.action) == Records.Some(index) && index < |palette|
    ensures AnnotateRun(t, rule, palette) == Records.Some(Outcome(
      Outline.AnnotateTree(t, rule.criterion, palette[index]),
      ReportLines([rule], UsedColours(t, rule.criterion, index), palette)))
  {
  }

  /** The report of one rule: its table line third, then a colour line when one colour was used. */
  lemma OneRuleReport(rule: Rule, used: seq<nat>, palette: seq<string>, index: nat)
    requires index < |palette| && (used == [] || used == [index])
    ensures var r := ReportLines([rule], used, palette);
      && r[2] == TableLine(rule.criterion, rule.action)
      && |r| == 5 + |used|
      && (used == [index] ==> r[5] == ColourLine(index, palette))
  {
  }
}
