/**
 * The data side of the advanced rule editor window: the table between stored
 * group kinds and the labels the kind box shows, the form state the window
 * keeps (condition groups of affix rows, each known by the frame that displays
 * it), the list maintenance behind its buttons, and `save_data`, which turns
 * the form into the stored rule list.
 *
 * Widgets are replaced by the text they hold. A frame is an opaque identity:
 * the editor hands out a fresh number wherever the window creates a frame.
 */
module Editor {
  import opened Wrappers
  import opened Text

  // ---------------------------------------------------------------------------
  // Group kinds and their labels
  // ---------------------------------------------------------------------------

  const And: string := "AND"
  const Count: string := "COUNT"
  const Not: string := "NOT"
  const AndLabel: string := "和"
  const CountLabel: string := "数量"
  const NotLabel: string := "非"

  /** `TYPE_MAP`: stored kind code to the label shown in the kind box. */
  const TypeMap: map<string, string> := map[And := AndLabel, Count := CountLabel, Not := NotLabel]

  /** `REVERSE_TYPE_MAP`: `TYPE_MAP` turned around, label to kind code (see `TypeMapsInverse`). */
  const ReverseTypeMap: map<string, string> := map[AndLabel := And, CountLabel := Count, NotLabel := Not]

  /** The label a group of stored kind `code` is shown with (`TYPE_MAP.get(code, "和")`). */
  function LabelOf(code: string): string {
    if code in TypeMap then TypeMap[code] else AndLabel
  }

  /** The kind a group is saved with, from the label in its box (`REVERSE_TYPE_MAP.get(display, "AND")`). */
  function KindOf(display: string): string {
    if display in ReverseTypeMap then ReverseTypeMap[display] else And
  }

  /** The three kind codes differ, and so do the three labels. */
  lemma KindsDistinct()
    ensures And != Count && And != Not && Count != Not
    ensures AndLabel != CountLabel && AndLabel != NotLabel && CountLabel != NotLabel
  {
    assert And[0] == 'A' && Count[0] == 'C' && Not[0] == 'N';
    assert AndLabel[0] != NotLabel[0] && |CountLabel| == 2 && |AndLabel| == 1 && |NotLabel| == 1;
  }

  /** The two tables are inverse to each other, and their key and value sets swap. */
  lemma TypeMapsInverse()
    ensures ReverseTypeMap.Keys == TypeMap.Values && ReverseTypeMap.Values == TypeMap.Keys
    ensures forall code :: code in TypeMap ==> ReverseTypeMap[TypeMap[code]] == code
    ensures forall display :: display in ReverseTypeMap ==> TypeMap[ReverseTypeMap[display]] == display
  {
    KindsDistinct();
    assert TypeMap.Keys == {And, Count, Not};
    assert TypeMap.Values == {AndLabel, CountLabel, NotLabel};
    assert ReverseTypeMap.Keys == {AndLabel, CountLabel, NotLabel};
    assert ReverseTypeMap.Values == {And, Count, Not};
  }

  /** A saved kind is always one of AND, COUNT and NOT; an unknown label saves as AND. */
  lemma KindIsKnown(display: string)
    ensures KindOf(display) in TypeMap
    ensures display !in ReverseTypeMap ==> KindOf(display) == And
  {
    TypeMapsInverse();
  }

  /** Showing a stored kind and saving it again gives the kind back; an unknown kind comes back as AND. */
  lemma LabelThenKind(code: string)
    ensures KindOf(LabelOf(code)) == if code in TypeMap then code else And
    ensures code !in TypeMap ==> LabelOf(code) == AndLabel
  {
    TypeMapsInverse();
  }

  /** Saving a label and showing the kind again gives the label back; an unknown label comes back as "和". */
  lemma KindThenLabel(display: string)
    ensures LabelOf(KindOf(display)) == if display in ReverseTypeMap then display else AndLabel
  {
    TypeMapsInverse();
  }

  // ---------------------------------------------------------------------------
  // Form state and the data it is filled from
  // ---------------------------------------------------------------------------

  /** One affix row: its frame and the text of its name, minimum and maximum entries. */
  datatype Row = Row(frame: nat, name: string, minText: string, maxText: string)

  /** One condition group: its frame, the label in its kind box, its count bounds and its affix rows. */
  datatype Group = Group(frame: nat, display: string, minText: string, maxText: string, rows: seq<Row>)

  /**
   * An affix item of a stored group as `add_affix_row` reads it: a dict (its
   * `name`, and the `str()` of its `min_value` and `max_value`, "" when absent),
   * a plain string, or anything else.
   */
  datatype AffixData = Named(name: string, minValue: string, maxValue: string) | Plain(text: string) | Other

  /**
   * A stored group as `add_group` reads it: its `type` (None when absent), its
   * `affixes` (an empty sequence also stands for a value that is not a list),
   * and the `str()` of `min` and `max` (None when absent or None).
   */
  datatype GroupData = GroupData(kind: Option<string>, affixes: seq<AffixData>, min: Option<string>, max: Option<string>)

  /** What `add_group()` uses when it is given no data. */
  const DefaultGroup := GroupData(Some(And), [], Some(""), Some(""))

  /** The row `add_affix_row` builds in frame `frame` from an affix item. */
  function NewRow(frame: nat, d: AffixData): (r: Row)
    ensures r.frame == frame
    ensures d.Named? ==> r.name == d.name && r.minText == d.minValue && r.maxText == d.maxValue
    ensures d.Plain? ==> r.name == d.text && r.minText == [] && r.maxText == []
    ensures d.Other? ==> r.name == [] && r.minText == [] && r.maxText == []
  {
    match d
    case Named(name, lo, hi) => Row(frame, name, lo, hi)
    case Plain(text) => Row(frame, text, "", "")
    case Other => Row(frame, "", "", "")
  }

  /** The rows for the items `ds`, in frames `frame`, `frame + 1`, ... */
  function RowsOf(frame: nat, ds: seq<AffixData>): (rows: seq<Row>)
    ensures |rows| == |ds|
    ensures forall j :: 0 <= j < |ds| ==> rows[j] == NewRow(frame + j, ds[j])
  {
    seq(|ds|, j requires 0 <= j < |ds| => NewRow(frame + j, ds[j]))
  }

  /** The group `add_group` builds in frame `frame`: at least one row, a blank one when there are no items. */
  function NewGroup(frame: nat, d: GroupData): (g: Group)
    ensures g.frame == frame && |g.rows| >= 1
    ensures g.display == LabelOf(d.kind.GetOr(And))
    ensures g.minText == d.min.GetOr("") && g.maxText == d.max.GetOr("")
    ensures d.affixes != [] ==> g.rows == RowsOf(frame + 1, d.affixes)
    ensures d.affixes == [] ==> g.rows == [Row(frame + 1, "", "", "")]
  {
    var rows := if d.affixes == [] then [NewRow(frame + 1, Plain(""))] else RowsOf(frame + 1, d.affixes);
    Group(frame, LabelOf(d.kind.GetOr(And)), d.min.GetOr(""), d.max.GetOr(""), rows)
  }

  /** How many frames `add_group` creates: the group's own and one per row. */
  function FramesUsed(d: GroupData): nat {
    1 + if d.affixes == [] then 1 else |d.affixes|
  }

  /** Each group on the form shows the stored group at the same position. */
  predicate Shows(groups: seq<Group>, ds: seq<GroupData>) {
    |groups| == |ds| && forall i :: 0 <= i < |ds| ==> groups[i] == NewGroup(groups[i].frame, ds[i])
  }

  /** Showing one more stored group after the others. */
  lemma ShowsAppend(groups: seq<Group>, ds: seq<GroupData>, frame: nat, d: GroupData)
    requires Shows(groups, ds)
    ensures Shows(groups + [NewGroup(frame, d)], ds + [d])
  {
    assert NewGroup(frame, d).frame == frame;
  }

  /** The group a reset leaves: kind AND, no bounds, one blank row. */
  lemma DefaultGroupShape(frame: nat)
    ensures var g := NewGroup(frame, DefaultGroup);
      g.display == AndLabel && KindOf(g.display) == And && g.minText == [] && g.maxText == []
      && |g.rows| == 1 && g.rows[0].name == [] && g.rows[0].minText == [] && g.rows[0].maxText == []
  {
    LabelThenKind(And);
  }

  // ---------------------------------------------------------------------------
  // Finding by frame
  // ---------------------------------------------------------------------------

  /**
   * The position of the first row, or group, in frame `frame`, if there is
   * one: the loops of `_remove_affix_row_helper` and `remove_group` both break
   * at the first item whose frame is the target.
   */
  function FrameIndex<T>(items: seq<T>, frameOf: T -> nat, frame: nat): (r: Option<nat>)
    ensures r.Some? ==>
      r.value < |items| && frameOf(items[r.value]) == frame && forall j :: 0 <= j < r.value ==> frameOf(items[j]) != frame
    ensures r.None? ==> forall j :: 0 <= j < |items| ==> frameOf(items[j]) != frame
  {
    if items == [] then None
    else if frameOf(items[0]) == frame then Some(0)
    else match FrameIndex(items[1..], frameOf, frame)
      case None => None
      case Some(k) => Some(k + 1)
  }

  /** `[g for g in groups if g != target]`. */
  function Without(groups: seq<Group>, target: Group): (r: seq<Group>)
    ensures forall g :: g in r <==> g in groups && g != target
    ensures |r| <= |groups|
  {
    if groups == [] then []
    else (if groups[0] != target then [groups[0]] else []) + Without(groups[1..], target)
  }

  predicate DistinctFrames(groups: seq<Group>) {
    forall i, k :: 0 <= i < k < |groups| ==> groups[i].frame != groups[k].frame
  }

  /** When frames are distinct, filtering out one group removes exactly that position. */
  lemma {:induction false} WithoutDistinct(groups: seq<Group>, k: nat)
    requires k < |groups| && DistinctFrames(groups)
    ensures Without(groups, groups[k]) == groups[..k] + groups[k + 1..]
  {
    var target := groups[k];
    if k == 0 {
      WithoutAbsent(groups[1..], target);
    } else {
      assert groups[0].frame != target.frame;
      assert groups[1..][k - 1] == target;
      WithoutDistinct(groups[1..], k - 1);
      assert groups[..k] == [groups[0]] + groups[1..][..k - 1];
      assert groups[k + 1..] == groups[1..][k..];
    }
  }

  lemma {:induction false} WithoutAbsent(groups: seq<Group>, target: Group)
    requires forall j :: 0 <= j < |groups| ==> groups[j].frame != target.frame
    ensures Without(groups, target) == groups
  {
    if groups != [] {
      WithoutAbsent(groups[1..], target);
    }
  }

  // ---------------------------------------------------------------------------
  // Saving
  // ---------------------------------------------------------------------------

  /** `float()` of a stripped bound entry: None where it raises ValueError. */
  type Parser = string -> Option<real>

  /** A saved affix: the bare name, or a dict with the name and the bounds that were filled in. */
  datatype SavedAffix = Bare(name: string) | Bounded(name: string, minValue: Option<real>, maxValue: Option<real>)

  /** A saved group: `type`, `affixes`, and `min`/`max` where they were set. */
  datatype SavedGroup = SavedGroup(kind: string, affixes: seq<SavedAffix>, min: Option<nat>, max: Option<nat>)

  /** What saving does with one row: drop it, save an affix, or fail on a bound `float()` rejects. */
  datatype RowOutcome = Dropped | Saved(affix: SavedAffix) | Invalid

  /** A bound entry: Some(None) when blank, Some(Some(v)) when it parses as `v`, None when it does not parse. */
  function Bound(text: string, parse: Parser): (r: Option<Option<real>>)
    ensures r == None <==> text != [] && parse(text).None?
    ensures r.Some? && r.value.Some? ==> text != [] && parse(text) == r.value
  {
    if text == [] then Some(None)
    else match parse(text)
      case None => None
      case Some(v) => Some(Some(v))
  }

  /** Saving one row. */
  function SaveRow(row: Row, parse: Parser): (r: RowOutcome)
    ensures r.Dropped? <==> Strip(row.name) == []
    ensures r.Saved? ==> r.affix.name == Strip(row.name)
    ensures r.Saved? ==> (r.affix.Bare? <==> Strip(row.minText) == [] && Strip(row.maxText) == [])
    ensures r.Saved? && r.affix.Bounded? ==>
      && (r.affix.minValue.Some? <==> Strip(row.minText) != [])
      && (r.affix.maxValue.Some? <==> Strip(row.maxText) != [])
    ensures r.Saved? && r.affix.Bounded? && Strip(row.minText) != [] ==> r.affix.minValue == parse(Strip(row.minText))
    ensures r.Saved? && r.affix.Bounded? && Strip(row.maxText) != [] ==> r.affix.maxValue == parse(Strip(row.maxText))
    ensures r.Invalid? <==>
      && Strip(row.name) != []
      && ((Strip(row.minText) != [] && parse(Strip(row.minText)).None?)
        || (Strip(row.maxText) != [] && parse(Strip(row.maxText)).None?))
  {
    var name, lo, hi := Strip(row.name), Strip(row.minText), Strip(row.maxText);
    if name == [] then Dropped
    else if lo == [] && hi == [] then Saved(Bare(name))
    else match (Bound(lo, parse), Bound(hi, parse))
      case (Some(a), Some(b)) => Saved(Bounded(name, a, b))
      case _ => Invalid
  }

  /** Saving the rows of a group, in order; None when some row fails. */
  function SaveRows(rows: seq<Row>, parse: Parser): Option<seq<SavedAffix>> {
    if rows == [] then Some([])
    else match SaveRow(rows[0], parse)
      case Invalid => None
      case Dropped => SaveRows(rows[1..], parse)
      case Saved(a) => Prefixed([a], SaveRows(rows[1..], parse))
  }

  /** The `min`/`max` a group saves: only for COUNT, and only when the stripped entry is all digits. */
  function CountBound(kind: string, text: string): (r: Option<nat>)
    ensures r.Some? <==> kind == Count && IsDigits(text)
    ensures r.Some? ==> r.value == DigitsValue(text)
  {
    if kind == Count && IsDigits(text) then Some(DigitsValue(text)) else None
  }

  /** Saving one group. */
  function SaveGroup(g: Group, parse: Parser): (r: Option<SavedGroup>)
    ensures r.None? <==> SaveRows(g.rows, parse).None?
    ensures r.Some? ==> r.value.kind == KindOf(g.display) && r.value.affixes == SaveRows(g.rows, parse).value
    ensures r.Some? ==> (r.value.min.Some? <==> r.value.kind == Count && IsDigits(Strip(g.minText)))
    ensures r.Some? ==> (r.value.max.Some? <==> r.value.kind == Count && IsDigits(Strip(g.maxText)))
    ensures r.Some? && r.value.min.Some? ==> r.value.min.value == DigitsValue(Strip(g.minText))
    ensures r.Some? && r.value.max.Some? ==> r.value.max.value == DigitsValue(Strip(g.maxText))
  {
    var kind := KindOf(g.display);
    match SaveRows(g.rows, parse)
    case None => None
    case Some(affixes) =>
      Some(SavedGroup(kind, affixes, CountBound(kind, Strip(g.minText)), CountBound(kind, Strip(g.maxText))))
  }

  /** Saving the whole form; None when `float()` rejects some bound. */
  function SaveAll(groups: seq<Group>, parse: Parser): Option<seq<SavedGroup>> {
    if groups == [] then Some([])
    else match SaveGroup(groups[0], parse)
      case None => None
      case Some(g) => Prefixed([g], SaveAll(groups[1..], parse))
  }

  /** The rows whose stripped name is not empty, in order. */
  function Kept(rows: seq<Row>): (r: seq<Row>)
    ensures |r| <= |rows|
  {
    if rows == [] then []
    else (if Strip(rows[0].name) != [] then [rows[0]] else []) + Kept(rows[1..])
  }

  /** Saving the rows of a group fails exactly when some row is invalid. */
  lemma {:induction false} SaveRowsFails(rows: seq<Row>, parse: Parser)
    ensures SaveRows(rows, parse).None? <==> exists j :: 0 <= j < |rows| && SaveRow(rows[j], parse).Invalid?
  {
    if rows != [] {
      SaveRowsFails(rows[1..], parse);
      assert forall j :: 1 <= j < |rows| ==> rows[j] == rows[1..][j - 1];
    }
  }

  /** Saving a row in front of rows that were saved one for one keeps the correspondence. */
  lemma SavedOneForOne(save: Row -> RowOutcome, row: Row, a: SavedAffix, rows: seq<Row>, saved: seq<SavedAffix>)
    requires save(row) == Saved(a)
    requires |saved| == |rows| && forall j :: 0 <= j < |rows| ==> save(rows[j]) == Saved(saved[j])
    ensures |[a] + saved| == |[row] + rows|
    ensures forall j :: 0 <= j < |[row] + rows| ==> save(([row] + rows)[j]) == Saved(([a] + saved)[j])
  {
    forall j | 1 <= j < |[row] + rows|
      ensures save(([row] + rows)[j]) == Saved(([a] + saved)[j])
    {
      assert ([row] + rows)[j] == rows[j - 1] && ([a] + saved)[j] == saved[j - 1];
    }
  }

  /** Blank rows are dropped and every other row is saved, in order. */
  lemma {:induction false} SaveRowsKeepsNamed(rows: seq<Row>, parse: Parser)
    ensures SaveRows(rows, parse).Some? ==>
      var saved := SaveRows(rows, parse).value;
      |saved| == |Kept(rows)| && forall j :: 0 <= j < |saved| ==> SaveRow(Kept(rows)[j], parse) == Saved(saved[j])
  {
    if rows != [] && SaveRows(rows, parse).Some? {
      SaveRowsKeepsNamed(rows[1..], parse);
      var r0 := SaveRow(rows[0], parse);
      var rest := SaveRows(rows[1..], parse);
      if r0.Saved? {
        SavedOneForOne(r => SaveRow(r, parse), rows[0], r0.affix, Kept(rows[1..]), rest.value);
        assert SaveRows(rows, parse).value == [r0.affix] + rest.value;
        assert Kept(rows) == [rows[0]] + Kept(rows[1..]);
      } else {
        assert r0.Dropped?;
        assert Kept(rows) == Kept(rows[1..]);
      }
    }
  }

  /** One saved group per group of the form, in the same order, even when a group saves no affixes. */
  lemma {:induction false} SaveAllPerGroup(groups: seq<Group>, parse: Parser)
    ensures SaveAll(groups, parse).None? <==> exists i :: 0 <= i < |groups| && SaveGroup(groups[i], parse).None?
    ensures SaveAll(groups, parse).Some? ==>
      var saved := SaveAll(groups, parse).value;
      |saved| == |groups| && forall i :: 0 <= i < |groups| ==> SaveGroup(groups[i], parse) == Some(saved[i])
  {
    if groups != [] {
      SaveAllPerGroup(groups[1..], parse);
      assert forall i :: 1 <= i < |groups| ==> groups[i] == groups[1..][i - 1];
    }
  }

  /** The bare affixes for the names `names`, in order. */
  function Bares(names: seq<string>): (r: seq<SavedAffix>)
    ensures |r| == |names| && forall j :: 0 <= j < |names| ==> r[j] == Bare(names[j])
  {
    if names == [] then [] else [Bare(names[0])] + Bares(names[1..])
  }

  /** A group built from stored data with a known kind and trimmed plain names saves back to that data. */
  lemma LoadThenSave(frame: nat, d: GroupData, names: seq<string>, parse: Parser)
    requires d.kind.Some? && d.kind.value in TypeMap
    requires |d.affixes| == |names| && names != []
    requires forall j :: 0 <= j < |names| ==> d.affixes[j] == Plain(names[j]) && names[j] != [] && Strip(names[j]) == names[j]
    ensures SaveGroup(NewGroup(frame, d), parse)
      == Some(SavedGroup(d.kind.value, Bares(names),
        CountBound(d.kind.value, Strip(d.min.GetOr(""))), CountBound(d.kind.value, Strip(d.max.GetOr("")))))
  {
    LabelThenKind(d.kind.value);
    PlainRowsSave(frame + 1, d.affixes, names, parse);
  }

  lemma {:induction false} PlainRowsSave(frame: nat, ds: seq<AffixData>, names: seq<string>, parse: Parser)
    requires |ds| == |names|
    requires forall j :: 0 <= j < |names| ==> ds[j] == Plain(names[j]) && names[j] != [] && Strip(names[j]) == names[j]
    ensures SaveRows(RowsOf(frame, ds), parse) == Some(Bares(names))
    decreases |ds|
  {
    var rows := RowsOf(frame, ds);
    if ds != [] {
      PlainRowsSave(frame + 1, ds[1..], names[1..], parse);
      assert rows[1..] == RowsOf(frame + 1, ds[1..]);
      StripTrimmed("");
      assert SaveRow(rows[0], parse) == Saved(Bare(names[0]));
    }
  }

  /** The group a reset leaves saves as an AND group with no affixes and no bounds. */
  lemma DefaultGroupSaves(frame: nat, parse: Parser)
    ensures SaveAll([NewGroup(frame, DefaultGroup)], parse) == Some([SavedGroup(And, [], None, None)])
  {
    DefaultGroupShape(frame);
    var g := NewGroup(frame, DefaultGroup);
    StripTrimmed("");
    assert SaveRow(g.rows[0], parse) == Dropped;
    assert g.rows[1..] == [];
    assert SaveRows(g.rows, parse) == Some([]);
    assert And[0] != Count[0];
    var saved := SavedGroup(And, [], None, None);
    assert SaveGroup(g, parse) == Some(saved);
    assert [g][1..] == [];
    assert SaveAll([g], parse) == Prefixed([saved], SaveAll([], parse));
    assert [saved] + [] == [saved];
  }

  /** The inner loop of `save_data`: the affixes of one group. */
  method SaveAffixes(rows: seq<Row>, parse: Parser) returns (r: Option<seq<SavedAffix>>)
    ensures r == SaveRows(rows, parse)
  {
    var affixes: seq<SavedAffix> := [];
    var j := 0;
    assert rows[j..] == rows;
    PrefixedEmpty(SaveRows(rows, parse));
    while j < |rows|
      invariant 0 <= j <= |rows|
      invariant SaveRows(rows, parse) == Prefixed(affixes, SaveRows(rows[j..], parse))
    {
      var row := rows[j];
      assert rows[j..][0] == row && rows[j..][1..] == rows[j + 1..];
      var name := Strip(row.name);
      var lo := Strip(row.minText);
      var hi := Strip(row.maxText);
      if name != [] {
        if lo == [] && hi == [] {
          PrefixedTwice(affixes, [Bare(name)], SaveRows(rows[j + 1..], parse));
          affixes := affixes + [Bare(name)];
        } else {
          var minValue: Option<real> := None;
          if lo != [] {
            minValue := parse(lo);
            if minValue.None? {
              return None;
            }
          }
          var maxValue: Option<real> := None;
          if hi != [] {
            maxValue := parse(hi);
            if maxValue.None? {
              return None;
            }
          }
          PrefixedTwice(affixes, [Bounded(name, minValue, maxValue)], SaveRows(rows[j + 1..], parse));
          affixes := affixes + [Bounded(name, minValue, maxValue)];
        }
      }
      j := j + 1;
    }
    assert rows[j..] == [];
    assert affixes + [] == affixes;
    r := Some(affixes);
  }

  // ---------------------------------------------------------------------------
  // The editor window
  // ---------------------------------------------------------------------------

  /** `ComplexRuleEditor`, reduced to its list of groups. */
  class RuleEditor {
    /** `self.groups`, in display order. */
    var groups: seq<Group>
    /** The next frame identity not yet handed out. */
    var nextFrame: nat

    /** Group frames are distinct and were all handed out already. */
    ghost predicate Valid()
      reads this
    {
      DistinctFrames(groups) && forall i :: 0 <= i < |groups| ==> groups[i].frame < nextFrame
    }

    /** `__init__`: one group per stored group when given a non-empty list, otherwise one default group. */
    constructor (initial: Option<seq<GroupData>>)
      ensures Valid()
      ensures initial.Some? && initial.value != [] ==> Shows(groups, initial.value)
      ensures !(initial.Some? && initial.value != []) ==> Shows(groups, [DefaultGroup])
    {
      groups := [];
      nextFrame := 0;
      new;
      if initial.Some? && initial.value != [] {
        var ds := initial.value;
        var i := 0;
        while i < |ds|
          invariant 0 <= i <= |ds| && Valid()
          invariant Shows(groups, ds[..i])
        {
          ghost var before, frame := groups, nextFrame;
          AddGroup(Some(ds[i]));
          ShowsAppend(before, ds[..i], frame, ds[i]);
          assert ds[..i + 1] == ds[..i] + [ds[i]];
          i := i + 1;
        }
        assert ds[..|ds|] == ds;
      } else {
        AddGroup(None);
      }
    }

    /** `add_group(data)`: appends the group built from `data`, or from the default when there is none. */
    method AddGroup(data: Option<GroupData>)
      requires Valid()
      modifies this
      ensures Valid()
      ensures groups == old(groups) + [NewGroup(old(nextFrame), data.GetOr(DefaultGroup))]
      ensures nextFrame == old(nextFrame) + FramesUsed(data.GetOr(DefaultGroup))
    {
      var d := if data.None? then DefaultGroup else data.value;
      var frame := nextFrame;
      var rows: seq<Row> := [];
      var i := 0;
      while i < |d.affixes|
        invariant 0 <= i <= |d.affixes|
        invariant rows == RowsOf(frame + 1, d.affixes[..i])
      {
        rows := rows + [NewRow(frame + 1 + i, d.affixes[i])];
        i := i + 1;
      }
      assert d.affixes[..i] == d.affixes;
      if rows == [] {
        rows := [NewRow(frame + 1, Plain(""))];
      }
      groups := groups + [Group(frame, LabelOf(d.kind.GetOr(And)), d.min.GetOr(""), d.max.GetOr(""), rows)];
      nextFrame := frame + FramesUsed(d);
    }

    /** The "+ add affix" button of group `gi`: appends one blank row. */
    method AddAffixRow(gi: nat)
      requires gi < |groups| && Valid()
      modifies this
      ensures Valid()
      ensures groups == old(groups)[gi := old(groups)[gi].(rows := old(groups)[gi].rows + [Row(old(nextFrame), "", "", "")])]
      ensures nextFrame == old(nextFrame) + 1
    {
      var row := NewRow(nextFrame, Plain(""));
      groups := groups[gi := groups[gi].(rows := groups[gi].rows + [row])];
      nextFrame := nextFrame + 1;
    }

    /** `_remove_affix_row_helper`: deletes the first row of group `gi` in frame `frame`, if any. */
    method RemoveAffixRow(gi: nat, frame: nat)
      requires gi < |groups| && Valid()
      modifies this
      ensures Valid() && nextFrame == old(nextFrame)
      ensures match FrameIndex(old(groups)[gi].rows, (row: Row) => row.frame, frame)
        case None => groups == old(groups)
        case Some(k) =>
          groups == old(groups)[gi := old(groups)[gi].(rows := old(groups)[gi].rows[..k] + old(groups)[gi].rows[k + 1..])]
    {
      var rows := groups[gi].rows;
      var target := -1;
      var i := 0;
      while i < |rows|
        invariant 0 <= i <= |rows|
        invariant forall j :: 0 <= j < i ==> rows[j].frame != frame
      {
        if rows[i].frame == frame {
          target := i;
          break;
        }
        i := i + 1;
      }
      if target != -1 {
        groups := groups[gi := groups[gi].(rows := rows[..target] + rows[target + 1..])];
      }
    }

    /** `remove_group(frame)`: drops the group in frame `frame`, keeping the others in order. */
    method RemoveGroup(frame: nat)
      requires Valid()
      modifies this
      ensures Valid() && nextFrame == old(nextFrame)
      ensures match FrameIndex(old(groups), (g: Group) => g.frame, frame)
        case None => groups == old(groups)
        case Some(k) => groups == old(groups)[..k] + old(groups)[k + 1..]
    {
      var found := false;
      var k := 0;
      while k < |groups|
        invariant 0 <= k <= |groups|
        invariant forall j :: 0 <= j < k ==> groups[j].frame != frame
      {
        if groups[k].frame == frame {
          found := true;
          break;
        }
        k := k + 1;
      }
      if found {
        WithoutDistinct(groups, k);
        groups := Without(groups, groups[k]);
      }
    }

    /** `reset_groups`: clears the list and adds one default group. */
    method ResetGroups()
      requires Valid()
      modifies this
      ensures Valid()
      ensures groups == [NewGroup(old(nextFrame), DefaultGroup)]
    {
      groups := [];
      AddGroup(None);
    }

    /** `save_data`: the stored rule list the form saves, or None when `float()` rejects a bound. */
    method SaveData(parse: Parser) returns (result: Option<seq<SavedGroup>>)
      ensures result == SaveAll(groups, parse)
    {
      var out: seq<SavedGroup> := [];
      var i := 0;
      assert groups[i..] == groups;
      PrefixedEmpty(SaveAll(groups, parse));
      while i < |groups|
        invariant 0 <= i <= |groups|
        invariant SaveAll(groups, parse) == Prefixed(out, SaveAll(groups[i..], parse))
      {
        var g := groups[i];
        assert groups[i..][0] == g && groups[i..][1..] == groups[i + 1..];
        var kind := KindOf(g.display);
        var groupMin := Strip(g.minText);
        var groupMax := Strip(g.maxText);
        var affixes := SaveAffixes(g.rows, parse);
        if affixes.None? {
          return None;
        }
        var item := SavedGroup(kind, affixes.value, None, None);
        if kind == Count {
          if groupMin != [] && IsDigits(groupMin) {
            item := item.(min := Some(DigitsValue(groupMin)));
          }
          if groupMax != [] && IsDigits(groupMax) {
            item := item.(max := Some(DigitsValue(groupMax)));
          }
        }
        PrefixedTwice(out, [item], SaveAll(groups[i + 1..], parse));
        out := out + [item];
        i := i + 1;
      }
      assert groups[i..] == [];
      assert out + [] == out;
      result := Some(out);
    }
  }
}
