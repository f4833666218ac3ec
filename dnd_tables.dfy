/**
 * The drag-and-drop pair of app/ui/dnd_tables.py: the source table assembles
 * a text payload from the selected cells, the target table merges a dropped
 * payload into the cell under the cursor (replace, or append with a
 * separator). Widgets are reduced to what the logic reads: the source
 * table's items by position, the selection, the current item, the drop
 * position and the user's menu choice.
 */
module DndTables {
  import opened Wrappers
  import opened Text
  import opened Normalize

  // ------------------------------------------------------------ missing test

  /** The lower-cased tokens `_is_missing_local` treats as "no value" (the
      empty text is handled before the lookup). */
  const LocalTokens: set<string> := {"nan", "none", "null", "-", "n/a"}

  /** `_is_missing_local`: absent, blank, or a missing token after trimming. */
  predicate IsMissingLocal(v: Option<string>) {
    match v
    case None => true
    case Some(x) =>
      var s := Strip(x);
      s == [] || Lower(s) in LocalTokens
  }

  /** The local test agrees with `is_missing` on every value: both trim,
      and inner whitespace can never turn a value into a token. */
  lemma IsMissingLocalAgrees(v: Option<string>)
    ensures IsMissingLocal(v) <==> IsMissing(v)
  {
    if v.Some? {
      var t := Strip(v.value);
      assert Lower(t) == [] <==> t == [];
      assert IsMissingLocal(v) <==> Lower(t) in MissingTokens;
      CollapseNoSpace(t);
      if NoSpace(t) {
        assert Collapsed(t);
        CollapseOfCollapsed(t);
      } else {
        if Lower(t) in MissingTokens {
          TokenHasNoSpace(t);
        }
        if Lower(CollapseSpaces(t)) in MissingTokens {
          TokenHasNoSpace(CollapseSpaces(t));
        }
      }
    }
  }

  // ------------------------------------------------------------ drag payload

  /** A cell position of the source table. */
  datatype Pos = Pos(row: nat, col: nat)

  /** The order of `sorted(..., key=lambda x: (x[0], x[1]))`: by row, then
      by column. */
  predicate PosLE(a: Pos, b: Pos) {
    a.row < b.row || (a.row == b.row && a.col <= b.col)
  }

  predicate SortedPos(s: seq<Pos>) {
    forall i, j :: 0 <= i < j < |s| ==> PosLE(s[i], s[j])
  }

  /** Places `p` in front of the first position not before it. */
  function InsertPos(p: Pos, s: seq<Pos>): (r: seq<Pos>)
    requires SortedPos(s)
    ensures SortedPos(r) && multiset(r) == multiset(s) + multiset{p}
  {
    if s == [] || PosLE(p, s[0]) then [p] + s
    else
      var t := InsertPos(p, s[1..]);
      InsertBehindHead(p, s, t);
      [s[0]] + t
  }

  /** Inserting behind the head keeps the head first and the multiset. */
  lemma InsertBehindHead(p: Pos, s: seq<Pos>, t: seq<Pos>)
    requires SortedPos(s) && s != [] && !PosLE(p, s[0])
    requires SortedPos(t) && multiset(t) == multiset(s[1..]) + multiset{p}
    ensures SortedPos([s[0]] + t) && multiset([s[0]] + t) == multiset(s) + multiset{p}
  {
    assert s == [s[0]] + s[1..];
    forall x | x in t ensures PosLE(s[0], x) {
      assert x in multiset(t);
    }
    var r := [s[0]] + t;
    forall i, j | 0 <= i < j < |r| ensures PosLE(r[i], r[j]) {
      if i == 0 {
        assert r[j] == t[j - 1] && t[j - 1] in t;
      } else {
        assert r[i] == t[i - 1] && r[j] == t[j - 1];
      }
    }
  }

  /** `sorted` on the positions of the dragged items. */
  function SortPositions(s: seq<Pos>): (r: seq<Pos>)
    ensures SortedPos(r) && multiset(r) == multiset(s)
  {
    if s == [] then []
    else
      assert s == [s[0]] + s[1..];
      InsertPos(s[0], SortPositions(s[1..]))
  }

  /** Two sorted sequences of the same positions are the same sequence: the
      order on positions is total and antisymmetric. */
  lemma {:induction false} SortedUnique(a: seq<Pos>, b: seq<Pos>)
    requires SortedPos(a) && SortedPos(b) && multiset(a) == multiset(b)
    ensures a == b
  {
    if a == [] {
      assert |b| == |multiset(b)| == 0;
    } else {
      assert a[0] in multiset(b);
      SameHead(a, b);
      SameTail(a, b);
      SortedUnique(a[1..], b[1..]);
      assert a == [a[0]] + a[1..];
      assert b == [b[0]] + b[1..];
    }
  }

  /** Sorted sequences of the same positions start alike. */
  lemma SameHead(a: seq<Pos>, b: seq<Pos>)
    requires SortedPos(a) && SortedPos(b) && multiset(a) == multiset(b) && a != [] && b != []
    ensures a[0] == b[0]
  {
    assert a[0] in multiset(b) && b[0] in multiset(a);
    assert PosLE(b[0], a[0]) by {
      var j :| 0 <= j < |b| && b[j] == a[0];
      assert j == 0 || PosLE(b[0], b[j]);
    }
    assert PosLE(a[0], b[0]) by {
      var i :| 0 <= i < |a| && a[i] == b[0];
      assert i == 0 || PosLE(a[0], a[i]);
    }
  }

  /** Removing equal heads leaves equal multisets. */
  lemma SameTail(a: seq<Pos>, b: seq<Pos>)
    requires multiset(a) == multiset(b) && a != [] && b != [] && a[0] == b[0]
    ensures multiset(a[1..]) == multiset(b[1..])
  {
    assert a == [a[0]] + a[1..];
    assert b == [b[0]] + b[1..];
    assert multiset(a) == multiset{a[0]} + multiset(a[1..]);
    assert multiset(b) == multiset{b[0]} + multiset(b[1..]);
    forall q ensures multiset(a[1..])[q] == multiset(b[1..])[q] {
      assert multiset(a)[q] == multiset(b)[q];
    }
  }

  /** The texts at `ps` that are not missing, in the order of `ps`. */
  function PresentTexts(items: map<Pos, string>, ps: seq<Pos>): (r: seq<string>)
    requires forall p :: p in ps ==> p in items
    ensures |r| <= |ps|
    ensures forall x :: x in r ==> !IsMissingLocal(Some(x))
    ensures forall p :: p in ps && !IsMissingLocal(Some(items[p])) ==> items[p] in r
    ensures forall x :: x in r ==> exists p :: p in ps && items[p] == x
  {
    if ps == [] then []
    else
      var rest := PresentTexts(items, ps[1..]);
      assert forall p :: p in ps ==> p == ps[0] || p in ps[1..];
      var t := items[ps[0]];
      if IsMissingLocal(Some(t)) then rest else [t] + rest
  }

  /** The items a drag takes: the selection, or failing that the current
      item; empty when there is neither. */
  function DraggedItems(selected: seq<Pos>, current: Option<Pos>): seq<Pos> {
    if selected != [] then selected
    else if current.Some? then [current.value]
    else []
  }

  /** `SourceTable.startDrag`: the payload text, or `None` when no drag
      starts. `items` holds the table's items by position; the selection
      and the current item are items of the table. */
  function DragPayload(items: map<Pos, string>, selected: seq<Pos>, current: Option<Pos>): Option<string>
    requires forall p :: p in selected ==> p in items
    requires current.Some? ==> current.value in items
  {
    var dragged := DraggedItems(selected, current);
    if dragged == [] then None
    else
      var sorted := SortPositions(dragged);
      assert forall p :: p in sorted ==> p in multiset(dragged);
      Some(Join(PresentTexts(items, sorted), "\n"))
  }

  /** A drag starts exactly when something is selected or current; with an
      empty selection only the current item is dragged, and it contributes
      its text unless that text is missing. */
  lemma DragStartsIffItem(items: map<Pos, string>, selected: seq<Pos>, current: Option<Pos>)
    requires forall p :: p in selected ==> p in items
    requires current.Some? ==> current.value in items
    ensures DragPayload(items, selected, current).Some? <==> selected != [] || current.Some?
    ensures selected == [] && current.Some? ==>
      DragPayload(items, selected, current)
        == Some(if IsMissingLocal(Some(items[current.value])) then [] else items[current.value])
  {
    if selected == [] && current.Some? {
      var p := current.value;
      assert SortPositions([p]) == [p] by {
        assert [p][1..] == [];
      }
      assert [p][1..] == [];
    }
  }

  /** The payload is the non-missing texts of the dragged items taken in
      (row, column) order and joined by newlines. */
  lemma DragPayloadIsSortedTexts(items: map<Pos, string>, selected: seq<Pos>, current: Option<Pos>)
    requires forall p :: p in selected ==> p in items
    requires current.Some? ==> current.value in items
    requires selected != [] || current.Some?
    ensures exists ps: seq<Pos> ::
      SortedPos(ps) && multiset(ps) == multiset(DraggedItems(selected, current))
      && (forall p :: p in ps ==> p in items)
      && DragPayload(items, selected, current) == Some(Join(PresentTexts(items, ps), "\n"))
  {
    var dragged := DraggedItems(selected, current);
    var ps := SortPositions(dragged);
    assert forall p :: p in ps ==> p in multiset(dragged);
    assert SortedPos(ps) && multiset(ps) == multiset(dragged);
  }

  /** The payload does not depend on the order in which the selection lists
      the cells. */
  lemma DragPayloadOrderFree(items: map<Pos, string>, a: seq<Pos>, b: seq<Pos>, current: Option<Pos>)
    requires forall p :: p in a ==> p in items
    requires multiset(a) == multiset(b)
    requires current.Some? ==> current.value in items
    ensures forall p :: p in b ==> p in items
    ensures DragPayload(items, a, current) == DragPayload(items, b, current)
  {
    forall p | p in b ensures p in items {
      assert p in multiset(a);
    }
    if a == [] {
      assert |b| == |multiset(b)| == 0;
    } else {
      assert b != [] by {
        assert a[0] in multiset(b);
      }
      SortedUnique(SortPositions(a), SortPositions(b));
    }
  }

  // ------------------------------------------------------------ drop merge

  /** The separators offered by the "Anhängen" submenu, in menu order. */
  const Separators: seq<string> := ["/", ", ", "; ", ",", ";", " | ", "\n"]

  /** What the user picks in the drop menu: nothing (menu closed), replace,
      the append action at a position of the submenu, or the custom
      separator action with the dialog's outcome (`None` when cancelled). */
  datatype MenuChoice = Dismissed | Replace | AppendAt(index: nat) | Custom(entered: Option<string>)

  /** The separator of an append action; an action outside the list has
      none. */
  function SeparatorOf(choice: MenuChoice): Option<string> {
    match choice
    case AppendAt(i) => if i < |Separators| then Some(Separators[i]) else None
    case Custom(entered) => entered
    case _ => None
  }

  /** The merge decision of `TargetTable.dropEvent` for a valid drop index:
      the new cell text, or `None` when nothing is written. `existing` is
      the target item's text, `None` when the cell has no item; `choice` is
      only consulted when the target holds a value. */
  function MergedText(existing: Option<string>, text: string, choice: MenuChoice): Option<string> {
    var prior := existing.GetOr([]);
    if IsMissingLocal(Some(prior)) then Some(text)
    else if choice.Replace? then Some(text)
    else
      match SeparatorOf(choice)
      case None => None
      case Some(sep) => Some(prior + sep + text)
  }

  /** Dropping onto a missing target writes the dragged text unchanged,
      whatever the menu would have offered. */
  lemma DropOnMissing(existing: Option<string>, text: string, choice: MenuChoice)
    requires IsMissing(Some(existing.GetOr([])))
    ensures MergedText(existing, text, choice) == Some(text)
  {
    IsMissingLocalAgrees(Some(existing.GetOr([])));
  }

  /** Onto a filled target, the merge writes exactly when the user picks
      replace or a separator; replace yields the dragged text and an
      append yields the old text, the separator and the dragged text. */
  lemma DropOnFilled(existing: string, text: string, choice: MenuChoice)
    requires !IsMissing(Some(existing))
    ensures MergedText(Some(existing), text, choice).Some? <==> choice.Replace? || SeparatorOf(choice).Some?
    ensures choice.Replace? ==> MergedText(Some(existing), text, choice) == Some(text)
    ensures !choice.Replace? && SeparatorOf(choice).Some? ==>
      MergedText(Some(existing), text, choice) == Some(existing + SeparatorOf(choice).value + text)
  {
    IsMissingLocalAgrees(Some(existing));
  }

  /** Closing the menu, cancelling the separator dialog or an action
      outside the separator list writes nothing onto a filled target. */
  lemma DropCancelled(existing: string, text: string, choice: MenuChoice)
    requires !IsMissing(Some(existing))
    requires choice == Dismissed || choice == Custom(None) || (choice.AppendAt? && choice.index >= |Separators|)
    ensures MergedText(Some(existing), text, choice) == None
  {
    IsMissingLocalAgrees(Some(existing));
  }

  /** Whatever is written ends with the dragged text, and it is either the
      dragged text itself or an extension of the old text. */
  lemma MergeKeepsBoth(existing: Option<string>, text: string, choice: MenuChoice)
    ensures MergedText(existing, text, choice).Some? ==>
      (var m := MergedText(existing, text, choice).value;
       |text| <= |m| && m[|m| - |text|..] == text
       && (m == text || m[..|existing.GetOr([])|] == existing.GetOr([])))
  {
    var m := MergedText(existing, text, choice);
    var prior := existing.GetOr([]);
    if m.Some? && m.value != text {
      var sep := SeparatorOf(choice).value;
      assert m.value == prior + sep + text;
      assert (prior + sep + text)[..|prior|] == prior;
      assert (prior + sep + text)[|prior + sep|..] == text;
    }
  }

  /** The target table: its items by position and its current cell. */
  class TargetTable {
    var items: map<Pos, string>
    var current: Option<Pos>

    constructor (items0: map<Pos, string>)
      ensures items == items0 && current == None
    {
      items := items0;
      current := None;
    }

    /** `dropEvent` for a payload `text`. `at` is the drop index, `None`
        when it is invalid. On a write the cell's item (created if absent)
        gets the merged text and becomes the current cell; the merged text
        is returned for the window's callback. */
    method Drop(at: Option<Pos>, text: string, choice: MenuChoice) returns (written: Option<string>)
      modifies this
      ensures at == None ==> written == None
      ensures at.Some? ==>
        written == MergedText(if at.value in old(items) then Some(old(items)[at.value]) else None, text, choice)
      ensures written == None ==> items == old(items) && current == old(current)
      ensures written.Some? ==> items == old(items)[at.value := written.value] && current == at
    {
      if at == None {
        return None;
      }
      var p := at.value;
      var existing := if p in items then Some(items[p]) else None;
      written := MergedText(existing, text, choice);
      if written.Some? {
        items := items[p := written.value];
        current := at;
      }
    }
  }
}
