/**
 * The non-widget logic of a source panel (app/ui/source_panel.py): rendering
 * a set of rows into an upper view with the first twenty columns and a lower
 * view with the rest, remembering the rendered rows so they can be restored,
 * the literal-substring filter over the whole source table, and the
 * "next hit" search that walks the visible cells in (view, row, column)
 * order and wraps around.
 */
module SourcePanel {
  import opened Wrappers
  import opened Text
  import opened Tables

  /** A table as the panel receives it: its columns and its rows. */
  datatype Frame = Frame(columns: seq<string>, rows: seq<Row>)

  // ------------------------------------------------------------ views

  /** One grid widget: its header labels, the rows it shows, its current cell
      (row, column) if any, and whether it has the keyboard focus. */
  datatype View = View(cols: seq<string>, rows: seq<Row>, current: Option<(nat, nat)>, focused: bool)

  /** The item text at row `r`, column `c` of a view. */
  function TextAt(v: View, r: nat, c: nat): string
    requires r < |v.rows| && c < |v.cols|
  {
    ItemText(v.rows[r], v.cols[c])
  }

  /** `render(view, cols)`: the view shows `rows` under the headers `cols`;
      its current cell survives when it still lies inside the view. */
  function Render(rows: seq<Row>, cols: seq<string>, v: View): (r: View)
    ensures r.cols == cols && r.rows == rows && r.focused == v.focused
    ensures r.current.Some? ==> r.current == v.current && r.current.value.0 < |rows| && r.current.value.1 < |cols|
  {
    var keep := v.current.Some? && v.current.value.0 < |rows| && v.current.value.1 < |cols|;
    View(cols, rows, if keep then v.current else None, v.focused)
  }

  /** `setCurrentCell(r, c)` on a view: the cell becomes current when the view
      has it; otherwise the view is left without a current cell. */
  function SetCurrent(v: View, r: nat, c: nat): (w: View)
    ensures w.cols == v.cols && w.rows == v.rows && w.focused == v.focused
    ensures w.current.Some? <==> r < |v.rows| && c < |v.cols|
    ensures w.current.Some? ==> w.current == Some((r, c))
  {
    v.(current := if r < |v.rows| && c < |v.cols| then Some((r, c)) else None)
  }

  /** A hidden view with no rows and no columns. */
  const Cleared: View := View([], [], None, false)

  // ------------------------------------------------------------ search order

  /** A cell of one of the visible views. */
  datatype Spot = Spot(view: nat, row: nat, col: nat)

  /** The scan order: by view, then row, then column. */
  predicate SpotLt(a: Spot, b: Spot) {
    a.view < b.view || (a.view == b.view && (a.row < b.row || (a.row == b.row && a.col < b.col)))
  }

  /** `k` is not before `from` in the scan order. */
  predicate NotBefore(from: Spot, k: Spot) {
    !SpotLt(k, from)
  }

  /** The cell at `(r, c)` of `v` exists and its text contains `needle`. */
  predicate CellHas(v: View, r: nat, c: nat, needle: string) {
    r < |v.rows| && c < |v.cols| && Contains(TextAt(v, r, c), needle)
  }

  predicate IsHit(views: seq<View>, needle: string, k: Spot) {
    k.view < |views| && CellHas(views[k.view], k.row, k.col, needle)
  }

  /** `h` is the first hit at or after `from` among the views below `hi`. */
  ghost predicate FirstHitFrom(views: seq<View>, needle: string, from: Spot, hi: nat, h: Spot) {
    IsHit(views, needle, h) && h.view < hi && NotBefore(from, h)
    && forall k :: IsHit(views, needle, k) && k.view < hi && NotBefore(from, k) ==> !SpotLt(k, h)
  }

  /** There is no hit at or after `from` among the views below `hi`. */
  ghost predicate NoHitFrom(views: seq<View>, needle: string, from: Spot, hi: nat) {
    forall k :: IsHit(views, needle, k) && k.view < hi ==> !NotBefore(from, k)
  }

  /** The first hit is unique: the scan order is total. */
  lemma FirstHitUnique(views: seq<View>, needle: string, from: Spot, hi: nat, h1: Spot, h2: Spot)
    requires FirstHitFrom(views, needle, from, hi, h1) && FirstHitFrom(views, needle, from, hi, h2)
    ensures h1 == h2
  {
    assert !SpotLt(h1, h2) && !SpotLt(h2, h1);
  }

  /** The first cell after the current one in the scan order. */
  function NextSpot(s: Spot): Spot {
    Spot(s.view, s.row, s.col + 1)
  }

  /** Starting at the cell after `s` is starting strictly after `s`. */
  lemma NextSpotIsAfter(s: Spot, k: Spot)
    ensures NotBefore(NextSpot(s), k) <==> SpotLt(s, k)
  {
  }

  /** The focused current cell: the first view that has a current cell and
      the focus. */
  function FocusOf(views: seq<View>): (f: Option<Spot>)
    ensures f.Some? ==>
      (f.value.view < |views| && views[f.value.view].current == Some((f.value.row, f.value.col))
       && views[f.value.view].focused
       && forall i :: 0 <= i < f.value.view ==> !(views[i].current.Some? && views[i].focused))
    ensures f.None? ==> forall i :: 0 <= i < |views| ==> !(views[i].current.Some? && views[i].focused)
  {
    if views == [] then None
    else if views[0].current.Some? && views[0].focused then
      Some(Spot(0, views[0].current.value.0, views[0].current.value.1))
    else
      match FocusOf(views[1..])
      case None => None
      case Some(s) => Some(Spot(s.view + 1, s.row, s.col))
  }

  /** Where the forward scan starts: after the focused current cell, or at
      the first cell of the upper view. */
  function ScanStart(views: seq<View>): Spot {
    match FocusOf(views)
    case Some(s) => NextSpot(s)
    case None => Spot(0, 0, 0)
  }

  /** Every hit is reached by the forward scan or by the wrap, so the
      search fails only when nothing matches. */
  lemma HitsCovered(views: seq<View>, needle: string, from: Spot)
    requires NoHitFrom(views, needle, from, |views|)
    requires NoHitFrom(views, needle, Spot(0, 0, 0), from.view + 1)
    ensures forall k :: !IsHit(views, needle, k)
  {
    forall k | IsHit(views, needle, k) ensures false {
      if k.view <= from.view {
        assert NotBefore(Spot(0, 0, 0), k);
      }
    }
  }

  /** The wrap can land on the current cell itself: when it is the only hit,
      the forward scan finds nothing and the wrap selects it again. */
  lemma WrapReselectsCurrent(views: seq<View>, needle: string, s: Spot)
    requires IsHit(views, needle, s)
    requires forall k :: IsHit(views, needle, k) ==> k == s
    ensures NoHitFrom(views, needle, NextSpot(s), |views|)
    ensures FirstHitFrom(views, needle, Spot(0, 0, 0), s.view + 1, s)
  {
  }

  // ------------------------------------------------------------ search loops

  /** `(r, c)` is at or after `(r0, c0)` in row-major order. */
  predicate FromRC(r0: nat, c0: nat, r: nat, c: nat) {
    r > r0 || (r == r0 && c >= c0)
  }

  /** The innermost loop: the first column from `c0` on whose cell in row
      `r` contains the needle. */
  method FirstInRow(v: View, r: nat, c0: nat, needle: string) returns (c: Option<nat>)
    requires r < |v.rows|
    ensures c.Some? ==> c0 <= c.value && CellHas(v, r, c.value, needle)
    ensures c.Some? ==> forall c' :: c0 <= c' < c.value ==> !CellHas(v, r, c', needle)
    ensures c.None? ==> forall c' :: c0 <= c' ==> !CellHas(v, r, c', needle)
  {
    var j := c0;
    while j < |v.cols|
      invariant c0 <= j
      invariant forall c' :: c0 <= c' < j ==> !CellHas(v, r, c', needle)
    {
      if Contains(TextAt(v, r, j), needle) {
        return Some(j);
      }
      j := j + 1;
    }
    return None;
  }

  /** The row loop: the first cell at or after `(r0, c0)` of one view whose
      text contains the needle. */
  method FirstInView(v: View, r0: nat, c0: nat, needle: string) returns (h: Option<(nat, nat)>)
    ensures h.Some? ==> CellHas(v, h.value.0, h.value.1, needle) && FromRC(r0, c0, h.value.0, h.value.1)
    ensures h.Some? ==>
      forall r: nat, c: nat :: CellHas(v, r, c, needle) && FromRC(r0, c0, r, c) ==> FromRC(h.value.0, h.value.1, r, c)
    ensures h.None? ==> forall r: nat, c: nat :: CellHas(v, r, c, needle) ==> !FromRC(r0, c0, r, c)
  {
    var i := r0;
    while i < |v.rows|
      invariant r0 <= i
      invariant forall r: nat, c: nat :: CellHas(v, r, c, needle) && FromRC(r0, c0, r, c) ==> i <= r
    {
      var c0' := if i == r0 then c0 else 0;
      var c := FirstInRow(v, i, c0', needle);
      if c.Some? {
        return Some((i, c.value));
      }
      i := i + 1;
    }
    return None;
  }

  /** The view loop: the first hit at or after `from` among the views below
      `hi`; the first view is scanned from `from`, later ones from their
      first cell. */
  method ScanViews(views: seq<View>, needle: string, from: Spot, hi: nat) returns (h: Option<Spot>)
    requires from.view <= hi <= |views|
    ensures h.Some? ==> FirstHitFrom(views, needle, from, hi, h.value)
    ensures h.None? ==> NoHitFrom(views, needle, from, hi)
  {
    var vi := from.view;
    while vi < hi
      invariant from.view <= vi <= hi
      invariant forall k :: IsHit(views, needle, k) && k.view < vi ==> !NotBefore(from, k)
    {
      var r0 := if vi == from.view then from.row else 0;
      var c0 := if vi == from.view then from.col else 0;
      var p := FirstInView(views[vi], r0, c0, needle);
      if p.Some? {
        h := Some(Spot(vi, p.value.0, p.value.1));
        forall k | IsHit(views, needle, k) && k.view < hi && NotBefore(from, k)
          ensures !SpotLt(k, h.value)
        {
          if k.view == vi {
            assert CellHas(views[vi], k.row, k.col, needle);
          }
        }
        return;
      }
      forall k | IsHit(views, needle, k) && k.view == vi
        ensures !NotBefore(from, k)
      {
        assert CellHas(views[vi], k.row, k.col, needle);
      }
      vi := vi + 1;
    }
    return None;
  }

  // ------------------------------------------------------------ the filter

  /** Some cell of `row` in one of `columns`, as `df.astype(str)` writes it
      ("nan" for an empty cell), contains `needle`. */
  predicate RowMatches(row: Row, columns: seq<string>, needle: string) {
    exists c :: c in columns && Contains(ItemText(row, c), needle)
  }

  /** `df.loc[mask]`: the rows with a matching cell, in their original
      order. */
  function MatchingRows(rows: seq<Row>, columns: seq<string>, needle: string): (r: seq<Row>)
    ensures |r| <= |rows|
    ensures forall x :: x in r <==> x in rows && RowMatches(x, columns, needle)
  {
    if rows == [] then []
    else
      var rest := MatchingRows(rows[1..], columns, needle);
      assert forall x :: x in rows <==> x == rows[0] || x in rows[1..];
      if RowMatches(rows[0], columns, needle) then [rows[0]] + rest else rest
  }

  /** Filtering the filtered rows again changes nothing. */
  lemma {:induction false} MatchingRowsIdempotent(rows: seq<Row>, columns: seq<string>, needle: string)
    ensures MatchingRows(MatchingRows(rows, columns, needle), columns, needle) == MatchingRows(rows, columns, needle)
  {
    if rows != [] {
      MatchingRowsIdempotent(rows[1..], columns, needle);
      var rest := MatchingRows(rows[1..], columns, needle);
      if RowMatches(rows[0], columns, needle) {
        assert ([rows[0]] + rest)[1..] == rest;
      }
    }
  }

  /** Matching rows of a concatenation are the matching rows of each part. */
  lemma {:induction false} MatchingRowsAppend(a: seq<Row>, b: seq<Row>, columns: seq<string>, needle: string)
    ensures MatchingRows(a + b, columns, needle) == MatchingRows(a, columns, needle) + MatchingRows(b, columns, needle)
  {
    if a == [] {
      assert a + b == b;
    } else {
      assert (a + b)[1..] == a[1..] + b;
      MatchingRowsAppend(a[1..], b, columns, needle);
    }
  }

  // ------------------------------------------------------------ the panel

  /** A source panel: the loaded source table, the last rendered rows, the
      column split, the two views and the remembered click position. */
  class Panel {
    var table: Option<Frame>
    var cache: Frame
    var colsTop: seq<string>
    var colsBottom: seq<string>
    var top: View
    var bottom: View
    var bottomVisible: bool
    var lastFocus: Option<Spot>

    constructor (table0: Option<Frame>)
      ensures table == table0 && cache == Frame([], [])
      ensures colsTop == [] && colsBottom == []
      ensures top == Cleared && bottom == Cleared && !bottomVisible && lastFocus == None
    {
      table := table0;
      cache := Frame([], []);
      colsTop := [];
      colsBottom := [];
      top := Cleared;
      bottom := Cleared;
      bottomVisible := false;
      lastFocus := None;
    }

    /** The views the search walks: the upper one, and the lower one while it
        is shown. */
    function Views(): (vs: seq<View>)
      reads this
      ensures 1 <= |vs| <= 2 && vs[0] == top
      ensures |vs| == 2 <==> bottomVisible
      ensures bottomVisible ==> vs[1] == bottom
    {
      [top] + (if bottomVisible then [bottom] else [])
    }

    /** `render_rows`: remembers `df`, splits its columns other than `_KEY_`
        into the first twenty and the rest, shows the rows in the upper view
        and, when there are more than twenty columns, in the lower one;
        otherwise the lower view is hidden and emptied. */
    method RenderRows(df: Frame)
      modifies this
      ensures cache == df && table == old(table) && lastFocus == None
      ensures (colsTop, colsBottom) == SplitView(Without(df.columns, KeyColumn))
      ensures colsTop + colsBottom == Without(df.columns, KeyColumn)
      ensures |colsTop| <= ViewWidth && (colsBottom != [] ==> |colsTop| == ViewWidth)
      ensures top == Render(df.rows, colsTop, old(top))
      ensures bottomVisible <==> |Without(df.columns, KeyColumn)| > ViewWidth
      ensures bottom == if bottomVisible then Render(df.rows, colsBottom, old(bottom)) else Cleared
    {
      cache := df;
      var all := Without(df.columns, KeyColumn);
      var split := SplitView(all);
      colsTop := split.0;
      colsBottom := split.1;
      top := Render(df.rows, colsTop, top);
      if |all| > ViewWidth {
        bottomVisible := true;
        bottom := Render(df.rows, colsBottom, bottom);
      } else {
        bottomVisible := false;
        bottom := Cleared;
      }
      lastFocus := None;
    }

    /** `restore_match_rows`: renders the remembered rows again. */
    method RestoreMatchRows()
      modifies this
      ensures cache == old(cache) && table == old(table) && lastFocus == None
      ensures (colsTop, colsBottom) == SplitView(Without(cache.columns, KeyColumn))
      ensures colsTop + colsBottom == Without(cache.columns, KeyColumn)
      ensures |colsTop| <= ViewWidth && (colsBottom != [] ==> |colsTop| == ViewWidth)
      ensures top == Render(cache.rows, colsTop, old(top))
      ensures bottomVisible <==> |Without(cache.columns, KeyColumn)| > ViewWidth
      ensures bottom == if bottomVisible then Render(cache.rows, colsBottom, old(bottom)) else Cleared
    {
      RenderRows(cache);
    }

    /** `filter_full_table_exact`: with a needle and a loaded table, renders
        the table's rows that have a cell containing the needle. The
        rendered rows become the remembered ones, so a later restore shows
        the filtered rows. */
    method FilterFullTableExact(needle: string)
      modifies this
      ensures needle == [] || old(table) == None ==>
        (table == old(table) && cache == old(cache) && colsTop == old(colsTop) && colsBottom == old(colsBottom)
         && top == old(top) && bottom == old(bottom) && bottomVisible == old(bottomVisible)
         && lastFocus == old(lastFocus))
      ensures needle != [] && old(table).Some? ==>
        (var t := old(table).value;
         table == old(table) && lastFocus == None
         && cache == Frame(t.columns, MatchingRows(t.rows, t.columns, needle))
         && (colsTop, colsBottom) == SplitView(Without(t.columns, KeyColumn))
         && colsTop + colsBottom == Without(t.columns, KeyColumn)
         && |colsTop| <= ViewWidth && (colsBottom != [] ==> |colsTop| == ViewWidth)
         && (bottomVisible <==> |Without(t.columns, KeyColumn)| > ViewWidth)
         && top == Render(cache.rows, colsTop, old(top))
         && bottom == if bottomVisible then Render(cache.rows, colsBottom, old(bottom)) else Cleared)
    {
      if needle == [] || table == None {
        return;
      }
      var t := table.value;
      RenderRows(Frame(t.columns, MatchingRows(t.rows, t.columns, needle)));
    }

    /** `_remember_focus`: a click on a cell of either view is remembered. */
    method RememberFocus(s: Spot)
      requires s.view < 2
      modifies this
      ensures lastFocus == Some(s)
      ensures table == old(table) && cache == old(cache) && colsTop == old(colsTop) && colsBottom == old(colsBottom)
      ensures top == old(top) && bottom == old(bottom) && bottomVisible == old(bottomVisible)
    {
      lastFocus := Some(s);
    }

    /** `restore_focus`: the remembered cell becomes the current cell of its
        view again (a position the view no longer has leaves it without a
        current cell); nothing happens when no cell is remembered. The
        remembered cell is kept. */
    method RestoreFocus()
      modifies this
      ensures lastFocus == old(lastFocus) && table == old(table) && cache == old(cache)
      ensures colsTop == old(colsTop) && colsBottom == old(colsBottom) && bottomVisible == old(bottomVisible)
      ensures old(lastFocus) == None ==> top == old(top) && bottom == old(bottom)
      ensures old(lastFocus).Some? && old(lastFocus).value.view == 0 ==>
        top == SetCurrent(old(top), old(lastFocus).value.row, old(lastFocus).value.col) && bottom == old(bottom)
      ensures old(lastFocus).Some? && old(lastFocus).value.view != 0 ==>
        bottom == SetCurrent(old(bottom), old(lastFocus).value.row, old(lastFocus).value.col) && top == old(top)
    {
      if lastFocus == None {
        return;
      }
      var f := lastFocus.value;
      if f.view == 0 {
        top := SetCurrent(top, f.row, f.col);
      } else {
        bottom := SetCurrent(bottom, f.row, f.col);
      }
    }

    /** `search_next`: from the cell after the focused current cell (or from
        the first cell of the upper view) scans the visible views forward;
        if that finds nothing, scans again the views up to the starting one
        from their first cell. The hit becomes the current cell of its view,
        which takes the focus. An empty needle does nothing. */
    method SearchNext(needle: string) returns (found: Option<Spot>)
      modifies this
      ensures needle == [] ==> found == None
      ensures needle != [] ==>
        (var vs := old(Views());
         var from := ScanStart(vs);
         found.Some? ==>
           FirstHitFrom(vs, needle, from, |vs|, found.value)
           || (NoHitFrom(vs, needle, from, |vs|) && FirstHitFrom(vs, needle, Spot(0, 0, 0), from.view + 1, found.value)))
      ensures needle != [] ==> (found.None? <==> forall k :: !IsHit(old(Views()), needle, k))
      ensures table == old(table) && cache == old(cache) && colsTop == old(colsTop) && colsBottom == old(colsBottom)
      ensures bottomVisible == old(bottomVisible) && lastFocus == old(lastFocus)
      ensures found.None? ==> top == old(top) && bottom == old(bottom)
      ensures found.Some? && found.value.view == 0 ==>
        top == old(top).(current := Some((found.value.row, found.value.col)), focused := true)
        && bottom == old(bottom).(focused := false)
      ensures found.Some? && found.value.view == 1 ==>
        bottom == old(bottom).(current := Some((found.value.row, found.value.col)), focused := true)
        && top == old(top).(focused := false)
    {
      if needle == [] {
        return None;
      }
      var vs := Views();
      var from := ScanStart(vs);
      assert from.view < |vs|;
      found := ScanViews(vs, needle, from, |vs|);
      if found.None? {
        found := ScanViews(vs, needle, Spot(0, 0, 0), from.view + 1);
        if found.None? {
          HitsCovered(vs, needle, from);
          return;
        }
      }
      var h := found.value;
      if h.view == 0 {
        top := top.(current := Some((h.row, h.col)), focused := true);
        bottom := bottom.(focused := false);
      } else {
        bottom := bottom.(current := Some((h.row, h.col)), focused := true);
        top := top.(focused := false);
      }
    }
  }
}
