/**
 * The detail dialog of app/ui/detail_dialog.py: for one primary row it lays
 * out the matching secondary rows with five widgets per secondary column
 * (use box, value, target column, mode, manual value) and, on "apply",
 * collects the checked cells into proposed changes, refusing the whole
 * collection at the first checked cell without a target or with an empty
 * manual value.
 */
module DetailDialog {
  import opened Wrappers
  import opened Text
  import opened Tables

  /** One change the user proposes for a primary cell. */
  datatype ProposedChange = ProposedChange(key: string, t1RowIndex: int, targetCol: string, newValue: string, sourceInfo: string)

  // ------------------------------------------------------------ layout

  /** The role of a widget column inside the block of one secondary column. */
  datatype Kind = Use | Value | Target | Mode | Manual

  /** The role of the `k`-th widget column of a block. */
  function KindOf(k: nat): Kind
    requires k < 5
  {
    if k == 0 then Use else if k == 1 then Value else if k == 2 then Target else if k == 3 then Mode else Manual
  }

  /** The five header labels of the block of `t2c`. */
  function BlockHeaders(t2c: string): seq<string> {
    ["Use " + t2c, "Value " + t2c, "\U{2192} T1-Spalte", "Mode", "Manuell"]
  }

  function MetaAt(meta: seq<(string, Kind)>, i: nat, k: nat): (string, Kind)
    requires 5 * i + k < |meta|
  {
    meta[5 * i + k]
  }

  function HeaderAt(headers: seq<string>, i: nat, k: nat): string
    requires 5 * i + k < |headers|
  {
    headers[5 * i + k]
  }

  /** The header and column-meta loop of `build_t2_table`: secondary column
      `i` owns widget columns `5i` to `5i + 4`, in the order use, value,
      target, mode, manual. */
  method BuildLayout(t2cols: seq<string>) returns (headers: seq<string>, meta: seq<(string, Kind)>)
    ensures |headers| == |meta| == 5 * |t2cols|
    ensures forall i, k :: 0 <= i < |t2cols| && 0 <= k < 5 ==> MetaAt(meta, i, k) == (t2cols[i], KindOf(k))
    ensures forall i, k :: 0 <= i < |t2cols| && 0 <= k < 5 ==> HeaderAt(headers, i, k) == BlockHeaders(t2cols[i])[k]
  {
    headers := [];
    meta := [];
    var j := 0;
    while j < |t2cols|
      invariant 0 <= j <= |t2cols|
      invariant |headers| == |meta| == 5 * j
      invariant forall i, k :: 0 <= i < j && 0 <= k < 5 ==> MetaAt(meta, i, k) == (t2cols[i], KindOf(k))
      invariant forall i, k :: 0 <= i < j && 0 <= k < 5 ==> HeaderAt(headers, i, k) == BlockHeaders(t2cols[i])[k]
    {
      var t2c := t2cols[j];
      ghost var meta0, headers0 := meta, headers;
      headers := headers + BlockHeaders(t2c);
      meta := meta + [(t2c, Use), (t2c, Value), (t2c, Target), (t2c, Mode), (t2c, Manual)];
      forall i, k | 0 <= i <= j && 0 <= k < 5
        ensures MetaAt(meta, i, k) == (t2cols[i], KindOf(k))
        ensures HeaderAt(headers, i, k) == BlockHeaders(t2cols[i])[k]
      {
        if i < j {
          assert MetaAt(meta, i, k) == MetaAt(meta0, i, k);
          assert HeaderAt(headers, i, k) == HeaderAt(headers0, i, k);
        }
      }
      j := j + 1;
    }
  }

  // ------------------------------------------------------------ widgets

  /** The two entries of the mode box. */
  datatype ModeChoice = OneToOne | ByHand

  /** The text the mode box shows for an entry. */
  function ModeText(m: ModeChoice): string {
    match m
    case OneToOne => "1:1"
    case ByHand => "manuell"
  }

  /** The cell widgets of the secondary grid; `NoItem` is an empty cell. */
  datatype Widget =
    | UseBox(checked: bool)
    | ValueItem(text: string)
    | TargetBox(selected: string)
    | ModeBox(mode: ModeChoice)
    | ManualEdit(text: string)
    | NoItem

  /** The widgets of block `i` of a grid row have the kinds the layout gives
      them (the value cell may lack its item). */
  predicate BlockLaidOut(row: seq<Widget>, i: nat) {
    5 * i + 4 < |row| && row[5 * i].UseBox? && (row[5 * i + 1].ValueItem? || row[5 * i + 1].NoItem?)
    && row[5 * i + 2].TargetBox? && row[5 * i + 3].ModeBox? && row[5 * i + 4].ManualEdit?
  }

  predicate RowLaidOut(row: seq<Widget>, n: nat) {
    |row| == 5 * n && forall i :: 0 <= i < n ==> BlockLaidOut(row, i)
  }

  predicate LaidOut(grid: seq<seq<Widget>>, n: nat) {
    forall r :: 0 <= r < |grid| ==> RowLaidOut(grid[r], n)
  }

  /** The widget `build_t2_table` puts in a cell: an unchecked box, the
      secondary value as text ("nan" for an empty cell), an empty target, mode "1:1", an empty manual
      field. */
  function InitialWidget(row: Row, m: (string, Kind)): Widget {
    match m.1
    case Use => UseBox(false)
    case Value => ValueItem(ItemText(row, m.0))
    case Target => TargetBox([])
    case Mode => ModeBox(OneToOne)
    case Manual => ManualEdit([])
  }

  /** `Widget` kinds a user edit must keep. */
  predicate SameKind(a: Widget, b: Widget) {
    (a.UseBox? && b.UseBox?) || (a.ValueItem? && b.ValueItem?) || (a.TargetBox? && b.TargetBox?)
    || (a.ModeBox? && b.ModeBox?) || (a.ManualEdit? && b.ManualEdit?) || (a.NoItem? && b.NoItem?)
  }

  // ------------------------------------------------------------ collection

  /** Why a collection is refused: a checked cell without a target column,
      or a manual value left empty (rows counted from 0). */
  datatype Problem = MissingTarget(row: nat, t2col: string) | EmptyManual(row: nat, target: string)

  /** What one block of one grid row contributes. */
  datatype Decision = Skip | Take(change: ProposedChange) | Refuse(problem: Problem)

  /** `T2[r]:col (mode)`. */
  function SourceInfo(r: nat, t2c: string, mode: ModeChoice): string {
    "T2[" + NatToString(r) + "]:" + t2c + " (" + ModeText(mode) + ")"
  }

  /** What `collect_changes` reads from the five widgets of one block: the
      use box, the value item's text (empty without an item), the chosen
      target and the manual text, both trimmed, and the mode. */
  datatype Block = Block(checked: bool, source: string, target: string, mode: ModeChoice, manual: string)

  /** The widgets at `5i` to `5i + 4` of a grid row, read as a block. */
  function BlockOf(row: seq<Widget>, i: nat): Block
    requires BlockLaidOut(row, i)
  {
    var base := 5 * i;
    Block(row[base].checked, if row[base + 1].ValueItem? then row[base + 1].text else [],
          Strip(row[base + 2].selected), row[base + 3].mode, Strip(row[base + 4].text))
  }

  /** The blocks of a grid row, one per secondary column. */
  function Blocks(row: seq<Widget>, n: nat): (bs: seq<Block>)
    requires RowLaidOut(row, n)
    ensures |bs| == n && forall i {:trigger BlockOf(row, i)} :: 0 <= i < n ==> bs[i] == BlockOf(row, i)
  {
    BlocksUpTo(row, n, n)
  }

  /** The first `k` blocks of a grid row. */
  function BlocksUpTo(row: seq<Widget>, n: nat, k: nat): (bs: seq<Block>)
    requires RowLaidOut(row, n) && k <= n
    ensures |bs| == k && forall i {:trigger BlockOf(row, i)} :: 0 <= i < k ==> bs[i] == BlockOf(row, i)
  {
    if k == 0 then [] else BlocksUpTo(row, n, k - 1) + [BlockOf(row, k - 1)]
  }

  /** The body of the inner loop of `collect_changes` for the block of
      secondary column `t2c` in row `r`. */
  function Decide(key: string, idx: int, t2c: string, r: nat, b: Block): (d: Decision)
    ensures d.Skip? <==> !b.checked
    ensures d.Take? ==> d.change.key == key && d.change.t1RowIndex == idx && d.change.targetCol == b.target
    ensures d.Refuse? <==> b.checked && (b.target == [] || (b.mode == ByHand && b.manual == []))
  {
    if !b.checked then Skip
    else if b.target == [] then Refuse(MissingTarget(r, t2c))
    else
      var newValue := if b.mode == OneToOne then b.source else b.manual;
      if b.mode == ByHand && newValue == [] then Refuse(EmptyManual(r, b.target))
      else Take(ProposedChange(key, idx, b.target, newValue, SourceInfo(r, t2c, b.mode)))
  }

  /** Appends what a decision contributes; a refusal ends the collection. */
  function Then(acc: Result<seq<ProposedChange>, Problem>, d: Decision): Result<seq<ProposedChange>, Problem> {
    match acc
    case Err(p) => Err(p)
    case Ok(l) =>
      match d
      case Skip => Ok(l)
      case Take(c) => Ok(l + [c])
      case Refuse(p) => Err(p)
  }

  /** Collection over the first `i` blocks of row `r`. */
  function RowUpTo(key: string, idx: int, cols: seq<string>, r: nat, bs: seq<Block>, i: nat): Result<seq<ProposedChange>, Problem>
    requires |bs| == |cols| && i <= |cols|
  {
    if i == 0 then Ok([])
    else Then(RowUpTo(key, idx, cols, r, bs, i - 1), Decide(key, idx, cols[i - 1], r, bs[i - 1]))
  }

  /** Every row of a block grid has one block per secondary column. */
  predicate Rect(bg: seq<seq<Block>>, n: nat) {
    forall q :: 0 <= q < |bg| ==> |bg[q]| == n
  }

  /** The whole widget grid read block by block. */
  function BlockGrid(grid: seq<seq<Widget>>, n: nat): (bg: seq<seq<Block>>)
    requires LaidOut(grid, n)
    ensures |bg| == |grid| && Rect(bg, n)
    ensures forall q :: 0 <= q < |grid| ==> bg[q] == Blocks(grid[q], n)
  {
    GridUpTo(grid, n, |grid|)
  }

  /** The first `k` rows of the widget grid read block by block. */
  function GridUpTo(grid: seq<seq<Widget>>, n: nat, k: nat): (bg: seq<seq<Block>>)
    requires LaidOut(grid, n) && k <= |grid|
    ensures |bg| == k && Rect(bg, n)
    ensures forall q :: 0 <= q < k ==> bg[q] == Blocks(grid[q], n)
  {
    if k == 0 then [] else GridUpTo(grid, n, k - 1) + [Blocks(grid[k - 1], n)]
  }

  /** Collection over the first `r` rows, in row-major order. */
  function RowsUpTo(key: string, idx: int, cols: seq<string>, bg: seq<seq<Block>>, r: nat): Result<seq<ProposedChange>, Problem>
    requires Rect(bg, |cols|) && r <= |bg|
  {
    if r == 0 then Ok([])
    else
      match RowsUpTo(key, idx, cols, bg, r - 1)
      case Err(p) => Err(p)
      case Ok(l) =>
        match RowUpTo(key, idx, cols, r - 1, bg[r - 1], |cols|)
        case Err(p) => Err(p)
        case Ok(m) => Ok(l + m)
  }

  /** `collect_changes` as a whole. */
  function Collect(key: string, idx: int, cols: seq<string>, grid: seq<seq<Widget>>): Result<seq<ProposedChange>, Problem>
    requires LaidOut(grid, |cols|)
  {
    RowsUpTo(key, idx, cols, BlockGrid(grid, |cols|), |grid|)
  }

  // ------------------------------------------------------------ properties

  /** A refusal inside a row is the row's outcome. */
  lemma {:induction false} RowErrSticky(key: string, idx: int, cols: seq<string>, r: nat, bs: seq<Block>, i: nat, j: nat, p: Problem)
    requires |bs| == |cols| && i <= j <= |cols|
    requires RowUpTo(key, idx, cols, r, bs, i) == Err(p)
    ensures RowUpTo(key, idx, cols, r, bs, j) == Err(p)
    decreases j
  {
    if j > i {
      RowErrSticky(key, idx, cols, r, bs, i, j - 1, p);
    }
  }

  /** A refusal in an early row is the collection's outcome. */
  lemma {:induction false} RowsErrSticky(key: string, idx: int, cols: seq<string>, bg: seq<seq<Block>>, r: nat, s: nat, p: Problem)
    requires Rect(bg, |cols|) && r <= s <= |bg|
    requires RowsUpTo(key, idx, cols, bg, r) == Err(p)
    ensures RowsUpTo(key, idx, cols, bg, s) == Err(p)
    decreases s
  {
    if s > r {
      RowsErrSticky(key, idx, cols, bg, r, s - 1, p);
    }
  }

  /** A checked block refuses when it has no target column, or is in
      manual mode with an empty manual text. */
  predicate Refuses(b: Block) {
    b.checked && (b.target == [] || (b.mode == ByHand && b.manual == []))
  }

  /** A row is collected without refusal exactly when none of its first `i`
      blocks refuses. */
  lemma {:induction false} RowOkIff(key: string, idx: int, cols: seq<string>, r: nat, bs: seq<Block>, i: nat)
    requires |bs| == |cols| && i <= |cols|
    ensures RowUpTo(key, idx, cols, r, bs, i).Ok? <==> forall j :: 0 <= j < i ==> !Refuses(bs[j])
  {
    if i > 0 {
      RowOkIff(key, idx, cols, r, bs, i - 1);
      var d := Decide(key, idx, cols[i - 1], r, bs[i - 1]);
      assert d.Refuse? <==> Refuses(bs[i - 1]);
    }
  }

  /** No block of the row refuses. */
  predicate RowClean(bs: seq<Block>) {
    forall j :: 0 <= j < |bs| ==> !Refuses(bs[j])
  }

  /** The rows up to `r` are collected without refusal exactly when each of
      them is clean. */
  lemma {:induction false} RowsOkIff(key: string, idx: int, cols: seq<string>, bg: seq<seq<Block>>, r: nat)
    requires Rect(bg, |cols|) && r <= |bg|
    ensures RowsUpTo(key, idx, cols, bg, r).Ok? <==> forall q :: 0 <= q < r ==> RowClean(bg[q])
  {
    if r > 0 {
      RowsOkIff(key, idx, cols, bg, r - 1);
      RowOkIff(key, idx, cols, r - 1, bg[r - 1], |cols|);
    }
  }

  /** The collection succeeds exactly when every checked cell has a target
      column and, in manual mode, a non-empty manual value. */
  lemma CollectOkIff(key: string, idx: int, cols: seq<string>, grid: seq<seq<Widget>>)
    requires LaidOut(grid, |cols|)
    ensures Collect(key, idx, cols, grid).Ok? <==>
      forall q :: 0 <= q < |grid| ==> RowClean(Blocks(grid[q], |cols|))
  {
    RowsOkIff(key, idx, cols, BlockGrid(grid, |cols|), |grid|);
  }

  /** A refused row reports the problem of its first refusing block. */
  lemma {:induction false} RowErrIsFirst(key: string, idx: int, cols: seq<string>, r: nat, bs: seq<Block>, i: nat)
    requires |bs| == |cols| && i <= |cols|
    requires RowUpTo(key, idx, cols, r, bs, i).Err?
    ensures exists j :: (0 <= j < i && Decide(key, idx, cols[j], r, bs[j]) == Refuse(RowUpTo(key, idx, cols, r, bs, i).error)
      && forall j' :: 0 <= j' < j ==> !Refuses(bs[j']))
  {
    var prev := RowUpTo(key, idx, cols, r, bs, i - 1);
    if prev.Err? {
      RowErrIsFirst(key, idx, cols, r, bs, i - 1);
    } else {
      RowOkIff(key, idx, cols, r, bs, i - 1);
    }
  }

  /** How many of the first `i` blocks are checked. */
  function CheckedCount(bs: seq<Block>, i: nat): nat
    requires i <= |bs|
  {
    if i == 0 then 0 else CheckedCount(bs, i - 1) + (if bs[i - 1].checked then 1 else 0)
  }

  function CheckedUpTo(bg: seq<seq<Block>>, n: nat, r: nat): nat
    requires Rect(bg, n) && r <= |bg|
  {
    if r == 0 then 0 else CheckedUpTo(bg, n, r - 1) + CheckedCount(bg[r - 1], n)
  }

  /** Every change carries the dialog's key and primary row index. */
  predicate AllTagged(l: seq<ProposedChange>, key: string, idx: int) {
    forall c :: c in l ==> c.key == key && c.t1RowIndex == idx
  }

  /** The change a checked block proposes: its target, the value its mode
      selects (the shown value for "1:1", the manual text otherwise) and
      `T2[r]:col (mode)`, for the dialog's key and primary row. */
  function ChangeOf(key: string, idx: int, t2c: string, r: nat, b: Block): ProposedChange {
    ProposedChange(key, idx, b.target, if b.mode == OneToOne then b.source else b.manual, SourceInfo(r, t2c, b.mode))
  }

  /** The changes of the checked blocks among the first `i` of row `r`, in
      column order. */
  function RowChanges(key: string, idx: int, cols: seq<string>, r: nat, bs: seq<Block>, i: nat): seq<ProposedChange>
    requires |bs| == |cols| && i <= |cols|
  {
    if i == 0 then []
    else RowChanges(key, idx, cols, r, bs, i - 1) + (if bs[i - 1].checked then [ChangeOf(key, idx, cols[i - 1], r, bs[i - 1])] else [])
  }

  /** The changes of the checked blocks of the first `r` rows, in row-major
      order. */
  function GridChanges(key: string, idx: int, cols: seq<string>, bg: seq<seq<Block>>, r: nat): seq<ProposedChange>
    requires Rect(bg, |cols|) && r <= |bg|
  {
    if r == 0 then [] else GridChanges(key, idx, cols, bg, r - 1) + RowChanges(key, idx, cols, r - 1, bg[r - 1], |cols|)
  }

  lemma {:induction false} RowOkContents(key: string, idx: int, cols: seq<string>, r: nat, bs: seq<Block>, i: nat)
    requires |bs| == |cols| && i <= |cols|
    requires RowUpTo(key, idx, cols, r, bs, i).Ok?
    ensures RowUpTo(key, idx, cols, r, bs, i).value == RowChanges(key, idx, cols, r, bs, i)
    ensures |RowUpTo(key, idx, cols, r, bs, i).value| == CheckedCount(bs, i)
    ensures AllTagged(RowUpTo(key, idx, cols, r, bs, i).value, key, idx)
  {
    if i > 0 {
      RowOkContents(key, idx, cols, r, bs, i - 1);
    }
  }

  lemma {:induction false} RowsOkContents(key: string, idx: int, cols: seq<string>, bg: seq<seq<Block>>, r: nat)
    requires Rect(bg, |cols|) && r <= |bg|
    requires RowsUpTo(key, idx, cols, bg, r).Ok?
    ensures RowsUpTo(key, idx, cols, bg, r).value == GridChanges(key, idx, cols, bg, r)
    ensures |RowsUpTo(key, idx, cols, bg, r).value| == CheckedUpTo(bg, |cols|, r)
    ensures AllTagged(RowsUpTo(key, idx, cols, bg, r).value, key, idx)
  {
    if r > 0 {
      RowsOkContents(key, idx, cols, bg, r - 1);
      RowOkContents(key, idx, cols, r - 1, bg[r - 1], |cols|);
    }
  }

  /** On success the changes are those of the checked cells, in row-major
      order: each carries its block's target, the value its mode selects
      and `T2[r]:col (mode)`, for the dialog's key and primary row. */
  lemma CollectOkContents(key: string, idx: int, cols: seq<string>, grid: seq<seq<Widget>>)
    requires LaidOut(grid, |cols|)
    requires Collect(key, idx, cols, grid).Ok?
    ensures Collect(key, idx, cols, grid).value == GridChanges(key, idx, cols, BlockGrid(grid, |cols|), |grid|)
    ensures |Collect(key, idx, cols, grid).value| == CheckedUpTo(BlockGrid(grid, |cols|), |cols|, |grid|)
    ensures AllTagged(Collect(key, idx, cols, grid).value, key, idx)
  {
    RowsOkContents(key, idx, cols, BlockGrid(grid, |cols|), |grid|);
  }

  /** A checked block with a target in "1:1" mode takes the shown secondary
      value, even an empty one; in manual mode it takes the trimmed manual
      text, and refuses when that is empty. */
  lemma DecideValue(key: string, idx: int, t2c: string, r: nat, b: Block)
    requires b.checked && b.target != []
    ensures b.mode == OneToOne ==>
      Decide(key, idx, t2c, r, b) == Take(ProposedChange(key, idx, b.target, b.source, SourceInfo(r, t2c, OneToOne)))
    ensures b.mode == ByHand && b.manual != [] ==>
      Decide(key, idx, t2c, r, b) == Take(ProposedChange(key, idx, b.target, b.manual, SourceInfo(r, t2c, ByHand)))
    ensures b.mode == ByHand && b.manual == [] ==>
      Decide(key, idx, t2c, r, b) == Refuse(EmptyManual(r, b.target))
  {
  }

  /** Reads the five widgets of block `i` of a grid row. */
  method ReadBlock(row: seq<Widget>, n: nat, i: nat) returns (b: Block)
    requires RowLaidOut(row, n) && i < n
    ensures b == Blocks(row, n)[i]
  {
    assert BlockLaidOut(row, i);
    var base := 5 * i;
    var source := if row[base + 1].ValueItem? then row[base + 1].text else [];
    var target := Strip(row[base + 2].selected);
    var manual := Strip(row[base + 4].text);
    b := Block(row[base].checked, source, target, row[base + 3].mode, manual);
    assert b == BlockOf(row, i);
  }

  /** The inner loop of `collect_changes` over the blocks of row `r`: reads
      the five widgets of each block, stops at the first refusal. */
  method CollectRow(key: string, idx: int, cols: seq<string>, r: nat, row: seq<Widget>)
    returns (got: Result<seq<ProposedChange>, Problem>)
    requires RowLaidOut(row, |cols|)
    ensures got == RowUpTo(key, idx, cols, r, Blocks(row, |cols|), |cols|)
  {
    ghost var bs := Blocks(row, |cols|);
    got := Ok([]);
    var i := 0;
    while i < |cols|
      invariant 0 <= i <= |cols| && |bs| == |cols|
      invariant got.Ok? && RowUpTo(key, idx, cols, r, bs, i) == got
    {
      var b := ReadBlock(row, |cols|, i);
      got := Then(got, Decide(key, idx, cols[i], r, b));
      if got.Err? {
        RowErrSticky(key, idx, cols, r, bs, i + 1, |cols|, got.error);
        return;
      }
      i := i + 1;
    }
  }

  /** The outer loop of `collect_changes` over the grid rows. */
  method CollectGrid(key: string, idx: int, cols: seq<string>, grid: seq<seq<Widget>>)
    returns (got: Result<seq<ProposedChange>, Problem>)
    requires LaidOut(grid, |cols|)
    ensures got == Collect(key, idx, cols, grid)
  {
    var acc: seq<ProposedChange> := [];
    ghost var bg := BlockGrid(grid, |cols|);
    var r := 0;
    while r < |grid|
      invariant 0 <= r <= |grid|
      invariant RowsUpTo(key, idx, cols, bg, r) == Ok(acc)
    {
      var row := CollectRow(key, idx, cols, r, grid[r]);
      if row.Err? {
        RowsErrSticky(key, idx, cols, bg, r + 1, |grid|, row.error);
        return Err(row.error);
      }
      acc := acc + row.value;
      r := r + 1;
    }
    return Ok(acc);
  }

  // ------------------------------------------------------------ the dialog

  /** The dialog's state: the primary row it is about, the secondary rows,
      the widget grid and the collected changes. */
  class Dialog {
    var key: string
    var t1RowIndex: int
    var t1Columns: seq<string>
    var t2Cols: seq<string>
    var headers: seq<string>
    var meta: seq<(string, Kind)>
    var grid: seq<seq<Widget>>
    var changes: seq<ProposedChange>
    var accepted: bool

    ghost predicate Valid()
      reads this
    {
      |meta| == 5 * |t2Cols| && LaidOut(grid, |t2Cols|)
    }

    /** Builds the layout over the secondary columns other than `_KEY_` and
        fills one grid row per secondary row. */
    constructor (key0: string, idx0: int, t1cols: seq<string>, t2columns: seq<string>, t2rows: seq<Row>)
      ensures Valid()
      ensures key == key0 && t1RowIndex == idx0 && t1Columns == t1cols
      ensures t2Cols == Without(t2columns, KeyColumn) && KeyColumn !in t2Cols
      ensures |grid| == |t2rows|
      ensures forall r, c :: 0 <= r < |t2rows| && 0 <= c < |meta| ==> grid[r][c] == InitialWidget(t2rows[r], meta[c])
      ensures changes == [] && !accepted
    {
      key := key0;
      t1RowIndex := idx0;
      t1Columns := t1cols;
      var cols := Without(t2columns, KeyColumn);
      t2Cols := cols;
      var h, m := BuildLayout(cols);
      headers := h;
      meta := m;
      var g := seq(|t2rows|, r requires 0 <= r < |t2rows| => seq(|m|, c requires 0 <= c < |m| => InitialWidget(t2rows[r], m[c])));
      grid := g;
      changes := [];
      accepted := false;
      forall r | 0 <= r < |g| ensures RowLaidOut(g[r], |cols|) {
        forall i | 0 <= i < |cols| ensures BlockLaidOut(g[r], i) {
          assert MetaAt(m, i, 0).1 == Use && MetaAt(m, i, 1).1 == Value && MetaAt(m, i, 2).1 == Target;
          assert MetaAt(m, i, 3).1 == Mode && MetaAt(m, i, 4).1 == Manual;
        }
      }
    }

    /** The user sets a widget's state (ticks a box, picks a target or a
        mode, types a manual value). */
    method Edit(r: nat, c: nat, w: Widget)
      requires Valid() && r < |grid| && c < |grid[r]| && SameKind(grid[r][c], w)
      modifies this
      ensures Valid()
      ensures grid == old(grid)[r := old(grid)[r][c := w]]
      ensures key == old(key) && t1RowIndex == old(t1RowIndex) && t2Cols == old(t2Cols) && meta == old(meta)
      ensures t1Columns == old(t1Columns) && headers == old(headers)
      ensures changes == old(changes) && accepted == old(accepted)
    {
      var row := grid[r][c := w];
      forall i | 0 <= i < |t2Cols| ensures BlockLaidOut(row, i) {
        assert BlockLaidOut(grid[r], i);
      }
      grid := grid[r := row];
    }

    /** `collect_changes`: walks the grid row by row and block by block; at
        the first refusal it stops and keeps the previous changes, otherwise
        the collected changes replace them and the dialog is accepted. */
    method CollectChanges() returns (outcome: Result<seq<ProposedChange>, Problem>)
      requires Valid()
      modifies this
      ensures Valid()
      ensures outcome == Collect(key, t1RowIndex, t2Cols, grid)
      ensures changes == (if outcome.Ok? then outcome.value else old(changes))
      ensures accepted == (outcome.Ok? || old(accepted))
      ensures key == old(key) && t1RowIndex == old(t1RowIndex) && t2Cols == old(t2Cols) && grid == old(grid)
      ensures meta == old(meta) && t1Columns == old(t1Columns) && headers == old(headers)
    {
      outcome := CollectGrid(key, t1RowIndex, t2Cols, grid);
      if outcome.Ok? {
        changes := outcome.value;
        accepted := true;
      }
    }
  }
}
