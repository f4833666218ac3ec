/**
 * The auto-fill policy of app/ui/main_window.py, as functions on one primary
 * row: which columns are filled, from which secondary value, after which
 * cuts (street/house split, phone normalisation), plus the country default
 * and the postcode-to-state inference. `MainWindow` runs these steps in
 * place on the primary table; here they are stated and their properties
 * proved.
 */
module FillPolicy {
  import opened Wrappers
  import opened Text
  import opened Normalize
  import opened Transforms
  import opened Tables
  import opened Matcher

  // ------------------------------------------------------------ settings

  /** `self.cuts`: the switches of the transformations, by name. */
  type CutFlags = map<string, bool>

  const SplitCut: string := "split_street_house"
  const PhoneCut: string := "normalize_phone"
  const CountryCut: string := "fill_country_default"
  const StateCut: string := "infer_state_from_zip"

  /** `self.cuts.get(name, default)`. */
  function CutOn(cuts: CutFlags, name: string, default: bool): bool {
    if name in cuts then cuts[name] else default
  }

  predicate SplitsStreet(cuts: CutFlags) { CutOn(cuts, SplitCut, true) }
  predicate NormalizesPhone(cuts: CutFlags) { CutOn(cuts, PhoneCut, true) }
  predicate FillsCountry(cuts: CutFlags) { CutOn(cuts, CountryCut, false) }
  predicate InfersState(cuts: CutFlags) { CutOn(cuts, StateCut, false) }

  /** `self.col_links`: primary column to secondary column, in the
      dictionary's insertion order. */
  type Links = seq<(string, string)>

  /** `self.col_links.get(col)`. */
  function LinkOf(links: Links, col: string): (r: Option<string>)
    ensures r.Some? <==> exists j :: 0 <= j < |links| && links[j].0 == col
  {
    if links == [] then None
    else if links[0].0 == col then Some(links[0].1)
    else
      var r := LinkOf(links[1..], col);
      assert forall j :: 0 < j < |links| ==> links[j] == links[1..][j - 1];
      r
  }

  // ------------------------------------------------------------ column names

  /** Lower-cased names of columns that receive the street split. */
  const StreetLabels: set<string> := {"street", "straße"}
  /** Lower-cased names of columns that receive phone normalisation. */
  const PhoneLabels: set<string> := {"phone", "phonegeneral", "telefon", "festnetz", "mobil", "mobilgeneral"}
  /** Where the house part of a split street goes, in this order. */
  const HouseColumns: seq<string> := ["houseNumber", "hausnummer"]
  /** Where the postcode is looked for, in this order. */
  const ZipColumns: seq<string> := ["zipCode", "plz", "postalCode"]
  const CountryColumn: string := "country"
  const StateColumn: string := "state"

  predicate IsStreetLabel(col: string) { Lower(col) in StreetLabels }
  predicate IsPhoneLabel(col: string) { Lower(col) in PhoneLabels }

  /** The columns the fill writes besides the linked ones. */
  predicate IsDerived(col: string) {
    col in HouseColumns || col == CountryColumn || col == StateColumn
  }

  // ------------------------------------------------------------ the fill

  /** Everything one fill of one primary row depends on. */
  datatype FillContext = FillContext(
    columns: seq<string>,   // the primary table's columns
    keyCol: string,         // the primary key column chosen in the window
    links: Links,
    t2rows: seq<Row>,       // the secondary rows matched to the row's key
    t2columns: seq<string>,
    cuts: CutFlags,
    countryDefault: string,
    geo: Geocoder)

  /** A row being filled, with the linked columns counted so far. */
  datatype Fill = Fill(row: Row, written: seq<string>)

  /** The first non-missing value of `col` over `rows`, stripped. */
  function FirstValue(rows: seq<Row>, col: string): Option<string> {
    if rows == [] then None
    else if !IsMissing(Get(rows[0], col)) then Some(Strip(Get(rows[0], col).value))
    else FirstValue(rows[1..], col)
  }

  /** The house part goes into each house column the table has that is still
      missing, unless the house part is empty. */
  function HouseFill(row: Row, columns: seq<string>, house: string, cands: seq<string>): Row {
    if cands == [] then row
    else
      var r := HouseFill(row, columns, house, cands[..|cands| - 1]);
      var c := cands[|cands| - 1];
      if c in columns && IsMissing(Get(r, c)) && house != [] then r[c := Some(house)] else r
  }

  /** The value a linked column receives from secondary value `v`: the street
      part for a street column, the normalised number for a phone column. */
  function LinkedValue(cuts: CutFlags, col: string, v: string): string {
    var s := if SplitsStreet(cuts) && IsStreetLabel(col) then SplitStreetHouse(Some(v)).0 else v;
    if NormalizesPhone(cuts) && IsPhoneLabel(col) then NormalizePhone(Some(s)) else s
  }

  /** The secondary column linked to `col`, when the secondary table has it. */
  function UsableLink(ctx: FillContext, col: string): Option<string> {
    match LinkOf(ctx.links, col)
    case None => None
    case Some(t2) => if t2 == [] || t2 !in ctx.t2columns then None else Some(t2)
  }

  /** One column of the row fill (`autofill_current_key_linked`): a missing,
      non-key column with a usable link takes the first non-missing secondary
      value; a street column first sends its house part to the house
      columns; a phone column is normalised. */
  function RowStep(ctx: FillContext, f: Fill, col: string): Fill {
    if col == ctx.keyCol || !IsMissing(Get(f.row, col)) then f
    else match UsableLink(ctx, col)
      case None => f
      case Some(t2) =>
        match FirstValue(ctx.t2rows, t2)
        case None => f
        case Some(v) =>
          var splits := SplitsStreet(ctx.cuts) && IsStreetLabel(col);
          var house := if splits then SplitStreetHouse(Some(v)).1 else [];
          var row := HouseFill(f.row, ctx.columns, house, HouseColumns);
          Fill(row[col := Some(LinkedValue(ctx.cuts, col, v))], f.written + [col])
  }

  /** The row fill over the columns in order. */
  function FillColumns(ctx: FillContext, f: Fill, cols: seq<string>): Fill
    decreases |cols|
  {
    if cols == [] then f else FillColumns(ctx, RowStep(ctx, f, cols[0]), cols[1..])
  }

  /** One link of the batch fill (`autofill_all_linked`): like the row step,
      but links naming `_KEY_`, the key column, or a column either table
      lacks are skipped. */
  function BatchStep(ctx: FillContext, f: Fill, link: (string, string)): Fill {
    var col := link.0;
    var t2 := link.1;
    if col == KeyColumn || col == ctx.keyCol then f
    else if col !in ctx.columns || t2 !in ctx.t2columns then f
    else if !IsMissing(Get(f.row, col)) then f
    else match FirstValue(ctx.t2rows, t2)
      case None => f
      case Some(v) => Fill(BatchWrite(ctx, f.row, col, v), f.written + [col])
  }

  /** The writes of one batch step: phone normalisation comes before the
      write, and the street split after it, overwriting the column. */
  function BatchWrite(ctx: FillContext, row: Row, col: string, v: string): Row {
    var v1 := if NormalizesPhone(ctx.cuts) && IsPhoneLabel(col) then NormalizePhone(Some(v)) else v;
    var written := row[col := Some(v1)];
    if SplitsStreet(ctx.cuts) && IsStreetLabel(col) then
      var parts := SplitStreetHouse(Some(v1));
      HouseFill(written[col := Some(parts.0)], ctx.columns, parts.1, HouseColumns)
    else written
  }

  /** The batch fill of one row over the links in order. */
  function FillLinks(ctx: FillContext, f: Fill, links: Links): Fill
    decreases |links|
  {
    if links == [] then f else FillLinks(ctx, BatchStep(ctx, f, links[0]), links[1..])
  }

  /** The country default goes into a missing `country` cell. */
  function CountryStep(ctx: FillContext, row: Row): Row {
    if FillsCountry(ctx.cuts) && CountryColumn in ctx.columns && IsMissing(Get(row, CountryColumn))
    then row[CountryColumn := Some(ctx.countryDefault)]
    else row
  }

  /** The cell of the first postcode column the table has, `None` if it has
      none. */
  function ZipOf(row: Row, columns: seq<string>, cands: seq<string>): Cell {
    if cands == [] then None
    else if cands[0] in columns then Get(row, cands[0])
    else ZipOf(row, columns, cands[1..])
  }

  /** The state looked up from the postcode goes into a missing `state` cell. */
  function StateStep(ctx: FillContext, row: Row): Row {
    if InfersState(ctx.cuts) && StateColumn in ctx.columns && IsMissing(Get(row, StateColumn)) then
      var z := ZipOf(row, ctx.columns, ZipColumns);
      var st := if z.Some? && z.value != [] then StateFromZipDe(z, ctx.geo) else None;
      if st.Some? && st.value != [] then row[StateColumn := Some(st.value)] else row
    else row
  }

  /** The whole row fill: every display column (all but `_KEY_`), then the
      country and state defaults. */
  function RowFill(ctx: FillContext, row: Row): Fill {
    var f := FillColumns(ctx, Fill(row, []), Without(ctx.columns, KeyColumn));
    Fill(StateStep(ctx, CountryStep(ctx, f.row)), f.written)
  }

  /** The batch fill of one row with its matched secondary rows. */
  function BatchRowFill(ctx: FillContext, row: Row): Fill {
    var f := FillLinks(ctx, Fill(row, []), ctx.links);
    Fill(StateStep(ctx, CountryStep(ctx, f.row)), f.written)
  }

  /** The batch fill of row `row` of the primary table: rows without a key or
      without a match in the secondary table are left alone. */
  function BatchRow(ctx: FillContext, t2all: seq<Row>, row: Row): Fill {
    var key := RowKey(row);
    if key == [] then Fill(row, [])
    else
      var group := GroupRows(t2all, key);
      if group == [] then Fill(row, []) else BatchRowFill(ctx.(t2rows := group), row)
  }

  /** The number of cells the batch fill counts over `rows`. */
  function BatchTotal(ctx: FillContext, t2all: seq<Row>, rows: seq<Row>): nat {
    if rows == [] then 0
    else BatchTotal(ctx, t2all, rows[..|rows| - 1]) + |BatchRow(ctx, t2all, rows[|rows| - 1]).written|
  }

  lemma BatchTotalStep(ctx: FillContext, t2all: seq<Row>, rows: seq<Row>, i: nat)
    requires i < |rows|
    ensures BatchTotal(ctx, t2all, rows[..i + 1]) == BatchTotal(ctx, t2all, rows[..i]) + |BatchRow(ctx, t2all, rows[i]).written|
  {
    assert rows[..i + 1][..i] == rows[..i];
  }

  // ------------------------------------------------------------ first value

  /** The chosen value is that of the first secondary row whose cell is not
      missing, stripped. */
  lemma {:induction false} FirstValueIsFirst(rows: seq<Row>, col: string) returns (i: nat)
    requires FirstValue(rows, col).Some?
    ensures i < |rows| && !IsMissing(Get(rows[i], col))
    ensures forall j :: 0 <= j < i ==> IsMissing(Get(rows[j], col))
    ensures FirstValue(rows, col).value == Strip(Get(rows[i], col).value)
  {
    var v := Get(rows[0], col);
    if !IsMissing(v) {
      i := 0;
    } else {
      var k := FirstValueIsFirst(rows[1..], col);
      i := k + 1;
      assert rows[i] == rows[1..][k];
      forall j | 0 <= j < i ensures IsMissing(Get(rows[j], col)) {
        if j > 0 {
          assert rows[j] == rows[1..][j - 1];
        }
      }
    }
  }

  /** There is no value exactly when every cell of the column is missing. */
  lemma {:induction false} FirstValueNone(rows: seq<Row>, col: string)
    ensures FirstValue(rows, col).None? <==> forall j :: 0 <= j < |rows| ==> IsMissing(Get(rows[j], col))
  {
    if FirstValue(rows, col).Some? {
      var i := FirstValueIsFirst(rows, col);
    } else if rows != [] {
      FirstValueNone(rows[1..], col);
      forall j | 0 < j < |rows| ensures IsMissing(Get(rows[j], col)) {
        assert rows[j] == rows[1..][j - 1];
      }
    }
  }

  /** The chosen value is a non-empty text that is not missing. */
  lemma FirstValueNotMissing(rows: seq<Row>, col: string)
    requires FirstValue(rows, col).Some?
    ensures FirstValue(rows, col).value != [] && !IsMissing(Some(FirstValue(rows, col).value))
  {
    var i := FirstValueIsFirst(rows, col);
    NotMissingHasText(Get(rows[i], col));
  }

  // ------------------------------------------------------------ frames

  /** Every cell of `orig` that is not missing has the same value in `r`. */
  ghost predicate Keeps(orig: Row, r: Row) {
    forall c :: !IsMissing(Get(orig, c)) ==> Get(r, c) == Get(orig, c)
  }

  lemma {:induction false} HouseFillFrame(row: Row, columns: seq<string>, house: string, cands: seq<string>)
    ensures Keeps(row, HouseFill(row, columns, house, cands))
    ensures forall x :: x !in cands ==> Get(HouseFill(row, columns, house, cands), x) == Get(row, x)
    ensures house == [] ==> HouseFill(row, columns, house, cands) == row
  {
    if cands != [] {
      HouseFillFrame(row, columns, house, cands[..|cands| - 1]);
    }
  }

  /** Writing a cell that is not a house column commutes with the house fill. */
  lemma {:induction false} HouseFillCommutes(row: Row, columns: seq<string>, house: string, cands: seq<string>, col: string, v: Cell)
    requires col !in cands
    ensures HouseFill(row[col := v], columns, house, cands) == HouseFill(row, columns, house, cands)[col := v]
  {
    if cands != [] {
      HouseFillCommutes(row, columns, house, cands[..|cands| - 1], col, v);
    }
  }

  /** What a row step does: nothing, or it writes its (missing, non-key)
      column and fills the house columns from some house part. */
  lemma RowStepShape(ctx: FillContext, f: Fill, col: string) returns (house: string, w: string)
    ensures RowStep(ctx, f, col) == f ||
      (col != ctx.keyCol && IsMissing(Get(f.row, col)) &&
       RowStep(ctx, f, col).row == HouseFill(f.row, ctx.columns, house, HouseColumns)[col := Some(w)])
  {
    house, w := [], [];
    if col != ctx.keyCol && IsMissing(Get(f.row, col)) && UsableLink(ctx, col).Some? {
      var t2 := UsableLink(ctx, col).value;
      if FirstValue(ctx.t2rows, t2).Some? {
        var v := FirstValue(ctx.t2rows, t2).value;
        var splits := SplitsStreet(ctx.cuts) && IsStreetLabel(col);
        house := if splits then SplitStreetHouse(Some(v)).1 else [];
        w := LinkedValue(ctx.cuts, col, v);
      }
    }
  }

  /** The row step writes only its own column and the house columns, never a
      cell that is not missing. */
  lemma RowStepFrame(ctx: FillContext, f: Fill, col: string)
    ensures Keeps(f.row, RowStep(ctx, f, col).row)
    ensures forall x :: !IsDerived(x) && (x != col || col == ctx.keyCol) ==> Get(RowStep(ctx, f, col).row, x) == Get(f.row, x)
  {
    var house, w := RowStepShape(ctx, f, col);
    HouseFillFrame(f.row, ctx.columns, house, HouseColumns);
  }

  lemma Overwrite(row: Row, col: string, a: Cell, b: Cell)
    ensures row[col := a][col := b] == row[col := b]
  {
  }

  /** What a batch write does: it writes its column and fills the house
      columns from some house part. */
  lemma BatchWriteShape(ctx: FillContext, row: Row, col: string, v: string) returns (house: string, w: string)
    ensures BatchWrite(ctx, row, col, v) == HouseFill(row[col := Some(w)], ctx.columns, house, HouseColumns)
  {
    var v1 := if NormalizesPhone(ctx.cuts) && IsPhoneLabel(col) then NormalizePhone(Some(v)) else v;
    if SplitsStreet(ctx.cuts) && IsStreetLabel(col) {
      var parts := SplitStreetHouse(Some(v1));
      house, w := parts.1, parts.0;
      Overwrite(row, col, Some(v1), Some(w));
    } else {
      house, w := [], v1;
      HouseFillFrame(row[col := Some(w)], ctx.columns, house, HouseColumns);
    }
  }

  /** A row step on a missing, non-key column with a usable link and a value
      fills the house columns, then writes the linked value. */
  lemma RowStepFires(ctx: FillContext, f: Fill, col: string, t2: string, v: string, house: string)
    requires col != ctx.keyCol && IsMissing(Get(f.row, col))
    requires UsableLink(ctx, col) == Some(t2) && FirstValue(ctx.t2rows, t2) == Some(v)
    requires house == if SplitsStreet(ctx.cuts) && IsStreetLabel(col) then SplitStreetHouse(Some(v)).1 else []
    ensures RowStep(ctx, f, col) ==
      Fill(HouseFill(f.row, ctx.columns, house, HouseColumns)[col := Some(LinkedValue(ctx.cuts, col, v))], f.written + [col])
  {
  }

  /** What a batch step does: nothing, or it writes its (missing, non-key)
      column and fills the house columns from some house part. */
  lemma BatchStepShape(ctx: FillContext, f: Fill, link: (string, string)) returns (house: string, w: string)
    ensures BatchStep(ctx, f, link) == f ||
      (link.0 != KeyColumn && link.0 != ctx.keyCol && IsMissing(Get(f.row, link.0)) &&
       BatchStep(ctx, f, link).row == HouseFill(f.row[link.0 := Some(w)], ctx.columns, house, HouseColumns))
  {
    house, w := [], [];
    var col := link.0;
    if col != KeyColumn && col != ctx.keyCol && col in ctx.columns && link.1 in ctx.t2columns &&
       IsMissing(Get(f.row, col)) && FirstValue(ctx.t2rows, link.1).Some? {
      house, w := BatchWriteShape(ctx, f.row, col, FirstValue(ctx.t2rows, link.1).value);
    }
  }

  lemma BatchStepFrame(ctx: FillContext, f: Fill, link: (string, string))
    ensures Keeps(f.row, BatchStep(ctx, f, link).row)
    ensures forall x :: !IsDerived(x) && (x != link.0 || x == KeyColumn || x == ctx.keyCol) ==>
      Get(BatchStep(ctx, f, link).row, x) == Get(f.row, x)
  {
    var house, w := BatchStepShape(ctx, f, link);
    HouseFillFrame(f.row[link.0 := Some(w)], ctx.columns, house, HouseColumns);
  }

  lemma {:induction false} FillColumnsFrame(ctx: FillContext, f: Fill, cols: seq<string>)
    ensures Keeps(f.row, FillColumns(ctx, f, cols).row)
    ensures forall x :: !IsDerived(x) && (x !in cols || x == ctx.keyCol) ==> Get(FillColumns(ctx, f, cols).row, x) == Get(f.row, x)
    decreases |cols|
  {
    if cols != [] {
      RowStepFrame(ctx, f, cols[0]);
      FillColumnsFrame(ctx, RowStep(ctx, f, cols[0]), cols[1..]);
    }
  }

  lemma {:induction false} FillLinksFrame(ctx: FillContext, f: Fill, links: Links)
    ensures Keeps(f.row, FillLinks(ctx, f, links).row)
    ensures forall x :: !IsDerived(x) && ((forall j :: 0 <= j < |links| ==> links[j].0 != x) || x == KeyColumn || x == ctx.keyCol) ==>
      Get(FillLinks(ctx, f, links).row, x) == Get(f.row, x)
    decreases |links|
  {
    if links != [] {
      BatchStepFrame(ctx, f, links[0]);
      FillLinksFrame(ctx, BatchStep(ctx, f, links[0]), links[1..]);
      forall x | !IsDerived(x) && (forall j :: 0 <= j < |links| ==> links[j].0 != x)
        ensures forall j :: 0 <= j < |links[1..]| ==> links[1..][j].0 != x
      {
        forall j | 0 <= j < |links[1..]| ensures links[1..][j].0 != x {
          assert links[1..][j] == links[j + 1];
        }
      }
    }
  }

  lemma ExtrasFrame(ctx: FillContext, row: Row)
    ensures Keeps(row, StateStep(ctx, CountryStep(ctx, row)))
    ensures forall x :: !IsDerived(x) ==> Get(StateStep(ctx, CountryStep(ctx, row)), x) == Get(row, x)
  {
  }

  // ------------------------------------------------------------ row fill

  /** The row fill never changes a cell that was not missing before it. */
  lemma RowFillNeverOverwrites(ctx: FillContext, row: Row)
    ensures forall c :: !IsMissing(Get(row, c)) ==> Get(RowFill(ctx, row).row, c) == Get(row, c)
  {
    var f := FillColumns(ctx, Fill(row, []), Without(ctx.columns, KeyColumn));
    FillColumnsFrame(ctx, Fill(row, []), Without(ctx.columns, KeyColumn));
    ExtrasFrame(ctx, f.row);
  }

  /** The row fill never writes `_KEY_`, nor the key column unless that is
      one of the derived columns (house number, country, state). */
  lemma RowFillKeepsKeys(ctx: FillContext, row: Row)
    ensures Get(RowFill(ctx, row).row, KeyColumn) == Get(row, KeyColumn)
    ensures !IsDerived(ctx.keyCol) ==> Get(RowFill(ctx, row).row, ctx.keyCol) == Get(row, ctx.keyCol)
  {
    var f := FillColumns(ctx, Fill(row, []), Without(ctx.columns, KeyColumn));
    FillColumnsFrame(ctx, Fill(row, []), Without(ctx.columns, KeyColumn));
    ExtrasFrame(ctx, f.row);
  }

  // ------------------------------------------------------------ what is written

  /** The value the row fill gives a linked column: the first non-missing
      secondary value after the cuts, when the link is usable and there is
      one. */
  function Candidate(ctx: FillContext, col: string): Option<string> {
    match UsableLink(ctx, col)
    case None => None
    case Some(t2) =>
      match FirstValue(ctx.t2rows, t2)
      case None => None
      case Some(v) => Some(LinkedValue(ctx.cuts, col, v))
  }

  /** A row step counts its column exactly when the column is missing, not
      the key column, and has a candidate, which it then holds. */
  lemma RowStepWrites(ctx: FillContext, f: Fill, col: string)
    ensures var fires := col != ctx.keyCol && IsMissing(Get(f.row, col)) && Candidate(ctx, col).Some?;
      RowStep(ctx, f, col).written == f.written + (if fires then [col] else []) &&
      (fires ==> Get(RowStep(ctx, f, col).row, col) == Some(Candidate(ctx, col).value))
  {
  }

  /** What makes the row fill count a column: it is not the key column, it
      was missing in the original row, and it has a candidate. */
  predicate RowCounted(ctx: FillContext, orig: Row, c: string) {
    c != ctx.keyCol && IsMissing(Get(orig, c)) && Candidate(ctx, c).Some?
  }

  lemma MissingBefore(orig: Row, r: Row, c: string)
    requires Keeps(orig, r) && IsMissing(Get(r, c))
    ensures IsMissing(Get(orig, c))
  {
  }

  lemma Append3(a: seq<string>, b: seq<string>, c: seq<string>)
    ensures a + b + c == a + (b + c)
  {
  }

  /** Every column in `added` is one of `cols` and counted against `orig`. */
  ghost predicate AllCounted(ctx: FillContext, orig: Row, added: seq<string>, cols: seq<string>) {
    forall k :: 0 <= k < |added| ==> added[k] in cols && RowCounted(ctx, orig, added[k])
  }

  lemma AllCountedJoin(ctx: FillContext, orig: Row, r: Row, step: seq<string>, rest: seq<string>, cols: seq<string>)
    requires cols != [] && Keeps(orig, r)
    requires AllCounted(ctx, orig, step, cols) && AllCounted(ctx, r, rest, cols[1..])
    ensures AllCounted(ctx, orig, step + rest, cols)
  {
    forall k | |step| <= k < |step + rest| ensures (step + rest)[k] in cols && RowCounted(ctx, orig, (step + rest)[k]) {
      var c := rest[k - |step|];
      MissingBefore(orig, r, c);
    }
  }

  /** The columns a row-fill pass adds to the count, each one of the visited
      columns with what makes it counted. */
  lemma {:induction false} FillColumnsAdded(ctx: FillContext, f: Fill, cols: seq<string>) returns (added: seq<string>)
    ensures FillColumns(ctx, f, cols).written == f.written + added && |added| <= |cols|
    ensures AllCounted(ctx, f.row, added, cols)
    decreases |cols|
  {
    if cols == [] {
      added := [];
    } else {
      var f1 := RowStep(ctx, f, cols[0]);
      var step := if RowCounted(ctx, f.row, cols[0]) then [cols[0]] else [];
      assert f1.written == f.written + step && AllCounted(ctx, f.row, step, cols) by {
        RowStepWrites(ctx, f, cols[0]);
      }
      assert Keeps(f.row, f1.row) by {
        RowStepFrame(ctx, f, cols[0]);
      }
      var rest := FillColumnsAdded(ctx, f1, cols[1..]);
      AllCountedJoin(ctx, f.row, f1.row, step, rest, cols);
      added := step + rest;
      assert FillColumns(ctx, f, cols) == FillColumns(ctx, f1, cols[1..]);
      Append3(f.written, step, rest);
    }
  }

  lemma {:induction false} FillColumnsAt(ctx: FillContext, f: Fill, cols: seq<string>, col: string)
      returns (added: seq<string>)
    requires Distinct(cols) && col in cols && col != ctx.keyCol && !IsDerived(col) && IsMissing(Get(f.row, col))
    ensures FillColumns(ctx, f, cols).written == f.written + added
    ensures Get(FillColumns(ctx, f, cols).row, col) ==
      (if Candidate(ctx, col).Some? then Some(Candidate(ctx, col).value) else Get(f.row, col))
    ensures col in added <==> Candidate(ctx, col).Some?
    decreases |cols|
  {
    if cols[0] == col {
      added := FillColumnsAtHead(ctx, f, cols, col);
    } else {
      var f1 := RowStep(ctx, f, cols[0]);
      RowStepWrites(ctx, f, cols[0]);
      RowStepFrame(ctx, f, cols[0]);
      assert Get(f1.row, col) == Get(f.row, col);
      assert col in cols[1..];
      var rest := FillColumnsAt(ctx, f1, cols[1..], col);
      var step := f1.written[|f.written|..];
      assert FillColumns(ctx, f, cols) == FillColumns(ctx, f1, cols[1..]);
      Append3(f.written, step, rest);
      added := step + rest;
    }
  }

  /** `FillColumnsAt` when the column is the first one visited: the step
      decides it and the later steps leave it alone. */
  lemma FillColumnsAtHead(ctx: FillContext, f: Fill, cols: seq<string>, col: string)
      returns (added: seq<string>)
    requires Distinct(cols) && cols != [] && cols[0] == col
    requires col != ctx.keyCol && !IsDerived(col) && IsMissing(Get(f.row, col))
    ensures FillColumns(ctx, f, cols).written == f.written + added
    ensures Get(FillColumns(ctx, f, cols).row, col) ==
      (if Candidate(ctx, col).Some? then Some(Candidate(ctx, col).value) else Get(f.row, col))
    ensures col in added <==> Candidate(ctx, col).Some?
  {
    var f1 := RowStep(ctx, f, col);
    RowStepWrites(ctx, f, col);
    RowStepFrame(ctx, f, col);
    assert col !in cols[1..];
    FillColumnsFrame(ctx, f1, cols[1..]);
    var rest := FillColumnsAdded(ctx, f1, cols[1..]);
    assert col !in rest by {
      forall k | 0 <= k < |rest| ensures rest[k] in cols[1..] {}
    }
    var step := f1.written[|f.written|..];
    assert FillColumns(ctx, f, cols) == FillColumns(ctx, f1, cols[1..]);
    Append3(f.written, step, rest);
    added := step + rest;
  }

  /** A display column other than the key and the derived columns that was
      missing ends up holding its candidate when it has one, and is counted
      exactly then; otherwise it is left as it was. */
  lemma RowFillLinkedValue(ctx: FillContext, row: Row, col: string)
    requires Distinct(ctx.columns) && col in ctx.columns
    requires col != KeyColumn && col != ctx.keyCol && !IsDerived(col) && IsMissing(Get(row, col))
    ensures Get(RowFill(ctx, row).row, col) ==
      (if Candidate(ctx, col).Some? then Some(Candidate(ctx, col).value) else Get(row, col))
    ensures col in RowFill(ctx, row).written <==> Candidate(ctx, col).Some?
  {
    var cols := Without(ctx.columns, KeyColumn);
    WithoutKeepsDistinct(ctx.columns, KeyColumn);
    var added := FillColumnsAt(ctx, Fill(row, []), cols, col);
    var f := FillColumns(ctx, Fill(row, []), cols);
    ExtrasFrame(ctx, f.row);
    assert f.written == added;
  }

  /** The counter counts only linked columns: every counted column is a
      display column other than the key column, was missing, and has a
      candidate; there are at most as many as display columns. */
  lemma RowFillCount(ctx: FillContext, row: Row)
    ensures |RowFill(ctx, row).written| <= |Without(ctx.columns, KeyColumn)|
    ensures forall c :: c in RowFill(ctx, row).written ==>
      c in ctx.columns && c != KeyColumn && RowCounted(ctx, row, c)
  {
    var cols := Without(ctx.columns, KeyColumn);
    var added := FillColumnsAdded(ctx, Fill(row, []), cols);
    assert RowFill(ctx, row).written == added;
  }

  // ------------------------------------------------------------ batch fill

  /** `c` is the primary column of one of `links` whose secondary column
      exists and holds a value. */
  ghost predicate LinkedWithValue(ctx: FillContext, links: Links, c: string) {
    exists j :: 0 <= j < |links| && links[j].0 == c && links[j].1 in ctx.t2columns &&
      FirstValue(ctx.t2rows, links[j].1).Some?
  }

  /** What makes the batch fill count a column against the original row. */
  ghost predicate BatchCounted(ctx: FillContext, orig: Row, links: Links, c: string) {
    c in ctx.columns && c != KeyColumn && c != ctx.keyCol && IsMissing(Get(orig, c)) &&
    LinkedWithValue(ctx, links, c)
  }

  ghost predicate AllBatchCounted(ctx: FillContext, orig: Row, added: seq<string>, links: Links) {
    forall k :: 0 <= k < |added| ==> BatchCounted(ctx, orig, links, added[k])
  }

  lemma BatchStepWrites(ctx: FillContext, f: Fill, links: Links) returns (step: seq<string>)
    requires links != []
    ensures BatchStep(ctx, f, links[0]).written == f.written + step && |step| <= 1
    ensures AllBatchCounted(ctx, f.row, step, links)
  {
    var f1 := BatchStep(ctx, f, links[0]);
    step := f1.written[|f.written|..];
    assert f1.written == f.written + step;
    if step != [] {
      assert LinkedWithValue(ctx, links, links[0].0) by {
        assert links[0].0 == links[0].0;
      }
    }
  }

  lemma AllBatchCountedJoin(ctx: FillContext, orig: Row, r: Row, step: seq<string>, rest: seq<string>, links: Links)
    requires links != [] && Keeps(orig, r)
    requires AllBatchCounted(ctx, orig, step, links) && AllBatchCounted(ctx, r, rest, links[1..])
    ensures AllBatchCounted(ctx, orig, step + rest, links)
  {
    forall k | |step| <= k < |step + rest| ensures BatchCounted(ctx, orig, links, (step + rest)[k]) {
      var c := rest[k - |step|];
      MissingBefore(orig, r, c);
      var j :| 0 <= j < |links[1..]| && links[1..][j].0 == c && links[1..][j].1 in ctx.t2columns &&
        FirstValue(ctx.t2rows, links[1..][j].1).Some?;
      assert links[j + 1] == links[1..][j];
    }
  }

  /** The columns a batch pass over `links` adds to the count. */
  lemma {:induction false} FillLinksAdded(ctx: FillContext, f: Fill, links: Links) returns (added: seq<string>)
    ensures FillLinks(ctx, f, links).written == f.written + added && |added| <= |links|
    ensures AllBatchCounted(ctx, f.row, added, links)
    decreases |links|
  {
    if links == [] {
      added := [];
    } else {
      var f1 := BatchStep(ctx, f, links[0]);
      var step := BatchStepWrites(ctx, f, links);
      assert Keeps(f.row, f1.row) by {
        BatchStepFrame(ctx, f, links[0]);
      }
      var rest := FillLinksAdded(ctx, f1, links[1..]);
      AllBatchCountedJoin(ctx, f.row, f1.row, step, rest, links);
      added := step + rest;
      assert FillLinks(ctx, f, links) == FillLinks(ctx, f1, links[1..]);
      Append3(f.written, step, rest);
    }
  }

  /** The batch fill never changes a cell that was not missing, and never
      writes `_KEY_`, nor the key column unless that is a derived column. */
  lemma BatchRowFrame(ctx: FillContext, t2all: seq<Row>, row: Row)
    ensures forall c :: !IsMissing(Get(row, c)) ==> Get(BatchRow(ctx, t2all, row).row, c) == Get(row, c)
    ensures Get(BatchRow(ctx, t2all, row).row, KeyColumn) == Get(row, KeyColumn)
    ensures !IsDerived(ctx.keyCol) ==> Get(BatchRow(ctx, t2all, row).row, ctx.keyCol) == Get(row, ctx.keyCol)
  {
    var key := RowKey(row);
    if key != [] && GroupRows(t2all, key) != [] {
      var c := ctx.(t2rows := GroupRows(t2all, key));
      FillLinksFrame(c, Fill(row, []), c.links);
      ExtrasFrame(c, FillLinks(c, Fill(row, []), c.links).row);
    }
  }

  /** The batch counter counts only linked columns of rows that have a key
      and a match: every counted column comes from a link whose secondary
      column exists and has a value, names a column of the primary table
      other than `_KEY_` and the key column, and was missing. */
  lemma BatchRowCount(ctx: FillContext, t2all: seq<Row>, row: Row)
    ensures |BatchRow(ctx, t2all, row).written| <= |ctx.links|
    ensures BatchRow(ctx, t2all, row).written != [] ==> RowKey(row) != [] && GroupRows(t2all, RowKey(row)) != []
    ensures forall c :: c in BatchRow(ctx, t2all, row).written ==>
      BatchCounted(ctx.(t2rows := GroupRows(t2all, RowKey(row))), row, ctx.links, c)
  {
    var key := RowKey(row);
    if key != [] && GroupRows(t2all, key) != [] {
      var cx := ctx.(t2rows := GroupRows(t2all, key));
      var added := FillLinksAdded(cx, Fill(row, []), cx.links);
      assert BatchRow(ctx, t2all, row).written == added;
    }
  }

  // ------------------------------------------------------------ row vs batch

  /** No column name is both a street and a phone label, and street columns
      are not house columns (the label sets differ in length). */
  lemma LabelsDisjoint(col: string)
    ensures IsStreetLabel(col) ==> !IsPhoneLabel(col) && col !in HouseColumns
  {
    assert |Lower(col)| == |col|;
  }

  /** For one linked column the row step and the batch step agree: the
      different order of phone normalisation and street split does not
      matter, since no column gets both. */
  lemma StepsAgree(ctx: FillContext, f: Fill, col: string, t2: string)
    requires col in ctx.columns && col != KeyColumn && t2 != []
    requires LinkOf(ctx.links, col) == Some(t2)
    ensures RowStep(ctx, f, col) == BatchStep(ctx, f, (col, t2))
  {
    LabelsDisjoint(col);
    if col != ctx.keyCol && t2 in ctx.t2columns && IsMissing(Get(f.row, col)) && FirstValue(ctx.t2rows, t2).Some? {
      var v := FirstValue(ctx.t2rows, t2).value;
      if SplitsStreet(ctx.cuts) && IsStreetLabel(col) {
        var parts := SplitStreetHouse(Some(v));
        Overwrite(f.row, col, Some(v), Some(parts.0));
        HouseFillCommutes(f.row, ctx.columns, parts.1, HouseColumns, col, Some(parts.0));
      } else {
        HouseFillFrame(f.row, ctx.columns, [], HouseColumns);
      }
    }
  }

  // ------------------------------------------------------------ re-running

  /** A secondary phone value without digits or `+` normalises to "", which
      is missing. */
  lemma PhoneWithoutDigits(v: string)
    requires v != [] && Stripped(v) && v[0] != '+' && Digits(v) == []
    ensures NormalizePhone(Some(v)) == [] && IsMissing(Some([]))
  {
    StripOfStripped(v);
    assert Lower([]) == [];
  }

  /** The batch fill is not idempotent: a linked phone column whose first
      secondary value has no digits is written with "" and counted, and a
      second run writes and counts it again. */
  lemma EmptyPhoneIsRefilled(ctx: FillContext, f: Fill, link: (string, string))
    requires NormalizesPhone(ctx.cuts) && IsPhoneLabel(link.0)
    requires |BatchStep(ctx, f, link).written| == |f.written| + 1
    requires FirstValue(ctx.t2rows, link.1).Some?
    requires var v := FirstValue(ctx.t2rows, link.1).value; Digits(v) == [] && (v == [] || v[0] != '+')
    ensures Get(BatchStep(ctx, f, link).row, link.0) == Some([])
    ensures |BatchStep(ctx, BatchStep(ctx, f, link), link).written| == |f.written| + 2
  {
    LabelsDisjoint(link.0);
    var i := FirstValueIsFirst(ctx.t2rows, link.1);
    FirstValueNotMissing(ctx.t2rows, link.1);
    PhoneWithoutDigits(FirstValue(ctx.t2rows, link.1).value);
  }
}
