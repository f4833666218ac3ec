/**
 * The non-widget logic of app/ui/main_window.py: the review session (the
 * loaded tables, the scan queue and its cursor, the link and cut settings)
 * and the auto-fill runs that write the primary table in place. Each
 * in-place run is proved to leave the table exactly as the `FillPolicy`
 * functions say, so their properties carry over.
 */
module MainWindow {
  import opened Wrappers
  import opened Text
  import opened Normalize
  import opened Transforms
  import opened Tables
  import opened Matcher
  import opened FillPolicy

  // ------------------------------------------------------------ in-place steps

  /** The scan over the matched secondary rows for `chosen`: the stripped
      first non-missing value of `col`; an empty stripped value would let
      the scan go on. */
  method ChooseValue(rows: seq<Row>, col: string) returns (chosen: Option<string>)
    ensures chosen == FirstValue(rows, col)
  {
    var text: string := [];
    var i := 0;
    while i < |rows| && text == []
      invariant 0 <= i <= |rows|
      invariant text == [] ==> FirstValue(rows, col) == FirstValue(rows[i..], col)
      invariant text != [] ==> FirstValue(rows, col) == Some(text)
    {
      var v := Get(rows[i], col);
      assert rows[i..][0] == rows[i] && rows[i..][1..] == rows[i + 1..];
      if !IsMissing(v) {
        NotMissingHasText(v);
        text := Strip(v.value);
      }
      i := i + 1;
    }
    chosen := if text == [] then None else Some(text);
  }

  /** The house part goes into each house column of the table that is still
      missing in row `r`. */
  method WriteHouse(df: DataFrame, r: nat, house: string)
    requires df.Valid() && r < |df.rows|
    modifies df
    ensures df.Valid() && df.columns == old(df.columns)
    ensures df.rows == old(df.rows)[r := HouseFill(old(df.rows[r]), df.columns, house, HouseColumns)]
  {
    ghost var rows0 := df.rows;
    var j := 0;
    while j < |HouseColumns|
      invariant 0 <= j <= |HouseColumns|
      invariant df.Valid() && df.columns == old(df.columns)
      invariant df.rows == rows0[r := HouseFill(rows0[r], df.columns, house, HouseColumns[..j])]
    {
      var cand := HouseColumns[j];
      assert HouseColumns[..j + 1][..j] == HouseColumns[..j];
      if cand in df.columns && IsMissing(df.At(r, cand)) && house != [] {
        df.SetCell(r, cand, Some(house));
      }
      j := j + 1;
    }
    assert HouseColumns[..j] == HouseColumns;
  }

  /** One column of the row fill, written into row `r` in place. */
  method RowStepInPlace(df: DataFrame, r: nat, ctx: FillContext, col: string, ghost f: Fill)
      returns (wrote: bool)
    requires df.Valid() && r < |df.rows| && ctx.columns == df.columns && col in df.columns
    requires df.rows[r] == f.row
    modifies df
    ensures df.Valid() && df.columns == old(df.columns) && |df.rows| == |old(df.rows)|
    ensures df.rows == old(df.rows)[r := df.rows[r]]
    ensures RowStep(ctx, f, col) == Fill(df.rows[r], if wrote then f.written + [col] else f.written)
  {
    wrote := false;
    if col == ctx.keyCol || !IsMissing(df.At(r, col)) {
      return;
    }
    var t2 := LinkOf(ctx.links, col);
    if t2.None? || t2.value == [] || t2.value !in ctx.t2columns {
      return;
    }
    var chosen := ChooseValue(ctx.t2rows, t2.value);
    if chosen.None? {
      return;
    }
    ghost var house := if SplitsStreet(ctx.cuts) && IsStreetLabel(col) then SplitStreetHouse(Some(chosen.value)).1 else [];
    RowStepFires(ctx, f, col, t2.value, chosen.value, house);
    LinkedWriteInPlace(df, r, ctx, col, chosen.value);
    wrote := true;
  }

  /** The writes of one row-fill step into row `r`: the house part of a split
      street first, then the linked value. */
  method LinkedWriteInPlace(df: DataFrame, r: nat, ctx: FillContext, col: string, v: string)
    requires df.Valid() && r < |df.rows| && ctx.columns == df.columns && col in df.columns
    modifies df
    ensures df.Valid() && df.columns == old(df.columns)
    ensures var house := if SplitsStreet(ctx.cuts) && IsStreetLabel(col) then SplitStreetHouse(Some(v)).1 else [];
      df.rows == old(df.rows)[r := HouseFill(old(df.rows[r]), ctx.columns, house, HouseColumns)[col := Some(LinkedValue(ctx.cuts, col, v))]]
  {
    var v1 := v;
    if SplitsStreet(ctx.cuts) && IsStreetLabel(col) {
      var parts := SplitStreetHouse(Some(v));
      v1 := parts.0;
      WriteHouse(df, r, parts.1);
    } else {
      HouseFillFrame(df.rows[r], ctx.columns, [], HouseColumns);
    }
    if NormalizesPhone(ctx.cuts) && IsPhoneLabel(col) {
      v1 := NormalizePhone(Some(v1));
    }
    df.SetCell(r, col, Some(v1));
  }

  /** One link of the batch fill, written into row `r` in place: the value
      is written and counted first, then split. */
  method BatchStepInPlace(df: DataFrame, r: nat, ctx: FillContext, link: (string, string), ghost f: Fill)
      returns (wrote: bool)
    requires df.Valid() && r < |df.rows| && ctx.columns == df.columns
    requires df.rows[r] == f.row
    modifies df
    ensures df.Valid() && df.columns == old(df.columns) && |df.rows| == |old(df.rows)|
    ensures df.rows == old(df.rows)[r := df.rows[r]]
    ensures BatchStep(ctx, f, link) == Fill(df.rows[r], if wrote then f.written + [link.0] else f.written)
  {
    var col, t2 := link.0, link.1;
    wrote := false;
    if col == KeyColumn || col == ctx.keyCol {
      return;
    }
    if col !in df.columns || t2 !in ctx.t2columns {
      return;
    }
    if !IsMissing(df.At(r, col)) {
      return;
    }
    var chosen := ChooseValue(ctx.t2rows, t2);
    if chosen.None? {
      return;
    }
    BatchWriteInPlace(df, r, ctx, col, chosen.value);
    wrote := true;
  }

  /** The writes of one batch step into row `r`: the value, phone-normalised,
      then the street split over it. */
  method BatchWriteInPlace(df: DataFrame, r: nat, ctx: FillContext, col: string, v: string)
    requires df.Valid() && r < |df.rows| && ctx.columns == df.columns && col in df.columns
    modifies df
    ensures df.Valid() && df.columns == old(df.columns)
    ensures df.rows == old(df.rows)[r := BatchWrite(ctx, old(df.rows[r]), col, v)]
  {
    var v1 := v;
    if NormalizesPhone(ctx.cuts) && IsPhoneLabel(col) {
      v1 := NormalizePhone(Some(v));
    }
    df.SetCell(r, col, Some(v1));
    if SplitsStreet(ctx.cuts) && IsStreetLabel(col) {
      var parts := SplitStreetHouse(Some(v1));
      df.SetCell(r, col, Some(parts.0));
      WriteHouse(df, r, parts.1);
    }
  }

  method CountryInPlace(df: DataFrame, r: nat, ctx: FillContext)
    requires df.Valid() && r < |df.rows| && ctx.columns == df.columns
    modifies df
    ensures df.Valid() && df.columns == old(df.columns)
    ensures df.rows == old(df.rows)[r := CountryStep(ctx, old(df.rows[r]))]
  {
    if FillsCountry(ctx.cuts) && CountryColumn in df.columns && IsMissing(df.At(r, CountryColumn)) {
      df.SetCell(r, CountryColumn, Some(ctx.countryDefault));
    } else {
      assert df.rows == df.rows[r := df.rows[r]];
    }
  }

  /** The cell of the first postcode column the table has. */
  method ZipAt(df: DataFrame, r: nat) returns (z: Cell)
    requires r < |df.rows|
    ensures z == ZipOf(df.rows[r], df.columns, ZipColumns)
  {
    z := None;
    var j := 0;
    while j < |ZipColumns|
      invariant 0 <= j <= |ZipColumns|
      invariant ZipOf(df.rows[r], df.columns, ZipColumns) == ZipOf(df.rows[r], df.columns, ZipColumns[j..])
    {
      assert ZipColumns[j..][0] == ZipColumns[j] && ZipColumns[j..][1..] == ZipColumns[j + 1..];
      if ZipColumns[j] in df.columns {
        z := df.At(r, ZipColumns[j]);
        return;
      }
      j := j + 1;
    }
  }

  method StateInPlace(df: DataFrame, r: nat, ctx: FillContext)
    requires df.Valid() && r < |df.rows| && ctx.columns == df.columns
    modifies df
    ensures df.Valid() && df.columns == old(df.columns)
    ensures df.rows == old(df.rows)[r := StateStep(ctx, old(df.rows[r]))]
  {
    if InfersState(ctx.cuts) && StateColumn in df.columns && IsMissing(df.At(r, StateColumn)) {
      var z := ZipAt(df, r);
      var st := if z.Some? && z.value != [] then StateFromZipDe(z, ctx.geo) else None;
      if st.Some? && st.value != [] {
        df.SetCell(r, StateColumn, Some(st.value));
        return;
      }
    }
    assert df.rows == df.rows[r := df.rows[r]];
  }

  /** The loop of `autofill_current_key_linked` over the display columns of
      row `r`. */
  method FillColumnsInPlace(df: DataFrame, r: nat, ctx: FillContext, cols: seq<string>) returns (filled: nat)
    requires df.Valid() && r < |df.rows| && ctx.columns == df.columns
    requires forall c :: c in cols ==> c in df.columns
    modifies df
    ensures df.Valid() && df.columns == old(df.columns) && |df.rows| == |old(df.rows)|
    ensures df.rows == old(df.rows)[r := FillColumns(ctx, Fill(old(df.rows[r]), []), cols).row]
    ensures filled == |FillColumns(ctx, Fill(old(df.rows[r]), []), cols).written|
  {
    ghost var rows0 := df.rows;
    ghost var f := Fill(rows0[r], []);
    filled := 0;
    var rest := cols;
    while rest != []
      invariant df.Valid() && df.columns == ctx.columns && df.rows == rows0[r := f.row]
      invariant forall c :: c in rest ==> c in df.columns
      invariant FillColumns(ctx, f, rest) == FillColumns(ctx, Fill(rows0[r], []), cols)
      invariant filled == |f.written|
      decreases |rest|
    {
      var wrote := RowStepInPlace(df, r, ctx, rest[0], f);
      f := RowStep(ctx, f, rest[0]);
      if wrote {
        filled := filled + 1;
      }
      rest := rest[1..];
    }
  }

  /** The body of `autofill_current_key_linked` on row `r`: every display
      column in order, then the country and state defaults. */
  method RowFillInPlace(df: DataFrame, r: nat, ctx: FillContext) returns (filled: nat)
    requires df.Valid() && r < |df.rows| && ctx.columns == df.columns
    modifies df
    ensures df.Valid() && df.columns == old(df.columns) && |df.rows| == |old(df.rows)|
    ensures df.rows == old(df.rows)[r := RowFill(ctx, old(df.rows[r])).row]
    ensures filled == |RowFill(ctx, old(df.rows[r])).written|
  {
    filled := FillColumnsInPlace(df, r, ctx, Without(df.columns, KeyColumn));
    CountryInPlace(df, r, ctx);
    StateInPlace(df, r, ctx);
  }

  /** The loop of `autofill_all_linked` over the links, on row `r`. */
  method FillLinksInPlace(df: DataFrame, r: nat, ctx: FillContext) returns (filled: nat)
    requires df.Valid() && r < |df.rows| && ctx.columns == df.columns
    modifies df
    ensures df.Valid() && df.columns == old(df.columns) && |df.rows| == |old(df.rows)|
    ensures df.rows == old(df.rows)[r := FillLinks(ctx, Fill(old(df.rows[r]), []), ctx.links).row]
    ensures filled == |FillLinks(ctx, Fill(old(df.rows[r]), []), ctx.links).written|
  {
    ghost var rows0 := df.rows;
    ghost var f := Fill(rows0[r], []);
    filled := 0;
    var rest := ctx.links;
    while rest != []
      invariant df.Valid() && df.columns == ctx.columns && df.rows == rows0[r := f.row]
      invariant FillLinks(ctx, f, rest) == FillLinks(ctx, Fill(rows0[r], []), ctx.links)
      invariant filled == |f.written|
      decreases |rest|
    {
      var wrote := BatchStepInPlace(df, r, ctx, rest[0], f);
      f := BatchStep(ctx, f, rest[0]);
      if wrote {
        filled := filled + 1;
      }
      rest := rest[1..];
    }
  }

  /** The batch fill of row `r`: every link in order, then the country and
      state defaults. */
  method BatchRowInPlace(df: DataFrame, r: nat, ctx: FillContext) returns (filled: nat)
    requires df.Valid() && r < |df.rows| && ctx.columns == df.columns
    modifies df
    ensures df.Valid() && df.columns == old(df.columns) && |df.rows| == |old(df.rows)|
    ensures df.rows == old(df.rows)[r := BatchRowFill(ctx, old(df.rows[r])).row]
    ensures filled == |BatchRowFill(ctx, old(df.rows[r])).written|
  {
    filled := FillLinksInPlace(df, r, ctx);
    CountryInPlace(df, r, ctx);
    StateInPlace(df, r, ctx);
  }

  /** One iteration of the outer loop of `autofill_all_linked`: a row with a
      key and a match is filled from its own group of secondary rows. */
  method BatchRowAt(df: DataFrame, r: nat, t2all: seq<Row>, ctx: FillContext) returns (filled: nat)
    requires df.Valid() && r < |df.rows| && ctx.columns == df.columns
    modifies df
    ensures df.Valid() && df.columns == old(df.columns) && |df.rows| == |old(df.rows)|
    ensures df.rows == old(df.rows)[r := BatchRow(ctx, t2all, old(df.rows[r])).row]
    ensures filled == |BatchRow(ctx, t2all, old(df.rows[r])).written|
  {
    var key := RowKey(df.rows[r]);
    filled := 0;
    if key != [] {
      var group := GroupRows(t2all, key);
      if group != [] {
        filled := BatchRowInPlace(df, r, ctx.(t2rows := group));
        return;
      }
    }
    assert df.rows == df.rows[r := df.rows[r]];
  }

  /** The outer loop of `autofill_all_linked`: every primary row with a key
      and a match is filled from its own group of secondary rows. */
  method FillAllInPlace(df: DataFrame, t2all: seq<Row>, ctx: FillContext) returns (total: nat)
    requires df.Valid() && ctx.columns == df.columns
    modifies df
    ensures df.Valid() && df.columns == old(df.columns) && |df.rows| == |old(df.rows)|
    ensures forall j :: 0 <= j < |df.rows| ==> df.rows[j] == BatchRow(ctx, t2all, old(df.rows[j])).row
    ensures total == BatchTotal(ctx, t2all, old(df.rows))
  {
    ghost var rows0 := df.rows;
    total := 0;
    var idx := 0;
    while idx < |df.rows|
      invariant 0 <= idx <= |rows0| == |df.rows|
      invariant df.Valid() && df.columns == ctx.columns
      invariant forall j :: 0 <= j < idx ==> df.rows[j] == BatchRow(ctx, t2all, rows0[j]).row
      invariant forall j :: idx <= j < |rows0| ==> df.rows[j] == rows0[j]
      invariant total == BatchTotal(ctx, t2all, rows0[..idx])
    {
      var filled := BatchRowAt(df, idx, t2all, ctx);
      total := total + filled;
      BatchTotalStep(ctx, t2all, rows0, idx);
      idx := idx + 1;
    }
    assert rows0[..idx] == rows0;
  }

  // ------------------------------------------------------------ the session

  /** The columns `start_scan` checks for gaps: all but `_KEY_` and the key
      column. */
  function ScanColumns(columns: seq<string>, keyCol: string): (r: seq<string>)
    ensures forall c :: c in r <==> c in columns && c != KeyColumn && c != keyCol
  {
    Without(Without(columns, KeyColumn), keyCol)
  }

  lemma KeysKept(rows: seq<Row>, rows2: seq<Row>)
    requires AllKeyed(rows) && |rows2| == |rows|
    requires forall j :: 0 <= j < |rows| ==> Get(rows2[j], KeyColumn) == Get(rows[j], KeyColumn)
    ensures AllKeyed(rows2)
  {
  }

  /** The engine `start_scan` builds, with leading zeros kept; the tables
      only gain `_KEY_`. */
  method NewEngine(df1: DataFrame, key1: string, df2: DataFrame, key2: string) returns (e: MatchEngine)
    requires df1 != df2 && df1.Valid() && df2.Valid() && key1 in df1.columns && key2 in df2.columns
    modifies df1, df2
    ensures fresh(e) && e.Valid() && e.df1 == df1 && e.df2 == df2 && e.keepZeros
    ensures forall c :: c in old(df1.columns) ==> c in df1.columns
    ensures forall c :: c in old(df2.columns) ==> c in df2.columns
  {
    e := new MatchEngine(df1, key1, df2, key2, true);
  }

  /** `df[name] = value` for a new column other than `_KEY_`: every row gets
      the value, and the `_KEY_` cells stay as they are. */
  method AppendColumn(df: DataFrame, name: string, value: string)
    requires df.Valid() && name !in df.columns && name != KeyColumn
    modifies df
    ensures df.Valid() && df.columns == old(df.columns) + [name] && |df.rows| == |old(df.rows)|
    ensures forall i :: 0 <= i < |df.rows| ==> df.rows[i] == old(df.rows[i])[name := Some(value)]
    ensures AllKeyed(old(df.rows)) ==> AllKeyed(df.rows)
  {
    df.SetColumn(name, seq(|df.rows|, _ => Some(value)));
  }

  datatype RowFillResult = Skipped | NoMatch | Filled(count: nat)
  datatype BatchResult = NotStarted | NoLinks | FilledAll(total: nat)
  datatype AddResult = NoTable | Cancelled | EmptyName | Reserved | Exists | Added

  /** The window's state: the two tables, the engine built by the scan, the
      queue of keys with gaps and the cursor into it, the column links and
      the cuts. */
  class Session {
    var t1: DataFrame?
    var t2: DataFrame?
    var t1Key: string
    var t2Key: string
    var engine: MatchEngine?
    var keysQueue: seq<string>
    var currentPos: int
    var currentKey: Option<string>
    var colLinks: Links
    var cuts: CutFlags
    var countryDefault: string
    var t1ColsTop: seq<string>
    var t1ColsBottom: seq<string>

    /** Everything `Valid` asks but that the current key is the one under
        the cursor. */
    ghost predicate ValidExceptCursor()
      reads this, t1, t2, engine
    {
      (t1 != null ==> t1.Valid() && t1Key in t1.columns) &&
      (t2 != null ==> t2.Valid() && t2Key in t2.columns) &&
      (t1 != null && t2 != null ==> t1 != t2) &&
      (engine != null ==> t1 != null && t2 != null && engine.df1 == t1 && engine.df2 == t2 && engine.Valid()) &&
      -1 <= currentPos < |keysQueue| &&
      (keysQueue != [] || currentKey.Some? ==> engine != null) &&
      (t1ColsTop + t1ColsBottom != [] ==> t1 != null) &&
      (t1 != null ==> forall c :: c in t1ColsTop + t1ColsBottom ==> c in t1.columns && c != KeyColumn)
    }

    ghost predicate Valid()
      reads this, t1, t2, engine
    {
      ValidExceptCursor() && (currentPos >= 0 ==> currentKey == Some(keysQueue[currentPos]))
    }

    /** A window with its tables (either may be absent) and its saved
        settings, before any scan. */
    constructor(t1: DataFrame?, t1Key: string, t2: DataFrame?, t2Key: string,
                colLinks: Links, cuts: CutFlags, countryDefault: string)
      requires t1 != null ==> t1.Valid() && t1Key in t1.columns
      requires t2 != null ==> t2.Valid() && t2Key in t2.columns
      requires t1 != null && t2 != null ==> t1 != t2
      ensures Valid()
      ensures this.t1 == t1 && this.t2 == t2 && this.t1Key == t1Key && this.t2Key == t2Key
      ensures this.colLinks == colLinks && this.cuts == cuts && this.countryDefault == countryDefault
      ensures engine == null && keysQueue == [] && currentPos == -1 && currentKey == None
      ensures t1ColsTop == [] && t1ColsBottom == []
    {
      this.t1 := t1;
      this.t2 := t2;
      this.t1Key := t1Key;
      this.t2Key := t2Key;
      this.colLinks := colLinks;
      this.cuts := cuts;
      this.countryDefault := countryDefault;
      engine := null;
      keysQueue := [];
      currentPos := -1;
      currentKey := None;
      t1ColsTop := [];
      t1ColsBottom := [];
    }

    /** What the fills of this session depend on, for the secondary rows
        `matched`. */
    function Context(matched: seq<Row>, geo: Geocoder): FillContext
      reads this, t1, t2
      requires t1 != null && t2 != null
    {
      FillContext(t1.columns, t1Key, colLinks, matched, t2.columns, cuts, countryDefault, geo)
    }

    /** `show_key`: makes `key` current and splits the shown primary columns
        between the two views. */
    method ShowKey(key: string)
      requires ValidExceptCursor() && engine != null
      requires currentPos >= 0 ==> key == keysQueue[currentPos]
      modifies this
      ensures Valid() && currentKey == Some(key)
      ensures t1ColsTop + t1ColsBottom == Without(t1.columns, KeyColumn)
      ensures |t1ColsTop| <= ViewWidth && (t1ColsBottom != [] ==> |t1ColsTop| == ViewWidth)
      ensures t1 == old(t1) && t2 == old(t2) && engine == old(engine) && keysQueue == old(keysQueue)
      ensures currentPos == old(currentPos) && colLinks == old(colLinks) && cuts == old(cuts)
      ensures t1Key == old(t1Key) && countryDefault == old(countryDefault)
    {
      currentKey := Some(key);
      var split := SplitView(Without(engine.df1.columns, KeyColumn));
      t1ColsTop := split.0;
      t1ColsBottom := split.1;
    }

    /** `next_key`: reports the end when the queue is empty, else moves one
        step forward unless already at the last key. */
    method NextKey() returns (finished: bool)
      requires Valid()
      modifies this
      ensures Valid()
      ensures finished <==> keysQueue == []
      ensures currentPos == if old(currentPos) < |keysQueue| - 1 then old(currentPos) + 1 else old(currentPos)
      ensures currentPos != old(currentPos) ==> t1ColsTop + t1ColsBottom == Without(t1.columns, KeyColumn)
      ensures currentPos == old(currentPos) ==> currentKey == old(currentKey)
      ensures t1 == old(t1) && t2 == old(t2) && engine == old(engine) && keysQueue == old(keysQueue)
      ensures colLinks == old(colLinks) && cuts == old(cuts) && t1Key == old(t1Key)
      ensures countryDefault == old(countryDefault)
    {
      if keysQueue == [] {
        return true;
      }
      finished := false;
      if currentPos < |keysQueue| - 1 {
        currentPos := currentPos + 1;
        ShowKey(keysQueue[currentPos]);
      }
    }

    /** `prev_key`: moves one step back unless at the first key or before it. */
    method PrevKey()
      requires Valid()
      modifies this
      ensures Valid()
      ensures currentPos == if old(currentPos) > 0 then old(currentPos) - 1 else old(currentPos)
      ensures currentPos != old(currentPos) ==> t1ColsTop + t1ColsBottom == Without(t1.columns, KeyColumn)
      ensures currentPos == old(currentPos) ==> currentKey == old(currentKey)
      ensures t1 == old(t1) && t2 == old(t2) && engine == old(engine) && keysQueue == old(keysQueue)
      ensures colLinks == old(colLinks) && cuts == old(cuts) && t1Key == old(t1Key)
      ensures countryDefault == old(countryDefault)
    {
      if keysQueue == [] {
        return;
      }
      if currentPos > 0 {
        currentPos := currentPos - 1;
        ShowKey(keysQueue[currentPos]);
      }
    }

    /** The first half of `start_scan`: builds the engine, which adds
        `_KEY_` to both tables, queues the keys of the rows with a gap in a
        checked column and resets the cursor. */
    method Scan()
      requires ValidExceptCursor() && t1 != null && t2 != null
      modifies this, t1, t2
      ensures ValidExceptCursor() && engine != null && fresh(engine)
      ensures t1 == old(t1) && t2 == old(t2) && t1Key == old(t1Key) && currentKey == old(currentKey)
      ensures colLinks == old(colLinks) && cuts == old(cuts) && countryDefault == old(countryDefault)
      ensures keysQueue == MissingKeys(t1.rows, t1.columns, ScanColumns(t1.columns, t1Key))
      ensures currentPos == -1
    {
      var e := NewEngine(t1, t1Key, t2, t2Key);
      var keys := e.KeysWithMissing(ScanColumns(e.df1.columns, t1Key));
      engine, keysQueue, currentPos := e, keys, -1;
    }

    /** `start_scan`: refuses without both tables; otherwise scans and moves
        to the first queued key. */
    method StartScan() returns (started: bool)
      requires Valid()
      modifies this, t1, t2
      ensures Valid()
      ensures t1 == old(t1) && t2 == old(t2) && t1Key == old(t1Key)
      ensures colLinks == old(colLinks) && cuts == old(cuts) && countryDefault == old(countryDefault)
      ensures started <==> old(t1 != null && t2 != null)
      ensures !started ==> keysQueue == old(keysQueue) && currentPos == old(currentPos) && currentKey == old(currentKey)
      ensures started ==> engine != null && fresh(engine)
      ensures started ==> keysQueue == MissingKeys(t1.rows, t1.columns, ScanColumns(t1.columns, t1Key))
      ensures started ==> currentPos == (if keysQueue == [] then -1 else 0)
      ensures started && keysQueue != [] ==> currentKey == Some(keysQueue[0])
    {
      if t1 == null || t2 == null {
        return false;
      }
      started := true;
      Scan();
      var _ := NextKey();
    }

    /** `on_t1_item_changed_any` and `on_t1_cell_dropped`: the text of a cell
        of the shown primary row goes into the table. */
    method EditShownCell(top: bool, column: nat, text: string)
      requires Valid() && column < |if top then t1ColsTop else t1ColsBottom|
      modifies t1
      ensures Valid()
      ensures old(engine != null && currentKey.Some? && FirstRowWithKey(t1.rows, currentKey.value).Some?) ==>
        var idx := FirstRowWithKey(old(t1.rows), currentKey.value).value;
        var col := if top then t1ColsTop[column] else t1ColsBottom[column];
        t1.rows == old(t1.rows)[idx := old(t1.rows[idx])[col := Some(text)]]
      ensures !old(engine != null && currentKey.Some? && FirstRowWithKey(t1.rows, currentKey.value).Some?) ==>
        t1 == null || t1.rows == old(t1.rows)
      ensures t1 == null || t1.columns == old(t1.columns)
    {
      if engine == null || currentKey.None? {
        return;
      }
      var idx := FirstRowWithKey(engine.df1.rows, currentKey.value);
      if idx.None? {
        return;
      }
      var col := if top then t1ColsTop[column] else t1ColsBottom[column];
      assert col in t1ColsTop + t1ColsBottom;
      ghost var rows0 := t1.rows;
      engine.df1.SetCell(idx.value, col, Some(text));
      KeysKept(rows0, t1.rows);
    }
  
    /** `autofill_current_key_linked`: fills the primary row of the current
        key from its matched secondary rows, counting the linked columns
        written, then shows the key again. */
    method AutofillCurrentKeyLinked(geo: Geocoder) returns (result: RowFillResult)
      requires Valid()
      modifies this, t1
      ensures Valid()
      ensures t1 == old(t1) && t2 == old(t2) && engine == old(engine) && keysQueue == old(keysQueue)
      ensures currentPos == old(currentPos) && currentKey == old(currentKey) && t1Key == old(t1Key)
      ensures colLinks == old(colLinks) && cuts == old(cuts) && countryDefault == old(countryDefault)
      ensures result.Skipped? <==>
        old(engine == null || currentKey.None? || FirstRowWithKey(t1.rows, currentKey.value).None?)
      ensures result.NoMatch? <==> old(engine != null && currentKey.Some? &&
        FirstRowWithKey(t1.rows, currentKey.value).Some? && GroupRows(t2.rows, currentKey.value) == [])
      ensures !result.Filled? ==> t1 == null || t1.rows == old(t1.rows)
      ensures result.Filled? ==> (old(engine != null && currentKey.Some?) &&
        var key := currentKey.value;
        var idx := old(FirstRowWithKey(t1.rows, key)).value;
        var fill := old(RowFill(Context(GroupRows(t2.rows, key), geo), t1.rows[idx]));
        t1.rows == old(t1.rows)[idx := fill.row] && result.count == |fill.written|)
    {
      if engine == null || currentKey.None? {
        return Skipped;
      }
      var key := currentKey.value;
      var idx := engine.T1RowIndexForKey(key);
      if idx.None? {
        return Skipped;
      }
      var matched := engine.T2RowsForKey(key);
      if matched == [] {
        return NoMatch;
      }
      var ctx := Context(matched, geo);
      ghost var rows0 := t1.rows;
      var filled := RowFillInPlace(engine.df1, idx.value, ctx);
      RowFillKeepsKeys(ctx, rows0[idx.value]);
      KeysKept(rows0, t1.rows);
      ShowKey(key);
      result := Filled(filled);
    }

    /** `autofill_all_linked`: refuses without a scan or without links;
        otherwise fills every primary row from its own matched secondary
        rows and counts the linked columns written. */
    method AutofillAllLinked(geo: Geocoder) returns (result: BatchResult)
      requires Valid()
      modifies this, t1
      ensures Valid()
      ensures t1 == old(t1) && t2 == old(t2) && engine == old(engine) && keysQueue == old(keysQueue)
      ensures currentPos == old(currentPos) && currentKey == old(currentKey) && t1Key == old(t1Key)
      ensures colLinks == old(colLinks) && cuts == old(cuts) && countryDefault == old(countryDefault)
      ensures result.NotStarted? <==> old(engine == null)
      ensures result.NoLinks? <==> old(engine != null) && colLinks == []
      ensures !result.FilledAll? ==> t1 == null || t1.rows == old(t1.rows)
      ensures result.FilledAll? ==> (old(engine != null) && |t1.rows| == |old(t1.rows)| &&
        (forall j :: 0 <= j < |t1.rows| ==>
          t1.rows[j] == old(BatchRow(Context([], geo), t2.rows, t1.rows[j])).row) &&
        result.total == old(BatchTotal(Context([], geo), t2.rows, t1.rows)))
    {
      if engine == null {
        return NotStarted;
      }
      if colLinks == [] {
        return NoLinks;
      }
      ghost var rows0 := t1.rows;
      var ctx := Context([], geo);
      var total := FillAllInPlace(engine.df1, engine.df2.rows, ctx);
      forall j | 0 <= j < |rows0| ensures Get(t1.rows[j], KeyColumn) == Get(rows0[j], KeyColumn) {
        BatchRowFrame(ctx, t2.rows, rows0[j]);
      }
      KeysKept(rows0, t1.rows);
      if currentKey.Some? {
        ShowKey(currentKey.value);
      }
      result := FilledAll(total);
    }

    /** `add_column_t1_global`: asks for a name (trimmed; empty, `_KEY_` and
        existing names are refused) and a default, then appends the column
        holding the default in every row. `None` stands for a cancelled
        dialog. */
    method AddColumnGlobal(nameInput: Option<string>, defaultInput: Option<string>) returns (result: AddResult)
      requires Valid()
      modifies this, t1
      ensures Valid()
      ensures t1 == old(t1) && t2 == old(t2) && engine == old(engine) && keysQueue == old(keysQueue)
      ensures currentPos == old(currentPos) && currentKey == old(currentKey) && t1Key == old(t1Key)
      ensures colLinks == old(colLinks) && cuts == old(cuts) && countryDefault == old(countryDefault)
      ensures result == NoTable <==> old(engine == null)
      ensures old(engine != null) && nameInput.None? ==> result == Cancelled
      ensures old(engine != null) && nameInput.Some? ==>
        var name := Strip(nameInput.value);
        result == (if name == [] then EmptyName else if name == KeyColumn then Reserved
                   else if name in old(t1.columns) then Exists
                   else if defaultInput.None? then Cancelled else Added)
      ensures result != Added ==> t1 == null || (t1.columns == old(t1.columns) && t1.rows == old(t1.rows))
      ensures result == Added ==> (nameInput.Some? && defaultInput.Some? &&
        t1.columns == old(t1.columns) + [Strip(nameInput.value)] && |t1.rows| == |old(t1.rows)| &&
        forall i :: 0 <= i < |t1.rows| ==>
          t1.rows[i] == old(t1.rows[i])[Strip(nameInput.value) := Some(defaultInput.value)])
    {
      if engine == null || t1 == null {
        return NoTable;
      }
      if nameInput.None? {
        return Cancelled;
      }
      var name := Strip(nameInput.value);
      if name == [] {
        return EmptyName;
      }
      if name == KeyColumn {
        return Reserved;
      }
      if name in engine.df1.columns {
        return Exists;
      }
      if defaultInput.None? {
        return Cancelled;
      }
      AppendColumn(engine.df1, name, defaultInput.value);
      if currentKey.Some? {
        ShowKey(currentKey.value);
      }
      result := Added;
    }
  }
}
