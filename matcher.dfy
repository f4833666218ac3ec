/**
 * The single-key MatchEngine of app/services/matcher.py: it writes the
 * normalised key of every row into a `_KEY_` column of both tables, lists the
 * keys of primary rows that have gaps, finds the primary row of a key and
 * groups the secondary rows by key.
 */
module Matcher {
  import opened Wrappers
  import opened Text
  import opened Normalize
  import opened Tables

  /** `row["_KEY_"]`, with an empty cell read as the empty (false) key. */
  function RowKey(row: Row): string {
    match Get(row, KeyColumn)
    case None => []
    case Some(k) => k
  }

  /** `norm_key` of a row's key cell. An empty cell is NaN, which `norm_key`
      reads as the text "nan". */
  function CellKey(row: Row, keyCol: string, keepZeros: bool): string {
    NormKey(Some(CellStr(Get(row, keyCol))), keepZeros)
  }

  /** The `_KEY_` column the constructor computes: `norm_key` of the key
      column, row by row. */
  function KeyValues(rows: seq<Row>, keyCol: string, keepZeros: bool): (r: seq<Cell>)
    ensures |r| == |rows|
  {
    seq(|rows|, i requires 0 <= i < |rows| => Some(CellKey(rows[i], keyCol, keepZeros)))
  }

  /** Every row carries a key text. */
  ghost predicate AllKeyed(rows: seq<Row>) {
    forall i :: 0 <= i < |rows| ==> Get(rows[i], KeyColumn).Some?
  }

  /** The row has a key and at least one checked column that the table has
      and that is missing in this row. */
  predicate NeedsFill(row: Row, columns: seq<string>, check: seq<string>) {
    RowKey(row) != [] && exists j :: 0 <= j < |check| && check[j] in columns && IsMissing(Get(row, check[j]))
  }

  /** `keys_with_missing`: one key per row that needs filling, in row order,
      duplicates kept. */
  function MissingKeys(rows: seq<Row>, columns: seq<string>, check: seq<string>): seq<string>
  {
    if rows == [] then []
    else
      var last := rows[|rows| - 1];
      MissingKeys(rows[..|rows| - 1], columns, check) + (if NeedsFill(last, columns, check) then [RowKey(last)] else [])
  }

  /** The first row whose `_KEY_` is `key`. */
  function FirstRowWithKey(rows: seq<Row>, key: string): (r: Option<nat>)
    ensures r.Some? ==> (r.value < |rows| && Get(rows[r.value], KeyColumn) == Some(key) &&
      forall j :: 0 <= j < r.value ==> Get(rows[j], KeyColumn) != Some(key))
    ensures r.None? ==> forall j :: 0 <= j < |rows| ==> Get(rows[j], KeyColumn) != Some(key)
  {
    if rows == [] then None
    else if Get(rows[0], KeyColumn) == Some(key) then Some(0)
    else
      match FirstRowWithKey(rows[1..], key)
      case None => None
      case Some(i) => Some(i + 1)
  }

  /** The positions of the rows whose `_KEY_` is `key`, ascending. */
  function GroupIndices(rows: seq<Row>, key: string): (g: seq<nat>)
    ensures forall i :: 0 <= i < |g| ==> g[i] < |rows|
    ensures forall i, j :: 0 <= i < j < |g| ==> g[i] < g[j]
    ensures forall i :: 0 <= i < |rows| ==> (i in g <==> Get(rows[i], KeyColumn) == Some(key))
  {
    if rows == [] then []
    else
      var n := |rows| - 1;
      var g := GroupIndices(rows[..n], key);
      assert forall i :: 0 <= i < n ==> rows[..n][i] == rows[i];
      g + (if Get(rows[n], KeyColumn) == Some(key) then [n] else [])
  }

  /** The rows of one group, in table order. */
  function GroupRows(rows: seq<Row>, key: string): (r: seq<Row>)
    ensures |r| == |GroupIndices(rows, key)|
  {
    var g := GroupIndices(rows, key);
    seq(|g|, i requires 0 <= i < |g| => rows[g[i]])
  }

  class MatchEngine {
    var df1: DataFrame
    var df2: DataFrame
    var key1: string
    var key2: string
    var keepZeros: bool

    ghost predicate Valid()
      reads this, df1, df2
    {
      df1 != df2 && df1.Valid() && df2.Valid() &&
      KeyColumn in df1.columns && KeyColumn in df2.columns &&
      AllKeyed(df1.rows) && AllKeyed(df2.rows)
    }

    /** Adds `_KEY_` to both tables in place; nothing else in them changes. */
    constructor(df1: DataFrame, key1: string, df2: DataFrame, key2: string, keepZeros: bool)
      requires df1 != df2 && df1.Valid() && df2.Valid()
      requires key1 in df1.columns && key2 in df2.columns
      modifies df1, df2
      ensures Valid()
      ensures this.df1 == df1 && this.df2 == df2 && this.key1 == key1 && this.key2 == key2
      ensures this.keepZeros == keepZeros
      ensures df1.columns == (if KeyColumn in old(df1.columns) then old(df1.columns) else old(df1.columns) + [KeyColumn])
      ensures df2.columns == (if KeyColumn in old(df2.columns) then old(df2.columns) else old(df2.columns) + [KeyColumn])
      ensures |df1.rows| == |old(df1.rows)| && |df2.rows| == |old(df2.rows)|
      ensures forall i :: 0 <= i < |df1.rows| ==>
        df1.rows[i] == old(df1.rows[i])[KeyColumn := Some(CellKey(old(df1.rows[i]), key1, keepZeros))]
      ensures forall i :: 0 <= i < |df2.rows| ==>
        df2.rows[i] == old(df2.rows[i])[KeyColumn := Some(CellKey(old(df2.rows[i]), key2, keepZeros))]
    {
      this.df1 := df1;
      this.df2 := df2;
      this.key1 := key1;
      this.key2 := key2;
      this.keepZeros := keepZeros;
      new;
      df1.SetColumn(KeyColumn, KeyValues(df1.rows, key1, keepZeros));
      df2.SetColumn(KeyColumn, KeyValues(df2.rows, key2, keepZeros));
    }

    /** `keys_with_missing`. */
    method KeysWithMissing(check: seq<string>) returns (keys: seq<string>)
      requires Valid()
      ensures keys == MissingKeys(df1.rows, df1.columns, check)
    {
      keys := [];
      var rows := df1.rows;
      var i := 0;
      while i < |rows|
        invariant 0 <= i <= |rows|
        invariant keys == MissingKeys(rows[..i], df1.columns, check)
      {
        var row := rows[i];
        var k := RowKey(row);
        var found := false;
        if k != [] {
          found := HasMissingChecked(row, check);
        }
        if found {
          keys := keys + [k];
        }
        assert rows[..i + 1][..i] == rows[..i];
        i := i + 1;
      }
      assert rows[..i] == rows;
    }

    /** The inner loop of `keys_with_missing`: does some checked column that
        the table has hold a missing value in `row`? */
    method HasMissingChecked(row: Row, check: seq<string>) returns (found: bool)
      ensures found <==> exists j :: 0 <= j < |check| && check[j] in df1.columns && IsMissing(Get(row, check[j]))
    {
      found := false;
      var j := 0;
      while j < |check|
        invariant 0 <= j <= |check|
        invariant forall jj :: 0 <= jj < j ==> !(check[jj] in df1.columns && IsMissing(Get(row, check[jj])))
      {
        if check[j] in df1.columns && IsMissing(Get(row, check[j])) {
          found := true;
          return;
        }
        j := j + 1;
      }
    }

    /** `t1_row_index_for_key`. */
    function T1RowIndexForKey(key: string): (r: Option<nat>)
      reads this, df1
    {
      FirstRowWithKey(df1.rows, key)
    }

    /** `t2_rows_for_key`: a copy of the group, empty for an unknown key. */
    function T2RowsForKey(key: string): (r: seq<Row>)
      reads this, df2
    {
      GroupRows(df2.rows, key)
    }
  }

  // ------------------------------------------------------------ properties

  lemma {:induction false} MissingKeysAppend(a: seq<Row>, b: seq<Row>, columns: seq<string>, check: seq<string>)
    ensures MissingKeys(a + b, columns, check) == MissingKeys(a, columns, check) + MissingKeys(b, columns, check)
    decreases |b|
  {
    if b == [] {
      assert a + b == a;
    } else {
      var n := |b| - 1;
      assert (a + b)[..|a + b| - 1] == a + b[..n];
      MissingKeysAppend(a, b[..n], columns, check);
    }
  }

  /** The scan keeps row order and does not deduplicate: the keys of two
      stretches of rows are the keys of the first followed by those of the
      second. */
  lemma MissingKeysOrdered(a: seq<Row>, b: seq<Row>, columns: seq<string>, check: seq<string>)
    ensures MissingKeys(a + b, columns, check) == MissingKeys(a, columns, check) + MissingKeys(b, columns, check)
    ensures |MissingKeys(a + b, columns, check)| == |MissingKeys(a, columns, check)| + |MissingKeys(b, columns, check)|
  {
    MissingKeysAppend(a, b, columns, check);
  }

  lemma {:induction false} MissingKeysLength(rows: seq<Row>, columns: seq<string>, check: seq<string>)
    ensures |MissingKeys(rows, columns, check)| <= |rows|
  {
    if rows != [] {
      MissingKeysLength(rows[..|rows| - 1], columns, check);
    }
  }

  lemma {:induction false} MissingKeysSound(rows: seq<Row>, columns: seq<string>, check: seq<string>, k: string)
    requires k in MissingKeys(rows, columns, check)
    ensures exists i :: 0 <= i < |rows| && NeedsFill(rows[i], columns, check) && RowKey(rows[i]) == k
  {
    var n := |rows| - 1;
    if k in MissingKeys(rows[..n], columns, check) {
      MissingKeysSound(rows[..n], columns, check, k);
      var i :| 0 <= i < n && NeedsFill(rows[..n][i], columns, check) && RowKey(rows[..n][i]) == k;
      assert rows[..n][i] == rows[i];
    }
  }

  lemma {:induction false} MissingKeysComplete(rows: seq<Row>, columns: seq<string>, check: seq<string>, i: int)
    requires 0 <= i < |rows| && NeedsFill(rows[i], columns, check)
    ensures RowKey(rows[i]) in MissingKeys(rows, columns, check)
  {
    var n := |rows| - 1;
    if i < n {
      assert rows[..n][i] == rows[i];
      MissingKeysComplete(rows[..n], columns, check, i);
    }
  }

  /** A key is listed exactly when some row with that key needs filling;
      every listed key is non-empty and there are at most as many keys as
      rows. */
  lemma MissingKeysMembers(rows: seq<Row>, columns: seq<string>, check: seq<string>)
    ensures |MissingKeys(rows, columns, check)| <= |rows|
    ensures forall k :: k in MissingKeys(rows, columns, check) <==>
      exists i :: 0 <= i < |rows| && NeedsFill(rows[i], columns, check) && RowKey(rows[i]) == k
    ensures forall k :: k in MissingKeys(rows, columns, check) ==> k != []
  {
    MissingKeysLength(rows, columns, check);
    forall k | k in MissingKeys(rows, columns, check)
      ensures exists i :: 0 <= i < |rows| && NeedsFill(rows[i], columns, check) && RowKey(rows[i]) == k
    {
      MissingKeysSound(rows, columns, check, k);
    }
    forall i | 0 <= i < |rows| && NeedsFill(rows[i], columns, check)
      ensures RowKey(rows[i]) in MissingKeys(rows, columns, check)
    {
      MissingKeysComplete(rows, columns, check, i);
    }
  }

  /** A checked column the table does not have is ignored. */
  lemma AbsentColumnIgnored(rows: seq<Row>, columns: seq<string>, check: seq<string>, extra: string)
    requires extra !in columns
    ensures MissingKeys(rows, columns, check + [extra]) == MissingKeys(rows, columns, check)
  {
    forall row: Row ensures NeedsFill(row, columns, check + [extra]) == NeedsFill(row, columns, check) {
      if NeedsFill(row, columns, check + [extra]) {
        var j :| 0 <= j < |check + [extra]| && (check + [extra])[j] in columns && IsMissing(Get(row, (check + [extra])[j]));
        assert j < |check| && check[j] == (check + [extra])[j];
      }
      if NeedsFill(row, columns, check) {
        var j :| 0 <= j < |check| && check[j] in columns && IsMissing(Get(row, check[j]));
        assert (check + [extra])[j] == check[j];
      }
    }
    MissingKeysSameFilter(rows, columns, check + [extra], check);
  }

  lemma {:induction false} MissingKeysSameFilter(rows: seq<Row>, columns: seq<string>, c1: seq<string>, c2: seq<string>)
    requires forall row: Row :: NeedsFill(row, columns, c1) == NeedsFill(row, columns, c2)
    ensures MissingKeys(rows, columns, c1) == MissingKeys(rows, columns, c2)
  {
    if rows != [] {
      MissingKeysSameFilter(rows[..|rows| - 1], columns, c1, c2);
    }
  }

  /** Every key the scan lists leads back to a primary row. */
  lemma MissingKeysAreFound(rows: seq<Row>, columns: seq<string>, check: seq<string>, k: string)
    requires k in MissingKeys(rows, columns, check)
    ensures FirstRowWithKey(rows, k).Some?
  {
    MissingKeysMembers(rows, columns, check);
    var i :| 0 <= i < |rows| && NeedsFill(rows[i], columns, check) && RowKey(rows[i]) == k;
    assert Get(rows[i], KeyColumn) == Some(k);
  }

  /** The group of a key is exactly the rows carrying that key, in order,
      and empty for a key no row has. */
  lemma GroupIsFilter(rows: seq<Row>, key: string)
    ensures forall i :: 0 <= i < |GroupRows(rows, key)| ==> Get(GroupRows(rows, key)[i], KeyColumn) == Some(key)
    ensures (forall i :: 0 <= i < |rows| ==> Get(rows[i], KeyColumn) != Some(key)) ==> GroupRows(rows, key) == []
    ensures FirstRowWithKey(rows, key).Some? <==> GroupRows(rows, key) != []
  {
    var g := GroupIndices(rows, key);
    if FirstRowWithKey(rows, key).Some? {
      assert FirstRowWithKey(rows, key).value in g;
    }
    if g != [] {
      assert g[0] in g;
    }
  }

  /** The sum of the group sizes of `keys`. */
  function GroupSizes(rows: seq<Row>, keys: seq<string>): nat {
    if keys == [] then 0 else |GroupIndices(rows, keys[0])| + GroupSizes(rows, keys[1..])
  }

  lemma {:induction false} GroupIndicesSnoc(rows: seq<Row>, r: Row, key: string)
    ensures GroupIndices(rows + [r], key) ==
      GroupIndices(rows, key) + (if Get(r, KeyColumn) == Some(key) then [|rows|] else [])
  {
    assert (rows + [r])[..|rows|] == rows;
  }

  /** How often `k` occurs in `keys`. */
  function Occurrences(keys: seq<string>, k: string): nat {
    if keys == [] then 0 else (if keys[0] == k then 1 else 0) + Occurrences(keys[1..], k)
  }

  lemma {:induction false} OccursOnce(keys: seq<string>, k: string)
    requires Distinct(keys) && k in keys
    ensures Occurrences(keys, k) == 1
  {
    if keys[0] == k {
      OccursNever(keys[1..], k);
    } else {
      OccursOnce(keys[1..], k);
    }
  }

  lemma {:induction false} OccursNever(keys: seq<string>, k: string)
    requires k !in keys
    ensures Occurrences(keys, k) == 0
  {
    if keys != [] {
      OccursNever(keys[1..], k);
    }
  }

  lemma {:induction false} GroupSizesSnoc(rows: seq<Row>, r: Row, keys: seq<string>)
    requires Get(r, KeyColumn).Some?
    ensures GroupSizes(rows + [r], keys) == GroupSizes(rows, keys) + Occurrences(keys, Get(r, KeyColumn).value)
  {
    if keys != [] {
      GroupIndicesSnoc(rows, r, keys[0]);
      GroupSizesSnoc(rows, r, keys[1..]);
    }
  }

  /** The groups over all keys partition the secondary rows: with every row
      keyed and `keys` listing each key once, every row lies in the group of
      its own key and in no other, and the group sizes add up to the number
      of rows. */
  lemma {:induction false} GroupsPartition(rows: seq<Row>, keys: seq<string>)
    requires AllKeyed(rows) && Distinct(keys)
    requires forall i :: 0 <= i < |rows| ==> Get(rows[i], KeyColumn).value in keys
    ensures forall i, k :: 0 <= i < |rows| ==> (i in GroupIndices(rows, k) <==> Get(rows[i], KeyColumn) == Some(k))
    ensures GroupSizes(rows, keys) == |rows|
    decreases |rows|
  {
    if rows == [] {
      GroupSizesEmpty(keys);
    } else {
      var n := |rows| - 1;
      var r := rows[n];
      assert rows == rows[..n] + [r];
      assert AllKeyed(rows[..n]) by {
        forall i | 0 <= i < n ensures Get(rows[..n][i], KeyColumn).Some? {
          assert rows[..n][i] == rows[i];
        }
      }
      forall i | 0 <= i < n ensures Get(rows[..n][i], KeyColumn).value in keys {
        assert rows[..n][i] == rows[i];
      }
      GroupsPartition(rows[..n], keys);
      assert Get(r, KeyColumn).Some?;
      GroupSizesSnoc(rows[..n], r, keys);
      OccursOnce(keys, Get(r, KeyColumn).value);
    }
  }

  lemma {:induction false} GroupSizesEmpty(keys: seq<string>)
    ensures GroupSizes([], keys) == 0
  {
    if keys != [] {
      GroupSizesEmpty(keys[1..]);
    }
  }

  /** After construction the keys are normal: normalising a key again (with
      leading zeros kept, the default) changes nothing. */
  lemma KeysAreNormal(rows: seq<Row>, keyCol: string, i: nat)
    requires i < |rows|
    ensures var k := KeyValues(rows, keyCol, true)[i].value;
      NormKey(Some(k), true) == k && Stripped(k) && Collapsed(k)
  {
    NormKeyKeepZerosIdempotent(Some(CellStr(Get(rows[i], keyCol))));
    NormTextIsNormal(Some(CellStr(Get(rows[i], keyCol))));
  }

  /** A row whose key cell is empty still gets a key: its `_KEY_` is "nan".
      So it shares its group with every other row whose key cell is empty,
      and once it has a gap in a checked column other than `_KEY_`,
      `keys_with_missing` lists it. */
  lemma EmptyKeyCellIsNan(row: Row, keyCol: string, keepZeros: bool, columns: seq<string>, check: seq<string>)
    requires Get(row, keyCol).None?
    ensures CellKey(row, keyCol, keepZeros) == "nan"
    ensures var keyed := row[KeyColumn := Some(CellKey(row, keyCol, keepZeros))];
      RowKey(keyed) == "nan" &&
      forall j :: 0 <= j < |check| && check[j] in columns && check[j] != KeyColumn && IsMissing(Get(row, check[j])) ==>
        NeedsFill(keyed, columns, check)
  {
    NanIsNormalAndMissing();
    var keyed := row[KeyColumn := Some(CellKey(row, keyCol, keepZeros))];
    forall j | 0 <= j < |check| && check[j] in columns && check[j] != KeyColumn && IsMissing(Get(row, check[j]))
      ensures NeedsFill(keyed, columns, check)
    {
      assert Get(keyed, check[j]) == Get(row, check[j]);
    }
  }
}
