/**
 * Saving the primary table: to a fresh time-stamped file, to a chosen path,
 * or back into a sheet of the workbook it came from (with a backup copy of
 * the old file first). The file system is a map from paths to file contents;
 * a workbook file is held as its list of sheets, any other file as its bytes.
 * The clock is a parameter.
 */
module ApplyChanges {
  import opened Wrappers
  import opened Text
  import opened Tables

  // ------------------------------------------------------------ time stamps

  /** The wall-clock reading `datetime.now()` supplies, down to the minute. */
  datatype Stamp = Stamp(year: nat, month: nat, day: nat, hour: nat, minute: nat)

  /** `strftime("%Y-%m-%d_%H%M")`. */
  function StampText(t: Stamp): string {
    ZeroPad(t.year, 4) + "-" + ZeroPad(t.month, 2) + "-" + ZeroPad(t.day, 2) + "_"
    + ZeroPad(t.hour, 2) + ZeroPad(t.minute, 2)
  }

  /** Every field fits the width the format gives it. */
  predicate InRange(t: Stamp) {
    t.year < 10000 && t.month < 100 && t.day < 100 && t.hour < 100 && t.minute < 100
  }

  /** `10 ** w`. */
  function Pow10(w: nat): nat {
    if w == 0 then 1 else 10 * Pow10(w - 1)
  }

  function DigitValue(c: char): nat
    requires IsDigit(c)
  {
    c as int - '0' as int
  }

  /** The number a string of decimal digits denotes. */
  function Value(s: string): nat
    requires AllDigits(s)
  {
    if s == [] then 0 else 10 * Value(s[..|s| - 1]) + DigitValue(s[|s| - 1])
  }

  /** Reads a time stamp back from its text; `None` unless the text has the
      shape `dddd-dd-dd_dddd`. */
  function ParseStamp(s: string): (r: Option<Stamp>)
    ensures r.Some? ==> InRange(r.value)
  {
    if |s| == 15 && s[4] == '-' && s[7] == '-' && s[10] == '_'
       && AllDigits(s[..4]) && AllDigits(s[5..7]) && AllDigits(s[8..10]) && AllDigits(s[11..13]) && AllDigits(s[13..])
    then
      ValueBelow(s[..4]);
      ValueBelow(s[5..7]);
      ValueBelow(s[8..10]);
      ValueBelow(s[11..13]);
      ValueBelow(s[13..]);
      Some(Stamp(Value(s[..4]), Value(s[5..7]), Value(s[8..10]), Value(s[11..13]), Value(s[13..])))
    else None
  }

  lemma {:induction false} ValueBelow(s: string)
    requires AllDigits(s)
    ensures Value(s) < Pow10(|s|)
  {
    if s != [] {
      ValueBelow(s[..|s| - 1]);
    }
  }

  lemma {:induction false} ValueAppend(a: string, b: string)
    requires AllDigits(a) && AllDigits(b)
    ensures AllDigits(a + b) && Value(a + b) == Value(a) * Pow10(|b|) + Value(b)
    decreases |b|
  {
    if b != [] {
      var b' := b[..|b| - 1];
      assert (a + b)[..|a + b| - 1] == a + b';
      ValueAppend(a, b');
      assert (a + b)[|a + b| - 1] == b[|b| - 1];
      ShiftDigit(Value(a), Pow10(|b'|), Value(b'), DigitValue(b[|b| - 1]));
    } else {
      assert a + b == a;
    }
  }

  lemma ShiftDigit(x: nat, p: nat, y: nat, d: nat)
    ensures 10 * (x * p + y) + d == x * (10 * p) + (10 * y + d)
  {
  }

  lemma {:induction false} ValueOfZeros(w: nat)
    ensures AllDigits(seq(w, _ => '0')) && Value(seq(w, _ => '0')) == 0
  {
    if w > 0 {
      assert seq(w, _ => '0')[..w - 1] == seq(w - 1, _ => '0');
      ValueOfZeros(w - 1);
    }
  }

  /** `str(n)` reads back as `n`, in at most `w` digits when `n < 10^w`. */
  lemma {:induction false} NatToStringValue(n: nat, w: nat)
    requires 1 <= w && n < Pow10(w)
    ensures Value(NatToString(n)) == n && |NatToString(n)| <= w
    decreases n
  {
    if n >= 10 {
      var s := NatToString(n / 10);
      assert w >= 2;
      NatToStringValue(n / 10, w - 1);
      assert NatToString(n) == s + [DigitChar(n % 10)];
      assert (s + [DigitChar(n % 10)])[..|s|] == s;
    }
  }

  /** A zero-padded field is exactly `w` characters and reads back as `n`. */
  lemma ZeroPadValue(n: nat, w: nat)
    requires 1 <= w && n < Pow10(w)
    ensures |ZeroPad(n, w)| == w && Value(ZeroPad(n, w)) == n
  {
    NatToStringValue(n, w);
    var s := NatToString(n);
    if |s| < w {
      ValueOfZeros(w - |s|);
      ValueAppend(seq(w - |s|, _ => '0'), s);
    }
  }

  /** The time stamp text determines the time stamp: two saves in different
      minutes never produce the same name. */
  lemma StampRoundTrip(t: Stamp)
    requires InRange(t)
    ensures ParseStamp(StampText(t)) == Some(t)
  {
    assert Pow10(2) == 100 && Pow10(4) == 10000 by {
      assert Pow10(1) == 10;
      assert Pow10(3) == 1000;
    }
    ZeroPadValue(t.year, 4);
    ZeroPadValue(t.month, 2);
    ZeroPadValue(t.day, 2);
    ZeroPadValue(t.hour, 2);
    ZeroPadValue(t.minute, 2);
    var s := StampText(t);
    assert s[..4] == ZeroPad(t.year, 4);
    assert s[5..7] == ZeroPad(t.month, 2);
    assert s[8..10] == ZeroPad(t.day, 2);
    assert s[11..13] == ZeroPad(t.hour, 2);
    assert s[13..] == ZeroPad(t.minute, 2);
  }

  // ------------------------------------------------------------ paths

  /** A path: the directory part and the final component. */
  datatype Path = Path(dir: string, name: string)

  /** The position of the last `.` in `s`, if any (`str.rfind`). */
  function LastDot(s: string): (r: Option<nat>)
    ensures r.Some? ==> r.value < |s| && s[r.value] == '.' && '.' !in s[r.value + 1..]
    ensures r.None? ==> '.' !in s
  {
    if s == [] then None
    else if s[|s| - 1] == '.' then Some(|s| - 1)
    else
      var r := LastDot(s[..|s| - 1]);
      assert s == s[..|s| - 1] + [s[|s| - 1]];
      r
  }

  /** Where `Path.suffix` starts: the last dot, unless it leads the name or
      ends it. */
  function SuffixStart(name: string): (i: nat)
    ensures i <= |name|
  {
    match LastDot(name)
    case Some(i) => if 0 < i < |name| - 1 then i else |name|
    case None => |name|
  }

  /** `Path.suffix`. */
  function Suffix(name: string): string {
    name[SuffixStart(name)..]
  }

  /** `Path.stem`. */
  function Stem(name: string): string {
    name[..SuffixStart(name)]
  }

  /** Stem and suffix split the name: together they are the name, and a
      non-empty suffix is a `.` followed by at least one further character
      and no other `.`. */
  lemma StemSuffix(name: string)
    ensures Stem(name) + Suffix(name) == name
    ensures Suffix(name) != [] ==> |Suffix(name)| >= 2 && Suffix(name)[0] == '.' && '.' !in Suffix(name)[1..] && Stem(name) != []
  {
    assert name[..SuffixStart(name)] + name[SuffixStart(name)..] == name;
  }

  /** `f"{base_name}_filled_{ts}.xlsx"` inside `out_dir`. */
  function FilledPath(outDir: string, baseName: string, now: Stamp): Path {
    Path(outDir, baseName + "_filled_" + StampText(now) + ".xlsx")
  }

  /** `path.with_name(f"{path.stem}_backup_{ts}{path.suffix}")`. */
  function BackupPath(p: Path, now: Stamp): Path {
    Path(p.dir, Stem(p.name) + "_backup_" + StampText(now) + Suffix(p.name))
  }

  lemma NoDotInStamp(t: Stamp)
    ensures '.' !in StampText(t)
  {
    var s := StampText(t);
    forall i | 0 <= i < |s| ensures s[i] != '.' {
    }
  }

  /** The text the backup name puts between stem and suffix has no dot. */
  lemma BackupInfix(t: Stamp)
    ensures '.' !in "_backup_" + StampText(t)
  {
    NoDotInStamp(t);
    var ts := StampText(t);
    var mid := "_backup_" + ts;
    forall i | 0 <= i < |mid| ensures mid[i] != '.' {
      if i >= 8 { assert mid[i] == ts[i - 8]; }
    }
  }

  /** The backup sits next to the file, under a different name, and keeps
      the file's extension. */
  lemma BackupIsSibling(p: Path, now: Stamp)
    ensures BackupPath(p, now).dir == p.dir
    ensures BackupPath(p, now) != p
    ensures Suffix(p.name) != [] ==> Suffix(BackupPath(p, now).name) == Suffix(p.name)
  {
    var stem, suf, mid := Stem(p.name), Suffix(p.name), "_backup_" + StampText(now);
    StemSuffix(p.name);
    var b := BackupPath(p, now).name;
    assert b == stem + mid + suf;
    assert |b| > |p.name|;
    if suf != [] {
      BackupInfix(now);
      var k := |stem| + |mid|;
      assert b[k..] == suf;
      assert b[k + 1..] == suf[1..];
      LastDotAt(b, k);
    }
  }

  /** A dot followed by no other dot is the last dot. */
  lemma {:induction false} LastDotAt(s: string, k: nat)
    requires k < |s| && s[k] == '.' && '.' !in s[k + 1..]
    ensures LastDot(s) == Some(k)
    decreases |s|
  {
    if k < |s| - 1 {
      assert s[|s| - 1] == s[k + 1..][|s| - 1 - (k + 1)];
      var t := s[..|s| - 1];
      assert t[k + 1..] == s[k + 1..][..|s| - 1 - (k + 1)];
      LastDotAt(t, k);
    }
  }

  // ------------------------------------------------------------ sheets

  /** A worksheet: its title and its rows of cells. */
  datatype Sheet = Sheet(title: string, rows: seq<seq<Cell>>)

  /** A file: a workbook, held as its sheets, or any other bytes. */
  datatype FileData = Book(sheets: seq<Sheet>) | Blob(bytes: seq<bv8>)

  /** Why an in-place save fails: nothing at the path, or not a workbook. */
  datatype SaveError = NotFound(path: Path) | NotAWorkbook(path: Path)

  /** The title `DataFrame.to_excel` gives its only sheet. */
  const DefaultTitle: string := "Sheet1"

  /** The column header row. */
  function Header(cols: seq<string>): (h: seq<Cell>)
    ensures |h| == |cols|
  {
    seq(|cols|, j requires 0 <= j < |cols| => Some(cols[j]))
  }

  /** One table row as a sheet row, in column order. */
  function DataRow(cols: seq<string>, row: Row): (cells: seq<Cell>)
    ensures |cells| == |cols|
  {
    seq(|cols|, j requires 0 <= j < |cols| => Get(row, cols[j]))
  }

  /** What is written for a table: the header, then one row per table row. */
  function SheetRows(cols: seq<string>, rows: seq<Row>): seq<seq<Cell>> {
    [Header(cols)] + DataRows(cols, rows)
  }

  function DataRows(cols: seq<string>, rows: seq<Row>): (r: seq<seq<Cell>>)
    ensures |r| == |rows| && forall i :: 0 <= i < |rows| ==> r[i] == DataRow(cols, rows[i])
  {
    if rows == [] then [] else [DataRow(cols, rows[0])] + DataRows(cols, rows[1..])
  }

  /** All three saves write the table without the helper key column. */
  function SavedRows(cols: seq<string>, rows: seq<Row>): seq<seq<Cell>> {
    SheetRows(Without(cols, KeyColumn), rows)
  }

  /** Dropping `_KEY_` only when it is there: a table without it is saved as
      it is, and the other columns keep their order. */
  lemma {:induction false} WithoutAbsent(cols: seq<string>, col: string)
    requires col !in cols
    ensures Without(cols, col) == cols
  {
    if cols != [] {
      WithoutAbsent(cols[1..], col);
    }
  }

  lemma {:induction false} WithoutSplits(a: seq<string>, col: string, b: seq<string>)
    requires col !in a && col !in b
    ensures Without(a + [col] + b, col) == a + b
  {
    if a == [] {
      assert ([col] + b)[1..] == b;
      WithoutAbsent(b, col);
    } else {
      assert (a + [col] + b)[1..] == a[1..] + [col] + b;
      WithoutSplits(a[1..], col, b);
    }
  }

  /** The header names of a sheet row, if every cell holds one. */
  function Names(cells: seq<Cell>): (r: Option<seq<string>>)
    ensures r.Some? ==> |r.value| == |cells| && forall j :: 0 <= j < |cells| ==> cells[j] == Some(r.value[j])
  {
    if cells == [] then Some([])
    else if cells[0].None? then None
    else match Names(cells[1..])
      case None => None
      case Some(rest) => Some([cells[0].value] + rest)
  }

  /** A data row read under distinct column names. */
  function RowOf(names: seq<string>, cells: seq<Cell>): (row: Row)
    requires |cells| == |names| && Distinct(names)
    ensures forall c :: c in row <==> c in names
    ensures forall j :: 0 <= j < |names| ==> row[names[j]] == cells[j]
  {
    map j | 0 <= j < |names| :: names[j] := cells[j]
  }

  /** Reading a sheet back as a table (header row, then data rows), as
      `pandas.read_excel` does for a sheet this program wrote. */
  function ReadSheet(sheet: seq<seq<Cell>>): Option<(seq<string>, seq<Row>)> {
    if sheet == [] then None
    else match Names(sheet[0])
      case None => None
      case Some(names) =>
        if Distinct(names) && forall i :: 1 <= i < |sheet| ==> |sheet[i]| == |names|
        then Some((names, ReadRows(names, sheet[1..])))
        else None
  }

  function ReadRows(names: seq<string>, data: seq<seq<Cell>>): (r: seq<Row>)
    requires Distinct(names) && forall i :: 0 <= i < |data| ==> |data[i]| == |names|
    ensures |r| == |data| && forall i :: 0 <= i < |data| ==> r[i] == RowOf(names, data[i])
  {
    if data == [] then [] else [RowOf(names, data[0])] + ReadRows(names, data[1..])
  }

  lemma NamesOfHeader(cols: seq<string>)
    ensures Names(Header(cols)) == Some(cols)
  {
    var r := Names(Header(cols));
    NamesTotal(Header(cols));
    assert r.value == cols;
  }

  lemma {:induction false} NamesTotal(cells: seq<Cell>)
    requires forall j :: 0 <= j < |cells| ==> cells[j].Some?
    ensures Names(cells).Some?
  {
    if cells != [] {
      NamesTotal(cells[1..]);
    }
  }

  /** A saved table reads back as the table without `_KEY_`: the columns in
      their order, and every row with exactly those cells. */
  lemma SavedTableReadsBack(cols: seq<string>, rows: seq<Row>)
    requires WellFormed(cols, rows)
    ensures var back := ReadSheet(SavedRows(cols, rows));
      back.Some? && back.value.0 == Without(cols, KeyColumn) && |back.value.1| == |rows|
      && forall i :: 0 <= i < |rows| ==> back.value.1[i] == rows[i] - {KeyColumn}
  {
    var kept := Without(cols, KeyColumn);
    WithoutKeepsDistinct(cols, KeyColumn);
    var sheet := SavedRows(cols, rows);
    NamesOfHeader(kept);
    assert sheet[0] == Header(kept);
    var back := ReadSheet(sheet);
    forall i | 0 <= i < |rows|
      ensures back.value.1[i] == rows[i] - {KeyColumn}
    {
      assert sheet[1..][i] == DataRow(kept, rows[i]);
      ReadRowBack(cols, rows[i]);
    }
  }

  /** One saved row reads back as the row without `_KEY_`. */
  lemma ReadRowBack(cols: seq<string>, row: Row)
    requires Distinct(Without(cols, KeyColumn))
    requires forall c :: c in row <==> c in cols
    ensures RowOf(Without(cols, KeyColumn), DataRow(Without(cols, KeyColumn), row)) == row - {KeyColumn}
  {
    var kept := Without(cols, KeyColumn);
    var cells := DataRow(kept, row);
    var got := RowOf(kept, cells);
    forall c | c in got ensures got[c] == (row - {KeyColumn})[c] {
      var j :| 0 <= j < |kept| && kept[j] == c;
      assert got[kept[j]] == cells[j];
    }
  }

  /** The workbook's sheets with the first one titled `title` removed
      (`wb.remove(wb[title])`), or unchanged when there is none. */
  function RemoveSheet(sheets: seq<Sheet>, title: string): (r: seq<Sheet>)
    ensures |r| <= |sheets|
  {
    if sheets == [] then []
    else if sheets[0].title == title then sheets[1..]
    else [sheets[0]] + RemoveSheet(sheets[1..], title)
  }

  /** `remove` then `create_sheet(title, 0)` followed by the appended rows. */
  function ReplaceSheet(sheets: seq<Sheet>, title: string, rows: seq<seq<Cell>>): seq<Sheet> {
    [Sheet(title, rows)] + RemoveSheet(sheets, title)
  }

  /** The sheets that are not titled `title`, in order. */
  function Others(sheets: seq<Sheet>, title: string): (r: seq<Sheet>)
    ensures forall s :: s in r <==> s in sheets && s.title != title
  {
    if sheets == [] then []
    else (if sheets[0].title == title then [] else [sheets[0]]) + Others(sheets[1..], title)
  }

  /** Sheet titles in a workbook are unique. */
  predicate UniqueTitles(sheets: seq<Sheet>) {
    forall i, j :: 0 <= i < j < |sheets| ==> sheets[i].title != sheets[j].title
  }

  /** In a workbook, removing the sheet titled `title` keeps every other
      sheet in its order and nothing else. */
  lemma {:induction false} RemoveSheetKeepsOthers(sheets: seq<Sheet>, title: string)
    requires UniqueTitles(sheets)
    ensures RemoveSheet(sheets, title) == Others(sheets, title)
  {
    if sheets != [] {
      assert UniqueTitles(sheets[1..]);
      if sheets[0].title == title {
        forall s | s in sheets[1..] ensures s.title != title {
          var j :| 0 <= j < |sheets[1..]| && sheets[1..][j] == s;
          assert sheets[0].title != sheets[j + 1].title;
        }
        OthersNoop(sheets[1..], title);
      } else {
        RemoveSheetKeepsOthers(sheets[1..], title);
      }
    }
  }

  lemma {:induction false} OthersNoop(sheets: seq<Sheet>, title: string)
    requires forall s :: s in sheets ==> s.title != title
    ensures Others(sheets, title) == sheets
  {
    if sheets != [] {
      assert sheets[0] in sheets;
      assert forall s :: s in sheets[1..] ==> s in sheets;
      OthersNoop(sheets[1..], title);
    }
  }

  lemma {:induction false} RemoveSheetUnique(sheets: seq<Sheet>, title: string)
    requires UniqueTitles(sheets)
    ensures UniqueTitles(Others(sheets, title))
    ensures forall s :: s in Others(sheets, title) ==> s.title != title
  {
    if sheets != [] {
      assert UniqueTitles(sheets[1..]);
      RemoveSheetUnique(sheets[1..], title);
      var rest := Others(sheets[1..], title);
      forall s | s in rest ensures s.title != sheets[0].title {
        var j :| 0 <= j < |sheets[1..]| && sheets[1..][j] == s;
        assert sheets[0].title != sheets[j + 1].title;
      }
    }
  }

  /** Replacing a sheet puts the new sheet first, keeps the other sheets in
      their order, keeps titles unique, and doing it twice is doing it once. */
  lemma ReplaceSheetShape(sheets: seq<Sheet>, title: string, rows: seq<seq<Cell>>)
    requires UniqueTitles(sheets)
    ensures var r := ReplaceSheet(sheets, title, rows);
      r[0] == Sheet(title, rows) && r[1..] == Others(sheets, title) && UniqueTitles(r)
      && ReplaceSheet(r, title, rows) == r
  {
    var r := ReplaceSheet(sheets, title, rows);
    RemoveSheetKeepsOthers(sheets, title);
    RemoveSheetUnique(sheets, title);
    assert r[1..] == Others(sheets, title);
    forall i, j | 0 <= i < j < |r| ensures r[i].title != r[j].title {
      if i == 0 {
        assert r[j] in r[1..];
      } else {
        assert r[i] == r[1..][i - 1] && r[j] == r[1..][j - 1];
      }
    }
    assert RemoveSheet(r, title) == r[1..];
  }

  // ------------------------------------------------------------ the files

  /** The files after the backup step of `save_in_place`. */
  function BackedUp(files: map<Path, FileData>, path: Path, makeBackup: bool, now: Stamp): map<Path, FileData> {
    if makeBackup && path in files then files[BackupPath(path, now) := files[path]] else files
  }

  /** The backup step copies the file's old contents next to it and leaves
      the file itself, and every path but the backup's, as it was. */
  lemma BackupKeepsOriginal(files: map<Path, FileData>, path: Path, makeBackup: bool, now: Stamp)
    ensures var b := BackedUp(files, path, makeBackup, now);
      (path in b <==> path in files) && (path in files ==> b[path] == files[path])
      && (makeBackup && path in files ==> BackupPath(path, now) in b && b[BackupPath(path, now)] == files[path])
      && forall q :: q != BackupPath(path, now) ==> (q in b <==> q in files) && (q in files ==> b[q] == files[q])
  {
    BackupIsSibling(path, now);
  }

  /** The files the program reads and writes. */
  class FileSystem {
    var files: map<Path, FileData>

    /** Every workbook has unique sheet titles. */
    ghost predicate Valid()
      reads this
    {
      forall p :: p in files && files[p].Book? ==> UniqueTitles(files[p].sheets)
    }

    constructor(files0: map<Path, FileData>)
      requires forall p :: p in files0 && files0[p].Book? ==> UniqueTitles(files0[p].sheets)
      ensures Valid() && files == files0
    {
      files := files0;
    }

    /** `save_filled`: writes the table without `_KEY_` to a new workbook
        named after the base name and the minute, and returns its path. */
    method SaveFilled(cols: seq<string>, rows: seq<Row>, outDir: string, baseName: string, now: Stamp)
      returns (out: Path)
      requires Valid()
      modifies this
      ensures Valid()
      ensures out == FilledPath(outDir, baseName, now)
      ensures files == old(files)[out := Book([Sheet(DefaultTitle, SavedRows(cols, rows))])]
    {
      out := FilledPath(outDir, baseName, now);
      var table := WriteRows(Without(cols, KeyColumn), rows);
      files := files[out := Book([Sheet(DefaultTitle, table)])];
    }

    /** `save_to_path`: the same, to exactly the given path. */
    method SaveToPath(cols: seq<string>, rows: seq<Row>, path: Path) returns (out: Path)
      requires Valid()
      modifies this
      ensures Valid()
      ensures out == path
      ensures files == old(files)[path := Book([Sheet(DefaultTitle, SavedRows(cols, rows))])]
    {
      var table := WriteRows(Without(cols, KeyColumn), rows);
      files := files[path := Book([Sheet(DefaultTitle, table)])];
      out := path;
    }

    /** `save_in_place`: copies the old file to its backup when asked and
        the file exists, then loads the workbook, replaces the sheet titled
        `title` by one holding the table without `_KEY_` at the front, and
        saves it. A missing file or a file that is no workbook fails after
        the backup step, leaving the file itself untouched. */
    method SaveInPlace(cols: seq<string>, rows: seq<Row>, path: Path, title: string, makeBackup: bool, now: Stamp)
      returns (res: Result<Path, SaveError>)
      requires Valid()
      modifies this
      ensures Valid()
      ensures path !in old(files) ==>
        res == Err(NotFound(path)) && files == BackedUp(old(files), path, makeBackup, now)
      ensures path in old(files) && old(files)[path].Blob? ==>
        res == Err(NotAWorkbook(path)) && files == BackedUp(old(files), path, makeBackup, now)
      ensures path in old(files) && old(files)[path].Book? ==>
        res == Ok(path) && files == BackedUp(old(files), path, makeBackup, now)[path :=
          Book(ReplaceSheet(old(files)[path].sheets, title, SavedRows(cols, rows)))]
    {
      if makeBackup && path in files {
        BackupIsSibling(path, now);
        files := files[BackupPath(path, now) := files[path]];
      }
      if path !in files {
        return Err(NotFound(path));
      }
      var data := files[path];
      if data.Blob? {
        return Err(NotAWorkbook(path));
      }
      var table := WriteRows(Without(cols, KeyColumn), rows);
      ReplaceSheetShape(data.sheets, title, table);
      files := files[path := Book(ReplaceSheet(data.sheets, title, table))];
      return Ok(path);
    }
  }

  /** `dataframe_to_rows(df, index=False, header=True)` appended one row at
      a time: the header first, then every table row in order. */
  method WriteRows(cols: seq<string>, rows: seq<Row>) returns (table: seq<seq<Cell>>)
    ensures table == SheetRows(cols, rows)
  {
    table := [Header(cols)];
    var i := 0;
    while i < |rows|
      invariant 0 <= i <= |rows| && |table| == i + 1 && table[0] == Header(cols)
      invariant forall k :: 0 <= k < i ==> table[k + 1] == DataRow(cols, rows[k])
    {
      table := table + [DataRow(cols, rows[i])];
      i := i + 1;
    }
  }
}
