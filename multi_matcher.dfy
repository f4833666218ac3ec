/**
 * The composite-key MultiMatcher of app/services/multi_matcher.py: a key is
 * built from several fields of a row, each normalised and lower-cased, and
 * joined with `|`; every source table gets an index from key to the
 * positions of its rows, and a primary row is matched against every source.
 */
module MultiMatcher {
  import opened Wrappers
  import opened Text
  import opened Normalize
  import opened Tables

  /** `_norm`: `None` gives ""; otherwise strip, rejoin the words with single
      spaces, and lower-case. */
  function Norm(v: Option<string>): string {
    match v
    case None => []
    case Some(s) => Lower(Join(Words(Strip(s)), " "))
  }

  /** One key segment per field: the normalised text of the cell ("nan" for
      an empty cell, which is NaN), "" for a field the row lacks. */
  function KeyParts(row: Row, fields: seq<string>): (parts: seq<string>)
    ensures |parts| == |fields|
  {
    seq(|fields|, i requires 0 <= i < |fields| => if fields[i] !in row then [] else Norm(Some(CellStr(row[fields[i]]))))
  }

  /** `make_key`: the segments joined with `|`. */
  function MakeKey(row: Row, fields: seq<string>): string {
    Join(KeyParts(row, fields), "|")
  }

  /** `MatchProfile`: the key fields of the primary table and of each source. */
  datatype MatchProfile = MatchProfile(t1Fields: seq<string>, srcFields: map<string, seq<string>>)

  /** `profile.src_fields.get(src_id, [])`. */
  function FieldsOf(profile: MatchProfile, src: string): seq<string> {
    if src in profile.srcFields then profile.srcFields[src] else []
  }

  /** Key to row positions. */
  type KeyIndex = map<string, seq<nat>>

  /** The key of every row, in order. */
  function RowKeys(rows: seq<Row>, fields: seq<string>): (keys: seq<string>)
    ensures |keys| == |rows|
  {
    seq(|rows|, i requires 0 <= i < |rows| => MakeKey(rows[i], fields))
  }

  /** The index the loop over the rows builds from their keys: every
      position with a non-empty key appended to the list of its key. */
  function IndexOfKeys(keys: seq<string>): KeyIndex {
    if keys == [] then map[]
    else
      var n := |keys| - 1;
      Push(IndexOfKeys(keys[..n]), keys[n], n)
  }

  /** `src_index.setdefault(k, []).append(n)`, skipped for an empty key. */
  function Push(idx: KeyIndex, k: string, n: nat): KeyIndex {
    if k != [] then idx[k := (if k in idx then idx[k] else []) + [n]] else idx
  }

  lemma IndexOfKeysSnoc(keys: seq<string>, i: nat)
    requires i < |keys|
    ensures IndexOfKeys(keys[..i + 1]) == Push(IndexOfKeys(keys[..i]), keys[i], i)
  {
    assert keys[..i + 1][..i] == keys[..i];
  }

  /** The index of one source: empty when it has no key fields. */
  function SourceIndex(rows: seq<Row>, fields: seq<string>): KeyIndex {
    if fields == [] then map[] else IndexOfKeys(RowKeys(rows, fields))
  }

  /** The key of the primary row at `t1Index`, "" when there is no such
      row. */
  function PrimaryKey(t1: seq<Row>, t1Index: int, t1Fields: seq<string>): string {
    if 0 <= t1Index < |t1| then MakeKey(t1[t1Index], t1Fields) else []
  }

  /** What `match_for_t1_index` returns for one source and primary key. */
  function MatchList(k: string, idx: KeyIndex): seq<nat> {
    if k != [] && k in idx then idx[k] else []
  }

  /** The inner loop of the constructor: the index of one configured source. */
  method BuildSourceIndex(rows: seq<Row>, fields: seq<string>) returns (idx: KeyIndex)
    ensures idx == IndexOfKeys(RowKeys(rows, fields))
  {
    ghost var keys := RowKeys(rows, fields);
    idx := map[];
    var i := 0;
    while i < |rows|
      invariant 0 <= i <= |rows|
      invariant idx == IndexOfKeys(keys[..i])
    {
      var k := MakeKey(rows[i], fields);
      IndexOfKeysSnoc(keys, i);
      ghost var next := Push(idx, keys[i], i);
      if k != [] {
        var list := if k in idx then idx[k] else [];
        idx := idx[k := list + [i]];
      }
      assert idx == next;
      i := i + 1;
    }
    assert keys[..i] == keys;
  }

  class MultiMatcher {
    var t1: seq<Row>
    var sourceIds: seq<string>
    var sources: map<string, seq<Row>>
    var profile: MatchProfile
    var srcIndex: map<string, KeyIndex>

    /** `sourceIds` enumerates the sources, each of which has an index. */
    ghost predicate Indexed()
      reads this
    {
      (forall id :: id in sources <==> id in sourceIds) && srcIndex.Keys == sources.Keys
    }

    /** Every index is the one `__init__` builds for its source. */
    ghost predicate Valid()
      reads this
    {
      Distinct(sourceIds) && Indexed() &&
      forall id :: id in srcIndex ==> srcIndex[id] == SourceIndex(sources[id], FieldsOf(profile, id))
    }

    /** Builds `src_index` for every source, in the order of `sourceIds`. */
    constructor(t1: seq<Row>, sourceIds: seq<string>, sources: map<string, seq<Row>>, profile: MatchProfile)
      requires Distinct(sourceIds) && forall id :: id in sources <==> id in sourceIds
      ensures Valid()
      ensures this.t1 == t1 && this.sourceIds == sourceIds && this.sources == sources && this.profile == profile
    {
      this.t1 := t1;
      this.sourceIds := sourceIds;
      this.sources := sources;
      this.profile := profile;
      var index: map<string, KeyIndex> := map[];
      var s := 0;
      while s < |sourceIds|
        invariant 0 <= s <= |sourceIds|
        invariant forall id :: id in index <==> id in sourceIds[..s]
        invariant forall id :: id in index ==> index[id] == SourceIndex(sources[id], FieldsOf(profile, id))
      {
        var id := sourceIds[s];
        var fields := FieldsOf(profile, id);
        var idx: KeyIndex := map[];
        if fields != [] {
          idx := BuildSourceIndex(sources[id], fields);
        }
        index := index[id := idx];
        assert sourceIds[..s + 1] == sourceIds[..s] + [id];
        s := s + 1;
      }
      assert sourceIds[..s] == sourceIds;
      this.srcIndex := index;
    }

    /** `match_for_t1_index`: for every source, the positions of its rows
        whose key equals the primary row's key. */
    method MatchForT1Index(t1Index: int) returns (out: map<string, seq<nat>>)
      requires Indexed()
      ensures out.Keys == sources.Keys
      ensures forall id :: id in out ==> out[id] == MatchList(PrimaryKey(t1, t1Index, profile.t1Fields), srcIndex[id])
    {
      // An unknown row position gets an empty list for every source, as an
      // empty key does; both take the `[]` branch below.
      var k: string := [];
      if 0 <= t1Index < |t1| {
        k := MakeKey(t1[t1Index], profile.t1Fields);
      }
      assert k == PrimaryKey(t1, t1Index, profile.t1Fields);
      out := LookupAll(k, sources.Keys, srcIndex);
    }
  }

  /** The loop of `match_for_t1_index` over the sources: each source's list
      for key `k`, or `[]` when the key is empty. */
  method LookupAll(k: string, ids: set<string>, srcIndex: map<string, KeyIndex>) returns (out: map<string, seq<nat>>)
    requires ids <= srcIndex.Keys
    ensures out.Keys == ids
    ensures forall id :: id in out ==> out[id] == MatchList(k, srcIndex[id])
  {
    out := map[];
    var todo := ids;
    while todo != {}
      invariant todo <= ids
      invariant forall id :: id in out <==> id in ids && id !in todo
      invariant forall id :: id in out ==> out[id] == MatchList(k, srcIndex[id])
      decreases |todo|
    {
      var id :| id in todo;
      var idx := if id in srcIndex then srcIndex[id] else map[];
      out := out[id := if k != [] && k in idx then idx[k] else []];
      todo := todo - {id};
    }
  }

  // ------------------------------------------------------------ _norm

  lemma LowerKeepsNormal(t: string)
    requires Stripped(t) && Collapsed(t)
    ensures Stripped(Lower(t)) && Collapsed(Lower(t))
  {
    LowerKeepsSpaces(t);
    var l := Lower(t);
    forall i | 0 <= i < |l| && IsSpace(l[i])
      ensures l[i] == ' ' && (i + 1 < |l| ==> !IsSpace(l[i + 1]))
    {
      assert IsSpace(t[i]);
    }
  }

  /** `_norm` is the lower-cased `norm_text`. */
  lemma NormIsLowerNormText(v: Option<string>)
    ensures Norm(v) == Lower(NormText(v))
  {
    if v.Some? {
      var s := Strip(v.value);
      StripOfStripped(s);
      NormTextIsJoinedWords(s);
    }
  }

  /** `_norm(None)` is ""; otherwise the result is stripped, its whitespace is
      single spaces, it holds no upper-case letter, and `_norm` is
      idempotent. */
  lemma NormShape(v: Option<string>)
    ensures v == None ==> Norm(v) == []
    ensures Stripped(Norm(v)) && Collapsed(Norm(v))
    ensures forall i :: 0 <= i < |Norm(v)| ==> !('A' <= Norm(v)[i] <= 'Z')
    ensures Norm(Some(Norm(v))) == Norm(v)
  {
    NormIsLowerNormText(v);
    var t := NormText(v);
    NormTextIsNormal(v);
    LowerKeepsNormal(t);
    var l := Lower(t);
    NormIsLowerNormText(Some(l));
    StripOfStripped(l);
    CollapseOfCollapsed(l);
    LowerIdempotent(t);
  }

  // ------------------------------------------------------------ make_key

  /** An empty field list gives the empty key; a field the row lacks gives
      an empty segment. */
  lemma MakeKeySegments(row: Row, fields: seq<string>)
    ensures fields == [] ==> MakeKey(row, fields) == []
    ensures forall i :: 0 <= i < |fields| && fields[i] !in row ==> KeyParts(row, fields)[i] == []
  {
  }

  /** An empty cell is NaN: its key segment is "nan", not "". */
  lemma EmptyCellSegment(row: Row, fields: seq<string>, i: nat)
    requires i < |fields| && fields[i] in row && row[fields[i]].None?
    ensures KeyParts(row, fields)[i] == "nan"
  {
    var nan := "nan";
    assert NoSpace(nan) && Lower(nan) == nan;
    NormOfLowerWord(nan);
  }

  /** `_norm` leaves a lower-case word as it is. */
  lemma NormOfLowerWord(s: string)
    requires NoSpace(s) && Lower(s) == s
    ensures Norm(Some(s)) == s
  {
    NormIsLowerNormText(Some(s));
    NormTextOfWord(s);
  }

  /** The key splits back into its segments when no field value holds a `|`. */
  lemma MakeKeySplits(row: Row, fields: seq<string>)
    requires fields != []
    requires forall i :: 0 <= i < |fields| ==> '|' !in KeyParts(row, fields)[i]
    ensures SplitOn(MakeKey(row, fields), '|') == KeyParts(row, fields)
  {
    SplitJoin(KeyParts(row, fields), '|');
  }

  lemma JoinNonEmpty(parts: seq<string>, sep: string)
    requires |parts| >= 2 && sep != []
    ensures Join(parts, sep) != []
  {
  }

  /** Two or more fields give a non-empty key even when every field is blank
      ("|", "||", ...), so such rows are indexed. */
  lemma BlankFieldsKeyNonEmpty(row: Row, fields: seq<string>)
    requires |fields| >= 2
    ensures MakeKey(row, fields) != []
  {
    JoinNonEmpty(KeyParts(row, fields), "|");
  }

  // ------------------------------------------------------------ index

  /** Strictly increasing: every position appears once, in row order. */
  predicate Ascending(l: seq<nat>) {
    forall a, b :: 0 <= a < b < |l| ==> l[a] < l[b]
  }

  /** Every position listed under a key has that key; the empty key is never
      indexed. */
  lemma {:induction false} IndexSound(keys: seq<string>, k: string)
    requires k in IndexOfKeys(keys)
    ensures k != []
    ensures forall i :: i in IndexOfKeys(keys)[k] ==> i < |keys| && keys[i] == k
  {
    var n := |keys| - 1;
    var prev := IndexOfKeys(keys[..n]);
    if k in prev {
      IndexSound(keys[..n], k);
    }
  }

  /** Every position with a non-empty key is listed under it. */
  lemma {:induction false} IndexComplete(keys: seq<string>, i: nat)
    requires i < |keys| && keys[i] != []
    ensures keys[i] in IndexOfKeys(keys) && i in IndexOfKeys(keys)[keys[i]]
  {
    var n := |keys| - 1;
    if i < n {
      IndexComplete(keys[..n], i);
    }
  }

  /** Each list of positions is in row order. */
  lemma {:induction false} IndexAscending(keys: seq<string>, k: string)
    requires k in IndexOfKeys(keys)
    ensures Ascending(IndexOfKeys(keys)[k])
  {
    var n := |keys| - 1;
    var prev := IndexOfKeys(keys[..n]);
    if k in prev {
      IndexAscending(keys[..n], k);
      IndexSound(keys[..n], k);
      var l := prev[k];
      if keys[n] == k {
        assert forall a :: 0 <= a < |l| ==> l[a] in l;
        assert IndexOfKeys(keys)[k] == l + [n];
      }
    }
  }

  /** In a configured source a row position is listed under `k` exactly
      when the row's key is `k`, and `k` is not empty. */
  lemma SourceIndexMembers(rows: seq<Row>, fields: seq<string>, k: string, i: nat)
    requires fields != []
    ensures k in SourceIndex(rows, fields) && i in SourceIndex(rows, fields)[k] <==>
      k != [] && i < |rows| && MakeKey(rows[i], fields) == k
  {
    var keys := RowKeys(rows, fields);
    if k in SourceIndex(rows, fields) {
      IndexSound(keys, k);
    }
    if k != [] && i < |rows| && MakeKey(rows[i], fields) == k {
      IndexComplete(keys, i);
    }
  }

  /** The positions under each key are in row order. */
  lemma SourceIndexAscending(rows: seq<Row>, fields: seq<string>, k: string)
    requires k in SourceIndex(rows, fields)
    ensures Ascending(SourceIndex(rows, fields)[k])
  {
    IndexAscending(RowKeys(rows, fields), k);
  }

  /** A source without key fields, or not listed in the profile, gets an
      empty index. */
  lemma UnconfiguredSourceEmpty(rows: seq<Row>, profile: MatchProfile, src: string)
    requires src !in profile.srcFields || profile.srcFields[src] == []
    ensures SourceIndex(rows, FieldsOf(profile, src)) == map[]
  {
  }

  /** `j` is returned for source rows `rows` and primary row `t1Index` exactly
      when the primary row exists, has a non-empty key, the source has key
      fields, and row `j` of the source has the same key. */
  lemma MatchesIff(t1: seq<Row>, t1Index: int, profile: MatchProfile, rows: seq<Row>, src: string, j: nat)
    ensures j in MatchList(PrimaryKey(t1, t1Index, profile.t1Fields), SourceIndex(rows, FieldsOf(profile, src))) <==>
      0 <= t1Index < |t1| && MakeKey(t1[t1Index], profile.t1Fields) != [] && FieldsOf(profile, src) != [] &&
      j < |rows| && MakeKey(rows[j], FieldsOf(profile, src)) == MakeKey(t1[t1Index], profile.t1Fields)
  {
    var fields := FieldsOf(profile, src);
    if fields != [] {
      SourceIndexMembers(rows, fields, PrimaryKey(t1, t1Index, profile.t1Fields), j);
    }
  }

  /** The list returned for a source is in row order, hence free of
      duplicates. */
  lemma MatchesAscending(t1: seq<Row>, t1Index: int, profile: MatchProfile, rows: seq<Row>, src: string)
    ensures Ascending(MatchList(PrimaryKey(t1, t1Index, profile.t1Fields), SourceIndex(rows, FieldsOf(profile, src))))
  {
    var k := PrimaryKey(t1, t1Index, profile.t1Fields);
    var idx := SourceIndex(rows, FieldsOf(profile, src));
    if k != [] && k in idx {
      SourceIndexAscending(rows, FieldsOf(profile, src), k);
    }
  }
}
