/**
 * The value transforms of app/services/transforms.py: splitting a street
 * line into street and house number, normalising a phone number, and the
 * guard in front of the postcode-to-state lookup.
 */
module Transforms {
  import opened Text
  import opened Wrappers

  // ------------------------------------------------------------ house numbers

  /** One unit of a house number, `\d+[a-zA-Z]?`, matched in full. */
  predicate IsUnit(u: string) {
    exists k :: 1 <= k <= |u| && AllDigits(u[..k]) && (k == |u| || (k + 1 == |u| && IsLetter(u[k])))
  }

  predicate IsRangeSep(c: char) {
    c == '-' || c == '/'
  }

  /** The house-number group of the pattern, `\d+[a-zA-Z]?(?:[-/]\d+[a-zA-Z]?)?`,
      matched in full. */
  predicate IsHouseNumber(h: string) {
    IsUnit(h) || exists j :: 0 < j < |h| && IsRangeSep(h[j]) && IsUnit(h[..j]) && IsUnit(h[j + 1..])
  }

  /** The number of leading digits of `s`. */
  function LeadDigits(s: string): (n: nat)
    ensures n <= |s| && AllDigits(s[..n])
    ensures n < |s| ==> !IsDigit(s[n])
  {
    if s == [] || !IsDigit(s[0]) then 0
    else
      var m := LeadDigits(s[1..]);
      assert s[..m + 1] == [s[0]] + s[1..][..m];
      m + 1
  }

  /** The length of the unit a left-to-right scanner reads at the start of
      `s`: the digits and at most one letter; 0 when `s` does not start with a
      digit. */
  function UnitLength(s: string): nat {
    var n := LeadDigits(s);
    if n == 0 then 0
    else if n < |s| && IsLetter(s[n]) then n + 1
    else n
  }

  /** The house-number group, recognised by a single left-to-right scan. */
  predicate ScanHouseNumber(h: string) {
    var m := UnitLength(h);
    m > 0 && (m == |h| || (IsRangeSep(h[m]) && UnitLength(h[m + 1..]) == |h| - m - 1 > 0))
  }

  lemma UnitScan(u: string)
    ensures IsUnit(u) <==> UnitLength(u) == |u| > 0
  {
    var n := LeadDigits(u);
    if IsUnit(u) {
      var k :| 1 <= k <= |u| && AllDigits(u[..k]) && (k == |u| || (k + 1 == |u| && IsLetter(u[k])));
      assert IsDigit(u[0]) by { assert u[..k][0] == u[0]; }
    }
    if UnitLength(u) == |u| > 0 {
      assert 1 <= n <= |u|;
      assert n == |u| || (n + 1 == |u| && IsLetter(u[n]));
    }
  }

  /** The unit a scanner reads at the start of a unit-prefixed string is that
      unit: a unit cannot be followed by more digits or letters. */
  lemma UnitPrefixScan(h: string, j: int)
    requires 0 < j < |h| && IsRangeSep(h[j]) && IsUnit(h[..j])
    ensures UnitLength(h) == j
  {
    var u := h[..j];
    UnitScan(u);
    var n := LeadDigits(u);
    assert LeadDigits(h) == n by {
      LeadDigitsPrefix(h, j);
    }
  }

  /** Leading digits of a prefix that ends in a non-digit beyond them. */
  lemma {:induction false} LeadDigitsPrefix(h: string, j: int)
    requires 0 <= j < |h| && !IsDigit(h[j])
    ensures LeadDigits(h) == LeadDigits(h[..j])
    decreases j
  {
    if j > 0 && IsDigit(h[0]) {
      LeadDigitsPrefix(h[1..], j - 1);
      assert h[1..][..j - 1] == h[..j][1..];
    }
  }

  /** The regex group and the scanner accept the same strings. */
  lemma HouseNumberScan(h: string)
    ensures IsHouseNumber(h) <==> ScanHouseNumber(h)
  {
    var m := UnitLength(h);
    UnitScan(h);
    if IsHouseNumber(h) && !IsUnit(h) {
      var j :| 0 < j < |h| && IsRangeSep(h[j]) && IsUnit(h[..j]) && IsUnit(h[j + 1..]);
      UnitPrefixScan(h, j);
      UnitScan(h[j + 1..]);
    }
    if ScanHouseNumber(h) && m < |h| {
      UnitScan(h[..m]);
      assert UnitLength(h[..m]) == m by {
        LeadDigitsPrefix(h, m);
        UnitLengthOfPrefix(h, m);
      }
      UnitScan(h[m + 1..]);
      assert IsUnit(h[..m]) && IsUnit(h[m + 1..]);
    }
  }

  lemma UnitLengthOfPrefix(h: string, m: int)
    requires 0 < m < |h| && m == UnitLength(h) && IsRangeSep(h[m])
    ensures UnitLength(h[..m]) == m
  {
    LeadDigitsPrefix(h, m);
    var n := LeadDigits(h);
    if n < m {
      assert h[..m][n] == h[n];
    }
  }

  /** A house number contains no whitespace (and starts with a digit). */
  lemma HouseNumberNoSpace(h: string)
    requires IsHouseNumber(h)
    ensures h != [] && IsDigit(h[0]) && NoSpace(h)
  {
    HouseNumberScan(h);
    var n := LeadDigits(h);
    assert h[..n][0] == h[0];
    forall i | 0 <= i < |h| ensures !IsSpace(h[i]) {
      var m := UnitLength(h);
      if i < n {
        assert h[..n][i] == h[i];
      } else if i >= m + 1 {
        var t := h[m + 1..];
        var n2 := LeadDigits(t);
        assert t[i - m - 1] == h[i];
        if i - m - 1 < n2 {
          assert t[..n2][i - m - 1] == h[i];
        }
      }
    }
  }

  // ------------------------------------------------------------ split_street_house

  predicate NoNewline(s: string) {
    forall i :: 0 <= i < |s| ==> s[i] != '\n'
  }

  /** The maximal whitespace-free suffix of `s`. */
  function LastToken(s: string): (t: string)
    ensures |t| <= |s| && t == s[|s| - |t|..] && NoSpace(t)
    ensures |t| < |s| ==> IsSpace(s[|s| - |t| - 1])
  {
    if s == [] || IsSpace(s[|s| - 1]) then []
    else
      var t := LastToken(s[..|s| - 1]);
      LastTokenStep(s, |t|);
      t + [s[|s| - 1]]
  }

  lemma LastTokenStep(s: string, k: nat)
    requires k < |s|
    ensures s[..|s| - 1][|s| - 1 - k..] + [s[|s| - 1]] == s[|s| - k - 1..]
  {
  }

  /** The regular expression `^(.*?)\s+(HN)\s*$` matches the stripped text `s`
      with group 1 = `s[..i]` and group 2 = `s[j..]` (`.` stops at a newline;
      the trailing `\s*` is empty because `s` is stripped). */
  predicate MatchAt(s: string, i: int, j: int) {
    0 <= i < j < |s| && NoNewline(s[..i]) && AllSpace(s[i..j]) && IsHouseNumber(s[j..])
  }

  /** The split of an already stripped, non-empty text. */
  function SplitStripped(s: string): (string, string)
    requires s != []
  {
    var h := LastToken(s);
    var pre := s[..|s| - |h|];
    var street := RStrip(pre);
    if pre != [] && IsHouseNumber(h) && NoNewline(street) then (street, h) else (s, [])
  }

  /** `split_street_house`: the street part and the house-number part. */
  function SplitStreetHouse(value: Option<string>): (string, string)
  {
    match value
    case None => ([], [])
    case Some(v) =>
      var s := Strip(v);
      if s == [] then ([], []) else SplitStripped(s)
  }

  /** `None` and blank input give two empty parts. */
  lemma SplitBlank(value: Option<string>)
    requires value == None || AllSpace(value.value)
    ensures SplitStreetHouse(value) == ([], [])
  {
    if value.Some? {
      StripIsBothSides(value.value);
      LStripSpacePrefix(value.value, []);
      assert value.value + [] == value.value;
    }
  }

  /** A regex match fixes its house group to the last token and its street
      group to at least everything before the whitespace run. */
  lemma MatchAtIsLastToken(s: string, i: int, j: int)
    requires Stripped(s) && MatchAt(s, i, j)
    ensures j == |s| - |LastToken(s)|
    ensures i >= |RStrip(s[..j])| && RStrip(s[..j]) == s[..|RStrip(s[..j])|]
  {
    var h := LastToken(s);
    HouseNumberNoSpace(s[j..]);
    assert IsSpace(s[j - 1]) by { assert s[i..j][j - 1 - i] == s[j - 1]; }
  }

  lemma NoNewlinePrefix(s: string, i: int, k: int)
    requires 0 <= k <= i <= |s| && NoNewline(s[..i])
    ensures NoNewline(s[..k])
  {
    assert forall m :: 0 <= m < k ==> s[..k][m] == s[..i][m];
  }

  /** `split_street_house` is the regular expression, first half: when the
      house part is non-empty, the pattern matches with the returned parts as
      its groups, and no match has a shorter (lazy) street group. */
  lemma SplitFoundMatch(s: string)
    requires Stripped(s) && s != [] && SplitStripped(s).1 != []
    ensures var r := SplitStripped(s);
      MatchAt(s, |r.0|, |s| - |r.1|) && r.0 == s[..|r.0|] && r.1 == s[|s| - |r.1|..] &&
      forall i, j :: MatchAt(s, i, j) ==> |r.0| <= i
  {
    var h := LastToken(s);
    var j := |s| - |h|;
    var pre := s[..j];
    var st := RStrip(pre);
    assert st == s[..|st|];
    assert AllSpace(s[|st|..j]) by { assert s[|st|..j] == pre[|st|..]; }
    forall i, j' | MatchAt(s, i, j') ensures |st| <= i {
      MatchAtIsLastToken(s, i, j');
    }
  }

  /** Second half: when the house part is empty, the pattern does not match
      and the street part is the whole text. */
  lemma SplitFoundNoMatch(s: string)
    requires Stripped(s) && s != [] && SplitStripped(s).1 == []
    ensures SplitStripped(s).0 == s
    ensures forall i, j :: !MatchAt(s, i, j)
  {
    forall i, j | MatchAt(s, i, j) ensures false {
      MatchGivesHouse(s, i, j);
    }
  }

  /** Any match of the pattern makes the house part non-empty. */
  lemma MatchGivesHouse(s: string, i: int, j: int)
    requires Stripped(s) && MatchAt(s, i, j)
    ensures SplitStripped(s).1 != []
  {
    var h := LastToken(s);
    var pre := s[..|s| - |h|];
    var st := RStrip(pre);
    MatchAtIsLastToken(s, i, j);
    NoNewlinePrefix(s, i, |st|);
    assert h == s[j..];
  }

  /** A stripped text is split as it is. */
  lemma SplitOfStripped(s: string)
    requires Stripped(s) && s != []
    ensures SplitStreetHouse(Some(s)) == SplitStripped(s)
  {
    StripOfStripped(s);
  }

  /** On a match the house part is the last whitespace-separated token and has
      the house-number form; the street part is non-empty, stripped and holds
      no newline. */
  lemma SplitParts(value: Option<string>)
    requires SplitStreetHouse(value).1 != []
    ensures var r := SplitStreetHouse(value);
      IsHouseNumber(r.1) && r.1 == LastToken(Strip(value.value)) &&
      r.0 != [] && Stripped(r.0) && NoNewline(r.0)
  {
    SplitStrippedParts(Strip(value.value));
  }

  lemma SplitStrippedParts(s: string)
    requires Stripped(s) && s != [] && SplitStripped(s).1 != []
    ensures var r := SplitStripped(s);
      IsHouseNumber(r.1) && r.1 == LastToken(s) && r.0 != [] && Stripped(r.0) && NoNewline(r.0)
  {
    var pre := s[..|s| - |LastToken(s)|];
    assert pre[0] == s[0];
  }

  /** The last token of a text ending in a space followed by a word is that
      word. */
  lemma {:induction false} LastTokenAfterSpace(a: string, w: string)
    requires a != [] && IsSpace(a[|a| - 1]) && NoSpace(w)
    ensures LastToken(a + w) == w
    decreases |w|
  {
    if w == [] {
      assert a + w == a;
    } else {
      var p := w[..|w| - 1];
      assert (a + w)[..|a + w| - 1] == a + p;
      LastTokenAfterSpace(a, p);
      assert p + [w[|w| - 1]] == w;
    }
  }

  /** A street and a house number separated by one space split back into the
      two. */
  lemma SplitJoined(street: string, h: string)
    requires street != [] && Stripped(street) && NoNewline(street) && IsHouseNumber(h)
    ensures SplitStreetHouse(Some(street + [' '] + h)) == (street, h)
  {
    HouseNumberNoSpace(h);
    var a := street + [' '];
    var s := a + h;
    assert Stripped(s) by { assert s[0] == street[0]; assert s[|s| - 1] == h[|h| - 1]; }
    StripOfStripped(s);
    LastTokenAfterSpace(a, h);
    assert s[..|s| - |h|] == a;
    RStripSpaceSuffix(street, [' ']);
    assert RStrip(street) == street;
  }

  lemma SplitExampleWithNumber()
    ensures SplitStreetHouse(Some("Main Street 12a")) == ("Main Street", "12a")
  {
    var street := "Main Street";
    var h := "12a";
    assert IsUnit(h) by { assert AllDigits(h[..2]); }
    assert IsHouseNumber(h);
    SplitJoined(street, h);
    assert street + [' '] + h == "Main Street 12a";
  }

  /** A text whose last token does not start with a digit is all street. */
  lemma SplitWithoutNumber(a: string, w: string)
    requires a != [] && IsSpace(a[|a| - 1]) && w != [] && NoSpace(w) && !IsDigit(w[0])
    requires !IsSpace(a[0])
    ensures SplitStreetHouse(Some(a + w)) == (a + w, [])
  {
    var s := a + w;
    assert Stripped(s) by { assert s[0] == a[0]; assert s[|s| - 1] == w[|w| - 1]; }
    StripOfStripped(s);
    LastTokenAfterSpace(a, w);
    if IsHouseNumber(w) {
      HouseNumberNoSpace(w);
    }
  }

  /** Without a trailing house token the whole stripped input is the street. */
  lemma SplitExampleWithoutNumber()
    ensures SplitStreetHouse(Some("Main Street")) == ("Main Street", "")
  {
    var a, w := "Main ", "Street";
    assert a + w == "Main Street";
    SplitWithoutNumber(a, w);
  }

  // ------------------------------------------------------------ normalize_phone

  /** `normalize_phone`: the digits of the stripped input, with a `+` in front
      when the stripped input starts with one; blank input gives "". */
  function NormalizePhone(value: Option<string>): string {
    match value
    case None => []
    case Some(v) =>
      var s := Strip(v);
      if s == [] then []
      else if s[0] == '+' then ['+'] + Digits(s)
      else Digits(s)
  }

  lemma {:induction false} DigitsOfSpaces(s: string)
    requires AllSpace(s)
    ensures Digits(s) == []
  {
    if s != [] {
      DigitsOfSpaces(s[1..]);
    }
  }

  lemma DigitsOfLStrip(s: string)
    ensures Digits(LStrip(s)) == Digits(s)
  {
    var l := LStrip(s);
    var sp := s[..|s| - |l|];
    assert s == sp + l;
    DigitsAppend(sp, l);
    DigitsOfSpaces(sp);
  }

  lemma DigitsOfRStrip(s: string)
    ensures Digits(RStrip(s)) == Digits(s)
  {
    var r := RStrip(s);
    var sp := s[|r|..];
    assert s == r + sp;
    DigitsAppend(r, sp);
    DigitsOfSpaces(sp);
  }

  /** Stripping whitespace removes no digit. */
  lemma DigitsOfStrip(s: string)
    ensures Digits(Strip(s)) == Digits(s)
  {
    StripIsBothSides(s);
    DigitsOfLStrip(s);
    DigitsOfRStrip(LStrip(s));
  }

  /** The output is all digits, with a leading `+` exactly when the stripped
      input starts with one, and its digits are exactly the input's digits. */
  lemma PhoneShape(value: Option<string>)
    ensures var r := NormalizePhone(value);
      (value == None || Strip(value.value) == [] ==> r == []) &&
      (value != None && Strip(value.value) != [] ==>
        (r != [] && r[0] == '+' <==> Strip(value.value)[0] == '+')) &&
      (r != [] && r[0] == '+' ==> AllDigits(r[1..])) &&
      (r == [] || r[0] != '+' ==> AllDigits(r)) &&
      (value != None ==> Digits(r) == Digits(value.value))
  {
    if value.Some? {
      var s := Strip(value.value);
      DigitsOfStrip(value.value);
      if s != [] && s[0] == '+' {
        var d := Digits(s);
        assert ['+'] + d == [] + ['+'] + d;
        DigitsAppend(['+'], d);
        DigitsOfDigits(d);
        assert (['+'] + d)[1..] == d;
      } else if s != [] {
        DigitsOfDigits(Digits(s));
        if s == [] {
        } else {
          assert Digits(s) == [] || Digits(s)[0] != '+';
        }
      } else {
        assert NormalizePhone(value) == [];
      }
    }
  }

  /** Normalising a normalised phone number changes nothing. */
  lemma PhoneIdempotent(value: Option<string>)
    ensures NormalizePhone(Some(NormalizePhone(value))) == NormalizePhone(value)
  {
    var r := NormalizePhone(value);
    PhoneShape(value);
    if r != [] {
      assert Stripped(r) by {
        assert !IsSpace(r[0]);
        if r[0] == '+' {
          if |r| > 1 { assert r[1..][|r| - 2] == r[|r| - 1]; }
        }
      }
      StripOfStripped(r);
      if r[0] == '+' {
        DigitsOfDigits(r[1..]);
        assert r == ['+'] + r[1..];
        DigitsAppend(['+'], r[1..]);
      } else {
        DigitsOfDigits(r);
      }
    }
  }

  /** A stripped number with a leading `+` keeps the `+` and its digits. */
  lemma PhoneWithPlus(s: string)
    requires s != [] && Stripped(s) && s[0] == '+'
    ensures NormalizePhone(Some(s)) == ['+'] + Digits(s)
  {
    StripOfStripped(s);
  }

  lemma DigitsOfThree(a: string, b: string, c: string)
    ensures Digits(a + (b + c)) == Digits(a) + (Digits(b) + Digits(c))
  {
    DigitsAppend(a, b + c);
    DigitsAppend(b, c);
  }

  lemma DigitsOfCountryCode()
    ensures Digits("+49 (0)") == "490"
  {
  }

  lemma DigitsOfAreaCode()
    ensures Digits("30-") == "30"
  {
  }

  lemma DigitsOfLine()
    ensures Digits("1234567") == "1234567"
  {
    DigitsOfDigits("1234567");
  }

  lemma PartsOfExample()
    ensures "+49 (0)" + ("30-" + "1234567") == "+49 (0)30-1234567"
    ensures ['+'] + ("490" + ("30" + "1234567")) == "+490301234567"
  {
  }

  /** Every digit is kept, including a trunk zero in parentheses. */
  lemma PhoneExample()
    ensures NormalizePhone(Some("+49 (0)30-1234567")) == "+490301234567"
  {
    PhoneWithPlus("+49 (0)30-1234567");
    PartsOfExample();
    DigitsOfThree("+49 (0)", "30-", "1234567");
    DigitsOfCountryCode();
    DigitsOfAreaCode();
    DigitsOfLine();
  }

  // ------------------------------------------------------------ state_from_zip_de

  /** What the postal-code database returns for a code: its `state_name` and
      `state` attributes, each `None` when absent or not a string. */
  datatype PostalRecord = PostalRecord(stateName: Option<string>, state: Option<string>)

  /** The postal-code database: unavailable when the library cannot be
      imported, otherwise a lookup from a 5-digit code to a record. */
  datatype Geocoder = Unavailable | Available(query: string -> PostalRecord)

  /** The first attribute whose stripped text is non-empty, stripped. */
  function StateOf(rec: PostalRecord): Option<string> {
    if rec.stateName.Some? && Strip(rec.stateName.value) != [] then Some(Strip(rec.stateName.value))
    else if rec.state.Some? && Strip(rec.state.value) != [] then Some(Strip(rec.state.value))
    else None
  }

  /** `state_from_zip_de`: `None` without the database, for an empty input,
      or unless the input has exactly five digits; otherwise the state the
      database gives for those digits, stripped and non-empty. */
  function StateFromZipDe(zip: Option<string>, geo: Geocoder): (r: Option<string>)
    ensures r.Some? ==> geo.Available? && zip.Some? && |Digits(zip.value)| == 5
    ensures r.Some? ==> r.value != [] && Stripped(r.value)
  {
    if geo.Unavailable? then None
    else if zip == None || zip.value == [] then None
    else
      var z := Digits(zip.value);
      if |z| != 5 then None
      else StateOf(geo.query(z))
  }

  /** The lookup sees only the digits: two inputs with the same digits give
      the same answer. */
  lemma StateDependsOnDigitsOnly(a: string, b: string, geo: Geocoder)
    requires a != [] && b != [] && Digits(a) == Digits(b)
    ensures StateFromZipDe(Some(a), geo) == StateFromZipDe(Some(b), geo)
  {
  }
}
