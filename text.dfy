/**
 * ASCII string primitives standing in for Python's `str.strip`, `str.split`,
 * `str.join`, `str.lower`, `in` (substring) and the regex classes `\s` and `\d`.
 * Whitespace, digits and case folding are the ASCII ones.
 */
module Text {

  /** Python's `\s` / `str.isspace` restricted to ASCII. */
  predicate IsSpace(c: char) {
    c == ' ' || c == '\t' || c == '\n' || c == '\r' || c == '\U{000B}' || c == '\U{000C}'
  }

  /** `\d` restricted to ASCII. */
  predicate IsDigit(c: char) {
    '0' <= c <= '9'
  }

  /** `[a-zA-Z]`. */
  predicate IsLetter(c: char) {
    'a' <= c <= 'z' || 'A' <= c <= 'Z'
  }

  predicate NoSpace(s: string) {
    forall i :: 0 <= i < |s| ==> !IsSpace(s[i])
  }

  predicate AllSpace(s: string) {
    forall i :: 0 <= i < |s| ==> IsSpace(s[i])
  }

  predicate AllDigits(s: string) {
    forall i :: 0 <= i < |s| ==> IsDigit(s[i])
  }

  /** No whitespace at either end: what `str.strip()` returns. */
  predicate Stripped(s: string) {
    s == [] || (!IsSpace(s[0]) && !IsSpace(s[|s| - 1]))
  }

  // ---------------------------------------------------------------- strip

  function LStrip(s: string): (r: string)
    ensures |r| <= |s| && r == s[|s| - |r|..]
    ensures AllSpace(s[..|s| - |r|])
    ensures r == [] || !IsSpace(r[0])
  {
    if s != [] && IsSpace(s[0]) then
      var r := LStrip(s[1..]);
      LStripStep(s, r);
      r
    else s
  }

  /** Dropping one more leading space keeps the `LStrip` contract. */
  lemma LStripStep(s: string, r: string)
    requires s != [] && IsSpace(s[0]) && |r| <= |s| - 1
    requires r == s[1..][|s| - 1 - |r|..] && AllSpace(s[1..][..|s| - 1 - |r|])
    ensures r == s[|s| - |r|..] && AllSpace(s[..|s| - |r|])
  {
    var n := |s| - |r|;
    assert s[1..][n - 1..] == s[n..];
    forall k | 0 <= k < n ensures IsSpace(s[..n][k]) {
      if k > 0 {
        assert s[..n][k] == s[1..][..n - 1][k - 1];
      }
    }
  }

  function RStrip(s: string): (r: string)
    ensures |r| <= |s| && r == s[..|r|]
    ensures AllSpace(s[|r|..])
    ensures r == [] || !IsSpace(r[|r| - 1])
  {
    if s != [] && IsSpace(s[|s| - 1]) then
      var r := RStrip(s[..|s| - 1]);
      RStripStep(s, r);
      r
    else s
  }

  /** Dropping one more trailing space keeps the `RStrip` contract. */
  lemma RStripStep(s: string, r: string)
    requires s != [] && IsSpace(s[|s| - 1]) && |r| <= |s| - 1
    requires r == s[..|s| - 1][..|r|] && AllSpace(s[..|s| - 1][|r|..])
    ensures r == s[..|r|] && AllSpace(s[|r|..])
  {
    assert s[..|s| - 1][..|r|] == s[..|r|];
    forall k | 0 <= k < |s| - |r| ensures IsSpace(s[|r|..][k]) {
      if k < |s| - 1 - |r| {
        assert s[|r|..][k] == s[..|s| - 1][|r|..][k];
      }
    }
  }

  /** Python's `str.strip()`. */
  function Strip(s: string): (r: string)
    ensures Stripped(r) && |r| <= |s|
  {
    if s != [] && IsSpace(s[0]) then Strip(s[1..])
    else if s != [] && IsSpace(s[|s| - 1]) then Strip(s[..|s| - 1])
    else s
  }

  /** `strip` is `rstrip` after `lstrip`. */
  lemma {:induction false} StripIsBothSides(s: string)
    ensures Strip(s) == RStrip(LStrip(s))
    decreases |s|
  {
    if s != [] && IsSpace(s[0]) {
      StripIsBothSides(s[1..]);
    } else if s != [] && IsSpace(s[|s| - 1]) {
      StripIsBothSides(s[..|s| - 1]);
    }
  }

  lemma StripOfStripped(s: string)
    requires Stripped(s)
    ensures Strip(s) == s
  {
  }

  /** `strip` removes exactly whitespace: it returns a slice of `s` with only
      whitespace cut off on either side. */
  lemma StripIsSlice(s: string) returns (i: nat, j: nat)
    ensures i <= j <= |s| && Strip(s) == s[i..j] && AllSpace(s[..i]) && AllSpace(s[j..])
  {
    StripIsBothSides(s);
    i, j := BothSidesSlice(s);
  }

  lemma BothSidesSlice(s: string) returns (i: nat, j: nat)
    ensures i <= j <= |s| && RStrip(LStrip(s)) == s[i..j] && AllSpace(s[..i]) && AllSpace(s[j..])
  {
    var l := LStrip(s);
    i := |s| - |l|;
    var r := RStrip(l);
    j := i + |r|;
    assert l == s[i..] && AllSpace(s[..i]);
    assert r == l[..|r|] && AllSpace(l[|r|..]);
    SliceOfSuffix(s, i, |r|);
    assert r == s[i..j] by {
      assert r == s[i..][..|r|];
    }
    assert AllSpace(s[j..]) by {
      assert l[|r|..] == s[i..][|r|..];
    }
  }

  lemma SliceOfSuffix(s: string, i: nat, k: nat)
    requires i + k <= |s|
    ensures s[i..][..k] == s[i..i + k] && s[i..][k..] == s[i + k..]
  {
  }

  lemma LStripOfNonSpaceHead(s: string)
    requires s == [] || !IsSpace(s[0])
    ensures LStrip(s) == s
  {
  }

  lemma {:induction false} LStripSpacePrefix(sp: string, x: string)
    requires AllSpace(sp)
    ensures LStrip(sp + x) == LStrip(x)
  {
    if sp != [] {
      assert (sp + x)[1..] == sp[1..] + x;
      LStripSpacePrefix(sp[1..], x);
    } else {
      assert sp + x == x;
    }
  }

  lemma {:induction false} RStripSpaceSuffix(x: string, sp: string)
    requires AllSpace(sp)
    ensures RStrip(x + sp) == RStrip(x)
  {
    if sp != [] {
      assert (x + sp)[..|x + sp| - 1] == x + sp[..|sp| - 1];
      RStripSpaceSuffix(x, sp[..|sp| - 1]);
    } else {
      assert x + sp == x;
    }
  }

  /** Cutting trailing whitespace never reaches into a prefix that is followed
      by a non-space character. */
  lemma {:induction false} RStripAppend(a: string, b: string)
    requires !AllSpace(b)
    ensures RStrip(a + b) == a + RStrip(b)
  {
    if IsSpace(b[|b| - 1]) {
      assert (a + b)[..|a + b| - 1] == a + b[..|b| - 1];
      RStripAppend(a, b[..|b| - 1]);
    }
  }

  // ---------------------------------------------------------------- words

  /** The longest prefix of `s` free of whitespace. */
  function Word(s: string): (w: string)
    ensures |w| <= |s| && w == s[..|w|] && NoSpace(w)
    ensures |w| < |s| ==> IsSpace(s[|w|])
  {
    if s == [] || IsSpace(s[0]) then [] else [s[0]] + Word(s[1..])
  }

  /** Python's `str.split()` with no separator: the maximal whitespace-free
      runs, in order, with no empty strings. */
  function Words(s: string): (ws: seq<string>)
    ensures forall k :: 0 <= k < |ws| ==> ws[k] != [] && NoSpace(ws[k])
    decreases |s|
  {
    var t := LStrip(s);
    if t == [] then []
    else
      var w := Word(t);
      [w] + Words(t[|w|..])
  }

  /** Python's `sep.join(parts)`. */
  function Join(parts: seq<string>, sep: string): string {
    if |parts| == 0 then []
    else if |parts| == 1 then parts[0]
    else parts[0] + sep + Join(parts[1..], sep)
  }

  lemma ConcatAssoc(a: string, b: string, c: string)
    ensures a + b + c == a + (b + c)
  {
  }

  lemma JoinCons(w: string, ws: seq<string>, sep: string)
    requires ws != []
    ensures Join([w] + ws, sep) == w + sep + Join(ws, sep)
  {
    assert ([w] + ws)[1..] == ws;
  }

  /** Position of the first `c` in `s`. */
  function IndexOf(s: string, c: char): (i: nat)
    requires c in s
    ensures i < |s| && s[i] == c && c !in s[..i]
  {
    if s[0] == c then 0
    else
      var j := IndexOf(s[1..], c);
      assert s[..j + 1] == [s[0]] + s[1..][..j];
      j + 1
  }

  /** `IndexOf` finds the first occurrence. */
  lemma IndexOfAt(s: string, c: char, i: nat)
    requires i < |s| && s[i] == c && c !in s[..i]
    ensures IndexOf(s, c) == i
  {
  }

  /** Python's `s.split(c)` for a one-character separator. */
  function SplitOn(s: string, c: char): (parts: seq<string>)
    ensures |parts| >= 1
    decreases |s|
  {
    if c !in s then [s]
    else
      var i := IndexOf(s, c);
      [s[..i]] + SplitOn(s[i + 1..], c)
  }

  /** Splitting on the separator undoes joining with it, as long as no part
      contains the separator. */
  lemma {:induction false} SplitJoin(parts: seq<string>, c: char)
    requires parts != [] && forall k :: 0 <= k < |parts| ==> c !in parts[k]
    ensures SplitOn(Join(parts, [c]), c) == parts
  {
    if |parts| > 1 {
      var p := parts[0];
      var rest := Join(parts[1..], [c]);
      assert c !in p;
      SplitOnFirst(p, c, rest);
      SplitJoin(parts[1..], c);
      assert parts == [p] + parts[1..];
    }
  }

  lemma SplitOnFirst(p: string, c: char, rest: string)
    requires c !in p
    ensures SplitOn(p + [c] + rest, c) == [p] + SplitOn(rest, c)
  {
    var s := p + [c] + rest;
    assert s[|p|] == c;
    assert s[..|p|] == p;
    IndexOfAt(s, c, |p|);
    assert s[|p| + 1..] == rest;
  }

  /** Joining the parts of a split gives back the text. */
  lemma {:induction false} JoinSplit(s: string, c: char)
    ensures Join(SplitOn(s, c), [c]) == s
    decreases |s|
  {
    if c in s {
      var i := IndexOf(s, c);
      var rest := SplitOn(s[i + 1..], c);
      JoinSplit(s[i + 1..], c);
      JoinCons(s[..i], rest, [c]);
      assert s == s[..i] + [c] + s[i + 1..];
    }
  }

  // ---------------------------------------------------------------- case, digits

  function LowerChar(c: char): char {
    if 'A' <= c <= 'Z' then (c as int + 32) as char else c
  }

  /** Python's `str.lower()` on ASCII letters. */
  function Lower(s: string): (r: string)
    ensures |r| == |s| && forall i :: 0 <= i < |s| ==> r[i] == LowerChar(s[i])
  {
    seq(|s|, i requires 0 <= i < |s| => LowerChar(s[i]))
  }

  lemma LowerIdempotent(s: string)
    ensures Lower(Lower(s)) == Lower(s)
  {
  }

  /** Folding case keeps every whitespace character where it is. */
  lemma LowerKeepsSpaces(s: string)
    ensures forall i :: 0 <= i < |s| ==> (IsSpace(Lower(s)[i]) <==> IsSpace(s[i]))
  {
  }

  /** The digits of `s`, in order: `re.sub(r"\D+", "", s)`. */
  function Digits(s: string): (r: string)
    ensures AllDigits(r) && |r| <= |s|
  {
    if s == [] then []
    else
      var rest := Digits(s[1..]);
      if IsDigit(s[0]) then [s[0]] + rest else rest
  }

  lemma {:induction false} DigitsAppend(a: string, b: string)
    ensures Digits(a + b) == Digits(a) + Digits(b)
  {
    if a != [] {
      assert (a + b)[1..] == a[1..] + b;
      DigitsAppend(a[1..], b);
    } else {
      assert a + b == b;
    }
  }

  lemma {:induction false} DigitsOfDigits(s: string)
    requires AllDigits(s)
    ensures Digits(s) == s
  {
    if s != [] {
      DigitsOfDigits(s[1..]);
    }
  }

  // ---------------------------------------------------------------- substrings

  predicate OccursAt(hay: string, needle: string, i: int) {
    0 <= i && i + |needle| <= |hay| && hay[i..i + |needle|] == needle
  }

  /** Python's `needle in hay`. */
  predicate Contains(hay: string, needle: string) {
    exists i :: 0 <= i <= |hay| - |needle| && OccursAt(hay, needle, i)
  }

  function StartsWith(s: string, prefix: string): bool {
    |prefix| <= |s| && s[..|prefix|] == prefix
  }

  // ---------------------------------------------------------------- numbers

  function DigitChar(d: nat): char
    requires d < 10
  {
    ('0' as int + d) as char
  }

  /** Python's `str(n)` for a natural number. */
  function NatToString(n: nat): (r: string)
    ensures r != [] && AllDigits(r)
  {
    if n < 10 then [DigitChar(n)] else NatToString(n / 10) + [DigitChar(n % 10)]
  }

  /** `n` in decimal, left-padded with zeros to at least `width` characters. */
  function ZeroPad(n: nat, width: nat): (r: string)
    ensures AllDigits(r) && |r| >= width
  {
    var s := NatToString(n);
    if |s| >= width then s else seq(width - |s|, _ => '0') + s
  }
}
