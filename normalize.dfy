/**
 * The Normalizer of app/services/normalize.py: text normalisation, key
 * normalisation (optionally without leading zeros) and the missing-token
 * predicate every other component relies on.
 */
module Normalize {
  import opened Text
  import opened Wrappers

  /** The textual artefacts of a spreadsheet export that count as "no value". */
  const MissingTokens: set<string> := {"", "nan", "none", "-", "n/a", "null"}

  /** `re.sub(r"\s+", " ", s)`: every maximal run of whitespace becomes one space. */
  function CollapseSpaces(s: string): string
    decreases |s|
  {
    if s == [] then []
    else if IsSpace(s[0]) then [' '] + CollapseSpaces(LStrip(s))
    else [s[0]] + CollapseSpaces(s[1..])
  }

  /** Every whitespace character is a plain space and no two are adjacent. */
  predicate Collapsed(s: string) {
    forall i :: 0 <= i < |s| && IsSpace(s[i]) ==> s[i] == ' ' && (i + 1 < |s| ==> !IsSpace(s[i + 1]))
  }

  /** `norm_text`: strip, then collapse inner whitespace; `None` gives "". */
  function NormText(v: Option<string>): string {
    match v
    case None => []
    case Some(s) => CollapseSpaces(Strip(s))
  }

  /** `s.lstrip("0")`. */
  function StripLeadingZeros(s: string): (r: string)
    ensures r == [] || r[0] != '0'
    ensures |r| <= |s| && r == s[|s| - |r|..]
  {
    if s != [] && s[0] == '0' then StripLeadingZeros(s[1..]) else s
  }

  /** `norm_key`: `norm_text`, and without leading zeros unless they are kept. */
  function NormKey(v: Option<string>, keepLeadingZeros: bool): (r: string)
    ensures !keepLeadingZeros ==> r == [] || r[0] != '0'
  {
    var s := NormText(v);
    if keepLeadingZeros then s else StripLeadingZeros(s)
  }

  /** `is_missing`: the case-folded normal text is one of the missing tokens. */
  predicate IsMissing(v: Option<string>) {
    Lower(NormText(v)) in MissingTokens
  }

  // ------------------------------------------------------------ collapse

  lemma {:induction false} CollapseKeepsLast(s: string)
    requires s != [] && !IsSpace(s[|s| - 1])
    ensures CollapseSpaces(s) != [] && !IsSpace(CollapseSpaces(s)[|CollapseSpaces(s)| - 1])
    decreases |s|
  {
    if IsSpace(s[0]) {
      CollapseKeepsLast(LStrip(s));
    } else if |s| > 1 {
      CollapseKeepsLast(s[1..]);
    }
  }

  lemma {:induction false} CollapseIsCollapsed(s: string)
    ensures Collapsed(CollapseSpaces(s))
    decreases |s|
  {
    if s == [] {
    } else if IsSpace(s[0]) {
      var t := LStrip(s);
      CollapseIsCollapsed(t);
      if t != [] {
        assert CollapseSpaces(t)[0] == t[0];
      }
    } else {
      CollapseIsCollapsed(s[1..]);
    }
  }

  /** The tail of collapsed text is collapsed. */
  lemma CollapsedTail(s: string)
    requires s != [] && Collapsed(s)
    ensures Collapsed(s[1..])
  {
    forall i | 0 <= i < |s[1..]| && IsSpace(s[1..][i])
      ensures s[1..][i] == ' ' && (i + 1 < |s[1..]| ==> !IsSpace(s[1..][i + 1]))
    {
      assert s[1..][i] == s[i + 1];
    }
  }

  /** A leading space of collapsed text is a single plain space. */
  lemma CollapsedSpaceHead(s: string)
    requires s != [] && Collapsed(s) && IsSpace(s[0])
    ensures s[0] == ' ' && LStrip(s) == s[1..]
  {
    assert LStrip(s) == LStrip(s[1..]);
    LStripOfNonSpaceHead(s[1..]);
  }

  lemma {:induction false} CollapseOfCollapsed(s: string)
    requires Collapsed(s)
    ensures CollapseSpaces(s) == s
    decreases |s|
  {
    if s != [] {
      CollapsedTail(s);
      if IsSpace(s[0]) {
        CollapsedSpaceHead(s);
      }
      CollapseOfCollapsed(s[1..]);
    }
  }

  /** Collapsing leaves a whitespace-free word in front untouched. */
  lemma {:induction false} CollapseAfterWord(w: string, x: string)
    requires NoSpace(w)
    ensures CollapseSpaces(w + x) == w + CollapseSpaces(x)
  {
    if w == [] {
      assert w + x == x;
    } else {
      assert (w + x)[1..] == w[1..] + x;
      CollapseAfterWord(w[1..], x);
    }
  }

  /** Collapsing neither creates nor removes the presence of whitespace. */
  lemma {:induction false} CollapseNoSpace(s: string)
    ensures NoSpace(CollapseSpaces(s)) <==> NoSpace(s)
    decreases |s|
  {
    if s != [] && !IsSpace(s[0]) {
      CollapseNoSpace(s[1..]);
      assert NoSpace(s) <==> NoSpace(s[1..]) by {
        if NoSpace(s[1..]) {
          forall i | 0 <= i < |s| ensures !IsSpace(s[i]) {
            if i > 0 { assert s[i] == s[1..][i - 1]; }
          }
        }
      }
      var c := CollapseSpaces(s[1..]);
      assert CollapseSpaces(s) == [s[0]] + c;
      assert NoSpace([s[0]] + c) <==> NoSpace(c) by {
        if NoSpace(c) {
          forall i | 0 <= i < |c| + 1 ensures !IsSpace(([s[0]] + c)[i]) {
            if i > 0 { assert ([s[0]] + c)[i] == c[i - 1]; }
          }
        }
        if NoSpace([s[0]] + c) {
          forall i | 0 <= i < |c| ensures !IsSpace(c[i]) {
            assert c[i] == ([s[0]] + c)[i + 1];
          }
        }
      }
    } else if s != [] {
      assert !NoSpace(CollapseSpaces(s)) by {
        assert CollapseSpaces(s)[0] == ' ';
      }
    }
  }

  // ------------------------------------------------------------ norm_text

  /** `norm_text(None) == ""`; otherwise the result has no whitespace at either
      end, no whitespace other than single spaces, and no two in a row. */
  lemma NormTextIsNormal(v: Option<string>)
    ensures v == None ==> NormText(v) == []
    ensures Stripped(NormText(v)) && Collapsed(NormText(v))
  {
    if v.Some? {
      var t := Strip(v.value);
      CollapseIsCollapsed(t);
      if t != [] {
        CollapseKeepsLast(t);
        assert CollapseSpaces(t)[0] == t[0];
      }
    }
  }

  /** `norm_text` is idempotent. */
  lemma NormTextIdempotent(v: Option<string>)
    ensures NormText(Some(NormText(v))) == NormText(v)
  {
    var t := NormText(v);
    NormTextIsNormal(v);
    StripOfStripped(t);
    CollapseOfCollapsed(t);
  }

  lemma WordsSkipLeadingSpaces(sp: string, u: string)
    requires AllSpace(sp) && (u == [] || !IsSpace(u[0]))
    ensures Words(sp + u) == Words(u)
  {
    LStripSpacePrefix(sp, u);
    LStripOfNonSpaceHead(u);
  }

  lemma CollapseSpaceRun(sp: string, x: string)
    requires sp != [] && AllSpace(sp) && (x == [] || !IsSpace(x[0]))
    ensures CollapseSpaces(sp + x) == [' '] + CollapseSpaces(x)
  {
    LStripSpacePrefix(sp, x);
    LStripOfNonSpaceHead(x);
  }

  lemma RStripKeepsHead(u: string)
    requires u != [] && !IsSpace(u[0])
    ensures RStrip(u) != [] && RStrip(u)[0] == u[0]
  {
  }

  /** The right-stripped form of `w + sp + u`, for a word `w`, a space run `sp`
      and a remainder `u` that starts with a non-space character. */
  lemma RStripWordSpacesRest(w: string, sp: string, u: string)
    requires u != [] && !IsSpace(u[0])
    ensures RStrip(w + (sp + u)) == w + (sp + RStrip(u))
  {
    assert !AllSpace(u) by { assert !IsSpace(u[0]); }
    assert !AllSpace(sp + u) by { assert (sp + u)[|sp|] == u[0]; }
    RStripAppend(w, sp + u);
    RStripAppend(sp, u);
  }

  /** Last word: `w` followed only by whitespace. */
  lemma JoinedLastWord(t: string, w: string, rest: string)
    requires t == w + rest && w != [] && NoSpace(w) && AllSpace(rest)
    ensures Join([w], " ") == CollapseSpaces(RStrip(t))
  {
    RStripSpaceSuffix(w, rest);
    assert RStrip(w) == w;
    CollapseAfterWord(w, []);
    assert w + [] == w;
  }

  /** A word, a whitespace run, and a remainder whose joined words are known. */
  lemma JoinedWordStep(t: string, w: string, sp: string, u: string, ws: seq<string>)
    requires t == w + (sp + u) && NoSpace(w)
    requires sp != [] && AllSpace(sp) && u != [] && !IsSpace(u[0])
    requires ws != [] && Join(ws, " ") == CollapseSpaces(RStrip(u))
    ensures Join([w] + ws, " ") == CollapseSpaces(RStrip(t))
  {
    var ru := RStrip(u);
    RStripWordSpacesRest(w, sp, u);
    RStripKeepsHead(u);
    CollapseAfterWord(w, sp + ru);
    CollapseSpaceRun(sp, ru);
    JoinCons(w, ws, " ");
    ConcatAssoc(w, " ", CollapseSpaces(ru));
  }

  /** The first word of a string that starts with one, and what follows it. */
  lemma FirstWord(t: string) returns (w: string, rest: string)
    requires t != [] && !IsSpace(t[0])
    ensures t == w + rest && w != [] && NoSpace(w)
    ensures rest == [] || IsSpace(rest[0])
    ensures Words(t) == [w] + Words(rest)
  {
    LStripOfNonSpaceHead(t);
    w := Word(t);
    rest := t[|w|..];
    assert t == w + rest;
  }

  /** A string that is empty or starts with whitespace, split into its leading
      whitespace run and the remainder. */
  lemma SpaceRun(rest: string) returns (sp: string, u: string)
    requires rest == [] || IsSpace(rest[0])
    ensures rest == sp + u && AllSpace(sp)
    ensures u == [] || !IsSpace(u[0])
    ensures u != [] ==> sp != []
  {
    u := LStrip(rest);
    sp := rest[..|rest| - |u|];
    assert rest == sp + u by {
      assert u == rest[|rest| - |u|..];
    }

  }

  lemma {:induction false} JoinedWordsOfLStripped(t: string)
    requires t == [] || !IsSpace(t[0])
    ensures Join(Words(t), " ") == CollapseSpaces(RStrip(t))
    decreases |t|
  {
    if t != [] {
      var w, rest := FirstWord(t);
      var sp, u := SpaceRun(rest);
      WordsSkipLeadingSpaces(sp, u);
      if u == [] {
        assert rest == sp;
        JoinedLastWord(t, w, rest);
      } else {
        JoinedWordsOfLStripped(u);
        JoinedWordStep(t, w, sp, u, Words(u));
      }
    }
  }

  /** `norm_text` agrees with Python's `" ".join(s.split())`: the words of the
      input, in order, separated by single spaces. */
  lemma NormTextIsJoinedWords(s: string)
    ensures NormText(Some(s)) == Join(Words(s), " ")
  {
    StripIsBothSides(s);
    var t := LStrip(s);
    LStripOfNonSpaceHead(t);
    assert Words(s) == Words(t);
    JoinedWordsOfLStripped(t);
  }

  // ------------------------------------------------------------ norm_key

  /** With leading zeros kept (the setting the matcher uses) the key is the
      normal text and normalising it again changes nothing. */
  lemma NormKeyKeepZerosIdempotent(v: Option<string>)
    ensures NormKey(v, true) == NormText(v)
    ensures NormKey(Some(NormKey(v, true)), true) == NormKey(v, true)
  {
    NormTextIdempotent(v);
  }

  /** A whitespace-free string is its own normal text. */
  lemma NormTextOfWord(s: string)
    requires NoSpace(s)
    ensures NormText(Some(s)) == s
  {
    StripOfStripped(s);
    CollapseOfCollapsed(s);
  }

  /** On text that is already normal, `norm_key` without zeros only strips
      the leading zeros. */
  lemma NormKeyOfNormal(s: string)
    requires Stripped(s) && Collapsed(s)
    ensures NormKey(Some(s), false) == StripLeadingZeros(s)
  {
    StripOfStripped(s);
    CollapseOfCollapsed(s);
  }

  /** Whitespace in front of a single word disappears under `norm_text`. */
  lemma NormTextOfPaddedWord(sp: string, w: string)
    requires AllSpace(sp) && NoSpace(w) && w != []
    ensures NormText(Some(sp + w)) == w
  {
    StripIsBothSides(sp + w);
    LStripSpacePrefix(sp, w);
    LStripOfNonSpaceHead(w);
    NormTextOfWord(w);
  }

  /** A zero, a space and a non-zero digit: dropping the zero leaves the
      space in front. */
  lemma DropZeroExposesSpace(z: char, sp: char, d: char)
    requires z == '0' && sp == ' ' && IsDigit(d) && d != '0'
    ensures NormKey(Some([z, sp, d]), false) == [sp, d]
  {
    var s := [z, sp, d];
    assert Stripped(s) && Collapsed(s);
    NormKeyOfNormal(s);
    assert s[1..] == [sp, d];
    assert StripLeadingZeros(s) == StripLeadingZeros(s[1..]);
  }

  /** A space in front of a non-zero digit is removed by normalisation. */
  lemma ExposedSpaceRemoved(sp: char, d: char)
    requires sp == ' ' && IsDigit(d) && d != '0'
    ensures NormKey(Some([sp, d]), false) == [d]
  {
    NormTextOfPaddedWord([sp], [d]);
    assert [sp] + [d] == [sp, d];
    assert StripLeadingZeros([d]) == [d];
  }

  /** Without leading zeros the key is not idempotent: stripping the zero of
      "0 5" exposes a space that the next normalisation removes. */
  lemma NormKeyDropZerosNotIdempotent()
    ensures NormKey(Some("0 5"), false) == " 5"
    ensures NormKey(Some(NormKey(Some("0 5"), false)), false) == "5"
  {
    DropZeroExposesSpace('0', ' ', '5');
    ExposedSpaceRemoved(' ', '5');
  }

  // ------------------------------------------------------------ is_missing

  lemma TokenHasNoSpace(x: string)
    requires Lower(x) in MissingTokens
    ensures NoSpace(x)
  {
    LowerKeepsSpaces(x);
  }

  /** `is_missing` looks only at the normal text, so normalising first changes
      nothing; it holds for `None`. */
  lemma IsMissingOfNormText(v: Option<string>)
    ensures IsMissing(Some(NormText(v))) == IsMissing(v)
    ensures IsMissing(None)
  {
    NormTextIdempotent(v);
  }

  /** Any case variant of a missing token, padded with whitespace, is missing
      ("  N/A ", "NaN", "NULL"). */
  lemma {:induction false} MissingWithPadding(a: string, t: string, b: string)
    requires AllSpace(a) && AllSpace(b) && Lower(t) in MissingTokens
    ensures IsMissing(Some(a + t + b))
  {
    TokenHasNoSpace(t);
    StripIsBothSides(a + t + b);
    BothSidesPadded(a, t, b);
    assert Collapsed(t);
    CollapseOfCollapsed(t);
  }

  /** Trimming both sides removes exactly the padding around a word. */
  lemma BothSidesPadded(a: string, t: string, b: string)
    requires AllSpace(a) && AllSpace(b) && NoSpace(t)
    ensures RStrip(LStrip(a + t + b)) == t
  {
    assert a + t + b == a + (t + b);
    LStripSpacePrefix(a, t + b);
    if t == [] {
      assert t + b == b;
      LStripSpacePrefix(b, []);
      assert b + [] == b;
    } else {
      LStripOfNonSpaceHead(t + b);
      RStripSpaceSuffix(t, b);
    }
  }

  /** A whitespace-free value whose lower-case form is not a missing token is
      not missing. */
  lemma NotMissingWord(s: string)
    requires NoSpace(s) && Lower(s) !in MissingTokens
    ensures !IsMissing(Some(s))
  {
    NormTextOfWord(s);
  }

  /** A value that is not missing still has text after stripping, and that
      text is not missing either. */
  lemma NotMissingHasText(v: Option<string>)
    requires !IsMissing(v)
    ensures v.Some? && Strip(v.value) != [] && !IsMissing(Some(Strip(v.value)))
  {
    assert Lower([]) == [];
    StripOfStripped(Strip(v.value));
  }

  /** The text of a NaN cell, "nan", is its own normal form and is missing. */
  lemma NanIsNormalAndMissing()
    ensures NormText(Some("nan")) == "nan" && NormKey(Some("nan"), false) == "nan"
    ensures IsMissing(Some("nan"))
  {
    NormTextOfWord("nan");
    assert Lower("nan") == "nan";
  }

  /** "0" and "false" are real values, not missing ones. */
  lemma ZeroAndFalseAreNotMissing()
    ensures !IsMissing(Some("0")) && !IsMissing(Some("false"))
  {
    assert Lower("0") == "0";
    NotMissingWord("0");
    assert Lower("false") == "false";
    NotMissingWord("false");
  }
}
