/**
 * Runs of the backtracking matcher and of `findall` on the two citation
 * patterns, step by step: general lemmas for one pattern item at a time,
 * then the legislation match and the case-law match at the start of a text
 * of a given outline, and the positions where no match can start.
 */
module Steps {
  import opened Wrappers
  import opened Regex
  import opened Scanner
  import opened Citations

  /** A literal that occurs at `pos` is consumed, and the rest of the pattern goes on after it. */
  lemma StepLit(w: string, rest: Pattern, t: string, pos: nat)
    requires pos <= |t| && StartsWith(t, pos, w)
    ensures MatchFrom([Lit(w)] + rest, t, pos) == MatchFrom(rest, t, pos + |w|)
  {
    assert ([Lit(w)] + rest)[1..] == rest;
  }

  /** A literal that does not occur at `pos` fails the whole pattern there. */
  lemma StepLitFails(w: string, rest: Pattern, t: string, pos: nat)
    requires pos <= |t| && !StartsWith(t, pos, w)
    ensures MatchFrom([Lit(w)] + rest, t, pos) == None
  {
  }

  /** A repetition at the head of a pattern tries its ends from the longest allowed run down. */
  lemma RepUnfold(cls: CharClass, lo: nat, hi: Option<nat>, rest: Pattern, t: string, pos: nat)
    requires pos <= |t|
    ensures MatchFrom([Rep(cls, lo, hi)] + rest, t, pos) == TryCounts(rest, t, pos + lo, pos + Cap(Run(t, pos, cls), hi))
  {
    assert ([Rep(cls, lo, hi)] + rest)[1..] == rest;
  }

  /**
   * Trying the ends `q`, `q - 1`, ... down to `lo` stops at `e` when the
   * rest matches after `e` and after no later end.
   */
  lemma CountsStop(rest: Pattern, t: string, lo: nat, q: nat, e: nat)
    requires q <= |t| && lo <= e <= q && MatchFrom(rest, t, e).Some?
    requires forall e' :: e < e' <= q ==> MatchFrom(rest, t, e').None?
    ensures TryCounts(rest, t, lo, q) == MatchFrom(rest, t, e)
  {
    CountsComplete(rest, t, lo, q, e);
    var chosen := CountsChoice(rest, t, lo, q);
    assert chosen == e;
  }

  /** The run of a class from `pos` ends at `end` when the class holds up to `end` and not at `end`. */
  lemma RunEnds(t: string, pos: nat, end: nat, cls: CharClass)
    requires pos <= end <= |t| && forall k :: pos <= k < end ==> InClass(cls, t[k])
    requires end == |t| || !InClass(cls, t[end])
    ensures Run(t, pos, cls) == end - pos
  {
    var n := Run(t, pos, cls);
    assert pos + n == |t| || !InClass(cls, t[pos + n]);
  }

  /**
   * A repetition whose class holds from `pos` up to `end` and not at `end`
   * takes all of it, when the count is allowed and the rest matches after it.
   */
  lemma RepStops(cls: CharClass, lo: nat, hi: Option<nat>, rest: Pattern, t: string, pos: nat, end: nat)
    requires pos + lo <= end <= |t| && forall k :: pos <= k < end ==> InClass(cls, t[k])
    requires end == |t| || !InClass(cls, t[end])
    requires Cap(end - pos, hi) == end - pos && MatchFrom(rest, t, end).Some?
    ensures MatchFrom([Rep(cls, lo, hi)] + rest, t, pos) == MatchFrom(rest, t, end)
  {
    RunEnds(t, pos, end, cls);
    RepUnfold(cls, lo, hi, rest, t, pos);
    CountsStop(rest, t, pos + lo, end, end);
  }

  /**
   * An alternation takes alternative `i` when the rest matches after it and
   * no earlier alternative occurs at `pos`.
   */
  lemma StepAlt(ws: seq<string>, rest: Pattern, t: string, pos: nat, i: nat)
    requires pos <= |t| && i < |ws| && AltViable(rest, ws[i], t, pos)
    requires forall j :: 0 <= j < i ==> !StartsWith(t, pos, ws[j])
    ensures MatchFrom([Alt(ws)] + rest, t, pos) == MatchFrom(rest, t, pos + |ws[i]|)
  {
    assert ([Alt(ws)] + rest)[1..] == rest;
    AltsComplete(rest, ws, t, pos, i);
    var chosen := AltsChoice(rest, ws, t, pos);
    assert chosen == i;
  }

  /** The items of the legislation pattern after `Act `: `\d{4}`. */
  const LegislationYear: Pattern := [Rep({Digits}, 4, Some(4))]

  /** The legislation pattern from `[\w\s]+` on. */
  const LegislationRun: Pattern := [Rep(Word + {Whitespace}, 1, None)] + LegislationClosing

  /** The legislation pattern from ` of the ` on. */
  const LegislationOfThe: Pattern := [Lit(" of the ")] + LegislationRun

  /** The legislation pattern from `[A-Za-z]*` on. */
  const LegislationLetters: Pattern := [Rep({Upper, Lower}, 0, None)] + LegislationOfThe

  /** The legislation pattern from `\d+` on. */
  const LegislationNumber: Pattern := [Rep({Digits}, 1, None)] + LegislationLetters

  /** The legislation pattern after its opening word. */
  const LegislationAfterWord: Pattern := [Lit(" ")] + LegislationNumber

  /** The three opening words of a legislation citation, in the order they are tried. */
  const OpeningWords: seq<string> := ["Section", "Sec.", "s."]

  /** The legislation pattern, item by item from the front. */
  lemma LegislationItems()
    ensures LegislationClosing == [Lit("Act ")] + LegislationYear
    ensures LegislationPattern == [Alt(OpeningWords)] + LegislationAfterWord
  {
  }

  /** `Act ` and four digits at `q` are matched by the closing of the legislation pattern. */
  lemma ClosingAt(t: string, q: nat)
    requires StartsWith(t, q, "Act ") && q + 8 <= |t|
    requires forall k :: q + 4 <= k < q + 8 ==> InClass({Digits}, t[k])
    ensures MatchFrom(LegislationClosing, t, q) == Some(q + 8)
  {
    LegislationItems();
    StepLit("Act ", LegislationYear, t, q);
    assert Run(t, q + 4, {Digits}) >= 4;
    RepUnfold({Digits}, 4, Some(4), [], t, q + 4);
    assert LegislationYear == [Rep({Digits}, 4, Some(4))] + [];
  }

  /** Where no `A` stands, the closing of the legislation pattern does not match. */
  lemma NoClosingAt(t: string, q: nat)
    requires q <= |t| && (q == |t| || t[q] != 'A')
    ensures MatchFrom(LegislationClosing, t, q) == None
  {
    LegislationItems();
    StepLitFails("Act ", LegislationYear, t, q);
  }

  /** No closing matches after `a` up to the end of the text when no `A` follows `Act ` at `a`. */
  lemma NoLaterClosing(t: string, a: nat)
    requires a + 8 <= |t| && StartsWith(t, a, "Act ")
    requires forall k :: a + 4 <= k < a + 8 ==> InClass({Digits}, t[k])
    requires forall k :: a + 8 <= k < |t| ==> t[k] != 'A'
    ensures forall e' :: a < e' <= |t| ==> MatchFrom(LegislationClosing, t, e').None?
  {
    assert t[a + 1] == 'c' && t[a + 2] == 't' && t[a + 3] == ' ';
    forall e' | a < e' <= |t|
      ensures MatchFrom(LegislationClosing, t, e').None?
    {
      NoClosingAt(t, e');
    }
  }

  /**
   * The run `[\w\s]+` from `b` extends over `Act ` and the year at `a` and
   * gives back just enough for the closing to match there, as no later `A`
   * follows.
   */
  lemma RunThenClosingAt(t: string, b: nat, a: nat)
    requires b < a && a + 8 <= |t|
    requires forall k :: b <= k < a ==> InClass(Word + {Whitespace}, t[k])
    requires StartsWith(t, a, "Act ")
    requires forall k :: a + 4 <= k < a + 8 ==> InClass({Digits}, t[k])
    requires forall k :: a + 8 <= k < |t| ==> t[k] != 'A'
    ensures MatchFrom(LegislationRun, t, b) == Some(a + 8)
  {
    var r := Run(t, b, Word + {Whitespace});
    assert r >= a - b by {
      RunReaches(t, b, a, Word + {Whitespace});
    }
    assert TryCounts(LegislationClosing, t, b + 1, b + r) == Some(a + 8) by {
      ClosingAt(t, a);
      NoLaterClosing(t, a);
      CountsStop(LegislationClosing, t, b + 1, b + r, a);
    }
    RunUnfold(t, b);
  }

  /** The run `[\w\s]+` from `b` tries its ends from the longest run down. */
  lemma RunUnfold(t: string, b: nat)
    requires b <= |t|
    ensures MatchFrom(LegislationRun, t, b) == TryCounts(LegislationClosing, t, b + 1, b + Run(t, b, Word + {Whitespace}))
  {
    RepUnfold(Word + {Whitespace}, 1, None, LegislationClosing, t, b);
  }

  /** The run of a class from `b` reaches at least `a` when all characters before `a` are in the class. */
  lemma RunReaches(t: string, b: nat, a: nat, cls: CharClass)
    requires b <= a <= |t| && forall k :: b <= k < a ==> InClass(cls, t[k])
    ensures b + Run(t, b, cls) >= a
  {
    var r := Run(t, b, cls);
    assert b + r == |t| || !InClass(cls, t[b + r]);
  }

  /** ` of the ` at `l` is consumed before the run. */
  lemma OfTheStep(t: string, l: nat, e: nat)
    requires StartsWith(t, l, " of the ") && MatchFrom(LegislationRun, t, l + 8) == Some(e)
    ensures MatchFrom(LegislationOfThe, t, l) == Some(e)
  {
    StepLit(" of the ", LegislationRun, t, l);
  }

  /** `[A-Za-z]*` takes nothing in front of ` of the `. */
  lemma LettersStep(t: string, l: nat, e: nat)
    requires StartsWith(t, l, " of the ") && MatchFrom(LegislationOfThe, t, l) == Some(e)
    ensures MatchFrom(LegislationLetters, t, l) == Some(e)
  {
    assert t[l] == ' ';
    RepStops({Upper, Lower}, 0, None, LegislationOfThe, t, l, l);
  }

  /** `\d+` takes the digits from `d` to the space at `l`. */
  lemma NumberStep(t: string, d: nat, l: nat, e: nat)
    requires d < l < |t| && t[l] == ' '
    requires forall k :: d <= k < l ==> InClass({Digits}, t[k])
    requires MatchFrom(LegislationLetters, t, l) == Some(e)
    ensures MatchFrom(LegislationNumber, t, d) == Some(e)
  {
    RepStops({Digits}, 1, None, LegislationLetters, t, d, l);
  }

  /** `\d+[A-Za-z]* of the ` is matched by the digits from `d` to `l` and ` of the ` at `l`. */
  lemma NumberThenRunAt(t: string, d: nat, l: nat, e: nat)
    requires d < l && l + 8 <= |t|
    requires forall k :: d <= k < l ==> InClass({Digits}, t[k])
    requires StartsWith(t, l, " of the ")
    requires MatchFrom(LegislationRun, t, l + 8) == Some(e)
    ensures MatchFrom(LegislationNumber, t, d) == Some(e)
  {
    OfTheStep(t, l, e);
    LettersStep(t, l, e);
    assert t[l] == t[l..l + 8][0] == ' ';
    NumberStep(t, d, l, e);
  }

  /** `Section` and a space at `s`, and a match of the rest after them. */
  lemma SectionThenNumber(t: string, s: nat, e: nat)
    requires StartsWith(t, s, "Section ")
    requires MatchFrom(LegislationNumber, t, s + 8) == Some(e)
    ensures MatchFrom(LegislationPattern, t, s) == Some(e)
  {
    assert t[s..s + 7] == t[s..s + 8][..7];
    assert t[s..s + 7] == "Section" && t[s + 7] == t[s..s + 8][7];
    StepLit(" ", LegislationNumber, t, s + 7);
    StepAlt(OpeningWords, LegislationAfterWord, t, s, 0);
    LegislationItems();
  }

  /**
   * The legislation match at `s`, by positions: `Section `, digits up to
   * ` of the ` at `l`, word characters and white space up to `Act ` at `a`,
   * four digits, and no `A` after them.
   */
  lemma LegislationEndAt(t: string, s: nat, l: nat, a: nat)
    requires s + 8 < l && l + 8 < a && a + 8 <= |t|
    requires StartsWith(t, s, "Section ")
    requires forall k :: s + 8 <= k < l ==> InClass({Digits}, t[k])
    requires StartsWith(t, l, " of the ")
    requires forall k :: l + 8 <= k < a ==> InClass(Word + {Whitespace}, t[k])
    requires StartsWith(t, a, "Act ")
    requires forall k :: a + 4 <= k < a + 8 ==> InClass({Digits}, t[k])
    requires forall k :: a + 8 <= k < |t| ==> t[k] != 'A'
    ensures MatchFrom(LegislationPattern, t, s) == Some(a + 8)
  {
    assert MatchFrom(LegislationRun, t, l + 8) == Some(a + 8) by {
      RunThenClosingAt(t, l + 8, a);
    }
    assert MatchFrom(LegislationNumber, t, s + 8) == Some(a + 8) by {
      NumberThenRunAt(t, s + 8, l, a + 8);
    }
    SectionThenNumber(t, s, a + 8);
  }

  /** `Act ` and four digits followed by a dot: the run `[\w\s]+` from `b` stops at the dot. */
  lemma RunToDot(t: string, b: nat, a: nat)
    requires b < a && a + 8 < |t| && t[a + 8] == '.'
    requires forall k :: b <= k < a ==> InClass(Word + {Whitespace}, t[k])
    requires StartsWith(t, a, "Act ")
    requires forall k :: a + 4 <= k < a + 8 ==> InClass({Digits}, t[k])
    ensures b + Run(t, b, Word + {Whitespace}) == a + 8
  {
    assert t[a] == t[a..a + 4][0] && t[a + 1] == t[a..a + 4][1];
    assert t[a + 2] == t[a..a + 4][2] && t[a + 3] == t[a..a + 4][3];
    RunEnds(t, b, a + 8, Word + {Whitespace});
  }

  /** Between `Act ` at `a` and the dot after the year, only `a` opens the closing of the legislation pattern. */
  lemma NoClosingBeforeDot(t: string, a: nat)
    requires a + 8 < |t| && t[a + 8] == '.' && StartsWith(t, a, "Act ")
    requires forall k :: a + 4 <= k < a + 8 ==> InClass({Digits}, t[k])
    ensures forall e' :: a < e' <= a + 8 ==> MatchFrom(LegislationClosing, t, e').None?
  {
    assert t[a + 1] == t[a..a + 4][1] && t[a + 2] == t[a..a + 4][2] && t[a + 3] == t[a..a + 4][3];
    forall e' | a < e' <= a + 8
      ensures MatchFrom(LegislationClosing, t, e').None?
    {
      NoClosingAt(t, e');
    }
  }

  /**
   * The run `[\w\s]+` from `b` ends at the dot after the year at `a + 8`,
   * and the closing matches at `a`.
   */
  lemma RunThenYearAt(t: string, b: nat, a: nat)
    requires b < a && a + 8 < |t| && t[a + 8] == '.'
    requires forall k :: b <= k < a ==> InClass(Word + {Whitespace}, t[k])
    requires StartsWith(t, a, "Act ")
    requires forall k :: a + 4 <= k < a + 8 ==> InClass({Digits}, t[k])
    ensures MatchFrom(LegislationRun, t, b) == Some(a + 8)
  {
    RunToDot(t, b, a);
    assert TryCounts(LegislationClosing, t, b + 1, a + 8) == Some(a + 8) by {
      ClosingAt(t, a);
      NoClosingBeforeDot(t, a);
      CountsStop(LegislationClosing, t, b + 1, a + 8, a);
    }
    RunUnfold(t, b);
  }

  /**
   * The legislation match at `s`, by positions as in `LegislationEndAt`, when
   * a dot follows the year: the match ends at the dot.
   */
  lemma LegislationStopsAt(t: string, s: nat, l: nat, a: nat)
    requires s + 8 < l && l + 8 < a && a + 8 < |t| && t[a + 8] == '.'
    requires StartsWith(t, s, "Section ")
    requires forall k :: s + 8 <= k < l ==> InClass({Digits}, t[k])
    requires StartsWith(t, l, " of the ")
    requires forall k :: l + 8 <= k < a ==> InClass(Word + {Whitespace}, t[k])
    requires StartsWith(t, a, "Act ")
    requires forall k :: a + 4 <= k < a + 8 ==> InClass({Digits}, t[k])
    ensures MatchFrom(LegislationPattern, t, s) == Some(a + 8)
  {
    assert MatchFrom(LegislationRun, t, l + 8) == Some(a + 8) by {
      RunThenYearAt(t, l + 8, a);
    }
    assert MatchFrom(LegislationNumber, t, s + 8) == Some(a + 8) by {
      NumberThenRunAt(t, s + 8, l, a + 8);
    }
    SectionThenNumber(t, s, a + 8);
  }

  /** The case-law pattern from `[A-Za-z\s]+` on. */
  const CaseLawWords: Pattern := [Rep({Upper, Lower, Whitespace}, 1, None)] + CaseLawClosing

  /** The case-law pattern from `[A-Z]+` on. */
  const CaseLawCourt: Pattern := [Rep({Upper}, 1, None)] + CaseLawWords

  /** The case-law pattern from `] ` on. */
  const CaseLawAfterYear: Pattern := [Lit("] ")] + CaseLawCourt

  /** The case-law pattern from `\d{4}` on. */
  const CaseLawYear: Pattern := [Rep({Digits}, 4, Some(4))] + CaseLawAfterYear

  /** The case-law pattern, item by item from the front. */
  lemma CaseLawItems()
    ensures CaseLawClosing == [Rep({Digits}, 1, None)] + []
    ensures CaseLawPattern == [Lit("[")] + CaseLawYear
  {
  }

  /** `\d+` takes all the digits from `g` to `e`. */
  lemma CaseNumberStep(t: string, g: nat, e: nat)
    requires g < e <= |t| && forall k :: g <= k < e ==> InClass({Digits}, t[k])
    requires e == |t| || !InClass({Digits}, t[e])
    ensures MatchFrom(CaseLawClosing, t, g) == Some(e)
  {
    CaseLawItems();
    RepStops({Digits}, 1, None, [], t, g, e);
  }

  /** `[A-Za-z\s]+` takes the letters and white space from `c` to the digit at `g`. */
  lemma CaseWordsStep(t: string, c: nat, g: nat, e: nat)
    requires c < g < |t| && forall k :: c <= k < g ==> InClass({Upper, Lower, Whitespace}, t[k])
    requires InClass({Digits}, t[g])
    requires MatchFrom(CaseLawClosing, t, g) == Some(e)
    ensures MatchFrom(CaseLawWords, t, c) == Some(e)
  {
    RepStops({Upper, Lower, Whitespace}, 1, None, CaseLawClosing, t, c, g);
  }

  /** `[A-Z]+` takes the capitals from `7` to `c`. */
  lemma CaseCourtStep(t: string, c: nat, e: nat)
    requires 7 < c < |t| && forall k :: 7 <= k < c ==> InClass({Upper}, t[k])
    requires !InClass({Upper}, t[c])
    requires MatchFrom(CaseLawWords, t, c) == Some(e)
    ensures MatchFrom(CaseLawCourt, t, 7) == Some(e)
  {
    RepStops({Upper}, 1, None, CaseLawWords, t, 7, c);
  }

  /** `\d{4}] ` takes the year from `1` to `5` and the bracket after it. */
  lemma CaseYearStep(t: string, e: nat)
    requires 7 <= |t| && StartsWith(t, 5, "] ")
    requires forall k :: 1 <= k < 5 ==> InClass({Digits}, t[k])
    requires MatchFrom(CaseLawCourt, t, 7) == Some(e)
    ensures MatchFrom(CaseLawYear, t, 1) == Some(e)
  {
    assert MatchFrom(CaseLawAfterYear, t, 5) == Some(e) by {
      StepLit("] ", CaseLawCourt, t, 5);
    }
    assert t[5] == ']';
    RepStops({Digits}, 4, Some(4), CaseLawAfterYear, t, 1, 5);
  }

  /** `[` opens the text, and the rest matches from `1`. */
  lemma CaseOpeningStep(t: string, e: nat)
    requires StartsWith(t, 0, "[") && MatchFrom(CaseLawYear, t, 1) == Some(e)
    ensures MatchFrom(CaseLawPattern, t, 0) == Some(e)
  {
    StepLit("[", CaseLawYear, t, 0);
    CaseLawItems();
  }

  /**
   * The case-law match at the start of `t`, by positions: `[`, a year and
   * `] `, capitals up to `c`, letters and white space up to the digit at
   * `g`, and the digits up to `e` and no further.
   */
  lemma CaseLawEndAt(t: string, c: nat, g: nat, e: nat)
    requires 7 < c < g < e <= |t|
    requires StartsWith(t, 0, "[") && StartsWith(t, 5, "] ")
    requires forall k :: 1 <= k < 5 ==> InClass({Digits}, t[k])
    requires forall k :: 7 <= k < c ==> InClass({Upper}, t[k])
    requires forall k :: c <= k < g ==> InClass({Upper, Lower, Whitespace}, t[k])
    requires !InClass({Upper}, t[c])
    requires forall k :: g <= k < e ==> InClass({Digits}, t[k])
    requires e == |t| || !InClass({Digits}, t[e])
    ensures MatchFrom(CaseLawPattern, t, 0) == Some(e)
  {
    assert MatchFrom(CaseLawClosing, t, g) == Some(e) by {
      CaseNumberStep(t, g, e);
    }
    assert MatchFrom(CaseLawWords, t, c) == Some(e) by {
      CaseWordsStep(t, c, g, e);
    }
    assert MatchFrom(CaseLawCourt, t, 7) == Some(e) by {
      CaseCourtStep(t, c, e);
    }
    assert MatchFrom(CaseLawYear, t, 1) == Some(e) by {
      CaseYearStep(t, e);
    }
    CaseOpeningStep(t, e);
  }

  /** A legislation match from `q` to `r` starts with `S`, or with `s` and two more characters. */
  lemma LegislationStartsAt(t: string, q: nat, r: nat)
    requires q <= r <= |t| && Matches(LegislationPattern, t[q..r])
    ensures q < |t| && (t[q] == 'S' || (t[q] == 's' && q + 3 <= |t|))
  {
    var s := t[q..r];
    LegislationShape(s);
    assert s[0] == t[q];
    if StartsWith(s, 0, "Section ") {
      assert s[..8][0] == 'S';
    } else if StartsWith(s, 0, "Sec. ") {
      assert s[..5][0] == 'S';
    } else {
      assert s[..3][0] == 's';
    }
  }

  /** No legislation match starts at `q` when neither `S` nor `s` with two more characters after it stands there. */
  lemma NoLegislationAt(t: string, q: nat)
    requires q <= |t| && (q == |t| || (t[q] != 'S' && (t[q] == 's' ==> q + 3 > |t|)))
    ensures MatchFrom(LegislationPattern, t, q).None?
  {
    if MatchFrom(LegislationPattern, t, q).Some? {
      var r := MatchFrom(LegislationPattern, t, q).value;
      Sound(LegislationPattern, t, q);
      LegislationStartsAt(t, q, r);
      assert false;
    }
  }

  /** No legislation match starts from `e` on when no `S`, and no `s` with two more characters after it, follows. */
  lemma NoLegislationFrom(t: string, e: nat)
    requires e <= |t|
    requires forall q :: e <= q < |t| ==> t[q] != 'S' && (t[q] == 's' ==> q + 3 > |t|)
    ensures forall q :: e <= q <= |t| ==> MatchFrom(LegislationPattern, t, q).None?
  {
    forall q | e <= q <= |t|
      ensures MatchFrom(LegislationPattern, t, q).None?
    {
      NoLegislationAt(t, q);
    }
  }

  /** A case-law match from `q` to `r` starts with `[`. */
  lemma CaseLawStartsAt(t: string, q: nat, r: nat)
    requires q <= r <= |t| && Matches(CaseLawPattern, t[q..r])
    ensures q < |t| && t[q] == '['
  {
    var s := t[q..r];
    CaseLawShape(s);
    assert s[0] == t[q];
    assert s[..1][0] == '[';
  }

  /** No case-law match starts at `q` when no `[` stands there. */
  lemma NoCaseLawAt(t: string, q: nat)
    requires q <= |t| && (q == |t| || t[q] != '[')
    ensures MatchFrom(CaseLawPattern, t, q).None?
  {
    if MatchFrom(CaseLawPattern, t, q).Some? {
      var r := MatchFrom(CaseLawPattern, t, q).value;
      Sound(CaseLawPattern, t, q);
      CaseLawStartsAt(t, q, r);
      assert false;
    }
  }

  /** No case-law match starts from `e` on when no `[` follows. */
  lemma NoCaseLawFrom(t: string, e: nat)
    requires e <= |t|
    requires forall q :: e <= q < |t| ==> t[q] != '['
    ensures forall q :: e <= q <= |t| ==> MatchFrom(CaseLawPattern, t, q).None?
  {
    forall q | e <= q <= |t|
      ensures MatchFrom(CaseLawPattern, t, q).None?
    {
      NoCaseLawAt(t, q);
    }
  }

  /** A scan from `pos` past positions where no match starts reports nothing. */
  lemma {:induction false} ScanNothing(m: Matcher, n: nat, pos: nat)
    requires Advances(m, n) && pos <= n
    requires forall q :: pos <= q <= n ==> m(q).None?
    ensures Scan(m, n, pos) == []
    decreases n - pos
  {
    if pos < n {
      ScanSkips(m, n, pos);
      ScanNothing(m, n, pos + 1);
    }
  }

  /** `findall` reports exactly the match from `0` to `e` when no match starts from `e` on. */
  lemma FindAllOne(p: Pattern, t: string, e: nat)
    requires NonNullable(p) && MatchFrom(p, t, 0) == Some(e)
    requires forall q :: e <= q <= |t| ==> MatchFrom(p, t, q).None?
    ensures FindAll(p, t) == [t[..e]]
  {
    var m := Engine(p, t);
    EngineAdvances(p, t);
    assert m(0) == Some(e);
    ScanFound(m, |t|, 0, e);
    assert forall q :: e <= q <= |t| ==> m(q).None?;
    ScanNothing(m, |t|, e);
  }

  /** A scan from `pos` moves on to `q` when no match starts in between. */
  lemma {:induction false} ScanSkipsTo(m: Matcher, n: nat, pos: nat, q: nat)
    requires Advances(m, n) && pos <= q <= n
    requires forall k :: pos <= k < q ==> m(k).None?
    ensures Scan(m, n, pos) == Scan(m, n, q)
    decreases q - pos
  {
    if pos < q {
      ScanSkips(m, n, pos);
      ScanSkipsTo(m, n, pos + 1, q);
    }
  }

  /**
   * The scan reports exactly the spans `0..e1` and `s2..e2` when no match
   * starts from `e1` up to `s2` or from `e2` on.
   */
  lemma ScanTwo(m: Matcher, n: nat, e1: nat, s2: nat, e2: nat)
    requires Advances(m, n) && m(0) == Some(e1)
    requires e1 <= s2 <= n && forall q :: e1 <= q < s2 ==> m(q).None?
    requires m(s2) == Some(e2) && forall q :: e2 <= q <= n ==> m(q).None?
    ensures Scan(m, n, 0) == [Span(0, e1), Span(s2, e2)]
  {
    ScanFound(m, n, 0, e1);
    ScanSkipsTo(m, n, e1, s2);
    ScanFound(m, n, s2, e2);
    ScanNothing(m, n, e2);
  }

  /**
   * `findall` reports exactly the match from `0` to `e1` and the match from
   * `s2` to `e2` when no match starts from `e1` up to `s2` or from `e2` on.
   */
  lemma FindAllTwo(p: Pattern, t: string, e1: nat, s2: nat, e2: nat)
    requires NonNullable(p) && MatchFrom(p, t, 0) == Some(e1)
    requires e1 <= s2 <= |t| && forall q :: e1 <= q < s2 ==> MatchFrom(p, t, q).None?
    requires MatchFrom(p, t, s2) == Some(e2)
    requires forall q :: e2 <= q <= |t| ==> MatchFrom(p, t, q).None?
    ensures FindAll(p, t) == [t[..e1], t[s2..e2]]
  {
    var m := Engine(p, t);
    EngineAdvances(p, t);
    assert Scan(m, |t|, 0) == [Span(0, e1), Span(s2, e2)] by {
      assert m(0) == Some(e1) && m(s2) == Some(e2);
      assert forall q :: e1 <= q < s2 ==> m(q).None?;
      assert forall q :: e2 <= q <= |t| ==> m(q).None?;
      ScanTwo(m, |t|, e1, s2, e2);
    }
  }

  /** `findall` reports nothing when no match starts anywhere. */
  lemma FindAllNone(p: Pattern, t: string)
    requires NonNullable(p)
    requires forall q :: 0 <= q <= |t| ==> MatchFrom(p, t, q).None?
    ensures FindAll(p, t) == []
  {
    var m := Engine(p, t);
    EngineAdvances(p, t);
    assert forall q :: 0 <= q <= |t| ==> m(q).None?;
    ScanNothing(m, |t|, 0);
  }
}
