/**
 * `QueryHandler.extract_references`: the two citation patterns, the list
 * the handler builds from their `findall` matches, and the duplicate-free
 * list it returns.
 */
module Citations {
  import opened Wrappers
  import opened Regex
  import opened Scanner

  /** `\w` on ASCII characters. */
  const Word: CharClass := {Digits, Upper, Lower, Underscore}

  /** `(?:Section|Sec\.|s\.) ` */
  const LegislationOpening: Pattern := [Alt(["Section", "Sec.", "s."]), Lit(" ")]

  /** `\d+[A-Za-z]* of the [\w\s]+` */
  const LegislationBody: Pattern :=
    [Rep({Digits}, 1, None), Rep({Upper, Lower}, 0, None), Lit(" of the "), Rep(Word + {Whitespace}, 1, None)]

  /** `Act \d{4}` */
  const LegislationClosing: Pattern := [Lit("Act "), Rep({Digits}, 4, Some(4))]

  /** `(?:Section|Sec\.|s\.) \d+[A-Za-z]* of the [\w\s]+Act \d{4}` */
  const LegislationPattern: Pattern := LegislationOpening + LegislationBody + LegislationClosing

  /** `\[\d{4}\] [A-Z]+` */
  const CaseLawOpening: Pattern := [Lit("["), Rep({Digits}, 4, Some(4)), Lit("] "), Rep({Upper}, 1, None)]

  /** `[A-Za-z\s]+` */
  const CaseLawBody: Pattern := [Rep({Upper, Lower, Whitespace}, 1, None)]

  /** `\d+` */
  const CaseLawClosing: Pattern := [Rep({Digits}, 1, None)]

  /** `\[\d{4}\] [A-Z]+[A-Za-z\s]+\d+` */
  const CaseLawPattern: Pattern := CaseLawOpening + CaseLawBody + CaseLawClosing

  /** All elements of a list. */
  function Elements(xs: seq<string>): set<string> {
    set x | x in xs
  }

  /** No element of the list occurs twice. */
  predicate Distinct(xs: seq<string>) {
    forall i, j :: 0 <= i < j < |xs| ==> xs[i] != xs[j]
  }

  /** The legislation matches of `text`, in order. */
  function LegislationRefs(text: string): seq<string> {
    FindAll(LegislationPattern, text)
  }

  /** The case-law matches of `text`, in order. */
  function CaseLawRefs(text: string): seq<string> {
    FindAll(CaseLawPattern, text)
  }

  /**
   * The references of `text` as a set: exactly the legislation matches and
   * the case-law matches, nothing added and nothing lost.
   */
  function References(text: string): (r: set<string>)
    ensures forall x :: x in r <==> x in LegislationRefs(text) || x in CaseLawRefs(text)
    ensures forall x :: x in r ==> Occurs(LegislationPattern, x, text) || Occurs(CaseLawPattern, x, text)
  {
    Elements(LegislationRefs(text)) + Elements(CaseLawRefs(text))
  }

  /**
   * `list(set(...))`: the elements of a set as a list, each exactly once, in
   * an order the model leaves unspecified, as Python's set iteration is.
   */
  method SetToList(s: set<string>) returns (r: seq<string>)
    ensures Distinct(r) && Elements(r) == s && |r| == |s|
  {
    r := [];
    var left := s;
    while left != {}
      invariant Distinct(r) && Elements(r) + left == s && Elements(r) !! left
      invariant |r| + |left| == |s|
      decreases left
    {
      var x :| x in left;
      assert forall i :: 0 <= i < |r| ==> r[i] != x;
      r := r + [x];
      left := left - {x};
    }
  }

  /**
   * `extract_references`: the legislation matches, then the case-law
   * matches, collapsed through a set.
   */
  method ExtractReferences(text: string) returns (refs: seq<string>)
    ensures Distinct(refs)
    ensures Elements(refs) == References(text)
    ensures forall x :: x in refs ==> Occurs(LegislationPattern, x, text) || Occurs(CaseLawPattern, x, text)
    ensures text == [] ==> refs == []
  {
    var references: seq<string> := [];
    var legislationRefs := FindAll(LegislationPattern, text);
    references := references + legislationRefs;
    var caseRefs := FindAll(CaseLawPattern, text);
    references := references + caseRefs;
    refs := SetToList(Elements(references));
  }

  /**
   * A text has no references exactly when no piece of it matches either
   * pattern.
   */
  lemma ReferencesEmpty(text: string)
    ensures References(text) == {} <==>
      forall i, j :: 0 <= i <= j <= |text| ==>
        !Matches(LegislationPattern, text[i..j]) && !Matches(CaseLawPattern, text[i..j])
  {
    FindAllEmpty(LegislationPattern, text);
    FindAllEmpty(CaseLawPattern, text);
    if LegislationRefs(text) != [] {
      assert LegislationRefs(text)[0] in References(text);
    }
    if CaseLawRefs(text) != [] {
      assert CaseLawRefs(text)[0] in References(text);
    }
  }

  /** Four ASCII digits: the year of a citation. */
  predicate IsYear(y: string) {
    |y| == 4 && PrefixIn(y, 4, {Digits})
  }

  /** The opening of a legislation match is one of the three section words and a space. */
  lemma LegislationOpens(u: string)
    requires Matches(LegislationOpening, u)
    ensures u == "Section " || u == "Sec. " || u == "s. "
  {
    var i := AltThenLit(["Section", "Sec.", "s."], " ", u);
  }

  /** The closing of a legislation match is `Act ` and a four-digit year. */
  lemma LegislationCloses(u: string)
    requires Matches(LegislationClosing, u)
    ensures |u| == 8 && u[..4] == "Act " && IsYear(u[4..])
  {
    var year := LitThenCount("Act ", {Digits}, 4, u);
    assert u[4..] == year;
  }

  /** What opens a prefix of `s` opens `s`. */
  lemma PrefixOpens(s: string, m: nat, w: string)
    requires m <= |s| && StartsWith(s[..m], 0, w)
    ensures StartsWith(s, 0, w)
  {
    assert s[..m][..|w|] == s[..|w|];
  }

  /** The start of a legislation match, up to the end of its body. */
  lemma LegislationHead(t: string)
    requires Matches(LegislationOpening + LegislationBody, t)
    ensures StartsWith(t, 0, "Section ") || StartsWith(t, 0, "Sec. ") || StartsWith(t, 0, "s. ")
  {
    var m := MatchesSplit(LegislationOpening, LegislationBody, t);
    LegislationOpens(t[..m]);
    PrefixOpens(t, m, t[..m]);
  }

  /**
   * A legislation reference opens with `Section `, `Sec. ` or `s. ` and
   * closes with `Act ` and a four-digit year.
   */
  lemma LegislationShape(s: string)
    requires Matches(LegislationPattern, s)
    ensures StartsWith(s, 0, "Section ") || StartsWith(s, 0, "Sec. ") || StartsWith(s, 0, "s. ")
    ensures |s| >= 8 && s[|s| - 8..|s| - 4] == "Act " && IsYear(s[|s| - 4..])
  {
    var m := MatchesSplit(LegislationOpening + LegislationBody, LegislationClosing, s);
    LegislationHead(s[..m]);
    if StartsWith(s[..m], 0, "Section ") {
      PrefixOpens(s, m, "Section ");
    } else if StartsWith(s[..m], 0, "Sec. ") {
      PrefixOpens(s, m, "Sec. ");
    } else {
      PrefixOpens(s, m, "s. ");
    }
    LegislationTail(s, m);
  }

  /** A text whose piece from `m` on is a legislation closing ends with `Act ` and a year. */
  lemma LegislationTail(s: string, m: nat)
    requires m <= |s| && Matches(LegislationClosing, s[m..])
    ensures |s| >= 8 && s[|s| - 8..|s| - 4] == "Act " && IsYear(s[|s| - 4..])
  {
    var closing := s[m..];
    LegislationCloses(closing);
    assert closing[..4] == s[|s| - 8..|s| - 4] && closing[4..] == s[|s| - 4..];
  }

  /** The opening of a case-law match: `[`, a year, `] ` and a run of upper-case letters. */
  lemma CaseLawOpens(u: string)
    requires Matches(CaseLawOpening, u)
    ensures |u| >= 8 && u[..1] == "[" && IsYear(u[1..5]) && u[5..7] == "] "
    ensures forall i :: 7 <= i < |u| ==> InClass({Upper}, u[i])
  {
    var year, court := LitCountLitRun("[", {Digits}, 4, "] ", {Upper}, u);
    assert u[1..5] == year && u[5..7] == "] ";
    assert forall i :: 7 <= i < |u| ==> u[i] == court[i - 7];
  }

  /** The closing of a case-law match is a run of digits. */
  lemma CaseLawCloses(u: string)
    requires Matches(CaseLawClosing, u)
    ensures |u| >= 1 && PrefixIn(u, |u|, {Digits})
  {
    RunOnly({Digits}, u);
  }

  /** The start of a case-law match, up to the end of its body. */
  lemma CaseLawHead(t: string)
    requires Matches(CaseLawOpening + CaseLawBody, t)
    ensures |t| >= 8 && t[..1] == "[" && IsYear(t[1..5]) && t[5..7] == "] " && InClass({Upper}, t[7])
  {
    var m := MatchesSplit(CaseLawOpening, CaseLawBody, t);
    CaseLawOpens(t[..m]);
    CaseLawFront(t, m);
  }

  /**
   * A case-law reference opens with `[`, a four-digit year, `] ` and an
   * upper-case letter, and closes with a digit.
   */
  lemma CaseLawShape(s: string)
    requires Matches(CaseLawPattern, s)
    ensures |s| >= 9 && StartsWith(s, 0, "[") && IsYear(s[1..5]) && s[5..7] == "] " && InClass({Upper}, s[7])
    ensures InClass({Digits}, s[|s| - 1])
  {
    var m := MatchesSplit(CaseLawOpening + CaseLawBody, CaseLawClosing, s);
    CaseLawHead(s[..m]);
    CaseLawFront(s, m);
    CaseLawTail(s, m);
  }

  /** A text whose piece before `m` opens like a case-law match opens the same way. */
  lemma CaseLawFront(s: string, m: nat)
    requires 8 <= m <= |s|
    requires var t := s[..m]; t[..1] == "[" && IsYear(t[1..5]) && t[5..7] == "] " && InClass({Upper}, t[7])
    ensures s[..1] == "[" && IsYear(s[1..5]) && s[5..7] == "] " && InClass({Upper}, s[7])
  {
    var t := s[..m];
    assert s[..1] == t[..1] && s[1..5] == t[1..5] && s[5..7] == t[5..7] && s[7] == t[7];
  }

  /** A text whose piece from `m` on is a case-law closing ends with a digit. */
  lemma CaseLawTail(s: string, m: nat)
    requires m <= |s| && Matches(CaseLawClosing, s[m..])
    ensures m < |s| && InClass({Digits}, s[|s| - 1])
  {
    var closing := s[m..];
    CaseLawCloses(closing);
    assert s[|s| - 1] == closing[|closing| - 1];
  }

  /** The outline every legislation reference has. */
  predicate LegislationForm(s: string) {
    && (StartsWith(s, 0, "Section ") || StartsWith(s, 0, "Sec. ") || StartsWith(s, 0, "s. "))
    && |s| >= 8 && s[|s| - 8..|s| - 4] == "Act " && IsYear(s[|s| - 4..])
  }

  /** The outline every case-law reference has. */
  predicate CaseLawForm(s: string) {
    && |s| >= 9 && StartsWith(s, 0, "[") && IsYear(s[1..5]) && s[5..7] == "] " && InClass({Upper}, s[7])
    && InClass({Digits}, s[|s| - 1])
  }

  /** Every reference found in a text has the outline of a legislation or a case-law citation. */
  lemma ReferenceForm(text: string, x: string)
    requires x in References(text)
    ensures LegislationForm(x) || CaseLawForm(x)
  {
    if Occurs(LegislationPattern, x, text) {
      LegislationShape(x);
    } else {
      CaseLawShape(x);
    }
  }
}
