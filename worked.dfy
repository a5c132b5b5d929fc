/**
 * `extract_references` on concrete answer texts: a sentence citing an Act,
 * a sentence citing a case, and what extraction does with two references
 * joined by a space or written as two sentences, and with one Act cited
 * twice.
 */
module Worked {
  import opened Wrappers
  import opened Regex
  import opened Scanner
  import opened Citations
  import opened Steps

  /** `w` occurs at `pos` of `t`, character by character. */
  lemma ByChars(t: string, pos: nat, w: string)
    requires pos + |w| <= |t|
    requires forall i :: 0 <= i < |w| ==> t[pos + i] == w[i]
    ensures StartsWith(t, pos, w)
  {
    assert t[pos..pos + |w|] == w;
  }

  /**
   * A text that opens with a legislation citation `Section <digits> of the
   * ... Act <year>` ending at `a + 8`, with no `S`, no `s` that could open
   * `s. `, no `A` and no `[` after it, has that citation as its only
   * reference.
   */
  lemma SingleLegislation(t: string, l: nat, a: nat)
    requires 8 < l && l + 8 < a && a + 8 <= |t|
    requires StartsWith(t, 0, "Section ")
    requires forall k :: 8 <= k < l ==> InClass({Digits}, t[k])
    requires StartsWith(t, l, " of the ")
    requires forall k :: l + 8 <= k < a ==> InClass(Word + {Whitespace}, t[k])
    requires StartsWith(t, a, "Act ")
    requires forall k :: a + 4 <= k < a + 8 ==> InClass({Digits}, t[k])
    requires forall k :: a + 8 <= k < |t| ==> t[k] != 'A' && t[k] != 'S' && t[k] != '[' && (t[k] == 's' ==> k + 3 > |t|)
    ensures LegislationRefs(t) == [t[..a + 8]] && CaseLawRefs(t) == []
    ensures References(t) == {t[..a + 8]}
  {
    assert MatchFrom(LegislationPattern, t, 0) == Some(a + 8) by {
      LegislationEndAt(t, 0, l, a);
    }
    assert FindAll(LegislationPattern, t) == [t[..a + 8]] by {
      NoLegislationFrom(t, a + 8);
      FindAllOne(LegislationPattern, t, a + 8);
    }
    assert forall k :: 0 <= k < a + 8 ==> t[k] != '[' by {
      forall k | 0 <= k < a + 8
        ensures t[k] != '['
      {
        if k < 8 {
          assert t[k] == t[..8][k];
        } else if l <= k < l + 8 {
          assert t[k] == t[l..l + 8][k - l];
        } else if a <= k < a + 4 {
          assert t[k] == t[a..a + 4][k - a];
        }
      }
    }
    assert FindAll(CaseLawPattern, t) == [] by {
      NoCaseLawFrom(t, 0);
      FindAllNone(CaseLawPattern, t);
    }
  }

  /**
   * A text that opens with a case-law citation `[<year>] <court> ...
   * <number>` ending at `e`, with no `[` after it, and with no `S` and no `s`
   * that could open `s. ` after the opening bracket, has that citation as its
   * only reference.
   */
  lemma SingleCaseLaw(t: string, c: nat, g: nat, e: nat)
    requires 7 < c < g < e <= |t|
    requires StartsWith(t, 0, "[") && StartsWith(t, 5, "] ")
    requires forall k :: 1 <= k < 5 ==> InClass({Digits}, t[k])
    requires forall k :: 7 <= k < c ==> InClass({Upper}, t[k])
    requires forall k :: c <= k < g ==> InClass({Upper, Lower, Whitespace}, t[k])
    requires !InClass({Upper}, t[c])
    requires forall k :: g <= k < e ==> InClass({Digits}, t[k])
    requires e == |t| || !InClass({Digits}, t[e])
    requires forall k :: e <= k < |t| ==> t[k] != '['
    requires forall k :: 1 <= k < |t| ==> t[k] != 'S' && (t[k] == 's' ==> k + 3 > |t|)
    ensures LegislationRefs(t) == [] && CaseLawRefs(t) == [t[..e]]
    ensures References(t) == {t[..e]}
  {
    assert MatchFrom(CaseLawPattern, t, 0) == Some(e) by {
      CaseLawEndAt(t, c, g, e);
    }
    assert FindAll(CaseLawPattern, t) == [t[..e]] by {
      NoCaseLawFrom(t, e);
      FindAllOne(CaseLawPattern, t, e);
    }
    assert FindAll(LegislationPattern, t) == [] by {
      assert t[0] == '[';
      NoLegislationFrom(t, 0);
      FindAllNone(LegislationPattern, t);
    }
  }

  /** `s` consists of characters of `cls` only. */
  predicate AllIn(s: string, cls: CharClass) {
    forall k :: 0 <= k < |s| ==> InClass(cls, s[k])
  }

  /** Two texts of characters of `cls` joined are of characters of `cls`. */
  lemma AllInAppend(x: string, y: string, cls: CharClass)
    requires AllIn(x, cls) && AllIn(y, cls)
    ensures AllIn(x + y, cls)
  {
  }

  /** Digits are word characters. */
  lemma DigitsInWord(s: string)
    requires AllIn(s, {Digits})
    ensures AllIn(s, Word + {Whitespace})
  {
  }

  /** `s` consists of ASCII letters, digits and spaces only. */
  predicate Plain(s: string) {
    forall k :: 0 <= k < |s| ==> ('a' <= s[k] <= 'z' || 'A' <= s[k] <= 'Z' || '0' <= s[k] <= '9' || s[k] == ' ')
  }

  /** Letters, digits and spaces are word characters and white space. */
  lemma PlainName(s: string)
    requires Plain(s)
    ensures AllIn(s, Word + {Whitespace})
  {
  }

  /**
   * No `A`, no `S`, no `[`, and an `s` only among the last two characters:
   * text after a citation that opens no further reference and holds no
   * `Act ` for the run `[\w\s]+` to reach.
   */
  predicate QuietTail(tail: string) {
    forall k :: 0 <= k < |tail| ==>
      tail[k] != 'A' && tail[k] != 'S' && tail[k] != '[' && (tail[k] == 's' ==> k + 3 > |tail|)
  }

  /** `Section <number> of the <name>Act <year>`. */
  function SectionCitation(number: string, name: string, year: string): string {
    "Section " + number + " of the " + name + "Act " + year
  }

  /** `number`, `name` and `year` make a citation of the legislation pattern. */
  predicate CitationParts(number: string, name: string, year: string) {
    && |number| >= 1 && AllIn(number, {Digits})
    && |name| >= 1 && AllIn(name, Word + {Whitespace})
    && |year| == 4 && AllIn(year, {Digits})
  }

  /**
   * A text that opens with `Section <number> of the <name>Act <year>`, for a
   * number of digits, a name of word characters and white space and a year
   * of four digits, and goes on with a quiet tail, has that citation as its
   * only reference.
   */
  lemma SectionCitationReference(number: string, name: string, year: string, tail: string)
    requires CitationParts(number, name, year) && QuietTail(tail)
    ensures References(SectionCitation(number, name, year) + tail) == {SectionCitation(number, name, year)}
  {
    var t := SectionCitation(number, name, year) + tail;
    var l := 8 + |number|;
    var a := l + 8 + |name|;
    CitationLayout(number, name, year, tail);
    SingleLegislation(t, l, a);
  }

  /** Where the parts of `Section <number> of the <name>Act <year>` and the tail lie in the text. */
  lemma CitationLayout(number: string, name: string, year: string, tail: string)
    requires CitationParts(number, name, year) && QuietTail(tail)
    ensures var t := SectionCitation(number, name, year) + tail;
      var l := 8 + |number|;
      var a := l + 8 + |name|;
      && 8 < l && l + 8 < a && a + 8 <= |t|
      && t[..a + 8] == SectionCitation(number, name, year)
      && StartsWith(t, 0, "Section ")
      && (forall k :: 8 <= k < l ==> InClass({Digits}, t[k]))
      && StartsWith(t, l, " of the ")
      && (forall k :: l + 8 <= k < a ==> InClass(Word + {Whitespace}, t[k]))
      && StartsWith(t, a, "Act ")
      && (forall k :: a + 4 <= k < a + 8 ==> InClass({Digits}, t[k]))
      && (forall k :: a + 8 <= k < |t| ==> t[k] != 'A' && t[k] != 'S' && t[k] != '[' && (t[k] == 's' ==> k + 3 > |t|))
  {
    var c := SectionCitation(number, name, year);
    var t := c + tail;
    var l := 8 + |number|;
    var a := l + 8 + |name|;
    assert |c| == a + 8;
    assert t[..a + 8] == c;
    assert t[..8] == "Section ";
    assert forall k :: 8 <= k < l ==> t[k] == number[k - 8];
    assert t[l..l + 8] == " of the ";
    assert forall k :: l + 8 <= k < a ==> t[k] == name[k - l - 8];
    assert t[a..a + 4] == "Act ";
    assert forall k :: a + 4 <= k < a + 8 ==> t[k] == year[k - a - 4];
    assert forall k :: a + 8 <= k < |t| ==> t[k] == tail[k - a - 8];
  }

  /**
   * Two citations `Section <digits> of the <name>Act <year>` joined by word
   * characters and white space only, followed by a quiet tail: the whole
   * stretch from the first `Section ` to the second year is the only
   * reference. The run `[\w\s]+` of the first citation reaches over its
   * own `Act <year>` and the second citation, and gives back only the last
   * `Act <year>`.
   */
  lemma MergedCitations(number1: string, name1: string, year1: string, sep: string,
                        number2: string, name2: string, year2: string, tail: string)
    requires CitationParts(number1, name1, year1) && CitationParts(number2, name2, year2)
    requires AllIn(sep, Word + {Whitespace}) && QuietTail(tail)
    ensures var joined := SectionCitation(number1, name1, year1) + sep + SectionCitation(number2, name2, year2);
      References(joined + tail) == {joined}
  {
    var name := name1 + "Act " + year1 + sep + "Section " + number2 + " of the " + name2;
    MergedName(name1, year1, sep, number2, name2);
    JoinedCitation(number1, name1, year1, sep, number2, name2, year2);
    SectionCitationReference(number1, name, year2, tail);
  }

  /** What the first citation's run `[\w\s]+` reaches over is word characters and white space. */
  lemma MergedName(name1: string, year1: string, sep: string, number2: string, name2: string)
    requires AllIn(name1, Word + {Whitespace}) && AllIn(year1, {Digits}) && AllIn(sep, Word + {Whitespace})
    requires AllIn(number2, {Digits}) && AllIn(name2, Word + {Whitespace})
    ensures AllIn(name1 + "Act " + year1 + sep + "Section " + number2 + " of the " + name2, Word + {Whitespace})
  {
    var cls := Word + {Whitespace};
    PlainName("Act ");
    PlainName("Section ");
    PlainName(" of the ");
    DigitsInWord(year1);
    DigitsInWord(number2);
    AllInAppend(name1, "Act ", cls);
    AllInAppend(name1 + "Act ", year1, cls);
    AllInAppend(name1 + "Act " + year1, sep, cls);
    AllInAppend(name1 + "Act " + year1 + sep, "Section ", cls);
    AllInAppend(name1 + "Act " + year1 + sep + "Section ", number2, cls);
    AllInAppend(name1 + "Act " + year1 + sep + "Section " + number2, " of the ", cls);
    AllInAppend(name1 + "Act " + year1 + sep + "Section " + number2 + " of the ", name2, cls);
  }

  /** Two citations joined by `sep` read as one citation whose name runs over the first year and the second opening. */
  lemma JoinedCitation(number1: string, name1: string, year1: string, sep: string,
                       number2: string, name2: string, year2: string)
    ensures SectionCitation(number1, name1, year1) + sep + SectionCitation(number2, name2, year2)
      == SectionCitation(number1, name1 + "Act " + year1 + sep + "Section " + number2 + " of the " + name2, year2)
  {
  }

  /** An Act citation, `Section 18 of the Fair Work Act 2009`. */
  const FairWorkAct: string := SectionCitation("18", "Fair Work ", "2009")

  /** An answer sentence that cites it: `Section 18 of the Fair Work Act 2009 applies.` */
  const FairWorkText: string := FairWorkAct + " applies."

  /** The Fair Work Act citation, spelled out. */
  lemma FairWorkSpelled()
    ensures FairWorkAct == "Section 18 of the Fair Work Act 2009"
  {
  }

  /** The sentence citing the Fair Work Act, spelled out. */
  lemma FairWorkTextSpelled()
    ensures FairWorkText == "Section 18 of the Fair Work Act 2009 applies."
  {
  }

  /** The parts of the Fair Work Act citation fit the pattern, and ` applies.` is a quiet tail. */
  lemma FairWorkParts()
    ensures CitationParts("18", "Fair Work ", "2009") && QuietTail(" applies.")
  {
    PlainName("Fair Work ");
  }

  /** The only reference of the sentence is exactly the Act citation, without the words after it. */
  lemma FairWorkReference()
    ensures FairWorkText == "Section 18 of the Fair Work Act 2009 applies."
    ensures References(FairWorkText) == {FairWorkAct}
    ensures FairWorkAct == "Section 18 of the Fair Work Act 2009"
  {
    FairWorkTextSpelled();
    FairWorkSpelled();
    FairWorkParts();
    SectionCitationReference("18", "Fair Work ", "2009", " applies.");
  }

  /** A case-law citation. */
  const HighCourtCase: string := "[2021] HCA 27"

  /** An answer sentence that cites it. */
  const HighCourtText: string := "[2021] HCA 27 held that..."

  /** Where the parts of the case citation lie in the sentence. */
  lemma HighCourtLayout()
    ensures var t := HighCourtText;
      && |t| == 26 && StartsWith(t, 0, "[") && StartsWith(t, 5, "] ")
      && (forall k :: 1 <= k < 5 ==> InClass({Digits}, t[k]))
      && (forall k :: 7 <= k < 10 ==> InClass({Upper}, t[k]))
      && InClass({Upper, Lower, Whitespace}, t[10]) && !InClass({Upper}, t[10])
      && (forall k :: 11 <= k < 13 ==> InClass({Digits}, t[k])) && !InClass({Digits}, t[13])
  {
    ByChars(HighCourtText, 0, "[");
    ByChars(HighCourtText, 5, "] ");
  }

  /** No `[` follows the case citation, and no `S` or `s` appears after the bracket. */
  lemma HighCourtLetters()
    ensures var t := HighCourtText;
      && (forall k :: 13 <= k < 26 ==> t[k] != '[')
      && (forall k :: 1 <= k < 26 ==> t[k] != 'S' && t[k] != 's')
  {
  }

  /** The only reference of the sentence is exactly the case citation, without the words after it. */
  lemma HighCourtReference()
    ensures LegislationRefs(HighCourtText) == [] && CaseLawRefs(HighCourtText) == [HighCourtCase]
    ensures References(HighCourtText) == {HighCourtCase}
  {
    HighCourtLayout();
    HighCourtLetters();
    SingleCaseLaw(HighCourtText, 10, 11, 13);
    assert HighCourtText[..13] == HighCourtCase;
  }

  /** Two short legislation citations, `Section 1 of the A Act 2000` and `Section 2 of the B Act 2001`. */
  const FirstAct: string := SectionCitation("1", "A ", "2000")
  const SecondAct: string := SectionCitation("2", "B ", "2001")

  /** The two citations joined by a space. */
  const JoinedActs: string := FirstAct + " " + SecondAct

  /** The joined text, spelled out. */
  lemma JoinedSpelled()
    ensures JoinedActs == "Section 1 of the A Act 2000 Section 2 of the B Act 2001"
  {
    FirstActSpelled();
    SecondActSpelled();
  }

  /** The first short citation, spelled out. */
  lemma FirstActSpelled()
    ensures FirstAct == "Section 1 of the A Act 2000"
  {
  }

  /** The second short citation, spelled out. */
  lemma SecondActSpelled()
    ensures SecondAct == "Section 2 of the B Act 2001"
  {
  }

  /** The parts of both short citations fit the pattern, and a space joins them. */
  lemma JoinedParts()
    ensures CitationParts("1", "A ", "2000") && CitationParts("2", "B ", "2001")
    ensures AllIn(" ", Word + {Whitespace}) && QuietTail("")
  {
    PlainName("A ");
    PlainName("B ");
  }

  /**
   * Each of the two citations is its own only reference, but the text that
   * joins them with a space has one reference only: the whole text. So
   * extracting again from the references joined by a space does not give
   * them back.
   */
  lemma JoinedReferencesMerge()
    ensures References(FirstAct) == {FirstAct} && References(SecondAct) == {SecondAct}
    ensures JoinedActs == "Section 1 of the A Act 2000 Section 2 of the B Act 2001"
    ensures References(JoinedActs) == {JoinedActs}
  {
    JoinedSpelled();
    JoinedParts();
    assert References(FirstAct) == {FirstAct} by {
      assert FirstAct + "" == FirstAct;
      SectionCitationReference("1", "A ", "2000", "");
    }
    assert References(SecondAct) == {SecondAct} by {
      assert SecondAct + "" == SecondAct;
      SectionCitationReference("2", "B ", "2001", "");
    }
    assert JoinedActs + "" == JoinedActs;
    MergedCitations("1", "A ", "2000", " ", "2", "B ", "2001", "");
  }

  /** The Act citation, twice. */
  const RepeatedAct: string := FairWorkAct + " and " + FairWorkAct

  /**
   * The Act citation twice with ` and ` between, and nothing after: the run
   * `[\w\s]+` of the first citation reaches over ` and ` and the second
   * citation, so the only reference is the whole text, from the first
   * `Section ` to the second year. The Act citation on its own is not among
   * its references.
   */
  lemma RepeatedActReference()
    ensures References(RepeatedAct) == {RepeatedAct}
    ensures FairWorkAct !in References(RepeatedAct)
  {
    FairWorkParts();
    PlainName(" and ");
    assert RepeatedAct + "" == RepeatedAct;
    MergedCitations("18", "Fair Work ", "2009", " and ", "18", "Fair Work ", "2009", "");
    assert |FairWorkAct| < |RepeatedAct|;
  }

  /** `Section <number> of the <name>Act <year>` consists of word characters and white space. */
  lemma CitationInRun(number: string, name: string, year: string)
    requires CitationParts(number, name, year)
    ensures AllIn(SectionCitation(number, name, year), Word + {Whitespace})
  {
    var cls := Word + {Whitespace};
    PlainName("Section ");
    PlainName(" of the ");
    PlainName("Act ");
    DigitsInWord(number);
    DigitsInWord(year);
    AllInAppend("Section ", number, cls);
    AllInAppend("Section " + number, " of the ", cls);
    AllInAppend("Section " + number + " of the ", name, cls);
    AllInAppend("Section " + number + " of the " + name, "Act ", cls);
    AllInAppend("Section " + number + " of the " + name + "Act ", year, cls);
  }

  /** A piece `c` at `s` of `t` carries a word that occurs in it over to `t`, shifted by `s`. */
  lemma ShiftStartsWith(t: string, s: nat, c: string, p: nat, w: string)
    requires s + |c| <= |t| && t[s..s + |c|] == c && StartsWith(c, p, w)
    ensures StartsWith(t, s + p, w)
  {
    forall k | 0 <= k < |w|
      ensures t[s + p + k] == w[k]
    {
      assert t[s + p + k] == t[s..s + |c|][p + k];
      assert c[p + k] == c[p..p + |w|][k];
    }
    assert t[s + p..s + p + |w|] == w;
  }

  /** `head + c + tail` holds `c` after `head` and `tail` after `c`, character by character. */
  lemma PiecesAt(head: string, c: string, tail: string)
    ensures var t := head + c + tail;
      && |t| == |head| + |c| + |tail|
      && t[|head|..|head| + |c|] == c
      && (forall k :: |head| <= k < |head| + |c| ==> t[k] == c[k - |head|])
      && (forall k :: |head| + |c| <= k < |t| ==> t[k] == tail[k - |head| - |c|])
  {
    var t := head + c + tail;
    assert t[|head|..|head| + |c|] == c;
  }

  /** Where the parts of `Section <number> of the <name>Act <year>` lie in a text, after `head` and before `tail`. */
  lemma CitationLayoutAt(head: string, number: string, name: string, year: string, tail: string)
    requires CitationParts(number, name, year)
    ensures var c := SectionCitation(number, name, year);
      var t := head + c + tail;
      var s := |head|;
      var a := s + 16 + |number| + |name|;
      && CitationAt(t, s, s + 8 + |number|, a)
      && a + 8 == s + |c| && |t| == a + 8 + |tail| && t[s..a + 8] == c
      && (forall k :: a + 8 <= k < |t| ==> t[k] == tail[k - a - 8])
  {
    var c := SectionCitation(number, name, year);
    var t := head + c + tail;
    var s := |head|;
    var l := s + 8 + |number|;
    var a := l + 8 + |name|;
    assert c + "" == c;
    CitationLayout(number, name, year, "");
    PiecesAt(head, c, tail);
    ShiftStartsWith(t, s, c, 0, "Section ");
    ShiftStartsWith(t, s, c, l - s, " of the ");
    ShiftStartsWith(t, s, c, a - s, "Act ");
  }

  /** Two citations as two sentences, `first. second`, followed by a quiet tail. */
  function Separated(first: string, second: string, tail: string): string {
    first + ". " + second + tail
  }

  /**
   * `t` holds `Section <digits> of the ... Act <year>` at `s`: the digits up
   * to ` of the ` at `l`, word characters and white space up to `Act ` at
   * `a`, and four digits after it.
   */
  predicate CitationAt(t: string, s: nat, l: nat, a: nat) {
    && s + 8 < l && l + 8 < a && a + 8 <= |t|
    && StartsWith(t, s, "Section ")
    && (forall k :: s + 8 <= k < l ==> InClass({Digits}, t[k]))
    && StartsWith(t, l, " of the ")
    && (forall k :: l + 8 <= k < a ==> InClass(Word + {Whitespace}, t[k]))
    && StartsWith(t, a, "Act ")
    && (forall k :: a + 4 <= k < a + 8 ==> InClass({Digits}, t[k]))
  }

  /** From `e` on, `t` holds no `A`, no `S` and no `s` that could open `s. `. */
  predicate QuietFrom(t: string, e: nat) {
    forall k :: e <= k < |t| ==> t[k] != 'A' && t[k] != 'S' && (t[k] == 's' ==> k + 3 > |t|)
  }

  /** `t` opens with a legislation citation as in `CitationAt`, and `. ` follows it. */
  predicate CitationThenDot(t: string, l: nat, a: nat) {
    CitationAt(t, 0, l, a) && a + 10 <= |t| && t[a + 8] == '.' && t[a + 9] == ' '
  }

  /**
   * A text with a legislation citation at `0`, then `. `, then a
   * legislation citation at `s2` and nothing after it that opens a
   * legislation match or ends one: the dot stops the run `[\w\s]+` of the
   * first citation, so `findall` finds the two citations, each on its own.
   */
  lemma TwoLegislation(t: string, l1: nat, a1: nat, s2: nat, l2: nat, a2: nat, first: string, second: string)
    requires CitationThenDot(t, l1, a1) && a1 + 10 == s2
    requires CitationAt(t, s2, l2, a2) && QuietFrom(t, a2 + 8)
    requires t[..a1 + 8] == first && t[s2..a2 + 8] == second
    ensures LegislationRefs(t) == [first, second]
  {
    FirstBeforeDot(t, l1, a1);
    SecondToEnd(t, s2, l2, a2);
    FindAllTwo(LegislationPattern, t, a1 + 8, s2, a2 + 8);
  }

  /** A legislation citation at the start that a `. ` follows is the match there, and no match starts at the `. `. */
  lemma FirstBeforeDot(t: string, l: nat, a: nat)
    requires CitationThenDot(t, l, a)
    ensures MatchFrom(LegislationPattern, t, 0) == Some(a + 8)
    ensures forall q :: a + 8 <= q < a + 10 ==> MatchFrom(LegislationPattern, t, q).None?
  {
    LegislationStopsAt(t, 0, l, a);
    NoLegislationAt(t, a + 8);
    NoLegislationAt(t, a + 9);
  }

  /** A legislation citation at `s` with a quiet rest after it is the match there, and no match starts after it. */
  lemma SecondToEnd(t: string, s: nat, l: nat, a: nat)
    requires CitationAt(t, s, l, a) && QuietFrom(t, a + 8)
    ensures MatchFrom(LegislationPattern, t, s) == Some(a + 8)
    ensures forall q :: a + 8 <= q <= |t| ==> MatchFrom(LegislationPattern, t, q).None?
  {
    LegislationEndAt(t, s, l, a);
    NoLegislationFrom(t, a + 8);
  }

  /** `Section <number> of the <name>Act <year>` on its own, by positions. */
  lemma OwnCitation(number: string, name: string, year: string)
    requires CitationParts(number, name, year)
    ensures var c := SectionCitation(number, name, year);
      CitationAt(c, 0, 8 + |number|, 16 + |number| + |name|) && |c| == 24 + |number| + |name|
  {
    var c := SectionCitation(number, name, year);
    assert c + "" == c;
    CitationLayout(number, name, year, "");
  }

  /** A citation at the start of `c` stays one when text follows `c`. */
  lemma CitationAtFront(c: string, rest: string, l: nat, a: nat)
    requires CitationAt(c, 0, l, a)
    ensures CitationAt(c + rest, 0, l, a) && (c + rest)[..|c|] == c
  {
    var t := c + rest;
    assert t[..|c|] == c;
    ShiftStartsWith(t, 0, c, 0, "Section ");
    ShiftStartsWith(t, 0, c, l, " of the ");
    ShiftStartsWith(t, 0, c, a, "Act ");
  }

  /** Where the first citation of `first. second` lies, and the `. ` after it. */
  lemma FirstInSeparated(number: string, name: string, year: string, second: string, tail: string)
    requires CitationParts(number, name, year)
    ensures var first := SectionCitation(number, name, year);
      var t := Separated(first, second, tail);
      var a := 16 + |number| + |name|;
      CitationThenDot(t, 8 + |number|, a) && a + 8 == |first| && t[..a + 8] == first
  {
    var first := SectionCitation(number, name, year);
    var rest := ". " + second + tail;
    assert Separated(first, second, tail) == first + rest;
    OwnCitation(number, name, year);
    CitationAtFront(first, rest, 8 + |number|, 16 + |number| + |name|);
    assert (first + rest)[|first|] == rest[0] == '.';
    assert (first + rest)[|first| + 1] == rest[1] == ' ';
  }

  /** Where the second citation of `first. second` lies, and that a quiet tail follows it. */
  lemma SecondInSeparated(first: string, number: string, name: string, year: string, tail: string)
    requires CitationParts(number, name, year) && QuietTail(tail)
    ensures var second := SectionCitation(number, name, year);
      var t := Separated(first, second, tail);
      var s := |first| + 2;
      var a := s + 16 + |number| + |name|;
      && CitationAt(t, s, s + 8 + |number|, a) && a + 8 == s + |second|
      && t[s..a + 8] == second && QuietFrom(t, a + 8)
  {
    var second := SectionCitation(number, name, year);
    var t := Separated(first, second, tail);
    assert t == (first + ". ") + second + tail;
    CitationLayoutAt(first + ". ", number, name, year, tail);
  }

  /**
   * In `first. second` and a quiet tail, the dot stops the run `[\w\s]+` of
   * the first citation, so `findall` finds the first citation and then the
   * second, each on its own.
   */
  lemma SeparatedLegislation(number1: string, name1: string, year1: string,
                             number2: string, name2: string, year2: string, tail: string)
    requires CitationParts(number1, name1, year1) && CitationParts(number2, name2, year2) && QuietTail(tail)
    ensures var first := SectionCitation(number1, name1, year1);
      var second := SectionCitation(number2, name2, year2);
      LegislationRefs(Separated(first, second, tail)) == [first, second]
  {
    var first := SectionCitation(number1, name1, year1);
    var second := SectionCitation(number2, name2, year2);
    var t := Separated(first, second, tail);
    var l1 := 8 + |number1|;
    var a1 := l1 + 8 + |name1|;
    var s2 := |first| + 2;
    var l2 := s2 + 8 + |number2|;
    var a2 := l2 + 8 + |name2|;
    FirstInSeparated(number1, name1, year1, second, tail);
    SecondInSeparated(first, number2, name2, year2, tail);
    TwoLegislation(t, l1, a1, s2, l2, a2, first, second);
  }

  /** `first. second` and a quiet tail hold no `[`, so no case-law match. */
  lemma SeparatedNoCaseLaw(number1: string, name1: string, year1: string,
                           number2: string, name2: string, year2: string, tail: string)
    requires CitationParts(number1, name1, year1) && CitationParts(number2, name2, year2) && QuietTail(tail)
    ensures var first := SectionCitation(number1, name1, year1);
      var second := SectionCitation(number2, name2, year2);
      CaseLawRefs(Separated(first, second, tail)) == []
  {
    var first := SectionCitation(number1, name1, year1);
    var second := SectionCitation(number2, name2, year2);
    var t := Separated(first, second, tail);
    CitationInRun(number1, name1, year1);
    CitationInRun(number2, name2, year2);
    assert forall q :: 0 <= q < |t| ==> t[q] != '[' by {
      forall q | 0 <= q < |t|
        ensures t[q] != '['
      {
        if q < |first| {
          assert t[q] == first[q];
        } else if q < |first| + 2 {
        } else if q < |first| + 2 + |second| {
          assert t[q] == second[q - |first| - 2];
        } else {
          assert t[q] == tail[q - |first| - 2 - |second|];
        }
      }
    }
    NoCaseLawFrom(t, 0);
    FindAllNone(CaseLawPattern, t);
  }

  /**
   * Two legislation citations written as two sentences, `first. second`,
   * followed by a quiet tail: each citation is a reference of its own, and
   * there are no others.
   */
  lemma SeparatedCitations(number1: string, name1: string, year1: string,
                           number2: string, name2: string, year2: string, tail: string)
    requires CitationParts(number1, name1, year1) && CitationParts(number2, name2, year2) && QuietTail(tail)
    ensures var first := SectionCitation(number1, name1, year1);
      var second := SectionCitation(number2, name2, year2);
      && LegislationRefs(Separated(first, second, tail)) == [first, second]
      && CaseLawRefs(Separated(first, second, tail)) == []
      && References(Separated(first, second, tail)) == {first, second}
  {
    SeparatedLegislation(number1, name1, year1, number2, name2, year2, tail);
    SeparatedNoCaseLaw(number1, name1, year1, number2, name2, year2, tail);
  }

  /** The first two entries of a duplicate-free list are two different elements of it. */
  lemma TwoElements(xs: seq<string>)
    requires Distinct(xs) && |xs| >= 2
    ensures xs[0] in Elements(xs) && xs[1] in Elements(xs) && xs[0] != xs[1]
  {
  }

  /** A duplicate-free list of exactly one element is that element alone. */
  lemma DistinctSingle(xs: seq<string>, x: string)
    requires Distinct(xs) && Elements(xs) == {x}
    ensures xs == [x]
  {
    assert x in Elements(xs);
    if |xs| >= 2 {
      TwoElements(xs);
      assert false;
    }
  }

  /** The two short citations as two sentences. */
  const SeparateActs: string := Separated(FirstAct, SecondAct, "")

  /** The two sentences, spelled out. */
  lemma SeparateActsSpelled()
    ensures SeparateActs == "Section 1 of the A Act 2000" + ". " + "Section 2 of the B Act 2001"
  {
    FirstActSpelled();
    SecondActSpelled();
  }

  /**
   * Written as two sentences, the two short citations come back as two
   * references, where joined by a space they make one.
   */
  lemma SeparateActsReferences()
    ensures References(SeparateActs) == {FirstAct, SecondAct}
    ensures SeparateActs == "Section 1 of the A Act 2000" + ". " + "Section 2 of the B Act 2001"
  {
    assert References(SeparateActs) == {FirstAct, SecondAct} by {
      JoinedParts();
      SeparatedCitations("1", "A ", "2000", "2", "B ", "2001", "");
    }
    SeparateActsSpelled();
  }

  /** The Act citation twice, as two sentences. */
  const RepeatedSentences: string := Separated(FairWorkAct, FairWorkAct, "")

  /** The two sentences citing the Fair Work Act, spelled out. */
  lemma RepeatedSentencesSpelled()
    ensures RepeatedSentences == "Section 18 of the Fair Work Act 2009" + ". " + "Section 18 of the Fair Work Act 2009"
  {
    FairWorkSpelled();
  }

  /**
   * Cited in two sentences, the Act citation is found twice by `findall`,
   * and a duplicate-free list of the references, as `extract_references`
   * returns, holds it once.
   */
  lemma RepeatedSentencesReferences(refs: seq<string>)
    requires Distinct(refs) && Elements(refs) == References(RepeatedSentences)
    ensures LegislationRefs(RepeatedSentences) == [FairWorkAct, FairWorkAct]
    ensures References(RepeatedSentences) == {FairWorkAct}
    ensures refs == [FairWorkAct]
    ensures RepeatedSentences == "Section 18 of the Fair Work Act 2009" + ". " + "Section 18 of the Fair Work Act 2009"
  {
    assert LegislationRefs(RepeatedSentences) == [FairWorkAct, FairWorkAct]
        && References(RepeatedSentences) == {FairWorkAct} by {
      FairWorkParts();
      assert QuietTail("");
      SeparatedCitations("18", "Fair Work ", "2009", "18", "Fair Work ", "2009", "");
    }
    DistinctSingle(refs, FairWorkAct);
    RepeatedSentencesSpelled();
  }
}
