/**
 * A model of the part of Python's `re` engine that the two reference
 * patterns of the query handler use: literals, an alternation of literals
 * and greedy repetition of an ASCII character class, matched by ordered
 * backtracking (alternatives left to right, repetition counts from the
 * largest down).
 *
 * `MatchFrom` is the operational backtracking matcher; `Matches` is the
 * declarative language of a pattern. `Sound` and `Complete` connect them.
 */
module Regex {
  import opened Wrappers

  /** The ASCII ranges that the character classes of the patterns are built from. */
  datatype Range = Digits | Upper | Lower | Underscore | Whitespace

  /**
   * Membership of a character in a range. `Whitespace` is what `\s` denotes
   * on the ASCII characters of a Python `str` pattern: space, tab, line feed,
   * vertical tab, form feed, carriage return and the four separators
   * U+001C..U+001F.
   */
  predicate InRange(r: Range, c: char) {
    match r
    case Digits => '0' <= c <= '9'
    case Upper => 'A' <= c <= 'Z'
    case Lower => 'a' <= c <= 'z'
    case Underscore => c == '_'
    case Whitespace => c == ' ' || ('\t' <= c <= '\r') || ('\U{1C}' <= c <= '\U{1F}')
  }

  /** A character class `[...]` is a union of ranges. */
  type CharClass = set<Range>

  predicate InClass(cls: CharClass, c: char) {
    || (Digits in cls && InRange(Digits, c))
    || (Upper in cls && InRange(Upper, c))
    || (Lower in cls && InRange(Lower, c))
    || (Underscore in cls && InRange(Underscore, c))
    || (Whitespace in cls && InRange(Whitespace, c))
  }

  /** One element of a pattern. `Rep(cls, min, max)` is the greedy `cls{min,max}`; `max == None` is unbounded. */
  datatype Item =
    | Lit(word: string)
    | Alt(words: seq<string>)
    | Rep(cls: CharClass, min: nat, max: Option<nat>)

  /** A pattern is the concatenation of its items. */
  type Pattern = seq<Item>

  /** `w` occurs in `text` at position `pos`. */
  predicate StartsWith(text: string, pos: nat, w: string) {
    pos + |w| <= |text| && text[pos..pos + |w|] == w
  }

  /** A repetition count `k` respects the upper bound of a repetition. */
  predicate Within(k: nat, max: Option<nat>) {
    max.None? || k <= max.value
  }

  /** The length of the longest run of characters of `cls` starting at `pos`. */
  function Run(text: string, pos: nat, cls: CharClass): (n: nat)
    requires pos <= |text|
    ensures pos + n <= |text|
    ensures forall k :: pos <= k < pos + n ==> InClass(cls, text[k])
    ensures pos + n == |text| || !InClass(cls, text[pos + n])
    decreases |text| - pos
  {
    if pos < |text| && InClass(cls, text[pos]) then 1 + Run(text, pos + 1, cls) else 0
  }

  /** The largest count a greedy repetition may take: the run, cut to the upper bound. */
  function Cap(n: nat, max: Option<nat>): (k: nat)
    ensures k <= n && Within(k, max)
    ensures forall j: nat :: j <= n && Within(j, max) ==> j <= k
  {
    match max
    case None => n
    case Some(m) => if n < m then n else m
  }

  /** A pattern whose every match consumes at least one character. */
  predicate NonNullable(p: Pattern) {
    |p| > 0 &&
    match p[0]
    case Lit(w) => |w| > 0
    case Alt(ws) => forall i :: 0 <= i < |ws| ==> |ws[i]| > 0
    case Rep(_, lo, _) => lo > 0
  }

  /**
   * The backtracking matcher: the end position of the match of `p` that
   * starts at `pos`, as Python's engine chooses it, or `None`.
   */
  function MatchFrom(p: Pattern, text: string, pos: nat): (r: Option<nat>)
    requires pos <= |text|
    ensures r.Some? ==> pos <= r.value <= |text|
    ensures r.Some? && NonNullable(p) ==> pos < r.value
    decreases |p|, 0
  {
    if p == [] then Some(pos)
    else match p[0]
      case Lit(w) => if StartsWith(text, pos, w) then MatchFrom(p[1..], text, pos + |w|) else None
      case Alt(ws) => TryAlts(p[1..], ws, text, pos)
      case Rep(cls, lo, hi) => TryCounts(p[1..], text, pos + lo, pos + Cap(Run(text, pos, cls), hi))
  }

  /**
   * Ordered alternation: the alternatives of `ws` are tried left to right;
   * see `AltsChoice` and `AltsComplete` for what the result is.
   */
  function TryAlts(rest: Pattern, ws: seq<string>, text: string, pos: nat): (r: Option<nat>)
    requires pos <= |text|
    ensures r.Some? ==> pos <= r.value <= |text|
    ensures r.Some? && (forall i :: 0 <= i < |ws| ==> |ws[i]| > 0) ==> pos < r.value
    decreases |rest|, |ws|
  {
    if ws == [] then None
    else
      var first := if StartsWith(text, pos, ws[0]) then MatchFrom(rest, text, pos + |ws[0]|) else None;
      if first.Some? then first
      else
        assert forall i :: 0 <= i < |ws[1..]| ==> ws[1..][i] == ws[i + 1];
        TryAlts(rest, ws[1..], text, pos)
  }

  /**
   * Greedy repetition with backtracking: the repetition ends at `q`, then at
   * `q - 1`, ... down to `lo`; see `CountsChoice` and `CountsComplete`.
   */
  function TryCounts(rest: Pattern, text: string, lo: nat, q: nat): (r: Option<nat>)
    requires q <= |text|
    ensures r.Some? ==> lo <= r.value <= |text|
    decreases |rest|, q + 1
  {
    if q < lo then None
    else
      var r := MatchFrom(rest, text, q);
      if r.Some? || q == lo then r else TryCounts(rest, text, lo, q - 1)
  }

  /** Alternative `w` occurs at `pos` and `rest` matches after it. */
  predicate AltViable(rest: Pattern, w: string, text: string, pos: nat)
    requires pos <= |text|
  {
    StartsWith(text, pos, w) && MatchFrom(rest, text, pos + |w|).Some?
  }

  /**
   * The result of an alternation is decided by the FIRST viable
   * alternative: it is the match of `rest` after that alternative.
   */
  lemma {:induction false} AltsChoice(rest: Pattern, ws: seq<string>, text: string, pos: nat) returns (i: nat)
    requires pos <= |text|
    requires TryAlts(rest, ws, text, pos).Some?
    ensures i < |ws| && AltViable(rest, ws[i], text, pos)
    ensures TryAlts(rest, ws, text, pos) == MatchFrom(rest, text, pos + |ws[i]|)
    ensures forall j :: 0 <= j < i ==> !AltViable(rest, ws[j], text, pos)
    decreases |ws|
  {
    if AltViable(rest, ws[0], text, pos) {
      i := 0;
    } else {
      var i' := AltsChoice(rest, ws[1..], text, pos);
      i := i' + 1;
      assert ws[i] == ws[1..][i'];
      forall j | 0 <= j < i ensures !AltViable(rest, ws[j], text, pos) {
        if j > 0 { assert ws[j] == ws[1..][j - 1]; }
      }
    }
  }

  /** An alternation fails only when no alternative is viable. */
  lemma {:induction false} AltsComplete(rest: Pattern, ws: seq<string>, text: string, pos: nat, i: nat)
    requires pos <= |text|
    requires i < |ws| && AltViable(rest, ws[i], text, pos)
    ensures TryAlts(rest, ws, text, pos).Some?
    decreases |ws|
  {
    if i > 0 && !AltViable(rest, ws[0], text, pos) {
      assert ws[1..][i - 1] == ws[i];
      AltsComplete(rest, ws[1..], text, pos, i - 1);
    }
  }

  /**
   * The result of a greedy repetition is decided by the LARGEST end in
   * `lo..q` after which `rest` matches.
   */
  lemma {:induction false} CountsChoice(rest: Pattern, text: string, lo: nat, q: nat) returns (e: nat)
    requires q <= |text|
    requires TryCounts(rest, text, lo, q).Some?
    ensures lo <= e <= q && MatchFrom(rest, text, e).Some?
    ensures TryCounts(rest, text, lo, q) == MatchFrom(rest, text, e)
    ensures forall e' :: e < e' <= q ==> MatchFrom(rest, text, e').None?
    decreases q
  {
    if MatchFrom(rest, text, q).Some? {
      e := q;
    } else {
      e := CountsChoice(rest, text, lo, q - 1);
    }
  }

  /** A greedy repetition fails only when `rest` matches after no end in `lo..q`. */
  lemma {:induction false} CountsComplete(rest: Pattern, text: string, lo: nat, q: nat, e: nat)
    requires q <= |text|
    requires lo <= e <= q && MatchFrom(rest, text, e).Some?
    ensures TryCounts(rest, text, lo, q).Some?
    decreases q
  {
    if e < q && MatchFrom(rest, text, q).None? {
      CountsComplete(rest, text, lo, q - 1, e);
    }
  }

  /** Every character of `s` before index `k` is in `cls`. */
  predicate PrefixIn(s: string, k: nat, cls: CharClass)
    requires k <= |s|
  {
    forall j :: 0 <= j < k ==> InClass(cls, s[j])
  }

  /** The declarative language of a pattern: `s` is, in full, one of the strings `p` denotes. */
  predicate Matches(p: Pattern, s: string)
    decreases |p|, 0
  {
    if p == [] then s == []
    else match p[0]
      case Lit(w) => StartsWith(s, 0, w) && Matches(p[1..], s[|w|..])
      case Alt(ws) => exists i :: 0 <= i < |ws| && AltSplit(p[1..], ws[i], s)
      case Rep(cls, lo, hi) => exists k :: lo <= k <= |s| && RepSplit(p[1..], cls, hi, k, s)
  }

  /** `s` is alternative `w` followed by a match of `rest`. */
  predicate AltSplit(rest: Pattern, w: string, s: string)
    decreases |rest|, 1
  {
    StartsWith(s, 0, w) && Matches(rest, s[|w|..])
  }

  /** `s` is `k` characters of `cls` (`k` within the bound) followed by a match of `rest`. */
  predicate RepSplit(rest: Pattern, cls: CharClass, hi: Option<nat>, k: nat, s: string)
    decreases |rest|, 1
  {
    k <= |s| && Within(k, hi) && PrefixIn(s, k, cls) && Matches(rest, s[k..])
  }

  /** Dropping a prefix of a slice is a slice of the whole. */
  lemma SliceDrop(text: string, pos: nat, k: nat, e: nat)
    requires pos + k <= e <= |text|
    ensures text[pos..e][k..] == text[pos + k..e]
    ensures text[pos..e][..k] == text[pos..pos + k]
  {
  }

  /** Whatever the backtracking matcher returns is a match of the pattern. */
  lemma {:induction false} Sound(p: Pattern, text: string, pos: nat)
    requires pos <= |text|
    requires MatchFrom(p, text, pos).Some?
    ensures Matches(p, text[pos..MatchFrom(p, text, pos).value])
    decreases |p|, 1
  {
    if p != [] {
      if p[0].Lit? {
        SoundLit(p, text, pos);
      } else if p[0].Alt? {
        SoundAlt(p, text, pos);
      } else {
        SoundRep(p, text, pos);
      }
    }
  }

  lemma {:induction false} SoundLit(p: Pattern, text: string, pos: nat)
    requires pos <= |text| && p != [] && p[0].Lit?
    requires MatchFrom(p, text, pos).Some?
    ensures Matches(p, text[pos..MatchFrom(p, text, pos).value])
    decreases |p|, 0
  {
    var w, e := p[0].word, MatchFrom(p, text, pos).value;
    Sound(p[1..], text, pos + |w|);
    SliceDrop(text, pos, |w|, e);
  }

  lemma {:induction false} SoundAlt(p: Pattern, text: string, pos: nat)
    requires pos <= |text| && p != [] && p[0].Alt?
    requires MatchFrom(p, text, pos).Some?
    ensures Matches(p, text[pos..MatchFrom(p, text, pos).value])
    decreases |p|, 0
  {
    var ws, e := p[0].words, MatchFrom(p, text, pos).value;
    var i := AltsChoice(p[1..], ws, text, pos);
    Sound(p[1..], text, pos + |ws[i]|);
    SliceDrop(text, pos, |ws[i]|, e);
    assert AltSplit(p[1..], ws[i], text[pos..e]);
  }

  lemma {:induction false} SoundRep(p: Pattern, text: string, pos: nat)
    requires pos <= |text| && p != [] && p[0].Rep?
    requires MatchFrom(p, text, pos).Some?
    ensures Matches(p, text[pos..MatchFrom(p, text, pos).value])
    decreases |p|, 0
  {
    var cls, e := p[0].cls, MatchFrom(p, text, pos).value;
    var q := CountsChoice(p[1..], text, pos + p[0].min, pos + Cap(Run(text, pos, cls), p[0].max));
    Sound(p[1..], text, q);
    var k := q - pos;
    SliceDrop(text, pos, k, e);
    assert PrefixIn(text[pos..e], k, cls);
    assert RepSplit(p[1..], cls, p[0].max, k, text[pos..e]);
  }

  /** A match of a pattern that starts with a literal starts with that literal. */
  lemma LitSplit(p: Pattern, text: string, pos: nat, e: nat)
    requires p != [] && p[0].Lit? && pos <= e <= |text| && Matches(p, text[pos..e])
    ensures StartsWith(text, pos, p[0].word) && pos + |p[0].word| <= e
    ensures Matches(p[1..], text[pos + |p[0].word|..e])
  {
    SliceDrop(text, pos, |p[0].word|, e);
  }

  /** A match of a pattern that starts with an alternation starts with one of its alternatives. */
  lemma AltSplitAt(p: Pattern, text: string, pos: nat, e: nat) returns (i: nat)
    requires p != [] && p[0].Alt? && pos <= e <= |text| && Matches(p, text[pos..e])
    ensures i < |p[0].words| && StartsWith(text, pos, p[0].words[i]) && pos + |p[0].words[i]| <= e
    ensures Matches(p[1..], text[pos + |p[0].words[i]|..e])
  {
    i :| 0 <= i < |p[0].words| && AltSplit(p[1..], p[0].words[i], text[pos..e]);
    SliceDrop(text, pos, |p[0].words[i]|, e);
  }

  /** A match of a pattern that starts with a repetition starts with a run the greedy repetition may take. */
  lemma RepSplitAt(p: Pattern, text: string, pos: nat, e: nat) returns (q: nat)
    requires p != [] && p[0].Rep? && pos <= e <= |text| && Matches(p, text[pos..e])
    ensures pos + p[0].min <= q <= pos + Cap(Run(text, pos, p[0].cls), p[0].max) && q <= e
    ensures Matches(p[1..], text[q..e])
  {
    var s := text[pos..e];
    var k :| p[0].min <= k <= |s| && RepSplit(p[1..], p[0].cls, p[0].max, k, s);
    var run := Run(text, pos, p[0].cls);
    assert k <= run by {
      assert forall j :: 0 <= j < k ==> s[j] == text[pos + j];
    }
    SliceDrop(text, pos, k, e);
    q := pos + k;
  }

  /** If some match of the pattern starts at `pos`, the backtracking matcher finds one. */
  lemma {:induction false} Complete(p: Pattern, text: string, pos: nat, e: nat)
    requires pos <= e <= |text|
    requires Matches(p, text[pos..e])
    ensures MatchFrom(p, text, pos).Some?
    decreases |p|, 1
  {
    if p != [] {
      if p[0].Lit? {
        CompleteLit(p, text, pos, e);
      } else if p[0].Alt? {
        CompleteAlt(p, text, pos, e);
      } else {
        CompleteRep(p, text, pos, e);
      }
    }
  }

  lemma {:induction false} CompleteLit(p: Pattern, text: string, pos: nat, e: nat)
    requires pos <= e <= |text| && p != [] && p[0].Lit?
    requires Matches(p, text[pos..e])
    ensures MatchFrom(p, text, pos).Some?
    decreases |p|, 0
  {
    LitSplit(p, text, pos, e);
    Complete(p[1..], text, pos + |p[0].word|, e);
  }

  lemma {:induction false} CompleteAlt(p: Pattern, text: string, pos: nat, e: nat)
    requires pos <= e <= |text| && p != [] && p[0].Alt?
    requires Matches(p, text[pos..e])
    ensures MatchFrom(p, text, pos).Some?
    decreases |p|, 0
  {
    var i := AltSplitAt(p, text, pos, e);
    Complete(p[1..], text, pos + |p[0].words[i]|, e);
    AltsComplete(p[1..], p[0].words, text, pos, i);
  }

  lemma {:induction false} CompleteRep(p: Pattern, text: string, pos: nat, e: nat)
    requires pos <= e <= |text| && p != [] && p[0].Rep?
    requires Matches(p, text[pos..e])
    ensures MatchFrom(p, text, pos).Some?
    decreases |p|, 0
  {
    var q := RepSplitAt(p, text, pos, e);
    Complete(p[1..], text, q, e);
    CountsComplete(p[1..], text, pos + p[0].min, pos + Cap(Run(text, pos, p[0].cls), p[0].max), q);
  }

  /** A match of a concatenation of patterns splits into a match of each part. */
  lemma {:induction false} MatchesSplit(p: Pattern, q: Pattern, s: string) returns (m: nat)
    requires Matches(p + q, s)
    ensures m <= |s| && Matches(p, s[..m]) && Matches(q, s[m..])
    decreases |p|, 1
  {
    if p == [] {
      assert p + q == q;
      m := 0;
    } else {
      assert (p + q)[0] == p[0] && (p + q)[1..] == p[1..] + q;
      if p[0].Lit? {
        m := SplitLit(p, q, s);
      } else if p[0].Alt? {
        m := SplitAlt(p, q, s);
      } else {
        m := SplitRep(p, q, s);
      }
    }
  }

  lemma {:induction false} SplitLit(p: Pattern, q: Pattern, s: string) returns (m: nat)
    requires p != [] && p[0].Lit? && (p + q)[0] == p[0] && (p + q)[1..] == p[1..] + q
    requires Matches(p + q, s)
    ensures m <= |s| && Matches(p, s[..m]) && Matches(q, s[m..])
    decreases |p|, 0
  {
    var w := p[0].word;
    var m' := MatchesSplit(p[1..], q, s[|w|..]);
    m := |w| + m';
    assert s[..m][..|w|] == s[..|w|];
    assert s[..m][|w|..] == s[|w|..][..m'];
    assert s[m..] == s[|w|..][m'..];
  }

  lemma {:induction false} SplitAlt(p: Pattern, q: Pattern, s: string) returns (m: nat)
    requires p != [] && p[0].Alt? && (p + q)[0] == p[0] && (p + q)[1..] == p[1..] + q
    requires Matches(p + q, s)
    ensures m <= |s| && Matches(p, s[..m]) && Matches(q, s[m..])
    decreases |p|, 0
  {
    var i :| 0 <= i < |p[0].words| && AltSplit(p[1..] + q, p[0].words[i], s);
    var w := p[0].words[i];
    var m' := MatchesSplit(p[1..], q, s[|w|..]);
    m := |w| + m';
    assert s[..m][..|w|] == s[..|w|];
    assert s[..m][|w|..] == s[|w|..][..m'];
    assert AltSplit(p[1..], w, s[..m]);
    assert s[m..] == s[|w|..][m'..];
  }

  lemma {:induction false} SplitRep(p: Pattern, q: Pattern, s: string) returns (m: nat)
    requires p != [] && p[0].Rep? && (p + q)[0] == p[0] && (p + q)[1..] == p[1..] + q
    requires Matches(p + q, s)
    ensures m <= |s| && Matches(p, s[..m]) && Matches(q, s[m..])
    decreases |p|, 0
  {
    var cls, hi := p[0].cls, p[0].max;
    var k :| p[0].min <= k <= |s| && RepSplit(p[1..] + q, cls, hi, k, s);
    var m' := MatchesSplit(p[1..], q, s[k..]);
    m := k + m';
    assert forall j :: 0 <= j < k ==> s[..m][j] == s[j];
    assert s[..m][k..] == s[k..][..m'];
    assert RepSplit(p[1..], cls, hi, k, s[..m]);
    assert s[m..] == s[k..][m'..];
  }

  /** A match of a pattern that opens with a literal opens with that literal. */
  lemma HeadLit(p: Pattern, s: string)
    requires p != [] && p[0].Lit? && Matches(p, s)
    ensures StartsWith(s, 0, p[0].word) && Matches(p[1..], s[|p[0].word|..])
  {
  }

  /** A match of a pattern that opens with an alternation opens with one of the alternatives. */
  lemma HeadAlt(p: Pattern, s: string) returns (i: nat)
    requires p != [] && p[0].Alt? && Matches(p, s)
    ensures i < |p[0].words| && StartsWith(s, 0, p[0].words[i]) && Matches(p[1..], s[|p[0].words[i]|..])
  {
    i :| 0 <= i < |p[0].words| && AltSplit(p[1..], p[0].words[i], s);
  }

  /** A match of a pattern that opens with a repetition opens with a run of the class of allowed length. */
  lemma HeadRep(p: Pattern, s: string) returns (k: nat)
    requires p != [] && p[0].Rep? && Matches(p, s)
    ensures p[0].min <= k <= |s| && Within(k, p[0].max) && PrefixIn(s, k, p[0].cls) && Matches(p[1..], s[k..])
  {
    k :| p[0].min <= k <= |s| && RepSplit(p[1..], p[0].cls, p[0].max, k, s);
  }

  /** `(?:w1|w2|...)sep` matches exactly an alternative followed by `sep`. */
  lemma AltThenLit(ws: seq<string>, sep: string, u: string) returns (i: nat)
    requires Matches([Alt(ws), Lit(sep)], u)
    ensures i < |ws| && u == ws[i] + sep
  {
    var p := [Alt(ws), Lit(sep)];
    i := HeadAlt(p, u);
    var v := u[|ws[i]|..];
    assert p[1..] == [Lit(sep)] && p[1..][1..] == [];
    HeadLit(p[1..], v);
    assert v[|sep|..] == [];
    assert u == u[..|ws[i]|] + v;
  }

  /** `w cls{n}` matches exactly `w` followed by `n` characters of `cls`. */
  lemma LitThenCount(w: string, cls: CharClass, n: nat, u: string) returns (y: string)
    requires Matches([Lit(w), Rep(cls, n, Some(n))], u)
    ensures u == w + y && |y| == n && PrefixIn(y, n, cls)
  {
    var p := [Lit(w), Rep(cls, n, Some(n))];
    HeadLit(p, u);
    y := u[|w|..];
    assert p[1..] == [Rep(cls, n, Some(n))] && p[1..][1..] == [];
    var k := HeadRep(p[1..], y);
    assert y[k..] == [];
    assert u == u[..|w|] + y;
  }

  /** `cls+` matches exactly a nonempty run of `cls`. */
  lemma RunOnly(cls: CharClass, u: string)
    requires Matches([Rep(cls, 1, None)], u)
    ensures |u| >= 1 && PrefixIn(u, |u|, cls)
  {
    var p := [Rep(cls, 1, None)];
    var k := HeadRep(p, u);
    assert p[1..] == [] && u[k..] == [];
  }

  /** `w cls+` matches exactly `w` followed by a nonempty run of `cls`. */
  lemma LitThenRun(w: string, cls: CharClass, u: string) returns (y: string)
    requires Matches([Lit(w), Rep(cls, 1, None)], u)
    ensures u == w + y && |y| >= 1 && PrefixIn(y, |y|, cls)
  {
    var p := [Lit(w), Rep(cls, 1, None)];
    HeadLit(p, u);
    assert p[1..] == [Rep(cls, 1, None)];
    y := u[|w|..];
    RunOnly(cls, y);
    assert u == u[..|w|] + y;
  }

  /** `c{n} w d+` matches exactly `n` characters of `c`, then `w`, then a nonempty run of `d`. */
  lemma CountLitRun(c: CharClass, n: nat, w: string, d: CharClass, u: string) returns (x: string, y: string)
    requires Matches([Rep(c, n, Some(n)), Lit(w), Rep(d, 1, None)], u)
    ensures u == x + w + y && |x| == n && PrefixIn(x, n, c) && |y| >= 1 && PrefixIn(y, |y|, d)
  {
    var p := [Rep(c, n, Some(n)), Lit(w), Rep(d, 1, None)];
    var k := HeadRep(p, u);
    assert p[1..] == [Lit(w), Rep(d, 1, None)];
    x := u[..n];
    assert forall j :: 0 <= j < n ==> x[j] == u[j];
    var v := u[n..];
    y := LitThenRun(w, d, v);
    assert u == x + v;
  }

  /** `a c{n} w d+` matches exactly `a`, `n` characters of `c`, `w` and a nonempty run of `d`. */
  lemma LitCountLitRun(a: string, c: CharClass, n: nat, w: string, d: CharClass, u: string)
    returns (x: string, y: string)
    requires Matches([Lit(a), Rep(c, n, Some(n)), Lit(w), Rep(d, 1, None)], u)
    ensures u == a + x + w + y && |x| == n && PrefixIn(x, n, c) && |y| >= 1 && PrefixIn(y, |y|, d)
  {
    var p := [Lit(a), Rep(c, n, Some(n)), Lit(w), Rep(d, 1, None)];
    HeadLit(p, u);
    assert p[1..] == [Rep(c, n, Some(n)), Lit(w), Rep(d, 1, None)];
    var v := u[|a|..];
    x, y := CountLitRun(c, n, w, d, v);
    assert u == u[..|a|] + v;
  }
}
