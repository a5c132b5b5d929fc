/**
 * Python's `re.findall` for a pattern without groups: scan the text left to
 * right, take the match the engine reports at the leftmost position where
 * one starts, record it, and resume at its end, so that the reported matches
 * never overlap.
 *
 * The scan itself only relies on what the engine reports at each position,
 * so it is stated over any matcher; `Engine` is the backtracking matcher of
 * a pattern on one text.
 */
module Scanner {
  import opened Wrappers
  import opened Regex

  /** For each position, the end of the match reported there, if any. */
  type Matcher = nat -> Option<nat>

  /** Every match `m` reports in a text of length `n` is nonempty and ends in the text. */
  predicate Advances(m: Matcher, n: nat) {
    forall q: nat :: q <= n && m(q).Some? ==> q < m(q).value <= n
  }

  /** The positions `start..end` of one reported match. */
  datatype Span = Span(start: nat, end: nat)

  /** `s` is exactly the match reported when started at `s.start`. */
  predicate Reported(m: Matcher, n: nat, s: Span) {
    s.start <= s.end <= n && m(s.start) == Some(s.end)
  }

  /** Position `q` is the start of `s` or lies inside it. */
  predicate Covers(s: Span, q: nat) {
    s.start <= q < s.end
  }

  /** The spans reported by the scan from `pos` of a text of length `n`, in order. */
  function Scan(m: Matcher, n: nat, pos: nat): seq<Span>
    requires Advances(m, n) && pos <= n
    decreases n - pos
  {
    match m(pos)
    case Some(e) => [Span(pos, e)] + Scan(m, n, e)
    case None => if pos == n then [] else Scan(m, n, pos + 1)
  }

  /** Where no match starts, the scan moves on by one character. */
  lemma ScanSkips(m: Matcher, n: nat, pos: nat)
    requires Advances(m, n) && pos < n && m(pos).None?
    ensures Scan(m, n, pos) == Scan(m, n, pos + 1)
  {
  }

  /** After a match from `pos` to `e`, the scan goes on from `e`. */
  lemma ScanFound(m: Matcher, n: nat, pos: nat, e: nat)
    requires Advances(m, n) && pos <= n && m(pos) == Some(e)
    ensures Scan(m, n, pos) == [Span(pos, e)] + Scan(m, n, e)
  {
  }

  /**
   * Every span of the scan from `pos` starts at or after `pos` and is the
   * match reported there, and the spans come in order without overlapping.
   */
  lemma {:induction false} ScanReported(m: Matcher, n: nat, pos: nat)
    requires Advances(m, n) && pos <= n
    ensures forall k :: 0 <= k < |Scan(m, n, pos)| ==>
      pos <= Scan(m, n, pos)[k].start && Reported(m, n, Scan(m, n, pos)[k])
    ensures forall k :: 0 <= k < |Scan(m, n, pos)| - 1 ==> Scan(m, n, pos)[k].end <= Scan(m, n, pos)[k + 1].start
    decreases n - pos
  {
    match m(pos)
    case Some(e) =>
      ScanReported(m, n, e);
      ScanFound(m, n, pos, e);
      var tail := Scan(m, n, e);
      assert forall k :: 1 <= k < |tail| + 1 ==> Scan(m, n, pos)[k] == tail[k - 1];
    case None =>
      if pos < n {
        ScanReported(m, n, pos + 1);
        ScanSkips(m, n, pos);
      }
  }

  /**
   * The scan misses no match: every position from `pos` on where a match
   * starts is the start of a reported span or lies inside one.
   */
  lemma {:induction false} ScanCovers(m: Matcher, n: nat, pos: nat, q: nat) returns (k: nat)
    requires Advances(m, n) && pos <= q <= n && m(q).Some?
    ensures k < |Scan(m, n, pos)| && Covers(Scan(m, n, pos)[k], q)
    decreases n - pos
  {
    match m(pos)
    case Some(e) =>
      ScanFound(m, n, pos, e);
      if e <= q {
        var k' := ScanCovers(m, n, e, q);
        k := k' + 1;
      } else {
        k := 0;
      }
    case None =>
      assert q != pos;
      ScanSkips(m, n, pos);
      k := ScanCovers(m, n, pos + 1, q);
  }

  /** The backtracking matcher of `p`, started at each position of `text`. */
  function Engine(p: Pattern, text: string): Matcher {
    (q: nat) => if q <= |text| then MatchFrom(p, text, q) else None
  }

  /** A pattern that cannot match the empty string makes the scan advance. */
  lemma EngineAdvances(p: Pattern, text: string)
    requires NonNullable(p)
    ensures Advances(Engine(p, text), |text|)
  {
  }

  /** `x` is, in full, a match of `p` and a contiguous piece of `text`. */
  predicate Occurs(p: Pattern, x: string, text: string) {
    exists i, j :: 0 <= i <= j <= |text| && text[i..j] == x && Matches(p, x)
  }

  /** The text of every span the engine reports is a match of the pattern. */
  lemma ReportedMatch(p: Pattern, text: string, spans: seq<Span>)
    requires forall k :: 0 <= k < |spans| ==> Reported(Engine(p, text), |text|, spans[k])
    ensures forall k :: 0 <= k < |spans| ==>
      spans[k].start <= spans[k].end <= |text| && Matches(p, text[spans[k].start..spans[k].end])
  {
    forall k | 0 <= k < |spans|
      ensures spans[k].start <= spans[k].end <= |text| && Matches(p, text[spans[k].start..spans[k].end])
    {
      assert Engine(p, text)(spans[k].start) == Some(spans[k].end);
      Sound(p, text, spans[k].start);
    }
  }

  /** `re.findall(p, text)`: the texts of the reported matches, left to right. */
  function FindAll(p: Pattern, text: string): (r: seq<string>)
    requires NonNullable(p)
    ensures forall x :: x in r ==> Occurs(p, x, text)
  {
    var m := Engine(p, text);
    EngineAdvances(p, text);
    var spans := Scan(m, |text|, 0);
    ScanReported(m, |text|, 0);
    assert forall k :: 0 <= k < |spans| ==> Reported(m, |text|, spans[k]);
    ReportedMatch(p, text, spans);
    seq(|spans|, k requires 0 <= k < |spans| => text[spans[k].start..spans[k].end])
  }

  /** `re.findall` finds nothing exactly when no piece of the text matches the pattern. */
  lemma FindAllEmpty(p: Pattern, text: string)
    requires NonNullable(p)
    ensures FindAll(p, text) == [] <==> forall i, j :: 0 <= i <= j <= |text| ==> !Matches(p, text[i..j])
  {
    if i, j :| 0 <= i <= j <= |text| && Matches(p, text[i..j]) {
      Complete(p, text, i, j);
      EngineAdvances(p, text);
      assert Engine(p, text)(i).Some?;
      var k := ScanCovers(Engine(p, text), |text|, 0, i);
    }
    if FindAll(p, text) != [] {
      assert Occurs(p, FindAll(p, text)[0], text);
    }
  }
}
