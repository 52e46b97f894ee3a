/** The day-section segmentation of an itinerary: `re.findall` with the pattern
    `Day (\d+)[:\s]+(.*?)(?=Day \d+|$)` compiled with DOTALL.

    A match at position p is "Day ", a maximal run of digits (group 1), a
    maximal, non-empty run of separators (':' or whitespace), and then the
    lazily matched body (group 2), which stops at the first later position
    where "Day " and a digit begin, or where `$` holds: the end of the text, or
    just before a newline that is the text's last character. `findall` takes
    the leftmost match, resumes the search where it ended, and repeats. */
module DayPattern {
  import opened Wrappers
  import opened Text

  /** One match, as positions in the scanned text: "Day " at `start`, the day
      number's digits in [start + 4, digitsEnd), the separators in
      [digitsEnd, bodyStart), the body in [bodyStart, end). */
  datatype Match = Match(start: nat, digitsEnd: nat, bodyStart: nat, end: nat)

  /** The separator class `[:\s]`. */
  predicate IsSep(c: char) {
    c == ':' || IsSpace(c)
  }

  /** "Day " followed by a digit begins at p: the lookahead `Day \d+`. */
  predicate DayDigitAt(s: string, p: nat) {
    p + 5 <= |s| && s[p] == 'D' && s[p + 1] == 'a' && s[p + 2] == 'y' && s[p + 3] == ' '
    && IsDigit(s[p + 4])
  }

  /** From j on, some digits (possibly none) are followed by a separator. */
  predicate SepAfterDigits(s: string, j: nat)
    decreases |s| - j
  {
    j < |s| && (IsSep(s[j]) || (IsDigit(s[j]) && SepAfterDigits(s, j + 1)))
  }

  /** A day header `Day (\d+)[:\s]` begins at p. */
  predicate HeaderAt(s: string, p: nat) {
    DayDigitAt(s, p) && SepAfterDigits(s, p + 4)
  }

  /** No day header begins in [a, b). */
  predicate HeaderFree(s: string, a: nat, b: nat) {
    forall p: nat :: a <= p < b ==> !HeaderAt(s, p)
  }

  /** The lookahead `(?=Day \d+|$)` holds at e. */
  predicate BoundaryAt(s: string, e: nat) {
    e <= |s| && (DayDigitAt(s, e) || e == |s| || (e + 1 == |s| && s[e] == '\n'))
  }

  /** `m` is what the pattern matches when tried at `m.start`: the digit run
      and the separator run are maximal and the body is as short as the
      lookahead allows. */
  predicate IsMatch(s: string, m: Match) {
    && m.start + 4 < m.digitsEnd < m.bodyStart <= m.end <= |s|
    && s[m.start] == 'D' && s[m.start + 1] == 'a' && s[m.start + 2] == 'y' && s[m.start + 3] == ' '
    && (forall t {:trigger IsDigit(s[t])} :: m.start + 4 <= t < m.digitsEnd ==> IsDigit(s[t]))
    && (forall t {:trigger IsSep(s[t])} :: m.digitsEnd <= t < m.bodyStart ==> IsSep(s[t]))
    && (m.bodyStart == |s| || !IsSep(s[m.bodyStart]))
    && BoundaryAt(s, m.end)
    && (forall t: nat :: m.bodyStart <= t < m.end ==> !BoundaryAt(s, t))
  }

  /** The positions of `m` are ordered and within `s`, and its day number is
      made of digits: what reading the groups of a match needs. */
  predicate Spans(s: string, m: Match) {
    m.start + 4 < m.digitsEnd < m.bodyStart <= m.end <= |s| && AllDigits(s[m.start + 4..m.digitsEnd])
  }

  lemma MatchSpans(s: string, m: Match)
    requires IsMatch(s, m)
    ensures Spans(s, m)
  {
    var ds := s[m.start + 4..m.digitsEnd];
    forall t | 0 <= t < |ds|
      ensures IsDigit(ds[t])
    {
      assert ds[t] == s[m.start + 4 + t];
    }
  }

  /** The first position at or after q where the body's lookahead holds. */
  function NextBoundary(s: string, q: nat): (e: nat)
    requires q <= |s|
    ensures q <= e <= |s| && BoundaryAt(s, e)
    ensures forall t: nat :: q <= t < e ==> !BoundaryAt(s, t)
    decreases |s| - q
  {
    if BoundaryAt(s, q) then q else NextBoundary(s, q + 1)
  }

  lemma NextBoundaryUnique(s: string, q: nat, e: nat)
    requires q <= e <= |s| && BoundaryAt(s, e)
    requires forall t: nat :: q <= t < e ==> !BoundaryAt(s, t)
    ensures NextBoundary(s, q) == e
  {
  }

  /** The separator test after the digit run agrees with `SepAfterDigits`. */
  lemma {:induction false} SepAfterDigitRun(s: string, j: nat)
    requires j <= |s|
    ensures SepAfterDigits(s, j) <==> RunEnd(s, j, IsDigit) < |s| && IsSep(s[RunEnd(s, j, IsDigit)])
    decreases |s| - j
  {
    if j < |s| && IsDigit(s[j]) {
      SepAfterDigitRun(s, j + 1);
    }
  }

  /** Trying the pattern at p: a match exactly when a day header begins there. */
  function MatchAt(s: string, p: nat): (r: Option<Match>)
    ensures r.Some? <==> HeaderAt(s, p)
    ensures r.Some? ==> r.value.start == p && IsMatch(s, r.value)
  {
    if !DayDigitAt(s, p) then None
    else
      SepAfterDigitRun(s, p + 4);
      var j := RunEnd(s, p + 4, IsDigit);
      if j == |s| || !IsSep(s[j]) then None
      else
        var q := RunEnd(s, j, IsSep);
        Some(Match(p, j, q, NextBoundary(s, q)))
  }

  /** A match is determined by where it starts. */
  lemma MatchAtUnique(s: string, m: Match)
    requires IsMatch(s, m)
    ensures MatchAt(s, m.start) == Some(m)
  {
    assert IsSep(s[m.digitsEnd]);
    RunEndUnique(s, m.start + 4, IsDigit, m.digitsEnd);
    RunEndUnique(s, m.digitsEnd, IsSep, m.bodyStart);
    NextBoundaryUnique(s, m.bodyStart, m.end);
  }

  /** The scan of `findall` from position i: try the pattern at i; on a match,
      record it and resume where it ended, otherwise move one character on. */
  function Scan(s: string, i: nat): (ms: seq<Match>)
    requires i <= |s|
    ensures forall k :: 0 <= k < |ms| ==> Spans(s, ms[k]) && i <= ms[k].start
    decreases |s| - i
  {
    if i == |s| then []
    else
      match MatchAt(s, i)
      case Some(m) => MatchSpans(s, m); [m] + Scan(s, m.end)
      case None => Scan(s, i + 1)
  }

  /** Where the k-th gap between matches begins: the scan's start for the
      first, otherwise the end of the previous match. */
  function GapStart(i: nat, ms: seq<Match>, k: nat): nat
    requires k <= |ms|
  {
    if k == 0 then i else ms[k - 1].end
  }

  /** Where the k-th gap ends: the next match's start, or the end of the text. */
  function GapEnd(s: string, ms: seq<Match>, k: nat): nat
    requires k <= |ms|
  {
    if k == |ms| then |s| else ms[k].start
  }

  /** `ms` is the result of `findall` from position i, stated without the
      scan: every element is a match, the matches follow one another without
      overlap, and no day header begins in any gap between them. */
  ghost predicate FindAllFrom(s: string, i: nat, ms: seq<Match>) {
    && i <= |s|
    && (forall k :: 0 <= k < |ms| ==> IsMatch(s, ms[k]))
    && (forall k {:trigger GapStart(i, ms, k)} :: 0 <= k < |ms| ==> GapStart(i, ms, k) <= ms[k].start)
    && (forall k {:trigger GapStart(i, ms, k)} :: 0 <= k <= |ms| ==> HeaderFree(s, GapStart(i, ms, k), GapEnd(s, ms, k)))
  }

  /** The scan produces the leftmost, non-overlapping matches and skips no header. */
  lemma {:induction false} ScanIsFindAll(s: string, i: nat)
    requires i <= |s|
    ensures FindAllFrom(s, i, Scan(s, i))
    decreases |s| - i, 1
  {
    if i == |s| {
      assert HeaderFree(s, GapStart(|s|, [], 0), GapEnd(s, [], 0));
    } else if HeaderAt(s, i) {
      ScanMatchStep(s, i);
    } else {
      ScanSkipStep(s, i);
    }
  }

  /** A match at i, then the scan from its end. */
  lemma {:induction false} ScanMatchStep(s: string, i: nat)
    requires i < |s| && HeaderAt(s, i)
    ensures FindAllFrom(s, i, Scan(s, i))
    decreases |s| - i, 0
  {
    var m := MatchAt(s, i).value;
    ScanIsFindAll(s, m.end);
    assert Scan(s, i) == [m] + Scan(s, m.end);
    FindAllCons(s, i, m, Scan(s, m.end));
  }

  /** No match at i: the scan from i + 1. */
  lemma {:induction false} ScanSkipStep(s: string, i: nat)
    requires i < |s| && !HeaderAt(s, i)
    ensures FindAllFrom(s, i, Scan(s, i))
    decreases |s| - i, 0
  {
    ScanIsFindAll(s, i + 1);
    ScanNoHeader(s, i);
    FindAllSkip(s, i, Scan(s, i + 1));
  }

  /** A match found at i, followed by the findall result from its end. */
  lemma FindAllCons(s: string, i: nat, m: Match, rest: seq<Match>)
    requires IsMatch(s, m) && m.start == i
    requires FindAllFrom(s, m.end, rest)
    ensures FindAllFrom(s, i, [m] + rest)
  {
    var ms := [m] + rest;
    forall k {:trigger GapStart(i, ms, k)} | 0 <= k < |ms|
      ensures GapStart(i, ms, k) <= ms[k].start
    {
      if k > 0 {
        assert ms[k] == rest[k - 1];
        assert GapStart(m.end, rest, k - 1) <= rest[k - 1].start;
      }
    }
    forall k {:trigger GapStart(i, ms, k)} | 0 <= k <= |ms|
      ensures HeaderFree(s, GapStart(i, ms, k), GapEnd(s, ms, k))
    {
      if k > 0 {
        assert GapStart(i, ms, k) == GapStart(m.end, rest, k - 1);
        assert GapEnd(s, ms, k) == GapEnd(s, rest, k - 1);
        assert HeaderFree(s, GapStart(m.end, rest, k - 1), GapEnd(s, rest, k - 1));
      }
    }
    forall k | 0 <= k < |ms|
      ensures IsMatch(s, ms[k])
    {
      if k > 0 {
        assert ms[k] == rest[k - 1];
      }
    }
  }

  /** No header at i: the findall result from i + 1 is also the one from i. */
  lemma FindAllSkip(s: string, i: nat, ms: seq<Match>)
    requires i < |s| && !HeaderAt(s, i)
    requires FindAllFrom(s, i + 1, ms)
    ensures FindAllFrom(s, i, ms)
  {
    forall k {:trigger GapStart(i, ms, k)} | 0 <= k <= |ms|
      ensures HeaderFree(s, GapStart(i, ms, k), GapEnd(s, ms, k))
    {
      assert HeaderFree(s, GapStart(i + 1, ms, k), GapEnd(s, ms, k));
    }
    forall k {:trigger GapStart(i, ms, k)} | 0 <= k < |ms|
      ensures GapStart(i, ms, k) <= ms[k].start
    {
      assert GapStart(i + 1, ms, k) <= ms[k].start;
    }
  }

  /** Without a header at i, the scan moves one character on. */
  lemma ScanNoHeader(s: string, i: nat)
    requires i < |s| && !HeaderAt(s, i)
    ensures Scan(s, i) == Scan(s, i + 1)
  {
    assert MatchAt(s, i).None?;
  }

  /** A findall result from i, when no header begins at i, is also one from i + 1. */
  lemma FindAllAfterSkip(s: string, i: nat, ms: seq<Match>)
    requires i < |s| && !HeaderAt(s, i)
    requires FindAllFrom(s, i, ms)
    ensures FindAllFrom(s, i + 1, ms)
  {
    if |ms| > 0 {
      MatchAtUnique(s, ms[0]);
      assert GapStart(i, ms, 0) <= ms[0].start;
    }
    forall k {:trigger GapStart(i + 1, ms, k)} | 0 <= k <= |ms|
      ensures HeaderFree(s, GapStart(i + 1, ms, k), GapEnd(s, ms, k))
    {
      assert HeaderFree(s, GapStart(i, ms, k), GapEnd(s, ms, k));
    }
    forall k {:trigger GapStart(i + 1, ms, k)} | 0 <= k < |ms|
      ensures GapStart(i + 1, ms, k) <= ms[k].start
    {
      assert GapStart(i, ms, k) <= ms[k].start;
    }
  }

  /** What follows the first match of a findall result is the findall result
      from that match's end. */
  lemma FindAllRest(s: string, i: nat, ms: seq<Match>)
    requires FindAllFrom(s, i, ms) && |ms| > 0
    ensures FindAllFrom(s, ms[0].end, ms[1..])
  {
    var m, rest := ms[0], ms[1..];
    assert IsMatch(s, m);
    forall k {:trigger GapStart(m.end, rest, k)} | 0 <= k <= |rest|
      ensures GapStart(m.end, rest, k) == GapStart(i, ms, k + 1)
      ensures GapEnd(s, rest, k) == GapEnd(s, ms, k + 1)
    {
    }
    forall k {:trigger GapStart(m.end, rest, k)} | 0 <= k <= |rest|
      ensures HeaderFree(s, GapStart(m.end, rest, k), GapEnd(s, rest, k))
    {
      assert HeaderFree(s, GapStart(i, ms, k + 1), GapEnd(s, ms, k + 1));
    }
    forall k {:trigger GapStart(m.end, rest, k)} | 0 <= k < |rest|
      ensures GapStart(m.end, rest, k) <= rest[k].start
    {
      assert GapStart(i, ms, k + 1) <= ms[k + 1].start;
    }
    forall k | 0 <= k < |rest|
      ensures IsMatch(s, rest[k])
    {
      assert rest[k] == ms[k + 1];
    }
  }

  /** The first match of a findall result from i starts at or after i and
      inside the text. */
  lemma FindAllFirstStart(s: string, i: nat, ms: seq<Match>)
    requires FindAllFrom(s, i, ms) && |ms| > 0
    ensures i <= ms[0].start < |s|
  {
    assert IsMatch(s, ms[0]);
    assert GapStart(i, ms, 0) <= ms[0].start;
  }

  /** When a header begins at i, a findall result from i starts with a match there. */
  lemma FindAllHeadAt(s: string, i: nat, ms: seq<Match>)
    requires FindAllFrom(s, i, ms) && HeaderAt(s, i)
    ensures |ms| > 0 && ms[0].start == i && IsMatch(s, ms[0])
  {
    assert HeaderFree(s, GapStart(i, ms, 0), GapEnd(s, ms, 0));
    assert |ms| == 0 || (IsMatch(s, ms[0]) && GapStart(i, ms, 0) <= ms[0].start);
  }

  /** The scan is the only sequence of matches that has the findall properties. */
  lemma {:induction false} FindAllUnique(s: string, i: nat, ms: seq<Match>)
    requires FindAllFrom(s, i, ms)
    ensures ms == Scan(s, i)
    decreases |s| - i
  {
    if |ms| > 0 {
      FindAllFirstStart(s, i, ms);
    }
    if i < |s| && !HeaderAt(s, i) {
      FindAllAfterSkip(s, i, ms);
      FindAllUnique(s, i + 1, ms);
      ScanNoHeader(s, i);
    } else if i < |s| {
      FindAllHeadAt(s, i, ms);
      MatchAtUnique(s, ms[0]);
      FindAllRest(s, i, ms);
      FindAllUnique(s, ms[0].end, ms[1..]);
      ScanMatch(s, i, ms[0], ms[1..]);
      assert ms == [ms[0]] + ms[1..];
    }
  }

  /** A match at i followed by the scan from its end is the scan from i. */
  lemma ScanMatch(s: string, i: nat, m: Match, rest: seq<Match>)
    requires i < |s| && MatchAt(s, i) == Some(m)
    requires rest == Scan(s, m.end)
    ensures [m] + rest == Scan(s, i)
  {
  }

  /** Later matches lie entirely after earlier ones. */
  lemma {:induction false} MatchesOrdered(s: string, i: nat, ms: seq<Match>, k: nat, l: nat)
    requires FindAllFrom(s, i, ms)
    requires k < l < |ms|
    ensures ms[k].end <= ms[l].start
    decreases l - k
  {
    assert GapStart(i, ms, l) <= ms[l].start;
    if k + 1 < l {
      MatchesOrdered(s, i, ms, k, l - 1);
      assert IsMatch(s, ms[l - 1]);
    }
  }

  /** The day number's digits (group 1) of a match. */
  function DayDigits(s: string, m: Match): (ds: string)
    requires Spans(s, m)
    ensures |ds| >= 1 && AllDigits(ds)
  {
    s[m.start + 4..m.digitsEnd]
  }

  /** The body (group 2) of a match. */
  function Body(s: string, m: Match): string
    requires Spans(s, m)
  {
    s[m.bodyStart..m.end]
  }

  /** `day_pattern.findall(plan_text)`: the (day number, body) pairs, in the
      order the headers appear in the text. */
  function FindAll(s: string): (days: seq<(string, string)>)
    ensures forall k :: 0 <= k < |days| ==> |days[k].0| >= 1 && AllDigits(days[k].0)
  {
    var ms := Scan(s, 0);
    seq(|ms|, k requires 0 <= k < |ms| => (DayDigits(s, ms[k]), Body(s, ms[k])))
  }

  /** The k-th pair `findall` returns holds the groups of the scan's k-th match. */
  lemma FindAllAt(s: string, k: nat)
    requires k < |Scan(s, 0)|
    ensures |FindAll(s)| == |Scan(s, 0)|
    ensures FindAll(s)[k] == (DayDigits(s, Scan(s, 0)[k]), Body(s, Scan(s, 0)[k]))
  {
  }

  /** `findall` finds nothing exactly when the text has no day header. */
  lemma FindAllEmptyIff(s: string)
    ensures FindAll(s) == [] <==> HeaderFree(s, 0, |s|)
  {
    var ms := Scan(s, 0);
    ScanIsFindAll(s, 0);
    if |ms| == 0 {
      assert HeaderFree(s, GapStart(0, ms, 0), GapEnd(s, ms, 0));
    } else {
      MatchAtUnique(s, ms[0]);
      assert HeaderAt(s, ms[0].start);
      assert |FindAll(s)| == |ms|;
    }
  }

  /** No body contains "Day " followed by a digit: such text starts the next
      section, so every body ends before it. */
  lemma BodiesHaveNoDayNumber(s: string, k: nat, p: nat)
    requires k < |FindAll(s)|
    ensures !DayDigitAt(FindAll(s)[k].1, p)
  {
    ScanIsFindAll(s, 0);
    FindAllAt(s, k);
    MatchBodyHasNoDayNumber(s, Scan(s, 0)[k], p);
  }

  lemma MatchBodyHasNoDayNumber(s: string, m: Match, p: nat)
    requires IsMatch(s, m)
    ensures Spans(s, m) && !DayDigitAt(Body(s, m), p)
  {
    MatchSpans(s, m);
    var body := Body(s, m);
    if p + 5 <= |body| {
      var q := m.bodyStart + p;
      assert !BoundaryAt(s, q);
      assert body[p] == s[q] && body[p + 1] == s[q + 1] && body[p + 2] == s[q + 2]
          && body[p + 3] == s[q + 3] && body[p + 4] == s[q + 4];
    }
  }

  /** The text before the first day header belongs to no body. */
  lemma IntroductionDropped(s: string, k: nat)
    requires k < |Scan(s, 0)|
    ensures HeaderFree(s, 0, Scan(s, 0)[0].start)
    ensures Scan(s, 0)[0].start < Scan(s, 0)[k].bodyStart
  {
    var ms := Scan(s, 0);
    ScanIsFindAll(s, 0);
    assert HeaderFree(s, GapStart(0, ms, 0), GapEnd(s, ms, 0));
    if k > 0 {
      MatchesOrdered(s, 0, ms, 0, k);
    }
  }
}
