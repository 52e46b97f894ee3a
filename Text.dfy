/** The string primitives the itinerary converter and the search tool rely on:
    Python's `\d` and `\s` character classes, `str.strip()`, `str.join`, and
    the `int(...)` / `str(...)` conversions between digit strings and numbers. */
module Text {

  /** `\d`, restricted to the ASCII digits. */
  predicate IsDigit(c: char) {
    '0' <= c <= '9'
  }

  /** Python's whitespace (`\s` in a str pattern, `str.isspace`, what
      `str.strip()` removes): the ASCII controls 9-13 and 28-31, the space,
      and the Unicode spaces and separators. */
  predicate IsSpace(c: char) {
    var n := c as int;
    (9 <= n <= 13) || (28 <= n <= 32) || n == 0x85 || n == 0xA0 || n == 0x1680
    || (0x2000 <= n <= 0x200A) || n == 0x2028 || n == 0x2029 || n == 0x202F
    || n == 0x205F || n == 0x3000
  }

  predicate AllDigits(s: string) {
    forall t {:trigger IsDigit(s[t])} :: 0 <= t < |s| ==> IsDigit(s[t])
  }

  predicate AllSpace(s: string) {
    forall t {:trigger IsSpace(s[t])} :: 0 <= t < |s| ==> IsSpace(s[t])
  }

  /** The end of the longest run of characters satisfying `P` that starts at `j`:
      what a greedy `[...]*` consumes. */
  function RunEnd(s: string, j: nat, P: char -> bool): (k: nat)
    requires j <= |s|
    ensures j <= k <= |s|
    ensures forall t {:trigger P(s[t])} :: j <= t < k ==> P(s[t])
    ensures k == |s| || !P(s[k])
    decreases |s| - j
  {
    if j == |s| || !P(s[j]) then j else RunEnd(s, j + 1, P)
  }

  /** A run end is determined by its two defining properties. */
  lemma RunEndUnique(s: string, j: nat, P: char -> bool, k: nat)
    requires j <= k <= |s|
    requires forall t {:trigger P(s[t])} :: j <= t < k ==> P(s[t])
    requires k == |s| || !P(s[k])
    ensures RunEnd(s, j, P) == k
  {
  }

  /** The start of the run of whitespace that ends the prefix `s[..e]`. */
  function TrailStart(s: string, e: nat): (k: nat)
    requires e <= |s|
    ensures k <= e
    ensures forall t {:trigger IsSpace(s[t])} :: k <= t < e ==> IsSpace(s[t])
    ensures k == 0 || !IsSpace(s[k - 1])
    decreases e
  {
    if e == 0 || !IsSpace(s[e - 1]) then e else TrailStart(s, e - 1)
  }

  /** `str.strip()`: the text with its leading and trailing whitespace removed. */
  function Strip(s: string): (r: string)
    ensures r == [] || (!IsSpace(r[0]) && !IsSpace(r[|r| - 1]))
  {
    var a := RunEnd(s, 0, IsSpace);
    var b := TrailStart(s, |s|);
    if a < b then s[a..b] else []
  }

  /** What `strip` removes is whitespace at either end, and only that: the text
      is the result with whitespace around it. */
  lemma StripRemovesOnlyOuterSpace(s: string)
    ensures exists lead, trail :: s == lead + Strip(s) + trail && AllSpace(lead) && AllSpace(trail)
  {
    var a := RunEnd(s, 0, IsSpace);
    var b := TrailStart(s, |s|);
    if a < b {
      StripWitness(s, a, b);
    } else {
      StripWitness(s, a, a);
    }
  }

  lemma StripWitness(s: string, a: nat, b: nat)
    requires a <= b <= |s|
    requires forall t :: 0 <= t < a ==> IsSpace(s[t])
    requires forall t :: b <= t < |s| ==> IsSpace(s[t])
    ensures exists lead, trail :: s == lead + s[a..b] + trail && AllSpace(lead) && AllSpace(trail)
  {
    var lead, trail := s[..a], s[b..];
    assert AllSpace(lead) && AllSpace(trail);
    assert s == lead + s[a..b] + trail;
  }

  /** `sep.join(parts)`. */
  function Join(sep: string, parts: seq<string>): (r: string)
    ensures |parts| == 0 ==> r == []
    ensures |parts| > 0 ==> |parts[0]| <= |r| && r[..|parts[0]|] == parts[0]
    ensures |r| == TotalLength(parts) + (if |parts| == 0 then 0 else (|parts| - 1) * |sep|)
  {
    if |parts| == 0 then []
    else if |parts| == 1 then parts[0]
    else parts[0] + sep + Join(sep, parts[1..])
  }

  function TotalLength(parts: seq<string>): nat {
    if |parts| == 0 then 0 else |parts[0]| + TotalLength(parts[1..])
  }

  /** The value of one ASCII digit. */
  function DigitValue(c: char): (v: nat)
    requires IsDigit(c)
    ensures v < 10
  {
    c as int - '0' as int
  }

  /** The character of a digit value. */
  function DigitChar(v: nat): (c: char)
    requires v < 10
    ensures IsDigit(c) && DigitValue(c) == v
  {
    ('0' as int + v) as char
  }

  /** `int(ds)` for a string of ASCII digits. */
  function DecimalValue(ds: string): nat
    requires AllDigits(ds)
  {
    if |ds| == 0 then 0
    else 10 * DecimalValue(ds[..|ds| - 1]) + DigitValue(ds[|ds| - 1])
  }

  /** `str(n)` for a natural number: its decimal digits, without leading zeros. */
  function Decimal(n: nat): (ds: string)
    ensures |ds| >= 1 && AllDigits(ds)
    ensures ds[0] != '0' || n == 0
  {
    if n < 10 then [DigitChar(n)] else Decimal(n / 10) + [DigitChar(n % 10)]
  }

  /** Reading back the digits `str(n)` writes gives `n`. */
  lemma {:induction false} DecimalRoundTrip(n: nat)
    ensures DecimalValue(Decimal(n)) == n
  {
    if n >= 10 {
      var ds := Decimal(n);
      assert ds[..|ds| - 1] == Decimal(n / 10);
      DecimalRoundTrip(n / 10);
    }
  }

  /** Different numbers are written differently. */
  lemma DecimalInjective(m: nat, n: nat)
    requires Decimal(m) == Decimal(n)
    ensures m == n
  {
    DecimalRoundTrip(m);
    DecimalRoundTrip(n);
  }
}
