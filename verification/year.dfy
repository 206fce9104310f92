/**
 * The year extractor (`extract_year_from_filename`): the year of a report is read
 * from the last maximal run of decimal digits in its file-name stem.
 * Digits are the ASCII digits '0'..'9'.
 */
module Year {
  import opened Wrappers

  predicate IsDigit(c: char) {
    '0' <= c <= '9'
  }

  predicate AllDigits(s: string) {
    forall i :: 0 <= i < |s| ==> IsDigit(s[i])
  }

  predicate NoDigits(s: string) {
    forall i :: 0 <= i < |s| ==> !IsDigit(s[i])
  }

  /** Length of the longest all-digit prefix of `s`. */
  function LeadingDigits(s: string): (k: nat)
    ensures k <= |s|
    ensures AllDigits(s[..k])
    ensures k == |s| || !IsDigit(s[k])
  {
    if s == [] || !IsDigit(s[0]) then 0
    else
      var k' := LeadingDigits(s[1..]);
      assert s[..1 + k'] == [s[0]] + s[1..][..k'];
      1 + k'
  }

  /**
   * `re.findall(r"\d+", s)`: the maximal digit runs of `s`, left to right.
   * Each run is a non-empty string of digits.
   */
  function DigitRuns(s: string): (runs: seq<string>)
    ensures forall i :: 0 <= i < |runs| ==> runs[i] != [] && AllDigits(runs[i])
    decreases |s|
  {
    if s == [] then []
    else if !IsDigit(s[0]) then DigitRuns(s[1..])
    else
      var k := LeadingDigits(s);
      [s[..k]] + DigitRuns(s[k..])
  }

  /** The digits of `s` in order, everything else dropped. */
  function Digits(s: string): string {
    if s == [] then []
    else (if IsDigit(s[0]) then [s[0]] else []) + Digits(s[1..])
  }

  function Flatten(runs: seq<string>): string {
    if runs == [] then [] else runs[0] + Flatten(runs[1..])
  }

  /** The decimal value of a digit string, as `int(num)` computes it. */
  function Value(num: string): (v: nat)
    requires AllDigits(num)
    ensures v < Pow10(|num|)
  {
    if num == [] then 0
    else
      var n := |num| - 1;
      10 * Value(num[..n]) + (num[n] as int - '0' as int)
  }

  function Pow10(n: nat): (p: nat)
    ensures p >= 1
  {
    if n == 0 then 1 else 10 * Pow10(n - 1)
  }

  /** The year a single digit run stands for: two digits are a year of the 2000s, four digits are the year itself. */
  function YearOfRun(num: string): (r: Option<int>)
    requires AllDigits(num)
    ensures |num| == 2 ==> r == Some(2000 + Value(num))
    ensures |num| == 2 <==> (r.Some? && 2000 <= r.value <= 2099 && r.value % 100 == Value(num))
    ensures |num| == 4 ==> r.Some? && 0 <= r.value <= 9999 && r.value == Value(num)
    ensures r.Some? <==> |num| == 2 || |num| == 4
  {
    if |num| == 2 then Some(2000 + Value(num))
    else if |num| == 4 then Some(Value(num))
    else None
  }

  /** `extract_year_from_filename`: the year of the last digit run, or `None` when there is no run. */
  function ExtractYear(stem: string): (r: Option<int>)
    ensures r.Some? ==> 0 <= r.value <= 9999
  {
    var runs := DigitRuns(stem);
    if runs == [] then None else YearOfRun(runs[|runs| - 1])
  }

  /** A stem has digit runs exactly when it has a digit. */
  lemma {:induction false} DigitRunsEmptyIff(s: string)
    ensures DigitRuns(s) == [] <==> NoDigits(s)
    decreases |s|
  {
    if s != [] && !IsDigit(s[0]) {
      DigitRunsEmptyIff(s[1..]);
      assert NoDigits(s) <==> NoDigits(s[1..]) by {
        if NoDigits(s[1..]) {
          forall i | 0 <= i < |s| ensures !IsDigit(s[i]) {
            if i > 0 { assert s[i] == s[1..][i - 1]; }
          }
        }
      }
    }
  }

  lemma {:induction false} DigitsAppend(a: string, b: string)
    ensures Digits(a + b) == Digits(a) + Digits(b)
    decreases |a|
  {
    if a != [] {
      assert (a + b)[1..] == a[1..] + b;
      DigitsAppend(a[1..], b);
    } else {
      assert a + b == b;
    }
  }

  lemma {:induction false} DigitsOfDigits(d: string)
    requires AllDigits(d)
    ensures Digits(d) == d
    decreases |d|
  {
    if d != [] {
      DigitsOfDigits(d[1..]);
    }
  }

  /** The runs put back together are exactly the digits of the stem: nothing is lost, nothing invented. */
  lemma {:induction false} DigitRunsFlatten(s: string)
    ensures Flatten(DigitRuns(s)) == Digits(s)
    decreases |s|
  {
    if s == [] {
    } else if !IsDigit(s[0]) {
      DigitRunsFlatten(s[1..]);
    } else {
      var k := LeadingDigits(s);
      var runs := DigitRuns(s);
      assert runs == [s[..k]] + DigitRuns(s[k..]);
      assert runs[1..] == DigitRuns(s[k..]);
      DigitRunsFlatten(s[k..]);
      assert s == s[..k] + s[k..];
      DigitsAppend(s[..k], s[k..]);
      DigitsOfDigits(s[..k]);
    }
  }

  /** A leading digit prefix stops at a separator. */
  lemma {:induction false} LeadingDigitsStop(p: string, c: char, s: string)
    requires !IsDigit(c)
    ensures LeadingDigits(p + [c] + s) == LeadingDigits(p)
    decreases |p|
  {
    if p == [] {
      assert (p + [c] + s)[0] == c;
    } else if IsDigit(p[0]) {
      assert (p + [c] + s)[1..] == p[1..] + [c] + s;
      LeadingDigitsStop(p[1..], c, s);
    }
  }

  /** The leading digit prefix of a run followed by a non-digit (or by nothing) is that run. */
  lemma {:induction false} LeadingDigitsOfRun(d: string, q: string)
    requires AllDigits(d)
    requires q == [] || !IsDigit(q[0])
    ensures LeadingDigits(d + q) == |d|
    decreases |d|
  {
    if d == [] {
      assert d + q == q;
    } else {
      assert (d + q)[1..] == d[1..] + q;
      LeadingDigitsOfRun(d[1..], q);
    }
  }

  /** A non-digit separator splits the runs: those before it and those after it. */
  lemma {:induction false} DigitRunsSplit(p: string, c: char, s: string)
    requires !IsDigit(c)
    ensures DigitRuns(p + [c] + s) == DigitRuns(p) + DigitRuns(s)
    decreases |p|
  {
    var w := p + [c] + s;
    if p == [] {
      assert w[0] == c && w[1..] == s;
    } else if !IsDigit(p[0]) {
      assert w[1..] == p[1..] + [c] + s;
      DigitRunsSplit(p[1..], c, s);
    } else {
      var k := LeadingDigits(p);
      LeadingDigitsStop(p, c, s);
      assert w[..k] == p[..k];
      assert w[k..] == p[k..] + [c] + s;
      DigitRunsSplit(p[k..], c, s);
    }
  }

  /** A digit run followed only by non-digits is the only run. */
  lemma {:induction false} DigitRunsOfTrailingRun(d: string, q: string)
    requires d != [] && AllDigits(d) && NoDigits(q)
    ensures DigitRuns(d + q) == [d]
  {
    var w := d + q;
    LeadingDigitsOfRun(d, q);
    assert w[..|d|] == d && w[|d|..] == q;
    DigitRunsEmptyIff(q);
  }

  /**
   * Only the last digit run decides the year: whatever `p` holds (other runs,
   * including two- or four-digit ones), a stem `p + d + q` whose last run is `d`
   * gets the year of `d`.
   */
  lemma {:induction false} YearOfLastRun(p: string, d: string, q: string)
    requires d != [] && AllDigits(d) && NoDigits(q)
    requires p == [] || !IsDigit(p[|p| - 1])
    ensures ExtractYear(p + d + q) == YearOfRun(d)
  {
    DigitRunsOfTrailingRun(d, q);
    if p == [] {
      assert p + d + q == d + q;
    } else {
      var n := |p| - 1;
      assert p + d + q == p[..n] + [p[n]] + (d + q);
      DigitRunsSplit(p[..n], p[n], d + q);
    }
  }

  /** A stem without any digit has no year. */
  lemma NoDigitsNoYear(stem: string)
    requires NoDigits(stem)
    ensures ExtractYear(stem) == None
  {
    DigitRunsEmptyIff(stem);
  }

  /** Anything before a separator is ignored once a digit follows it. */
  lemma EarlierRunsIgnored(p: string, c: char, s: string)
    requires !IsDigit(c) && !NoDigits(s)
    ensures ExtractYear(p + [c] + s) == ExtractYear(s)
  {
    DigitRunsSplit(p, c, s);
    DigitRunsEmptyIff(s);
  }

  /** The first example in the source's own comment: `sof21` is 2021. */
  lemma TwoDigitExample()
    ensures ExtractYear("sof21") == Some(2021)
  {
    assert "sof" + "21" + "" == "sof21";
    YearOfLastRun("sof", "21", "");
    assert Value("2") == 2;
  }

  /** The second example in the source's own comment: `sof2025` is 2025. */
  lemma FourDigitExample()
    ensures ExtractYear("sof2025") == Some(2025)
  {
    assert "sof" + "2025" + "" == "sof2025";
    YearOfLastRun("sof", "2025", "");
    assert Value("2") == 2;
    assert Value("20") == 20;
    assert "2025"[..3] == "202" && "202"[..2] == "20" && "20"[..1] == "2";
    assert Value("2025") == 2025;
  }

  /** A stem without any digit has no year. */
  lemma NoDigitExample()
    ensures ExtractYear("report") == None
  {
    NoDigitsNoYear("report");
  }

  /** A last run of one digit gives no year even though an earlier run has two. */
  lemma ShortLastRunExample()
    ensures ExtractYear("sof21_v3") == None
  {
    YearOfLastRun("sof21_v", "3", "");
    assert "sof21_v" + "3" + "" == "sof21_v3";
  }

  /** A last run of five digits gives no year even though an earlier run has four. */
  lemma LongLastRunExample()
    ensures ExtractYear("sof_2025_12345") == None
  {
    YearOfLastRun("sof_2025_", "12345", "");
    assert "sof_2025_" + "12345" + "" == "sof_2025_12345";
  }
}
