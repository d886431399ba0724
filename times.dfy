/** Go's `time.Time`, reduced to what the importer looks at: whether it is the zero time, whether
    two values are the same instant, and the year and month it is formatted with. `time.Parse` is
    an outside capability (`Parser`) tried over ordered layout tables. */
module Times {
  import opened Wrappers
  import opened Text

  type Month = m: int | 1 <= m <= 12 witness 1

  /** `instant` counts nanoseconds from Go's zero time (January 1 of year 1, UTC); `year` and
      `month` are the calendar fields in the value's own location, as `Format` prints them. */
  datatype Time = Time(instant: int, year: int, month: Month)

  /** `time.Time{}`. */
  const ZeroTime: Time := Time(0, 1, 1)

  /** `Time.IsZero`: only the instant matters, not the location. */
  predicate IsZero(t: Time) { t.instant == 0 }

  /** `Time.Equal`: the same instant, in whatever location. */
  predicate Equal(a: Time, b: Time) { a.instant == b.instant }

  /** `time.Parse(layout, value)`: `None` where Go returns an error. */
  type Parser = (string, string) -> Option<Time>

  /** Tries `layouts` in order and returns the first successful parse. */
  function ParseFirst(parse: Parser, layouts: seq<string>, value: string): (r: Option<Time>)
    ensures r.None? <==> forall i :: 0 <= i < |layouts| ==> parse(layouts[i], value).None?
    ensures r.Some? ==>
      exists i :: 0 <= i < |layouts| && parse(layouts[i], value) == r &&
        forall j :: 0 <= j < i ==> parse(layouts[j], value).None?
  {
    FirstSome(layouts, (layout: string) => parse(layout, value))
  }

  /** A layout that parses, after layouts that all fail, decides the result. */
  lemma ParseFirstAt(parse: Parser, layouts: seq<string>, value: string, k: nat)
    requires k < |layouts| && parse(layouts[k], value).Some?
    requires forall j :: 0 <= j < k ==> parse(layouts[j], value).None?
    ensures ParseFirst(parse, layouts, value) == parse(layouts[k], value)
  {
    var r := ParseFirst(parse, layouts, value);
    var i :| 0 <= i < |layouts| && parse(layouts[i], value) == r &&
      forall j :: 0 <= j < i ==> parse(layouts[j], value).None?;
    assert !(i < k) && !(k < i);
  }

  /** A layout that repeats an earlier one adds nothing at the end of the table. */
  lemma ParseFirstRepeatedLast(parse: Parser, layouts: seq<string>, value: string, k: nat)
    requires k + 1 < |layouts| && layouts[|layouts| - 1] == layouts[k]
    ensures ParseFirst(parse, layouts, value) == ParseFirst(parse, layouts[..|layouts| - 1], value)
  {
    var n := |layouts|;
    var prefix := layouts[..n - 1];
    assert forall j :: 0 <= j < n - 1 ==> prefix[j] == layouts[j];
    var r := ParseFirst(parse, layouts, value);
    if r.Some? {
      var i :| 0 <= i < n && parse(layouts[i], value) == r &&
        forall j :: 0 <= j < i ==> parse(layouts[j], value).None?;
      assert i < n - 1 by {
        if parse(layouts[k], value).Some? {
          assert i <= k;
        } else {
          assert parse(layouts[n - 1], value).None?;
        }
      }
      ParseFirstAt(parse, prefix, value, i);
    } else {
      assert forall j :: 0 <= j < n - 1 ==> parse(prefix[j], value).None?;
    }
  }


  function Pow10(k: nat): nat {
    if k == 0 then 1 else 10 * Pow10(k - 1)
  }

  lemma {:induction false} NatToStringShort(n: nat, k: nat)
    requires 1 <= k && n < Pow10(k)
    ensures |NatToString(n)| <= k
    decreases k
  {
    if n >= 10 {
      NatToStringShort(n / 10, k - 1);
    }
  }

  lemma {:induction false} ZerosValue(z: string)
    requires forall i :: 0 <= i < |z| ==> z[i] == '0'
    ensures AllDigits(z) && DigitsValue(z) == 0
    decreases |z|
  {
    if z != [] {
      ZerosValue(z[..|z| - 1]);
    }
  }

  /** Leading zeros do not change the value of a run of digits. */
  lemma {:induction false} LeadingZerosValue(z: string, s: string)
    requires forall i :: 0 <= i < |z| ==> z[i] == '0'
    requires AllDigits(s)
    ensures AllDigits(z + s) && DigitsValue(z + s) == DigitsValue(s)
    decreases |s|
  {
    if s == [] {
      assert z + s == z;
      ZerosValue(z);
    } else {
      var init := s[..|s| - 1];
      assert (z + s)[..|z + s| - 1] == z + init;
      LeadingZerosValue(z, init);
    }
  }

  /** Padding keeps a run of digits' value. */
  lemma ZeroPadValue(n: nat, width: nat)
    ensures AllDigits(ZeroPad(NatToString(n), width))
    ensures DigitsValue(ZeroPad(NatToString(n), width)) == n
  {
    var s := NatToString(n);
    var r := ZeroPad(s, width);
    var z := r[..|r| - |s|];
    assert r == z + s;
    LeadingZerosValue(z, s);
    NatToStringRoundTrip(n);
  }

  /** `t.Format("2006")`: the year padded to four digits, with '-' before a negative year. */
  function FormatYear(t: Time): (r: string)
    ensures t.year >= 0 ==> |r| >= 4
    ensures t.year < 0 ==> |r| >= 5 && r[0] == '-'
  {
    if t.year < 0 then "-" + ZeroPad(NatToString(-t.year), 4) else ZeroPad(NatToString(t.year), 4)
  }

  /** `t.Format("01")`: the month padded to two digits. */
  function FormatMonth(t: Time): (r: string)
    ensures |r| >= 2
  {
    ZeroPad(NatToString(t.month), 2)
  }

  /** A year from 0 to 9999 is written as exactly four digits that read back as the year. */
  lemma FormatYearFourDigits(t: Time)
    requires 0 <= t.year <= 9999
    ensures |FormatYear(t)| == 4 && AllDigits(FormatYear(t))
    ensures DigitsValue(FormatYear(t)) == t.year
  {
    assert Pow10(4) == 10000 by {
      assert Pow10(1) == 10 && Pow10(2) == 100 && Pow10(3) == 1000;
    }
    NatToStringShort(t.year, 4);
    ZeroPadValue(t.year, 4);
  }

  /** The month is written as exactly two digits that read back as the month. */
  lemma FormatMonthTwoDigits(t: Time)
    ensures |FormatMonth(t)| == 2 && AllDigits(FormatMonth(t))
    ensures DigitsValue(FormatMonth(t)) == t.month
  {
    assert Pow10(2) == 100 by { assert Pow10(1) == 10; }
    NatToStringShort(t.month, 2);
    ZeroPadValue(t.month, 2);
  }
}
