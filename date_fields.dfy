/**
 * The meaning of a full buffer of eight digits, and the placeholder shown in
 * each slot. Slots 0-1 and 2-3 hold two two-digit groups and slots 4-7 the
 * year; the locale flag (`americanFormat`) decides whether the first group is
 * the month (American order) or the day (day-first order).
 */
module DateFields {
  import opened Decimal

  /**
   * The arguments the component passes to the `Date` constructor, exactly as
   * typed: what the constructor then makes of them is not modelled here.
   */
  datatype DateArgs = DateArgs(year: int, month: int, day: int)

  /** The same arguments with day and month exchanged. */
  function SwapDayMonth(a: DateArgs): DateArgs
  {
    DateArgs(a.year, a.day, a.month)
  }

  /** The day, month and year read from a full buffer. */
  function Fields(ds: seq<Digit>, american: bool): (r: DateArgs)
    requires |ds| == 8
    ensures 0 <= r.day < 100 && 0 <= r.month < 100 && 0 <= r.year < 10000
    ensures r.year == ParseDecimal(ds[4..8])
  {
    var first := ParseDecimal(ds[0..2]);
    var second := ParseDecimal(ds[2..4]);
    assert Pow10(2) == 100 && Pow10(4) == 10000;
    DateArgs(ParseDecimal(ds[4..8]),
             if american then first else second,
             if american then second else first)
  }

  /** Writes the arguments back into the eight slots, in the locale's group order. */
  function Format(a: DateArgs, american: bool): (ds: seq<Digit>)
    requires 0 <= a.day && 0 <= a.month && 0 <= a.year
    ensures |ds| == 8
  {
    var first := if american then a.month else a.day;
    var second := if american then a.day else a.month;
    ToDigits(first, 2) + ToDigits(second, 2) + ToDigits(a.year, 4)
  }

  /** Toggling the locale flag exchanges day and month and leaves the year alone. */
  lemma LocaleSwapsDayAndMonth(ds: seq<Digit>, american: bool)
    requires |ds| == 8
    ensures Fields(ds, !american) == SwapDayMonth(Fields(ds, american))
  {
  }

  /** Reformatting the fields of a buffer in the same locale reproduces the buffer. */
  lemma FormatFields(ds: seq<Digit>, american: bool)
    requires |ds| == 8
    ensures Format(Fields(ds, american), american) == ds
  {
    ToDigitsParse(ds[0..2]);
    ToDigitsParse(ds[2..4]);
    ToDigitsParse(ds[4..8]);
    assert ds == ds[0..2] + ds[2..4] + ds[4..8];
  }

  /** Every day and month below 100 and year below 10000 has exactly one buffer. */
  lemma FieldsFormat(a: DateArgs, american: bool)
    requires 0 <= a.day < 100 && 0 <= a.month < 100 && 0 <= a.year < 10000
    ensures Fields(Format(a, american), american) == a
  {
    var first := if american then a.month else a.day;
    var second := if american then a.day else a.month;
    assert Pow10(2) == 100 && Pow10(4) == 10000;
    ParseToDigits(first, 2);
    ParseToDigits(second, 2);
    ParseToDigits(a.year, 4);
    var ds := Format(a, american);
    assert ds[0..2] == ToDigits(first, 2);
    assert ds[2..4] == ToDigits(second, 2);
    assert ds[4..8] == ToDigits(a.year, 4);
  }

  /** Two buffers with the same fields in the same locale are the same buffer. */
  lemma FieldsInjective(ds: seq<Digit>, es: seq<Digit>, american: bool)
    requires |ds| == 8 && |es| == 8
    requires Fields(ds, american) == Fields(es, american)
    ensures ds == es
  {
    FormatFields(ds, american);
    FormatFields(es, american);
  }

  /**
   * Day-first order: "01011990" gives the constructor the arguments year
   * 1990, month 1, day 1 (which the 0-based month argument turns into
   * 1 February).
   */
  lemma DayFirstExample()
    ensures Fields([0, 1, 0, 1, 1, 9, 9, 0], false) == DateArgs(1990, 1, 1)
  {
    var ds: seq<Digit> := [0, 1, 0, 1, 1, 9, 9, 0];
    assert ds[0..2] == [0, 1] && ds[2..4] == [0, 1] && ds[4..8] == [1, 9, 9, 0];
    ParseTwo(0, 1);
    ParseFour(1, 9, 9, 0);
  }

  /**
   * The same arguments (year 1990, month 3, day 15) come from "15031990" in
   * day-first order and from "03151990" in American order.
   */
  lemma GroupOrderExample()
    ensures Fields([1, 5, 0, 3, 1, 9, 9, 0], false) == DateArgs(1990, 3, 15)
    ensures Fields([0, 3, 1, 5, 1, 9, 9, 0], true) == DateArgs(1990, 3, 15)
  {
    var dayFirst: seq<Digit> := [1, 5, 0, 3, 1, 9, 9, 0];
    var monthFirst: seq<Digit> := [0, 3, 1, 5, 1, 9, 9, 0];
    assert dayFirst[0..2] == [1, 5] && dayFirst[2..4] == [0, 3] && dayFirst[4..8] == [1, 9, 9, 0];
    assert monthFirst[0..2] == [0, 3] && monthFirst[2..4] == [1, 5] && monthFirst[4..8] == [1, 9, 9, 0];
    ParseTwo(1, 5);
    ParseTwo(0, 3);
    ParseFour(1, 9, 9, 0);
  }

  /** The placeholder pattern for the locale, separators included. */
  function Pattern(american: bool): string
  {
    if american then "MM/DD/YYYY" else "DD/MM/YYYY"
  }

  /** `s` with every '/' removed, as `split("/").join("")` does. */
  function StripSeparators(s: string): (r: string)
    ensures |r| <= |s|
    ensures '/' !in r
  {
    if s == [] then [] else (if s[0] == '/' then [] else [s[0]]) + StripSeparators(s[1..])
  }

  /** Every character other than '/' is kept, as often as it occurs in `s`. */
  lemma {:induction false} StripKeepsOtherCharacters(s: string)
    ensures multiset(StripSeparators(s)) == multiset(s)['/' := 0]
  {
    if s != [] {
      assert s == [s[0]] + s[1..];
      StripKeepsOtherCharacters(s[1..]);
    }
  }

  /** The placeholder character of slot `index`. */
  function Placeholder(american: bool, index: nat): (c: char)
    requires index < 8
    ensures c == (if american then "MMDDYYYY" else "DDMMYYYY")[index]
  {
    PatternWithoutSeparators(american);
    StripSeparators(Pattern(american))[index]
  }

  lemma {:induction false} StripAppend(s: string, t: string)
    ensures StripSeparators(s + t) == StripSeparators(s) + StripSeparators(t)
  {
    if s == [] {
      assert s + t == t;
    } else {
      var head := if s[0] == '/' then [] else [s[0]];
      assert (s + t)[0] == s[0];
      assert (s + t)[1..] == s[1..] + t;
      StripAppend(s[1..], t);
      assert StripSeparators(s + t) == head + (StripSeparators(s[1..]) + StripSeparators(t));
    }
  }

  /** A string without '/' is left unchanged. */
  lemma {:induction false} StripWithoutSeparator(s: string)
    requires '/' !in s
    ensures StripSeparators(s) == s
  {
    if s != [] {
      assert s == [s[0]] + s[1..];
      StripWithoutSeparator(s[1..]);
    }
  }

  /** Removing the separators of "xx/yy/YYYY" leaves "xxyyYYYY". */
  lemma StripFieldPattern(xs: string, ys: string)
    requires '/' !in xs && '/' !in ys
    ensures StripSeparators(xs + "/" + ys + "/" + "YYYY") == xs + ys + "YYYY"
  {
    var sep, yy := "/", "YYYY";
    assert StripSeparators(sep) == [] by { assert sep[1..] == []; }
    StripWithoutSeparator(xs);
    StripWithoutSeparator(ys);
    StripWithoutSeparator(yy);
    var p1 := xs + sep;
    assert StripSeparators(p1) == xs by { StripAppend(xs, sep); }
    var p2 := p1 + ys;
    assert StripSeparators(p2) == xs + ys by { StripAppend(p1, ys); }
    var p3 := p2 + sep;
    assert StripSeparators(p3) == xs + ys by { StripAppend(p2, sep); }
    assert StripSeparators(p3 + yy) == xs + ys + yy by { StripAppend(p3, yy); }
  }

  lemma PatternWithoutSeparators(american: bool)
    ensures StripSeparators(Pattern(american)) == if american then "MMDDYYYY" else "DDMMYYYY"
  {
    if american {
      assert Pattern(american) == "MM" + "/" + "DD" + "/" + "YYYY";
      StripFieldPattern("MM", "DD");
      assert "MM" + "DD" + "YYYY" == "MMDDYYYY";
    } else {
      assert Pattern(american) == "DD" + "/" + "MM" + "/" + "YYYY";
      StripFieldPattern("DD", "MM");
      assert "DD" + "MM" + "YYYY" == "DDMMYYYY";
    }
  }

  /**
   * Where each placeholder letter stands: 'Y' exactly on slots 4-7; 'M' on
   * slots 0-1 exactly in American order and on slots 2-3 otherwise; 'D' on
   * the other two-digit group.
   */
  lemma PlaceholderNamesField(american: bool, index: nat)
    requires index < 8
    ensures Placeholder(american, index) == 'Y' <==> 4 <= index
    ensures Placeholder(american, index) == 'M' <==> index < 4 && (index < 2 <==> american)
    ensures Placeholder(american, index) == 'D' <==> index < 4 && (index < 2 <==> !american)
  {
  }
}
