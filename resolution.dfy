/**
 * The effect that runs after every replacement of the digits array. It reads
 * day, month and year from the buffer; an incomplete buffer reports `null`
 * to the host; a full one is handed to the `Date` constructor and compared
 * with the clock: a valid date strictly in the past is reported (the error
 * flag is cleared and focus leaves the last slot); an invalid date or one
 * strictly in the future raises the error flag and reports nothing.
 */
module Resolution {
  import opened Wrappers
  import opened Decimal
  import opened DateFields
  import opened Entry

  /** Where a date lies relative to the clock reading. */
  datatype Order = Before | Same | After

  /**
   * What the `Date` constructor makes of the arguments, together with the
   * clock: a date whose time value is NaN, or a date ordered against `new Date()`.
   */
  datatype Construction = NotADate | ADate(order: Order)

  /** The `Date` constructor and the clock at the moment the effect runs. */
  type Clock = DateArgs -> Construction

  /** The date a full buffer denotes. */
  function DateOf(s: State, american: bool): DateArgs
    requires WellFormed(s) && Complete(s.slots)
  {
    Fields(Values(s.slots), american)
  }

  /** The construction is NaN or the date is later than the clock. */
  predicate Rejected(c: Construction)
    ensures Rejected(c) <==> c != ADate(Before) && c != ADate(Same)
  {
    match c
    case NotADate => true
    case ADate(order) => order == After
  }

  /** The state after the resolution effect has run. */
  function AfterResolve(s: State, american: bool, clock: Clock): (r: State)
    requires WellFormed(s)
    ensures WellFormed(r) && r.slots == s.slots
    // the host holds a date afterwards only if the buffer is full
    ensures r.reported.Some? ==> Complete(s.slots)
    // an incomplete buffer reports null and leaves error flag and focus alone
    ensures !Complete(s.slots) ==> r.reported == None && r.error == s.error && r.focus == s.focus
    // a valid date strictly before the clock is reported, clears the error and releases the last slot
    ensures Complete(s.slots) && clock(DateOf(s, american)) == ADate(Before) ==>
      && r.reported == Some(DateOf(s, american))
      && !r.error
      && r.focus == if s.focus == Some(SlotCount - 1) then None else s.focus
    // an invalid or future date raises the error and keeps what the host last received
    ensures Complete(s.slots) && Rejected(clock(DateOf(s, american))) ==>
      r.error && r.reported == s.reported && r.focus == s.focus
    // a date equal to the clock reading changes nothing
    ensures Complete(s.slots) && clock(DateOf(s, american)) == ADate(Same) ==> r == s
  {
    if !Complete(s.slots) then
      s.(reported := None)
    else
      var date := DateOf(s, american);
      var checked := if Rejected(clock(date)) then s.(error := true) else s;
      if clock(date) == ADate(Before) then
        checked.(reported := Some(date), error := false,
                 focus := if s.focus == Some(SlotCount - 1) then None else s.focus)
      else
        checked
  }

  /** Running the effect twice against the same clock reading is running it once. */
  lemma ResolveIdempotent(s: State, american: bool, clock: Clock)
    requires WellFormed(s)
    ensures AfterResolve(AfterResolve(s, american, clock), american, clock) == AfterResolve(s, american, clock)
  {
  }

  /**
   * Under the other locale the effect reads the same buffer with day and
   * month exchanged: it behaves as under this locale against a clock that
   * sees the exchanged date, and reports the exchanged date.
   */
  lemma LocaleSwapsResolvedDate(s: State, american: bool, clock: Clock)
    requires WellFormed(s) && Complete(s.slots)
    ensures DateOf(s, !american) == SwapDayMonth(DateOf(s, american))
    ensures var swapped := (a: DateArgs) => clock(SwapDayMonth(a));
      && AfterResolve(s, !american, clock).error == AfterResolve(s, american, swapped).error
      && AfterResolve(s, !american, clock).focus == AfterResolve(s, american, swapped).focus
    // what the host receives under the other locale is this locale's date with day and month exchanged
    ensures AfterResolve(s, !american, clock).reported
         == if clock(DateOf(s, !american)) == ADate(Before) then Some(SwapDayMonth(DateOf(s, american))) else s.reported
  {
  }

  /**
   * The effect does not check the calendar: when the constructor turns
   * day 31 of month 4 of 2020 into some date before the clock, the buffer
   * "31042020" in day-first order is reported with those arguments.
   */
  lemma NoCalendarCheck(s: State, clock: Clock)
    requires WellFormed(s) && s.slots == [Some(3), Some(1), Some(0), Some(4), Some(2), Some(0), Some(2), Some(0)]
    requires clock(DateArgs(2020, 4, 31)) == ADate(Before)
    ensures AfterResolve(s, false, clock).reported == Some(DateArgs(2020, 4, 31))
    ensures !AfterResolve(s, false, clock).error
  {
    var ds := Values(s.slots);
    assert ds == [3, 1, 0, 4, 2, 0, 2, 0];
    assert ds[0..2] == [3, 1] && ds[2..4] == [0, 4] && ds[4..8] == [2, 0, 2, 0];
    ParseTwo(3, 1);
    ParseTwo(0, 4);
    ParseFour(2, 0, 2, 0);
    assert DateOf(s, false) == DateArgs(2020, 4, 31);
  }
}
