# Segmented birthday input, modelled in Dafny

This project models the `DateInput` component of a small web page that asks
for a birthday and then shows how many years have passed since it. The
component collects eight digits, one per slot. Slots 0-1 and 2-3 are two
two-digit groups, and slots 4-7 are the year. A locale flag fixed when the
component mounts (`americanFormat`) says whether the first group is the
month (American order) or the day (day-first order).

The model has three parts:

- the keydown handler (`Entry.AfterKey`): a digit writes the focused slot
  and moves focus right; Backspace clears the slot, or, on an empty slot,
  clears the previous slot and moves focus there; every other key is swallowed;
- the resolution effect (`Resolution.AfterResolve`): it runs after every
  replacement of the digits array. An incomplete buffer reports `null` to
  the host. A full buffer is handed to the `Date` constructor: a valid date
  strictly before the clock is reported, clears the error flag and takes
  focus off the last slot; an invalid or future date raises the error flag;
- the placeholder of each slot (`DateFields.Placeholder`).

`Interaction` puts the two together the way React runs them. The effect
depends on the digits array, so it runs after a keystroke exactly when the
handler replaced the array (`Entry.SetsDigits`). `Interaction.Session`
presses keys one after another on the focused slot. `DateInputComponent.DateInput`
is the component as an object: the slots are an `array`, and its methods
are proved to produce the states these functions describe.

The `Date` constructor and the clock (`new Date()`) are foreign calls.
They are a parameter `clock: DateArgs -> Construction`. It says whether
the constructed date is NaN and, if not, whether it is before, equal to
or after the clock reading. The reported date is the `(year, month, day)`
triple that was passed to the constructor.

Where the code and the written design disagree, the model follows the code:

- An incomplete buffer reports `null` but does not clear the error flag
  (lines 34-43). The CSS only shows the flag while the buffer is full.
- The code does not check the calendar. Month and day go to the
  constructor as typed, and the constructor's normalisation decides what
  date results. `Resolution.NoCalendarCheck` shows that "31042020" is
  reported whenever the constructor turns it into a past date.
- An invalid or future date does not withdraw an earlier report. If a
  valid past date was reported and a digit is then overwritten so that the
  date is in the future, the error flag is set but the host keeps the
  earlier date. `Resolution.AfterResolve` states this: `r.reported == s.reported`.
  `Interaction.EventKeepsConsistent` proves what is kept: the host holds
  a date only while all eight slots are filled.

## Model

| member | source | states |
|---|---|---|
| `Decimal.ParseDecimal` | src/components/DateInput.tsx:25-31 | a group of n digits read by `parseInt` is a number below 10^n |
| `Decimal.ParseToDigits` | src/components/DateInput.tsx:25-31 | a number written in w digits (zero-padded) reads back as the same number |
| `Decimal.ToDigitsParse` | src/components/DateInput.tsx:25-31 | a digit group read as a number and written back at its width gives the same group, leading zeros included |
| `Decimal.ParseTwo` | src/components/DateInput.tsx:25-30 | a two-digit group reads as 10a+b |
| `Decimal.ParseFour` | src/components/DateInput.tsx:31 | a four-digit year reads as 1000a+100b+10c+d |
| `DateFields.Fields` | src/components/DateInput.tsx:25-31 | the day and month are within 0..99 and the year within 0..9999; the year is always slots 4-7 |
| `DateFields.LocaleSwapsDayAndMonth` | src/components/DateInput.tsx:25-30 | toggling the locale flag exchanges day and month exactly and keeps the year |
| `DateFields.FormatFields` | src/components/DateInput.tsx:25-31 | writing a buffer's fields back in the same locale's group order gives the buffer |
| `DateFields.FieldsFormat` | src/components/DateInput.tsx:25-31 | every day/month below 100 and year below 10000 is read back from its formatted buffer |
| `DateFields.FieldsInjective` | src/components/DateInput.tsx:25-31 | two buffers with the same fields in the same locale are equal |
| `DateFields.DayFirstExample` | src/components/DateInput.tsx:25-31 | in day-first order "01011990" gives the constructor the arguments year 1990, month 1, day 1 |
| `DateFields.GroupOrderExample` | src/components/DateInput.tsx:25-31 | "15031990" in day-first order and "03151990" in American order both give the arguments year 1990, month 3, day 15 |
| `DateFields.StripSeparators` | src/components/DateInput.tsx:113-114 | removing separators leaves no '/' and never lengthens the pattern |
| `DateFields.StripKeepsOtherCharacters` | src/components/DateInput.tsx:113-114 | every character other than '/' is kept, as often as it occurs: the result's multiset is the input's without '/' |
| `DateFields.StripAppend` | src/components/DateInput.tsx:113-114 | separators are removed from a concatenation piece by piece |
| `DateFields.StripWithoutSeparator` | src/components/DateInput.tsx:113-114 | a string without '/' is left unchanged |
| `DateFields.StripFieldPattern` | src/components/DateInput.tsx:112-114 | for any field names xx and yy without '/', "xx/yy/YYYY" without separators is "xxyyYYYY" |
| `DateFields.PatternWithoutSeparators` | src/components/DateInput.tsx:112-114 | the American pattern becomes "MMDDYYYY" and the other "DDMMYYYY" |
| `DateFields.Placeholder` | src/components/DateInput.tsx:111-116 | slot i shows character i of "MMDDYYYY" (American) or "DDMMYYYY" |
| `DateFields.PlaceholderNamesField` | src/components/DateInput.tsx:111-116 | 'Y' exactly on slots 4-7; 'M' on slots 0-1 exactly in American order and on slots 2-3 otherwise; 'D' on the other two-digit group |
| `Entry.Initial` | src/components/DateInput.tsx:12-14 | on mount there are eight slots and all are empty, no slot is focused, the error flag is false and nothing is reported |
| `Entry.Complete` | src/components/DateInput.tsx:34 | the `every(d => d !== null)` test: it holds exactly when `None` (null) occurs in no slot |
| `Entry.Classify` | src/components/DateInput.tsx:61-63 | a key is a digit key iff it is one character '0'..'9', and Backspace iff it is "Backspace"; a digit key carries that digit |
| `Entry.ClassifyKeyFor` | src/components/DateInput.tsx:63 | the key string of a digit is read back as that digit |
| `Entry.AfterKey` | src/components/DateInput.tsx:56-99 | 8 slots and an in-range focus are kept; other keys change nothing; a digit overwrites only slot i and focuses i+1 (focus unchanged on slot 7); Backspace on a filled slot clears only that slot and keeps focus; on an empty slot i>0 it clears only slot i-1 and focuses it; on an empty slot 0 it changes nothing; the error flag and the report are untouched; without a call of setDigits nothing changes |
| `Entry.DigitThenBackspace` | src/components/DateInput.tsx:63-95 | a digit on slot i followed by Backspace on the empty slot i+1 empties slot i and brings focus back to i |
| `Entry.BackspaceThenDigit` | src/components/DateInput.tsx:63-84 | clearing a filled slot and retyping its digit restores the buffer |
| `Entry.SetsDigits` | src/components/DateInput.tsx:63-90 | a keystroke that does not call setDigits leaves the whole state unchanged; a digit's setDigits leaves its slot filled, and a Backspace's leaves the buffer with an empty slot |
| `Entry.BackspaceExample` | src/components/DateInput.tsx:85-95 | Backspace on an empty focused slot 3 empties slot 2 and focuses it |
| `Resolution.Rejected` | src/components/DateInput.tsx:35-40 | the error is raised exactly for a construction that is neither strictly before nor equal to the clock reading: NaN, or after it |
| `Resolution.AfterResolve` | src/components/DateInput.tsx:24-54 | the buffer is never edited; an incomplete buffer reports null and leaves error and focus alone; a valid past date is reported, clears the error and releases focus from slot 7; an invalid or future date sets the error and keeps the last report; a date equal to the clock changes nothing; a date is held only when the buffer is full |
| `Resolution.ResolveIdempotent` | src/components/DateInput.tsx:24-54 | running the effect again against the same clock reading changes nothing more |
| `Resolution.LocaleSwapsResolvedDate` | src/components/DateInput.tsx:25-50 | under the other locale the same buffer denotes the date with day and month exchanged; error and focus are as under this locale against a clock that sees the exchanged date, and a date reported is the exchanged one |
| `Resolution.NoCalendarCheck` | src/components/DateInput.tsx:32-53 | day 31 of month 4 is reported as typed whenever the constructor makes a past date of it |
| `Interaction.AfterEvent` | src/components/DateInput.tsx:54 | a keystroke followed, when the digits were replaced, by the effect keeps 8 slots and an in-range focus |
| `Interaction.InitialConsistent` | src/components/DateInput.tsx:13 | the invariant "the host holds a date only while every slot is filled" holds at mount |
| `Interaction.EventKeepsConsistent` | src/components/DateInput.tsx:34-53 | after every keystroke and its effect the host holds a date only while all eight slots are filled |
| `Interaction.Press` | src/components/DateInput.tsx:129 | the key keeps 8 slots and an in-range focus; with no slot focused it changes nothing |
| `Interaction.Session` | src/components/DateInput.tsx:129 | any sequence of keystrokes keeps 8 slots and an in-range focus |
| `Interaction.TypingFrom` | src/components/DateInput.tsx:24-75 | typing the remaining digits from slot k fills the buffer, and only the last clock reading decides the outcome |
| `Interaction.EnteringADate` | src/components/DateInput.tsx:24-75 | typing eight digits into a fresh input from slot 0 fills it with them; the host then holds their date iff the last clock reading puts it strictly in the past (error cleared, focus released); an invalid or future date sets the error and leaves the host at null; an equal date leaves both |
| `Interaction.ErasingFrom` | src/components/DateInput.tsx:78-96 | from an empty focused slot i, i Backspaces empty slots 0..i, focus slot 0, keep slots after i and the error flag, and keep the host at null |
| `Interaction.ClearingTheBuffer` | src/components/DateInput.tsx:78-96 | eight Backspaces on a filled last slot empty the whole buffer, focus slot 0 and report null |
| `DateInputComponent.DateInput.constructor` | src/components/DateInput.tsx:12-15 | a fresh component is in the initial state with an 8-slot array |
| `DateInputComponent.DateInput.HandleKeyDown` | src/components/DateInput.tsx:56-99 | the array and focus are updated in place to the state `Entry.AfterKey` gives; `changed` is true exactly when the handler calls setDigits |
| `DateInputComponent.DateInput.Resolve` | src/components/DateInput.tsx:24-54 | the flags, the report and the focus become the state `Resolution.AfterResolve` gives; the array is untouched |
| `DateInputComponent.DateInput.Dispatch` | src/components/DateInput.tsx:54 | a keystroke and the effect it triggers produce the state `Interaction.AfterEvent` gives |

## Left out

- What the `Date` constructor makes of `(year, month, day)` (line 32). It treats the month as 0-based, maps years 0-99 into the 1900s and normalises out-of-range days and months. The model takes the outcome (NaN or not, and the order against the clock) as the `clock` parameter and encodes no calendar rules. Because the typed month goes into the 0-based month argument, every typed date is built one month later. A date typed within the month before today is therefore built as a future date and rejected, although the design accepts it as a past date. The model only sees the order the `clock` gives.
- Resolution.AfterResolve: the effect reads the clock twice (lines 38 and 48); the model uses one reading per run, so the case of a date between the two readings is not modelled.
- Locale detection from `navigator` (lines 18-22): the locale flag is a constructor parameter.
- The `onFocus`/`onBlur` handlers, refs, `preventDefault` and CSS class composition, including the red error border (lines 16, 60, 97, 117-127, 131). These belong to the DOM. Focus is modelled only as the slot the handler moves it to. The initial `focusedIndex` of -1 and a blurred `null` are both "no slot focused".
- Focus moving to the host page's Continue button once a date is reported (src/app/page.tsx:17-21). In the page the input then loses focus whatever slot had it; the model keeps the focused slot unless it is the last one.
- What `parseInt` returns for an incomplete buffer, where empty slots join as empty strings: the effect does not use that value.
- The host page (src/app/page.tsx) is not part of this model. Its floating-point elapsed-years display, interval timer, local storage and view toggle are not modelled; the host appears only as the `reported` value. src/app/layout.tsx is not part of this model.
