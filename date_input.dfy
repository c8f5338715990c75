/**
 * The `DateInput` component as an object: the eight slots live in an array
 * that the key handler writes one index at a time, beside the focused slot,
 * the error flag and the value last reported to the host. Each method is
 * specified by the state function the other modules reason about.
 */
module DateInputComponent {
  import opened Wrappers
  import opened DateFields
  import opened Entry
  import opened Resolution
  import opened Interaction

  class DateInput {
    var digits: array<Slot>
    var focus: Option<nat>
    var error: bool
    var reported: Option<DateArgs>
    /** Month-first order, fixed when the component mounts. */
    const american: bool

    ghost predicate Valid()
      reads this
    {
      digits.Length == SlotCount && (focus.Some? ==> focus.value < SlotCount)
    }

    /** The component's state as a value. */
    ghost function Snapshot(): State
      reads this, digits
    {
      State(digits[..], focus, error, reported)
    }

    /** Mounting: all slots empty, nothing focused, no error; the first effect run reports `null`. */
    constructor (american: bool)
      ensures Valid() && fresh(digits)
      ensures this.american == american
      ensures Snapshot() == Initial()
    {
      digits := new Slot[SlotCount](_ => None);
      focus := None;
      error := false;
      reported := None;
      this.american := american;
      new;
      assert digits[..] == Initial().slots;
    }

    /** The keydown handler of slot `index`; `changed` tells whether it replaced the digits. */
    method HandleKeyDown(index: nat, key: string) returns (changed: bool)
      requires Valid() && index < SlotCount
      modifies this, digits
      ensures Valid() && digits == old(digits)
      ensures changed == SetsDigits(old(Snapshot()), index, key)
      ensures Snapshot() == AfterKey(old(Snapshot()), index, key)
    {
      changed := false;
      match Classify(key)
      case DigitKey(d) =>
        digits[index] := Some(d);
        changed := true;
        if index < SlotCount - 1 {
          focus := Some(index + 1);
        }
      case BackspaceKey =>
        if digits[index].Some? {
          digits[index] := None;
          changed := true;
        } else if index > 0 {
          digits[index - 1] := None;
          changed := true;
          focus := Some(index - 1);
        }
      case OtherKey =>
    }

    /** The effect on the digits: report `null`, report the date, or raise the error. */
    method Resolve(clock: Clock)
      requires Valid()
      modifies this
      ensures Valid() && digits == old(digits)
      ensures Snapshot() == AfterResolve(old(Snapshot()), american, clock)
    {
      var slots := digits[..];
      if Complete(slots) {
        var date := Fields(Values(slots), american);
        var c := clock(date);
        if c.NotADate? {
          error := true;
        }
        if c == ADate(After) {
          error := true;
        }
        if c == ADate(Before) {
          reported := Some(date);
          if focus == Some(SlotCount - 1) {
            focus := None;
          }
          error := false;
        }
      } else {
        reported := None;
      }
    }

    /** A keydown on slot `index`, followed by the effect when the digits were replaced. */
    method Dispatch(index: nat, key: string, clock: Clock)
      requires Valid() && index < SlotCount
      modifies this, digits
      ensures Valid() && digits == old(digits)
      ensures Snapshot() == AfterEvent(old(Snapshot()), american, index, key, clock)
    {
      var changed := HandleKeyDown(index, key);
      if changed {
        Resolve(clock);
      }
    }

  }
}
