/**
 * The state of the segmented birthday input and its keydown handler: a
 * buffer of eight slots, each empty or holding one digit, and the slot that
 * has keyboard focus. A digit key writes the focused slot and moves focus
 * right; Backspace clears the slot, or, on an empty slot, clears the one
 * before it and moves focus there; every other key is swallowed.
 */
module Entry {
  import opened Wrappers
  import opened Decimal
  import opened DateFields

  /** A slot is empty or holds one digit. */
  type Slot = Option<Digit>

  /** Two slots for the first group, two for the second, four for the year. */
  const SlotCount: nat := 8

  /**
   * The component's state: the slots, the slot that has focus (None when no
   * slot has it), the error flag, and the value last handed to the host
   * through its `setDate` callback (None stands for `null`).
   */
  datatype State = State(slots: seq<Slot>, focus: Option<nat>, error: bool, reported: Option<DateArgs>)

  predicate WellFormed(s: State)
  {
    |s.slots| == SlotCount && (s.focus.Some? ==> s.focus.value < SlotCount)
  }

  /** The state on mount: every slot empty, no slot focused, no error, `null` reported. */
  function Initial(): (s: State)
    ensures WellFormed(s)
    ensures forall i | 0 <= i < SlotCount :: s.slots[i] == None
    ensures s.focus == None && !s.error && s.reported == None
  {
    var empty: seq<Slot> := seq(SlotCount, _ => None);
    State(empty, None, false, None)
  }

  /** Every slot holds a digit: no slot is empty. */
  predicate Complete(slots: seq<Slot>)
    ensures Complete(slots) <==> None !in slots
  {
    forall i | 0 <= i < |slots| :: slots[i].Some?
  }

  /** The digits of a complete buffer. */
  function Values(slots: seq<Slot>): (ds: seq<Digit>)
    requires Complete(slots)
    ensures |ds| == |slots|
    ensures forall i | 0 <= i < |slots| :: slots[i] == Some(ds[i])
  {
    seq(|slots|, i requires 0 <= i < |slots| => slots[i].value)
  }

  /** How the handler reads a `KeyboardEvent.key` string. */
  datatype Key = DigitKey(digit: Digit) | BackspaceKey | OtherKey

  function DigitChar(d: Digit): (c: char)
    ensures '0' <= c <= '9'
  {
    ('0' as int + d) as char
  }

  /** The key string a digit key produces. */
  function KeyFor(d: Digit): string
  {
    [DigitChar(d)]
  }

  /**
   * A digit key is a key string of exactly one character '0'..'9' (the test
   * `/^[0-9]$/`); Backspace is the key string "Backspace"; all else is other.
   */
  function Classify(key: string): (k: Key)
    ensures k.DigitKey? <==> |key| == 1 && '0' <= key[0] <= '9'
    ensures k.DigitKey? ==> key == KeyFor(k.digit)
    ensures k.BackspaceKey? <==> key == "Backspace"
  {
    if |key| == 1 && '0' <= key[0] <= '9' then DigitKey(key[0] as int - '0' as int)
    else if key == "Backspace" then BackspaceKey
    else OtherKey
  }

  lemma ClassifyKeyFor(d: Digit)
    ensures Classify(KeyFor(d)) == DigitKey(d)
  {
  }

  /** The handler replaces the digits array (so the resolution effect runs again). */
  predicate SetsDigits(s: State, index: nat, key: string)
    requires WellFormed(s) && index < SlotCount
    // a key that does not replace the digits changes nothing at all
    ensures !SetsDigits(s, index, key) ==> AfterKey(s, index, key) == s
    // a replacement by a digit leaves the slot filled, one by Backspace leaves a gap
    ensures SetsDigits(s, index, key) && Classify(key).DigitKey? ==> AfterKey(s, index, key).slots[index].Some?
    ensures SetsDigits(s, index, key) && Classify(key).BackspaceKey? ==> !Complete(AfterKey(s, index, key).slots)
  {
    match Classify(key)
    case DigitKey(_) => true
    case BackspaceKey => s.slots[index].Some? || index > 0
    case OtherKey => false
  }

  /** The state after a keydown on slot `index`. */
  function AfterKey(s: State, index: nat, key: string): (r: State)
    requires WellFormed(s) && index < SlotCount
    ensures WellFormed(r)
    ensures r.error == s.error && r.reported == s.reported
    // a key that is neither a digit nor Backspace changes nothing
    ensures Classify(key).OtherKey? ==> r == s
    // a digit overwrites exactly the slot, and focus moves right unless on the last slot
    ensures Classify(key).DigitKey? ==>
      && r.slots[index] == Some(Classify(key).digit)
      && (forall j | 0 <= j < SlotCount && j != index :: r.slots[j] == s.slots[j])
      && r.focus == if index < SlotCount - 1 then Some(index + 1) else s.focus
    // Backspace on a filled slot clears exactly that slot and keeps focus
    ensures Classify(key).BackspaceKey? && s.slots[index].Some? ==>
      && r.slots[index] == None
      && (forall j | 0 <= j < SlotCount && j != index :: r.slots[j] == s.slots[j])
      && r.focus == s.focus
    // Backspace on an empty slot clears exactly the slot before it and focuses it
    ensures Classify(key).BackspaceKey? && s.slots[index].None? && index > 0 ==>
      && r.slots[index - 1] == None
      && (forall j | 0 <= j < SlotCount && j != index - 1 :: r.slots[j] == s.slots[j])
      && r.focus == Some(index - 1)
    // Backspace on an empty first slot changes nothing
    ensures Classify(key).BackspaceKey? && s.slots[index].None? && index == 0 ==> r == s
  {
    match Classify(key)
    case DigitKey(d) =>
      s.(slots := s.slots[index := Some(d)],
         focus := if index < SlotCount - 1 then Some(index + 1) else s.focus)
    case BackspaceKey =>
      if s.slots[index].Some? then s.(slots := s.slots[index := None])
      else if index > 0 then s.(slots := s.slots[index - 1 := None], focus := Some(index - 1))
      else s
    case OtherKey => s
  }

  /**
   * Typing a digit into slot `i` and pressing Backspace on the next slot,
   * which was empty, empties slot `i` and brings focus back to it.
   */
  lemma DigitThenBackspace(s: State, i: nat, d: Digit)
    requires WellFormed(s) && i < SlotCount - 1 && s.slots[i + 1] == None
    ensures AfterKey(AfterKey(s, i, KeyFor(d)), i + 1, "Backspace")
         == s.(slots := s.slots[i := None], focus := Some(i))
  {
  }

  /**
   * Clearing a filled slot and typing its digit again restores the buffer;
   * focus moves on as after any digit.
   */
  lemma BackspaceThenDigit(s: State, i: nat, d: Digit)
    requires WellFormed(s) && i < SlotCount && s.slots[i] == Some(d)
    ensures var r := AfterKey(AfterKey(s, i, "Backspace"), i, KeyFor(d));
      r.slots == s.slots && r.focus == if i < SlotCount - 1 then Some(i + 1) else s.focus
  {
  }

  /** Backspace on an empty focused slot 3 empties slot 2 and moves focus there. */
  lemma BackspaceExample(s: State)
    requires WellFormed(s) && s.focus == Some(3) && s.slots[3] == None
    ensures var r := AfterKey(s, 3, "Backspace");
      r.slots == s.slots[2 := None] && r.focus == Some(2)
  {
  }
}
