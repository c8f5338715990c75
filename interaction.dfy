/**
 * Keystrokes together with the effect React runs after them. The effect
 * depends on the digits array, so it runs again exactly when the handler
 * replaced that array; a swallowed key, or Backspace on an empty first slot,
 * leaves it alone and the effect does not run.
 */
module Interaction {
  import opened Wrappers
  import opened Decimal
  import opened DateFields
  import opened Entry
  import opened Resolution

  /** A keydown on slot `index`, then the effect if the handler replaced the digits. */
  function AfterEvent(s: State, american: bool, index: nat, key: string, clock: Clock): (r: State)
    requires WellFormed(s) && index < SlotCount
    ensures WellFormed(r)
  {
    var t := AfterKey(s, index, key);
    if SetsDigits(s, index, key) then AfterResolve(t, american, clock) else t
  }

  /** The host holds a date only while every slot is filled. */
  predicate Consistent(s: State)
  {
    WellFormed(s) && (s.reported.Some? ==> Complete(s.slots))
  }

  lemma InitialConsistent()
    ensures Consistent(Initial())
  {
  }

  /** Every keystroke, with the effect it triggers, keeps the state consistent. */
  lemma EventKeepsConsistent(s: State, american: bool, index: nat, key: string, clock: Clock)
    requires Consistent(s) && index < SlotCount
    ensures Consistent(AfterEvent(s, american, index, key, clock))
  {
  }

  /** A key delivered to the focused slot; with no slot focused the key reaches no slot. */
  function Press(s: State, american: bool, key: string, clock: Clock): (r: State)
    requires WellFormed(s)
    ensures WellFormed(r)
    ensures s.focus.None? ==> r == s
  {
    if s.focus.Some? then AfterEvent(s, american, s.focus.value, key, clock) else s
  }

  /** A sequence of keys pressed one after the other, each with its own clock reading. */
  function Session(s: State, american: bool, keys: seq<string>, clocks: seq<Clock>): (r: State)
    requires WellFormed(s) && |clocks| == |keys|
    ensures WellFormed(r)
    decreases |keys|
  {
    if keys == [] then s
    else Session(Press(s, american, keys[0], clocks[0]), american, keys[1..], clocks[1..])
  }

  /** The key strings that type the given digits. */
  function DigitKeys(ds: seq<Digit>): (keys: seq<string>)
    ensures |keys| == |ds|
    ensures forall i | 0 <= i < |ds| :: keys[i] == KeyFor(ds[i])
  {
    seq(|ds|, i requires 0 <= i < |ds| => KeyFor(ds[i]))
  }

  /** `n` presses of Backspace. */
  function Backspaces(n: nat): (keys: seq<string>)
    ensures |keys| == n
    ensures forall i | 0 <= i < n :: keys[i] == "Backspace"
  {
    seq(n, _ => "Backspace")
  }

  /** The first `k` slots hold the first `k` digits of `ds`; the rest are empty. */
  function Partial(ds: seq<Digit>, k: nat): (slots: seq<Slot>)
    requires |ds| == SlotCount && k <= SlotCount
    ensures |slots| == SlotCount
    ensures forall i | 0 <= i < SlotCount :: slots[i] == if i < k then Some(ds[i]) else None
  {
    seq(SlotCount, i requires 0 <= i < SlotCount => if i < k then Some(ds[i]) else None)
  }

  /** What the host and the flags show once the eighth digit is resolved against `c`. */
  predicate EntryOutcome(r: State, date: DateArgs, c: Construction, error: bool)
  {
    && (c == ADate(Before) ==> r.reported == Some(date) && !r.error && r.focus == None)
    && (c == ADate(Same) ==> r.reported == None && r.error == error && r.focus == Some(SlotCount - 1))
    && (Rejected(c) ==> r.reported == None && r.error && r.focus == Some(SlotCount - 1))
  }

  /**
   * Typing the remaining digits from slot `k` on, each keystroke followed by
   * its effect, fills the buffer; only the last clock reading decides the
   * outcome, since every earlier effect sees an incomplete buffer.
   */
  lemma {:induction false} TypingFrom(ds: seq<Digit>, american: bool, clocks: seq<Clock>, k: nat, error: bool)
    requires |ds| == SlotCount && |clocks| == SlotCount && k < SlotCount
    ensures var r := Session(State(Partial(ds, k), Some(k), error, None), american, DigitKeys(ds)[k..], clocks[k..]);
      && r.slots == Partial(ds, SlotCount)
      && EntryOutcome(r, Fields(ds, american), clocks[SlotCount - 1](Fields(ds, american)), error)
    decreases SlotCount - k
  {
    var s := State(Partial(ds, k), Some(k), error, None);
    ClassifyKeyFor(ds[k]);
    var t := AfterKey(s, k, KeyFor(ds[k]));
    assert t.slots == Partial(ds, k + 1);
    var p := Press(s, american, DigitKeys(ds)[k..][0], clocks[k..][0]);
    assert p == AfterResolve(t, american, clocks[k]);
    if k == SlotCount - 1 {
      assert Values(t.slots) == ds;
      assert DigitKeys(ds)[k..][1..] == [];
    } else {
      assert t.slots[SlotCount - 1] == None;
      assert p == State(Partial(ds, k + 1), Some(k + 1), error, None);
      assert DigitKeys(ds)[k..][1..] == DigitKeys(ds)[k + 1..];
      assert clocks[k..][1..] == clocks[k + 1..];
      TypingFrom(ds, american, clocks, k + 1, error);
    }
  }

  /**
   * Focusing the first slot of a fresh input and typing eight digits fills
   * the buffer with them; the host then holds their date if and only if the
   * last clock reading puts it strictly in the past.
   */
  lemma EnteringADate(ds: seq<Digit>, american: bool, clocks: seq<Clock>)
    requires |ds| == SlotCount && |clocks| == SlotCount
    ensures var r := Session(Initial().(focus := Some(0)), american, DigitKeys(ds), clocks);
      && Complete(r.slots) && Values(r.slots) == ds
      && EntryOutcome(r, Fields(ds, american), clocks[SlotCount - 1](Fields(ds, american)), false)
  {
    assert Initial().(focus := Some(0)) == State(Partial(ds, 0), Some(0), false, None);
    assert DigitKeys(ds)[0..] == DigitKeys(ds) && clocks[0..] == clocks;
    TypingFrom(ds, american, clocks, 0, false);
  }

  /**
   * From an empty focused slot `i`, `i` presses of Backspace empty slots
   * 0..i and bring focus to slot 0; the slots after `i` and the error flag
   * are untouched, and the host holds `null` throughout.
   */
  lemma {:induction false} ErasingFrom(s: State, american: bool, clocks: seq<Clock>, i: nat)
    requires WellFormed(s) && s.focus == Some(i) && s.slots[i] == None && s.reported == None
    requires |clocks| == i
    ensures var r := Session(s, american, Backspaces(i), clocks);
      && r.focus == Some(0) && r.error == s.error && r.reported == None
      && (forall j | 0 <= j <= i :: r.slots[j] == None)
      && (forall j | i < j < SlotCount :: r.slots[j] == s.slots[j])
    decreases i
  {
    if i > 0 {
      var p := Press(s, american, "Backspace", clocks[0]);
      assert p.slots == s.slots[i - 1 := None] && p.focus == Some(i - 1);
      assert p.reported == None && p.error == s.error;
      assert Backspaces(i)[1..] == Backspaces(i - 1);
      ErasingFrom(p, american, clocks[1..], i - 1);
    }
  }

  /**
   * Eight presses of Backspace on a filled last slot empty the whole buffer,
   * leave focus on the first slot and report `null` to the host.
   */
  lemma ClearingTheBuffer(s: State, american: bool, clocks: seq<Clock>)
    requires WellFormed(s) && s.focus == Some(SlotCount - 1) && s.slots[SlotCount - 1].Some?
    requires |clocks| == SlotCount
    ensures var r := Session(s, american, Backspaces(SlotCount), clocks);
      && r.focus == Some(0) && r.error == s.error && r.reported == None
      && forall j | 0 <= j < SlotCount :: r.slots[j] == None
  {
    var p := Press(s, american, "Backspace", clocks[0]);
    assert p.slots[SlotCount - 1] == None && p.focus == Some(SlotCount - 1);
    assert Backspaces(SlotCount)[1..] == Backspaces(SlotCount - 1);
    ErasingFrom(p, american, clocks[1..], SlotCount - 1);
  }
}
