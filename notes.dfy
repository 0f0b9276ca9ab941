/**
 * The note stack of the keyboard controller: an ordered record of the keys
 * being held, each tagged with the octave offset that was active when it was
 * pressed, and the policy that picks which held notes are re-triggered when
 * the octave changes.
 */
module Notes {
  import opened Wrappers

  /** A held key: its base note and the octave offset it sounds in. */
  datatype StackEntry = StackEntry(note: int, octave: int)

  // The behaviour constants of the note stack.
  const BEHAVIOUR_RETRIGGER_NONE: int := 0x00
  const BEHAVIOUR_NODDLE_TOASTER: int := 0x01
  const BEHAVIOUR_RETRIGGER_ALL: int := 0x02
  const BEHAVIOUR_RETRIGGER_LAST: int := 0x04
  const BEHAVIOUR_RETRIGGER_LOWEST: int := 0x08

  /** The key the entry sounds: its base note shifted by whole octaves. */
  function Pitch(e: StackEntry): int {
    e.note + 12 * e.octave
  }

  /** What `notes_to_retrigger` hands back: a list of entries, the single
      entry `min` picks, or the error `min` raises on an empty stack. */
  datatype Retrigger = Entries(entries: seq<StackEntry>) | Lowest(entry: StackEntry) | EmptyMinError

  // ---------------------------------------------------------------------------
  // Specification functions on the stack's contents

  /** The highest index holding `note`, as the backward scans find it. */
  function LastIndexOf(s: seq<StackEntry>, note: int): (r: Option<nat>)
    ensures r.None? <==> forall j :: 0 <= j < |s| ==> s[j].note != note
    ensures r.Some? ==> r.value < |s| && s[r.value].note == note
    ensures r.Some? ==> forall j :: r.value < j < |s| ==> s[j].note != note
  {
    if |s| == 0 then None
    else if s[|s| - 1].note == note then Some(|s| - 1)
    else LastIndexOf(s[..|s| - 1], note)
  }

  /** The stack with position `i` deleted. */
  function Without(s: seq<StackEntry>, i: nat): seq<StackEntry>
    requires i < |s|
  {
    s[..i] + s[i + 1..]
  }

  /** `remove(note)`: the new stack and the removed entry, if any. */
  function RemoveLast(s: seq<StackEntry>, note: int): (seq<StackEntry>, Option<StackEntry>) {
    match LastIndexOf(s, note)
    case None => (s, None)
    case Some(i) => (Without(s, i), Some(s[i]))
  }

  /** `replace(note, octave)`: the new stack. */
  function ReplaceLast(s: seq<StackEntry>, note: int, octave: int): seq<StackEntry> {
    match LastIndexOf(s, note)
    case None => s
    case Some(i) => s[i := StackEntry(note, octave)]
  }

  /** Python's `min` with a key: a left-to-right scan that keeps the best
      entry seen so far and gives it up only for a strictly smaller pitch.
      `best` is the index kept after looking at `s[..i]`. */
  function LowestIndexFrom(s: seq<StackEntry>, best: nat, i: nat): (r: nat)
    requires best < i <= |s|
    requires forall j :: 0 <= j < i ==> Pitch(s[best]) <= Pitch(s[j])
    requires forall j :: 0 <= j < best ==> Pitch(s[best]) < Pitch(s[j])
    ensures r < |s|
    ensures forall j :: 0 <= j < |s| ==> Pitch(s[r]) <= Pitch(s[j])
    ensures forall j :: 0 <= j < r ==> Pitch(s[r]) < Pitch(s[j])
    decreases |s| - i
  {
    if i == |s| then best
    else LowestIndexFrom(s, if Pitch(s[i]) < Pitch(s[best]) then i else best, i + 1)
  }

  /** The index of the entry `min(stack, key=pitch)` returns. */
  function LowestIndex(s: seq<StackEntry>): (r: nat)
    requires |s| > 0
    ensures r < |s|
    ensures forall j :: 0 <= j < |s| ==> Pitch(s[r]) <= Pitch(s[j])
    ensures forall j :: 0 <= j < r ==> Pitch(s[r]) < Pitch(s[j])
  {
    LowestIndexFrom(s, 0, 1)
  }

  // ---------------------------------------------------------------------------
  // The note stack object

  class NoteStack {
    const behaviour: int
    var stack: seq<StackEntry>

    constructor (behaviour: int := BEHAVIOUR_RETRIGGER_NONE)
      ensures this.behaviour == behaviour && stack == []
    {
      this.behaviour := behaviour;
      stack := [];
    }

    /** True exactly when no key is held. */
    function IsEmpty(): (b: bool)
      reads this
      ensures b <==> stack == []
    {
      |stack| == 0
    }

    /** Appends the note and the octave it was played in. */
    method Add(note: int, octave: int)
      modifies this
      ensures stack == old(stack) + [StackEntry(note, octave)]
    {
      stack := stack + [StackEntry(note, octave)];
    }

    /** Deletes the most recent entry for `note`, scanning from the back, and
        returns it; `None`, and no change, when the note is not held. */
    method Remove(note: int) returns (entry: Option<StackEntry>)
      modifies this
      ensures (stack, entry) == RemoveLast(old(stack), note)
    {
      entry := None;
      var index := |stack| - 1;
      while index >= 0
        invariant -1 <= index < |stack|
        invariant stack == old(stack) && entry == None
        invariant forall j :: index < j < |stack| ==> stack[j].note != note
      {
        if stack[index].note == note {
          entry := Some(stack[index]);
          stack := Without(stack, index);
          break;
        }
        index := index - 1;
      }
    }

    /** Rewrites the octave of the most recent entry for `note` in place;
        does nothing when the note is not held. */
    method Replace(note: int, newOctave: int)
      modifies this
      ensures stack == ReplaceLast(old(stack), note, newOctave)
    {
      var index := |stack| - 1;
      while index >= 0
        invariant -1 <= index < |stack|
        invariant stack == old(stack)
        invariant forall j :: index < j < |stack| ==> stack[j].note != note
      {
        if stack[index].note == note {
          stack := stack[index := StackEntry(note, newOctave)];
          break;
        }
        index := index - 1;
      }
    }

    /** The entries to re-trigger on an octave change, by behaviour. */
    function NotesToRetrigger(): (r: Retrigger)
      reads this
      ensures behaviour == BEHAVIOUR_RETRIGGER_NONE ==> r == Entries([])
      ensures behaviour == BEHAVIOUR_RETRIGGER_ALL ==> r == Entries(stack)
      ensures behaviour == BEHAVIOUR_RETRIGGER_LOWEST ==> (r.EmptyMinError? <==> stack == [])
      ensures behaviour == BEHAVIOUR_RETRIGGER_LOWEST && stack != [] ==>
        r.Lowest? &&
        exists i :: 0 <= i < |stack| && stack[i] == r.entry &&
          (forall j :: 0 <= j < |stack| ==> Pitch(stack[i]) <= Pitch(stack[j])) &&
          (forall j :: 0 <= j < i ==> Pitch(stack[i]) < Pitch(stack[j]))
      ensures behaviour !in {BEHAVIOUR_RETRIGGER_NONE, BEHAVIOUR_RETRIGGER_ALL, BEHAVIOUR_RETRIGGER_LOWEST} ==>
        r == Entries(if stack == [] then [] else [stack[|stack| - 1]])
    {
      if behaviour == BEHAVIOUR_RETRIGGER_NONE then Entries([])
      else if behaviour == BEHAVIOUR_RETRIGGER_ALL then Entries(stack)
      else if behaviour == BEHAVIOUR_RETRIGGER_LOWEST then
        if |stack| == 0 then EmptyMinError
        else
          var i := LowestIndex(stack);
          Lowest(stack[i])
      else
        // `stack[-1:]`: Python clamps the start of the slice at 0
        var start := if |stack| == 0 then 0 else |stack| - 1;
        assert stack != [] ==> stack[start..] == [stack[|stack| - 1]];
        Entries(stack[start..])
    }
  }
}
