/**
 * What the note stack's operations promise: `remove` and `replace` act on the
 * most recent entry for a note and nothing else, `add` then `remove` gives back
 * the octave the note was pressed in whatever happened to the other notes in
 * between, and a stack holding one entry per held key keeps doing so.
 */
module NoteLemmas {
  import opened Wrappers
  import opened Notes

  // ---------------------------------------------------------------------------
  // remove

  /** `remove` deletes exactly the highest-index entry for the note, returns it
      with its stored octave, and keeps the other entries in their order. */
  lemma RemoveLastFound(s: seq<StackEntry>, note: int, i: nat)
    requires i < |s| && s[i].note == note
    requires forall j :: i < j < |s| ==> s[j].note != note
    ensures RemoveLast(s, note).1 == Some(s[i])
    ensures |RemoveLast(s, note).0| == |s| - 1
    ensures forall j :: 0 <= j < i ==> RemoveLast(s, note).0[j] == s[j]
    ensures forall j :: i <= j < |s| - 1 ==> RemoveLast(s, note).0[j] == s[j + 1]
  {
    LastIndexOfIs(s, note, i);
  }

  /** `remove` of a note that is not held returns `None` and changes nothing. */
  lemma RemoveLastMissing(s: seq<StackEntry>, note: int)
    requires forall j :: 0 <= j < |s| ==> s[j].note != note
    ensures RemoveLast(s, note) == (s, None)
  {
  }

  /** `remove` loses no entry: the stack and the returned entry together are
      the entries held before. */
  lemma RemoveLastConserves(s: seq<StackEntry>, note: int)
    ensures var (t, e) := RemoveLast(s, note);
      multiset(s) == multiset(t) + (if e.Some? then multiset{e.value} else multiset{})
  {
    match LastIndexOf(s, note)
    case None =>
    case Some(i) =>
      assert s == s[..i] + [s[i]] + s[i + 1..];
  }

  /** Pressing a note and releasing it at once gives back the stack as it was
      and the entry with the octave it was pressed in. */
  lemma AddThenRemove(s: seq<StackEntry>, note: int, octave: int)
    ensures RemoveLast(s + [StackEntry(note, octave)], note) == (s, Some(StackEntry(note, octave)))
  {
    var t := s + [StackEntry(note, octave)];
    LastIndexOfIs(t, note, |s|);
    assert Without(t, |s|) == s;
  }

  // ---------------------------------------------------------------------------
  // replace

  /** `replace` rewrites only the octave of the highest-index entry for the
      note; length, order and every other entry stay as they were. */
  lemma ReplaceLastFound(s: seq<StackEntry>, note: int, octave: int, i: nat)
    requires i < |s| && s[i].note == note
    requires forall j :: i < j < |s| ==> s[j].note != note
    ensures |ReplaceLast(s, note, octave)| == |s|
    ensures ReplaceLast(s, note, octave)[i] == StackEntry(note, octave)
    ensures forall j :: 0 <= j < |s| && j != i ==> ReplaceLast(s, note, octave)[j] == s[j]
  {
    LastIndexOfIs(s, note, i);
  }

  /** `replace` of a note that is not held changes nothing. */
  lemma ReplaceLastMissing(s: seq<StackEntry>, note: int, octave: int)
    requires forall j :: 0 <= j < |s| ==> s[j].note != note
    ensures ReplaceLast(s, note, octave) == s
  {
  }

  // ---------------------------------------------------------------------------
  // One entry per held key

  /** No base note appears twice in the stack. */
  predicate NotesDistinct(s: seq<StackEntry>) {
    forall i, j :: 0 <= i < j < |s| ==> s[i].note != s[j].note
  }

  /** The base notes of the keys the stack says are held. */
  function HeldNotes(s: seq<StackEntry>): set<int> {
    set e | e in s :: e.note
  }

  /** Adding a key that is not held keeps one entry per key and adds its note. */
  lemma AddKeepsDistinct(s: seq<StackEntry>, note: int, octave: int)
    requires NotesDistinct(s) && note !in HeldNotes(s)
    ensures NotesDistinct(s + [StackEntry(note, octave)])
    ensures HeldNotes(s + [StackEntry(note, octave)]) == HeldNotes(s) + {note}
  {
    var t := s + [StackEntry(note, octave)];
    forall i | 0 <= i < |s| ensures s[i].note != note {
      assert s[i] in s;
    }
    forall x | x in HeldNotes(t) ensures x in HeldNotes(s) + {note} {
      var e :| e in t && e.note == x;
      if e != StackEntry(note, octave) {
        assert e in s;
      }
    }
    forall x | x in HeldNotes(s) + {note} ensures x in HeldNotes(t) {
      if x != note {
        var e :| e in s && e.note == x;
        assert e in t;
      } else {
        assert t[|s|] in t;
      }
    }
  }

  /** Releasing a key keeps one entry per key and takes exactly its note out. */
  lemma RemoveKeepsDistinct(s: seq<StackEntry>, note: int)
    requires NotesDistinct(s)
    ensures NotesDistinct(RemoveLast(s, note).0)
    ensures HeldNotes(RemoveLast(s, note).0) == HeldNotes(s) - {note}
  {
    match LastIndexOf(s, note)
    case None =>
      forall x | x in HeldNotes(s) ensures x != note {
        var e :| e in s && e.note == x;
        var k :| 0 <= k < |s| && s[k] == e;
      }
    case Some(i) =>
      WithoutDistinct(s, i);
      WithoutHeldNotes(s, i);
  }

  /** Deleting one position of a stack with one entry per note. */
  lemma WithoutDistinct(s: seq<StackEntry>, i: nat)
    requires i < |s| && NotesDistinct(s)
    ensures NotesDistinct(Without(s, i))
  {
    var t := Without(s, i);
    forall a, b | 0 <= a < b < |t| ensures t[a].note != t[b].note {
      var a' := if a < i then a else a + 1;
      var b' := if b < i then b else b + 1;
      assert t[a] == s[a'] && t[b] == s[b'];
    }
  }

  /** Deleting the one entry of a note takes exactly that note out. */
  lemma WithoutHeldNotes(s: seq<StackEntry>, i: nat)
    requires i < |s| && NotesDistinct(s)
    ensures HeldNotes(Without(s, i)) == HeldNotes(s) - {s[i].note}
  {
    var t := Without(s, i);
    forall x | x in HeldNotes(t) ensures x in HeldNotes(s) - {s[i].note} {
      var e :| e in t && e.note == x;
      var k :| 0 <= k < |t| && t[k] == e;
      var k' := if k < i then k else k + 1;
      assert s[k'] == e && k' != i;
      assert e in s;
    }
    forall x | x in HeldNotes(s) - {s[i].note} ensures x in HeldNotes(t) {
      var e :| e in s && e.note == x;
      var k :| 0 <= k < |s| && s[k] == e;
      assert k != i;
      assert t[if k < i then k else k - 1] == e;
    }
  }

  /** Re-pitching a held key keeps the set of held keys as it was. */
  lemma ReplaceKeepsDistinct(s: seq<StackEntry>, note: int, octave: int)
    requires NotesDistinct(s)
    ensures NotesDistinct(ReplaceLast(s, note, octave))
    ensures HeldNotes(ReplaceLast(s, note, octave)) == HeldNotes(s)
  {
    var t := ReplaceLast(s, note, octave);
    SameNotesAfterReplace(s, note, octave);
    forall x | x in HeldNotes(t) ensures x in HeldNotes(s) {
      var e :| e in t && e.note == x;
      var k :| 0 <= k < |t| && t[k] == e;
      assert s[k] in s;
    }
    forall x | x in HeldNotes(s) ensures x in HeldNotes(t) {
      var e :| e in s && e.note == x;
      var k :| 0 <= k < |s| && s[k] == e;
      assert t[k] in t;
    }
  }

  // ---------------------------------------------------------------------------
  // A note keeps its octave through what happens to the other notes

  /** One operation on the note stack, as the controller drives it. */
  datatype Op = Add(note: int, octave: int) | Remove(note: int) | Replace(note: int, octave: int)

  function Apply(s: seq<StackEntry>, op: Op): seq<StackEntry> {
    match op
    case Add(n, o) => s + [StackEntry(n, o)]
    case Remove(n) => RemoveLast(s, n).0
    case Replace(n, o) => ReplaceLast(s, n, o)
  }

  function ApplyAll(s: seq<StackEntry>, ops: seq<Op>): seq<StackEntry>
    decreases |ops|
  {
    if ops == [] then s else ApplyAll(Apply(s, ops[0]), ops[1..])
  }

  /** The entry a backward scan for `note` finds, if any. */
  function LastEntry(s: seq<StackEntry>, note: int): Option<StackEntry> {
    match LastIndexOf(s, note)
    case None => None
    case Some(i) => Some(s[i])
  }

  /** `remove(note)` returns the octave the note was added in, even after any
      number of adds, removes and replaces of other notes since. */
  lemma {:induction false} OctaveSurvives(s: seq<StackEntry>, note: int, octave: int, ops: seq<Op>)
    requires forall k :: 0 <= k < |ops| ==> ops[k].note != note
    ensures RemoveLast(ApplyAll(s + [StackEntry(note, octave)], ops), note).1 == Some(StackEntry(note, octave))
  {
    var t := s + [StackEntry(note, octave)];
    LastIndexOfIs(t, note, |s|);
    LastEntryThrough(t, note, ops);
  }

  lemma {:induction false} LastEntryThrough(s: seq<StackEntry>, note: int, ops: seq<Op>)
    requires forall k :: 0 <= k < |ops| ==> ops[k].note != note
    ensures LastEntry(ApplyAll(s, ops), note) == LastEntry(s, note)
    decreases |ops|
  {
    if ops != [] {
      LastEntryStep(s, note, ops[0]);
      LastEntryThrough(Apply(s, ops[0]), note, ops[1..]);
    }
  }

  /** One operation on another note leaves the entry for `note` alone. */
  lemma LastEntryStep(s: seq<StackEntry>, note: int, op: Op)
    requires op.note != note
    ensures LastEntry(Apply(s, op), note) == LastEntry(s, note)
  {
    var t := Apply(s, op);
    match op
    case Add(m, o) =>
      assert t[..|t| - 1] == s;
    case Remove(m) => {
      match LastIndexOf(s, m)
      case None =>
      case Some(k) =>
        match LastIndexOf(s, note)
        case None =>
          forall j | 0 <= j < |t| ensures t[j].note != note {
            assert t[j] == s[if j < k then j else j + 1];
          }
        case Some(i) =>
          var i' := if i < k then i else i - 1;
          assert t[i'] == s[i];
          forall j | i' < j < |t| ensures t[j].note != note {
            assert t[j] == s[if j < k then j else j + 1];
          }
          LastIndexOfIs(t, note, i');
    }
    case Replace(m, o) =>
      SameNotesAfterReplace(s, m, o);
      match LastIndexOf(s, note)
      case None =>
      case Some(i) =>
        assert t[i] == s[i];
        LastIndexOfIs(t, note, i);
  }

  // ---------------------------------------------------------------------------
  // Helpers

  /** `LastIndexOf` is pinned down by its contract: a matching index with no
      match above it is the one. */
  lemma LastIndexOfIs(s: seq<StackEntry>, note: int, i: nat)
    requires i < |s| && s[i].note == note
    requires forall j :: i < j < |s| ==> s[j].note != note
    ensures LastIndexOf(s, note) == Some(i)
  {
  }

  /** `replace` changes no base note and touches only entries of its own note. */
  lemma SameNotesAfterReplace(s: seq<StackEntry>, note: int, octave: int)
    ensures |ReplaceLast(s, note, octave)| == |s|
    ensures forall j :: 0 <= j < |s| ==> ReplaceLast(s, note, octave)[j].note == s[j].note
    ensures forall j :: 0 <= j < |s| && s[j].note != note ==> ReplaceLast(s, note, octave)[j] == s[j]
  {
  }
}
