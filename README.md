# Note stack and MIDI encoding of a keyboard-to-MIDI controller

This project models the two parts of the controller that decide something:

- **The note stack** (`notes.py`). It is an ordered list of `StackEntry(note, octave)` pairs, one for each key being held. `octave` is the octave offset that was active when the key was pressed. The stack supports `add`, `remove` and `replace`. It also answers `notes_to_retrigger`, which says which held notes are re-sent when the octave changes. The answer depends on the behaviour fixed at construction: none, all, lowest, or last. NODDLE_TOASTER and any unrecognised value behave as last.
- **The MIDI Note On/Off encoding** (`midi.py`). The channel must be in 1..16 and is checked when the controller is built. The only allowed commands are 0x80 (Note Off) and 0x90 (Note On). A message is `(command + channel - 1, data1, data2)`. These are the Channel Voice messages 8n and 9n of the MIDI 1.0 Detailed Specification.

The note stack is a class, `Notes.NoteStack`, with a `stack: seq<StackEntry>` field:
- `Add` reassigns the field.
- `Remove` and `Replace` keep the source's backward index loop with its `break`.
- `Remove` and `Replace` are each proved against a specification function of the old stack (`RemoveLast`, `ReplaceLast`).
- The lemmas in `NoteLemmas` state what those functions promise.

The MIDI part is pure, so it is written as functions on a `Controller` value. Python's `ValueError`s are `Err` results.

The code makes a few choices a reader may not expect, and the model keeps them:
- `remove` of a note that is not held returns `None` and changes nothing. `replace` of such a note does nothing.
- With the lowest behaviour, `notes_to_retrigger` returns the bare entry that `min` picks (`Retrigger.Lowest`), while the other behaviours return lists. On an empty stack, `min` raises `ValueError`, modelled as `Retrigger.EmptyMinError`.
- The module docstring of `midi.py` gives the Note On range as "0x90-0x90". The code produces 0x90..0x9F, as `SendMessage` states.

## Model

| member | source | states |
|---|---|---|
| `Notes.LastIndexOf` | notes.py:43-44 | the backward scan finds the highest index whose note matches, and it finds none exactly when no entry has that note |
| `Notes.LowestIndexFrom` | notes.py:78 | Python's `min` with a key, scanning left to right and switching only on a strictly smaller key, ends on an entry of minimal `note + 12*octave` with every earlier entry strictly higher |
| `Notes.LowestIndex` | notes.py:77-78 | on a non-empty stack, `min` picks an entry of minimal pitch, the earliest among ties |
| `Notes.NoteStack.constructor` | notes.py:13-15 | a new stack is empty and keeps the behaviour it was given (default NONE) |
| `Notes.NoteStack.IsEmpty` | notes.py:20-24 | true exactly when the stack holds no entry |
| `Notes.NoteStack.Add` | notes.py:26-33 | the new stack is the old one with `StackEntry(note, octave)` appended |
| `Notes.NoteStack.Remove` | notes.py:35-49 | the backward loop with `break` leaves exactly the new stack and returned entry of `RemoveLast` |
| `Notes.NoteStack.Replace` | notes.py:51-61 | the backward loop with `break` leaves exactly the stack of `ReplaceLast` |
| `Notes.NoteStack.NotesToRetrigger` | notes.py:64-80 | NONE gives no entries; ALL gives the whole stack in order; LOWEST fails exactly on an empty stack and otherwise gives an entry of minimal pitch, the earliest among ties; every other behaviour gives the last entry, or nothing on an empty stack |
| `NoteLemmas.RemoveLastFound` | notes.py:41-49 | when the note is held, remove returns the highest-index entry for it with its stored octave, and the remaining entries keep their order with the length one less |
| `NoteLemmas.RemoveLastMissing` | notes.py:41-49 | remove of a note that is not held returns `None` and leaves the stack unchanged |
| `NoteLemmas.RemoveLastConserves` | notes.py:35-49 | the new stack plus the returned entry are, as a multiset, the old stack |
| `NoteLemmas.AddThenRemove` | notes.py:26-49 | removing a note just added gives back the old stack and the entry with the octave it was added in |
| `NoteLemmas.ReplaceLastFound` | notes.py:51-61 | replace sets only the octave of the highest-index entry for the note; length, order and every other entry are unchanged |
| `NoteLemmas.ReplaceLastMissing` | notes.py:51-61 | replace of a note that is not held changes nothing |
| `NoteLemmas.AddKeepsDistinct` | notes.py:26-33 | adding a note not yet held keeps one entry per note and adds exactly that note to the held set |
| `NoteLemmas.RemoveKeepsDistinct` | notes.py:35-49 | on a stack with one entry per note, remove keeps that shape and takes exactly that note out of the held set |
| `NoteLemmas.ReplaceKeepsDistinct` | notes.py:51-61 | replace keeps one entry per note and the held set unchanged |
| `NoteLemmas.OctaveSurvives` | notes.py:35-49 | after adding a note, any sequence of adds, removes and replaces of other notes leaves remove of it returning the octave it was added in |
| `NoteLemmas.LastEntryStep` | notes.py:26-61 | one add, remove or replace of another note leaves the entry a backward scan finds for a note unchanged |
| `Midi.NewController` | midi.py:38-45 | construction succeeds exactly for channels 1..16 and keeps the channel; otherwise it fails with the channel error |
| `Midi.SendMessage` | midi.py:53-60 | fails exactly for commands other than 0x80 and 0x90; otherwise the message is three values: status `command + channel - 1`, `data1`, and `data2` (default 0); for a valid channel the status lies in `command..command+0x0F` |
| `Midi.StatusRoundTrip` | midi.py:3-4 | for a valid channel and command, the status byte's upper nibble gives back the command and its lower nibble plus one the channel |
| `Midi.NoteOff` | midi.py:62-64 | Note Off always succeeds and encodes `(0x80 + channel - 1, note, velocity)`, velocity 0 by default |
| `Midi.NoteOn` | midi.py:66-68 | Note On always succeeds and encodes `(0x90 + channel - 1, note, velocity)`, velocity 127 by default |

## Left out

- Midi.NewController: the channel check is an `assert` caught as `AssertionError` (`midi.py:39-42`). The model assumes assertions are compiled in, which is the default optimisation level 0. Under Python's `-O`, or MicroPython at optimisation level 1 or higher, the check disappears and any channel is accepted; the model does not capture that build.
- The UART write (`midi.py:60`) is a foreign call onto the serial port. The model stops at the three-value message. The signed-byte `"bbb"` packing of values of 0x80 and up differs between platforms, so the model has no truncation and no overflow.
- The UART handle held by the controller is not modelled, and neither are the `__repr__` methods of both classes, which only build display strings.
- `main.py` is not part of this model. It is a board polling loop that drives an LED.
- The button-to-MIDI translator, `apply_octave`, octave clamping and the interrupt-driven octave-shift handler are not part of this model. Their source is not among the modelled files.
- Concurrency between the octave-shift handler and the polling loop is not modelled. Every operation here is sequential.
- Key and velocity ranges (0..127) are not checked, because the source does not check them.
