/**
 * MIDI Note On / Note Off encoding of the controller: a channel checked once
 * at construction, two allowed commands, and a three-value message whose
 * status byte is the command plus the zero-based channel (the Channel Voice
 * messages 8n and 9n of the MIDI 1.0 Detailed Specification). Writing the
 * message to the serial port is not modelled.
 */
module Midi {
  import opened Wrappers

  const NOTE_OFF: int := 0x80
  const NOTE_ON: int := 0x90

  /** The only commands the controller sends. */
  const COMMANDS: seq<int> := [NOTE_OFF, NOTE_ON]

  /** The `ValueError`s the controller raises. */
  datatype MidiError = InvalidChannel | InvalidCommand(command: int)

  /** A controller on one MIDI channel (the serial port is not modelled). */
  datatype Controller = Controller(channel: int)

  /** Creates a controller; fails unless the channel is one of 1..16. */
  function NewController(channel: int := 1): (r: Result<Controller, MidiError>)
    ensures r.Ok? <==> 1 <= channel <= 16
    ensures r.Ok? ==> r.value.channel == channel
    ensures r.Err? ==> r.error == InvalidChannel
  {
    if 1 <= channel <= 16 then Ok(Controller(channel)) else Err(InvalidChannel)
  }

  /** The message `send_message` writes: status byte, then the two data
      values; an unknown command is refused. */
  function SendMessage(c: Controller, command: int, data1: int, data2: int := 0): (r: Result<seq<int>, MidiError>)
    ensures r.Err? <==> command != NOTE_OFF && command != NOTE_ON
    ensures r.Err? ==> r.error == InvalidCommand(command)
    ensures r.Ok? ==> |r.value| == 3 && r.value[1] == data1 && r.value[2] == data2
    ensures r.Ok? ==> r.value[0] == command + c.channel - 1
    ensures r.Ok? && 1 <= c.channel <= 16 ==> command <= r.value[0] <= command + 0x0F
  {
    if command !in COMMANDS then Err(InvalidCommand(command))
    else
      var status := command + c.channel - 1;
      Ok([status, data1, data2])
  }

  /** The message type a status byte carries in its upper nibble. */
  function StatusCommand(status: int): int {
    status / 16 * 16
  }

  /** The one-based channel a status byte carries in its lower nibble. */
  function StatusChannel(status: int): int {
    status % 16 + 1
  }

  /** A receiver reading the status byte of a sent message gets back the
      command and the controller's channel. */
  lemma StatusRoundTrip(c: Controller, command: int, data1: int, data2: int)
    requires 1 <= c.channel <= 16
    requires command == NOTE_OFF || command == NOTE_ON
    ensures SendMessage(c, command, data1, data2).Ok?
    ensures StatusCommand(SendMessage(c, command, data1, data2).value[0]) == command
    ensures StatusChannel(SendMessage(c, command, data1, data2).value[0]) == c.channel
  {
    var status := SendMessage(c, command, data1, data2).value[0];
    assert status == command + (c.channel - 1);
    assert status / 16 == command / 16;
  }

  /** A Note Off message; the release velocity defaults to 0. */
  function NoteOff(c: Controller, note: int, velocity: int := 0): (r: Result<seq<int>, MidiError>)
    ensures r == Ok([0x80 + c.channel - 1, note, velocity])
  {
    SendMessage(c, NOTE_OFF, note, velocity)
  }

  /** A Note On message; the velocity defaults to 127. */
  function NoteOn(c: Controller, note: int, velocity: int := 127): (r: Result<seq<int>, MidiError>)
    ensures r == Ok([0x90 + c.channel - 1, note, velocity])
  {
    SendMessage(c, NOTE_ON, note, velocity)
  }
}
