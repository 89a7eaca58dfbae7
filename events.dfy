/** The event types of a track and the classification tables of midi.ts that
    turn a status byte, a meta type or a sysex marker, with their data bytes,
    into one of them. */
module Events {
  import opened Bytes

  /** A MIDI channel number, the low nibble of a status byte. */
  type Nibble = n: int | 0 <= n < 0x10

  /** The seven text-bearing meta events (types 0x01 to 0x07). */
  datatype TextKind = Text | Copyright | Sequence | InstrumentName | Lyric | Marker | CuePoint

  /** What an event says, without its timing. Fields read from a meta payload
      by index are `None` where the payload was cut short by the end of the
      buffer (JavaScript's `undefined`). */
  datatype EventBody =
    // channel-voice events
    | NoteOff(channel: Nibble, noteNumber: Byte, velocity: Byte)
    | NoteOn(channel: Nibble, noteNumber: Byte, velocity: Byte)
    | NoteAftertouch(channel: Nibble, noteNumber: Byte, amount: Byte)
    | MidiController(channel: Nibble, controller: Byte, value: Byte)
    | ProgramChange(channel: Nibble, programNumber: Byte)
    | ChannelAftertouch(channel: Nibble, amount: Byte)
    | PitchBend(channel: Nibble, bend: real)
    // meta events
    | MetaText(kind: TextKind, text: string)
    | ChannelPrefix(prefix: Option<Byte>)
    | EndOfTrack
    | SetTempo(msPerQuarterNote: nat)
    | SmpteOffset(hr: Option<Byte>, mn: Option<Byte>, se: Option<Byte>, fr: Option<Byte>, ff: Option<Byte>)
    | TimeSignature(nn: Option<Byte>, dd: Option<Byte>, cc: Option<Byte>, bb: Option<Byte>)
    | KeySignature(sf: Option<Byte>, mi: Option<Byte>)
    | SequencerSpecific(data: seq<Byte>)
    | UnknownMetaEvent
    // system-exclusive events
    | SysexMessage(data: seq<Byte>)
    | EscapeSequence(data: seq<Byte>)
  {
    predicate IsChannelVoice()
    {
      NoteOff? || NoteOn? || NoteAftertouch? || MidiController? || ProgramChange?
      || ChannelAftertouch? || PitchBend?
    }

    predicate IsSysex()
    {
      SysexMessage? || EscapeSequence?
    }
  }

  /** A decoded event: ticks since the previous event, ticks since the start
      of the track, and what it says. */
  datatype Event = Event(deltaTime: nat, absoluteTime: nat, body: EventBody)

  /** `bytes[i]`, or `undefined` past the end. */
  function ByteAt(bytes: seq<Byte>, i: nat): (r: Option<Byte>)
    ensures r.Some? <==> i < |bytes|
  {
    if i < |bytes| then Some(bytes[i]) else None
  }

  /** Whether a status-position byte is really a data byte (bit 7 clear), so
      that the previous status byte applies again. */
  function IsRunningStatus(eventType: Byte): (r: bool)
    ensures r <==> eventType < 0x80
  {
    (eventType / 0x80) % 2 == 0
  }

  /** The high nibble (`eventType >> 4`) as the message type and the low
      nibble (`eventType & 0x0f`) as the channel. */
  function MidiChannelAndType(eventType: Byte): (r: (nat, Nibble))
    ensures r.0 < 0x10
    ensures r.0 * 0x10 + r.1 == eventType
  {
    (eventType / 0x10, eventType % 0x10)
  }

  /** Whether a channel message type carries two data bytes (types 8, 9, A,
      B, E) or one (C, D); any other type is invalid. */
  function TwoParametersRequired(midiType: int): (r: Result<bool>)
    ensures r.Ok? <==> 0x8 <= midiType <= 0xE
    ensures r.Ok? ==> (r.value <==> midiType != 0xC && midiType != 0xD)
    ensures r.Err? ==> r.error == InvalidMidiEventType
  {
    match midiType
    case 0x8 => Ok(true)
    case 0x9 => Ok(true)
    case 0xA => Ok(true)
    case 0xB => Ok(true)
    case 0xC => Ok(false)
    case 0xD => Ok(false)
    case 0xE => Ok(true)
    case _ => Err(InvalidMidiEventType)
  }

  /** `(b0 << 16) | (b1 << 8) | b2`. The shifted bytes do not overlap, so the
      or is a sum; a missing byte is `undefined`, which shifts to 0. */
  function ParseU24(u8s: seq<Byte>): (r: nat)
    ensures r < 0x100_0000
  {
    var b0: int := if |u8s| > 0 then u8s[0] else 0;
    var b1: int := if |u8s| > 1 then u8s[1] else 0;
    var b2: int := if |u8s| > 2 then u8s[2] else 0;
    b0 * 0x1_0000 + b1 * 0x100 + b2
  }

  /** On a full payload the tempo is the big-endian value of its first three bytes. */
  lemma ParseU24IsBigEndian(u8s: seq<Byte>)
    requires |u8s| >= 3
    ensures ParseU24(u8s) == BigEndian(u8s[..3])
  {
    BigEndian3(u8s[..3]);
  }

  /** The 14-bit pitch-bend number `(msb << 7) | lsb`. Bit 7 of `lsb` (never
      set in a well-formed file) lands on bit 0 of `msb`, as the or does. */
  function PitchBendValue(lsb: Byte, msb: Byte): (r: nat)
    ensures lsb < 0x80 ==> r == msb * 0x80 + lsb
    ensures lsb < 0x80 && msb < 0x80 ==> r < 0x4000
    ensures r % 0x80 == lsb % 0x80
  {
    var high := if lsb >= 0x80 && msb % 2 == 0 then msb + 1 else msb;
    high * 0x80 + lsb % 0x80
  }

  /** `normalize(raw, 8192)`: the bend as a fraction of the half range, in
      exact arithmetic (the original computes it in floating point). */
  function NormalizedBend(raw: nat): real
  {
    (raw as real - 8192.0) / 8192.0
  }

  /** The centre maps to 0, the lowest value to -1, the highest to 8191/8192. */
  lemma NormalizedBendRange(raw: nat)
    requires raw < 0x4000
    ensures -1.0 <= NormalizedBend(raw) < 1.0
    ensures NormalizedBend(0x2000) == 0.0 && NormalizedBend(0) == -1.0
    ensures NormalizedBend(0x3FFF) == 8191.0 / 8192.0
  {
  }

  /** Each byte becomes the character with that code, one after the other. */
  method StrFromArr(u8s: seq<Byte>) returns (stringOutput: string)
    ensures stringOutput == CharsOf(u8s)
  {
    stringOutput := "";
    for i := 0 to |u8s|
      invariant stringOutput == CharsOf(u8s[..i])
    {
      assert u8s[..i + 1][..i] == u8s[..i];
      stringOutput := stringOutput + [u8s[i] as char];
    }
    assert u8s[..|u8s|] == u8s;
  }

  /** The declared length a fixed-length meta type must have. */
  function RequiredMetaLength(metaType: Byte): Option<nat>
  {
    match metaType
    case 0x20 => Some(1)
    case 0x2F => Some(0)
    case 0x51 => Some(3)
    case 0x54 => Some(5)
    case 0x58 => Some(4)
    case 0x59 => Some(2)
    case _ => None
  }

  function TextKindOf(metaType: Byte): TextKind
    requires 0x01 <= metaType <= 0x07
  {
    match metaType
    case 0x01 => Text
    case 0x02 => Copyright
    case 0x03 => Sequence
    case 0x04 => InstrumentName
    case 0x05 => Lyric
    case 0x06 => Marker
    case _ => CuePoint
  }

  /** The meta event of type `metaType` with declared length `size` and
      payload `bytes` (the bytes actually read, at most `size`). */
  function ParseMetaEvent(metaType: Byte, size: nat, bytes: seq<Byte>): (r: Result<EventBody>)
    ensures r.Err? <==> RequiredMetaLength(metaType).Some? && size != RequiredMetaLength(metaType).value
    ensures r.Ok? ==> !r.value.IsChannelVoice() && !r.value.IsSysex()
  {
    match metaType
    case 0x01 | 0x02 | 0x03 | 0x04 | 0x05 | 0x06 | 0x07 =>
      Ok(MetaText(TextKindOf(metaType), CharsOf(bytes)))
    case 0x20 =>
      if size != 1 then Err(MetaLengthMismatch)
      else Ok(ChannelPrefix(ByteAt(bytes, 0)))
    case 0x2F =>
      if size != 0 then Err(MetaLengthMismatch)
      else Ok(EndOfTrack)
    case 0x51 =>
      if size != 3 then Err(MetaLengthMismatch)
      else Ok(SetTempo(ParseU24(bytes)))
    case 0x54 =>
      if size != 5 then Err(MetaLengthMismatch)
      else Ok(SmpteOffset(ByteAt(bytes, 0), ByteAt(bytes, 1), ByteAt(bytes, 2), ByteAt(bytes, 3), ByteAt(bytes, 4)))
    case 0x58 =>
      if size != 4 then Err(MetaLengthMismatch)
      else Ok(TimeSignature(ByteAt(bytes, 0), ByteAt(bytes, 1), ByteAt(bytes, 2), ByteAt(bytes, 3)))
    case 0x59 =>
      if size != 2 then Err(MetaLengthMismatch)
      else Ok(KeySignature(ByteAt(bytes, 0), ByteAt(bytes, 1)))
    case 0x7F =>
      Ok(SequencerSpecific(bytes))
    case _ =>
      Ok(UnknownMetaEvent)
  }

  /** The meta table: a fixed-length type fails exactly when the declared
      length is not the one it requires; a text type gives text of the same
      length whose character codes are the payload; a 3-byte tempo is the
      24-bit value of its payload; sequencer-specific data is kept; every
      other type is an unknown meta event without its payload. */
  lemma MetaEventClassified(metaType: Byte, size: nat, bytes: seq<Byte>)
    ensures var r := ParseMetaEvent(metaType, size, bytes);
      && (r.Err? <==> RequiredMetaLength(metaType).Some? && size != RequiredMetaLength(metaType).value)
      && (r.Err? ==> r.error == MetaLengthMismatch)
      && (0x01 <= metaType <= 0x07 ==>
            r.Ok? && r.value.MetaText? && r.value.kind == TextKindOf(metaType)
            && |r.value.text| == |bytes| && forall i :: 0 <= i < |bytes| ==> r.value.text[i] as int == bytes[i])
      && (metaType == 0x20 && size == 1 ==> r.Ok? && r.value.ChannelPrefix?)
      && (metaType == 0x2F && size == 0 ==> r == Ok(EndOfTrack))
      && (metaType == 0x51 && size == 3 ==> r == Ok(SetTempo(ParseU24(bytes))))
      && (metaType == 0x54 && size == 5 ==> r.Ok? && r.value.SmpteOffset?)
      && (metaType == 0x58 && size == 4 ==> r.Ok? && r.value.TimeSignature?)
      && (metaType == 0x59 && size == 2 ==> r.Ok? && r.value.KeySignature?)
      && (metaType == 0x7F ==> r == Ok(SequencerSpecific(bytes)))
      && (!(0x01 <= metaType <= 0x07) && RequiredMetaLength(metaType).None? && metaType != 0x7F ==>
            r == Ok(UnknownMetaEvent))
  {
    CharsOfIndex(bytes);
  }

  /** Whether every field an event read from its payload by index was there. */
  predicate FieldsPresent(body: EventBody)
  {
    match body
    case ChannelPrefix(c) => c.Some?
    case SmpteOffset(hr, mn, se, fr, ff) => hr.Some? && mn.Some? && se.Some? && fr.Some? && ff.Some?
    case TimeSignature(nn, dd, cc, bb) => nn.Some? && dd.Some? && cc.Some? && bb.Some?
    case KeySignature(sf, mi) => sf.Some? && mi.Some?
    case _ => true
  }

  /** When the whole declared payload was read, a fixed-length meta event has
      the length its type requires, every field is present, and the fields
      are the payload bytes in order: 0x20 a channel prefix, 0x2F the end of
      the track, 0x51 a big-endian tempo, 0x54 an SMPTE offset, 0x58 a time
      signature and 0x59 a key signature. */
  lemma MetaFieldsFromPayload(metaType: Byte, bytes: seq<Byte>)
    requires ParseMetaEvent(metaType, |bytes|, bytes).Ok?
    ensures var body := ParseMetaEvent(metaType, |bytes|, bytes).value;
      && FieldsPresent(body)
      && (metaType == 0x20 ==> |bytes| == 1 && body == ChannelPrefix(Some(bytes[0])))
      && (metaType == 0x2F ==> bytes == [] && body == EndOfTrack)
      && (metaType == 0x51 ==> |bytes| == 3 && body == SetTempo(BigEndian(bytes)))
      && (metaType == 0x54 ==>
            |bytes| == 5 && body == SmpteOffset(Some(bytes[0]), Some(bytes[1]), Some(bytes[2]), Some(bytes[3]), Some(bytes[4])))
      && (metaType == 0x58 ==>
            |bytes| == 4 && body == TimeSignature(Some(bytes[0]), Some(bytes[1]), Some(bytes[2]), Some(bytes[3])))
      && (metaType == 0x59 ==> |bytes| == 2 && body == KeySignature(Some(bytes[0]), Some(bytes[1])))
  {
    if metaType == 0x51 {
      ParseU24IsBigEndian(bytes);
      assert bytes[..3] == bytes;
    }
  }

  /** The worked tempo: 0x07A120 microseconds per quarter note is 500000. */
  lemma SetTempoExample()
    ensures ParseMetaEvent(0x51, 3, [0x07, 0xA1, 0x20]) == Ok(SetTempo(500000))
  {
  }

  /** The channel event of message type `midiType` on `channel` with data
      bytes `p1` and, for two-byte types, `p2`. A note-on with velocity 0 is
      a note-off. */
  function ParseMidiEvent(midiType: int, channel: Nibble, p1: Byte, p2: Option<Byte>): (r: Result<EventBody>)
    ensures r.Ok? <==> 0x8 <= midiType <= 0xE && (midiType == 0xC || midiType == 0xD || p2.Some?)
  {
    match midiType
    case 0x8 =>
      if p2.None? then Err(MissingDataByte)
      else Ok(NoteOff(channel, p1, p2.value))
    case 0x9 =>
      if p2.None? then Err(MissingDataByte)
      else if p2.value != 0 then Ok(NoteOn(channel, p1, p2.value))
      else Ok(NoteOff(channel, p1, p2.value))
    case 0xA =>
      if p2.None? then Err(MissingDataByte)
      else Ok(NoteAftertouch(channel, p1, p2.value))
    case 0xB =>
      if p2.None? then Err(MissingDataByte)
      else Ok(MidiController(channel, p1, p2.value))
    case 0xC =>
      Ok(ProgramChange(channel, p1))
    case 0xD =>
      Ok(ChannelAftertouch(channel, p1))
    case 0xE =>
      if p2.None? then Err(MissingDataByte)
      else Ok(PitchBend(channel, NormalizedBend(PitchBendValue(p1, p2.value))))
    case _ =>
      Err(InvalidMidiEventType)
  }

  /** A system-exclusive event: F0 starts a message, F7 an escape sequence;
      both carry the payload unchanged. */
  function ParseSysexEvent(sysexType: Byte, bytes: seq<Byte>): (r: Result<EventBody>)
    ensures r.Ok? <==> sysexType == 0xF0 || sysexType == 0xF7
  {
    if sysexType == 0xF0 then Ok(SysexMessage(bytes))
    else if sysexType == 0xF7 then Ok(EscapeSequence(bytes))
    else Err(UnsupportedSysexType)
  }

  /** The channel table: a present second data byte is required exactly by
      the two-byte types; every event keeps its channel; type 9 is a note-on
      unless the velocity is 0, when it is a note-off, and note and velocity
      pass through unchanged; type 8 is always a note-off; A is polyphonic
      aftertouch, B a controller, C a program change, D channel aftertouch
      and E a pitch bend whose value is `(p2 << 7) | p1` normalised around
      8192, within [-1, 1) when both are data bytes. */
  lemma MidiEventClassified(midiType: int, channel: Nibble, p1: Byte, p2: Option<Byte>)
    ensures var r := ParseMidiEvent(midiType, channel, p1, p2);
      && (r.Ok? <==> 0x8 <= midiType <= 0xE && (TwoParametersRequired(midiType) == Ok(true) ==> p2.Some?))
      && (r.Err? ==> r.error == (if 0x8 <= midiType <= 0xE then MissingDataByte else InvalidMidiEventType))
      && (r.Ok? ==> r.value.IsChannelVoice() && r.value.channel == channel)
      && (midiType == 0x9 && p2.Some? ==>
            r.Ok? && (r.value.NoteOn? <==> p2.value != 0) && (r.value.NoteOff? <==> p2.value == 0)
            && r.value.noteNumber == p1 && r.value.velocity == p2.value)
      && (midiType == 0x8 && p2.Some? ==> r == Ok(NoteOff(channel, p1, p2.value)))
      && (midiType == 0xA && p2.Some? ==> r == Ok(NoteAftertouch(channel, p1, p2.value)))
      && (midiType == 0xB && p2.Some? ==> r == Ok(MidiController(channel, p1, p2.value)))
      && (midiType == 0xC ==> r == Ok(ProgramChange(channel, p1)))
      && (midiType == 0xD ==> r == Ok(ChannelAftertouch(channel, p1)))
      && (midiType == 0xE && p2.Some? ==> r == Ok(PitchBend(channel, NormalizedBend(PitchBendValue(p1, p2.value)))))
      && (midiType == 0xE && p2.Some? && p1 < 0x80 && p2.value < 0x80 ==> -1.0 <= r.value.bend < 1.0)
  {
    if midiType == 0xE && p2.Some? && p1 < 0x80 && p2.value < 0x80 {
      NormalizedBendRange(PitchBendValue(p1, p2.value));
    }
  }

  /** The sysex table: F0 is a sysex message and F7 an escape sequence, both
      carrying the payload unchanged; any other marker is unsupported. */
  lemma SysexEventClassified(sysexType: Byte, bytes: seq<Byte>)
    ensures var r := ParseSysexEvent(sysexType, bytes);
      && (r.Ok? ==> r.value.IsSysex() && r.value.data == bytes)
      && (r.Ok? ==> (r.value.SysexMessage? <==> sysexType == 0xF0))
      && (r.Err? ==> r.error == UnsupportedSysexType)
  {
  }
}
