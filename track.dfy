/** Decoding one track chunk: the event loop of midi.ts with its running
    status, its absolute-time accumulator, the last tempo seen and the
    final size check. `Step`, `Run` and `TrackSpec` give the decoding as
    functions of the payload; `ParseTrack` is the loop over a `BytesParser`
    and is proved to compute `TrackSpec`. */
module Track {
  import opened Bytes
  import Vlq
  import opened Parser
  import opened Events

  /** A decoded track: `ticksDuration` is the absolute time of the end of
      the last event, `tempo` the last tempo set (0 if none). */
  datatype Track = Track(id: string, size: nat, ticksDuration: nat, tempo: nat, events: seq<Event>)

  /** What the loop carries from one event to the next. */
  datatype TrackState = TrackState(pos: nat, lastStatus: Option<Byte>, absoluteTime: nat, tempo: nat)

  const Start := TrackState(0, None, 0, 0)

  /** A sysex event whose marker `status` has been read: a length quantity
      at `pos` and that many payload bytes; the event and the position after
      it. */
  function SysexAt(buf: seq<Byte>, pos: nat, status: Byte): (r: (EventBody, nat))
    requires status == 0xF0 || status == 0xF7
    ensures r.1 >= pos && r.0.IsSysex()
  {
    var size := VlqAt(buf, pos);
    var bytes := Slice(buf, pos + size.length, size.value);
    (ParseSysexEvent(status, bytes).value, pos + size.length + size.value)
  }

  /** A meta event whose FF marker has been read: a type byte at `pos`, a
      length quantity and that many payload bytes. */
  function MetaAt(buf: seq<Byte>, pos: nat): (r: Result<(EventBody, nat)>)
    ensures r.Ok? ==> r.value.1 > pos && !r.value.0.IsChannelVoice()
  {
    if pos < |buf| then MetaPayloadAt(buf, pos + 1, buf[pos]) else Err(OutOfBounds)
  }

  /** The length quantity at `pos` and the payload of a meta event of type
      `metaType`. */
  function MetaPayloadAt(buf: seq<Byte>, pos: nat, metaType: Byte): (r: Result<(EventBody, nat)>)
    ensures r.Ok? ==> r.value.1 >= pos && !r.value.0.IsChannelVoice()
  {
    var size := VlqAt(buf, pos);
    var bytes := Slice(buf, pos + size.length, size.value);
    EndingAt(ParseMetaEvent(metaType, size.value, bytes), pos + size.length + size.value)
  }

  /** A decoded event paired with the position after it, or the error. */
  function EndingAt(e: Result<EventBody>, end: nat): (r: Result<(EventBody, nat)>)
  {
    match e
    case Ok(body) => Ok((body, end))
    case Err(error) => Err(error)
  }

  /** The data bytes of a channel event with status `status`, read from
      `pos`: the event and the position after it. The first data byte is
      read before the message type is checked, the second after. */
  function ChannelEventAt(buf: seq<Byte>, pos: nat, status: Byte): (r: Result<(EventBody, nat)>)
    ensures r.Ok? ==> r.value.1 > pos && r.value.0.IsChannelVoice()
  {
    var p1 :- U8At(buf, pos);
    var typeAndChannel := MidiChannelAndType(status);
    var two :- TwoParametersRequired(typeAndChannel.0);
    if two then
      var p2 :- U8At(buf, pos + 1);
      Ok((ParseMidiEvent(typeAndChannel.0, typeAndChannel.1, p1, Some(p2)).value, pos + 2))
    else
      Ok((ParseMidiEvent(typeAndChannel.0, typeAndChannel.1, p1, None).value, pos + 1))
  }

  /** The event that status byte `status`, read at `p` with delta time
      `delta`, starts: a sysex, meta or channel event, and the next state. */
  function EventFrom(buf: seq<Byte>, lastStatus: Option<Byte>, absoluteTime: nat, tempo: nat,
                     delta: nat, p: nat, status: Byte): (r: Result<(Event, TrackState)>)
    ensures r.Ok? ==> r.value.1.pos > p
  {
    var time := absoluteTime + delta;
    if status == 0xF0 || status == 0xF7 then
      var sysex := SysexAt(buf, p + 1, status);
      Ok((Event(delta, time, sysex.0), TrackState(sysex.1, lastStatus, time, tempo)))
    else if status == 0xFF then
      var meta :- MetaAt(buf, p + 1);
      var newTempo := if meta.0.SetTempo? then meta.0.msPerQuarterNote else tempo;
      Ok((Event(delta, time, meta.0), TrackState(meta.1, lastStatus, time, newTempo)))
    else if IsRunningStatus(status) && lastStatus.None? then
      Err(RunningStatusUninitialized)
    else
      // with running status the byte at `p` is the first data byte
      var running := IsRunningStatus(status);
      var eventStatus := if running then lastStatus.value else status;
      var dataPos := if running then p else p + 1;
      var channel :- ChannelEventAt(buf, dataPos, eventStatus);
      Ok((Event(delta, time, channel.0), TrackState(channel.1, Some(eventStatus), time, tempo)))
  }

  /** The status byte at `p` and the event it starts, or a range error
      when the payload ends before it. */
  function StatusEventAt(buf: seq<Byte>, lastStatus: Option<Byte>, absoluteTime: nat, tempo: nat,
                         delta: nat, p: nat): (r: Result<(Event, TrackState)>)
    ensures r.Ok? ==> r.value.1.pos > p
  {
    if p < |buf| then EventFrom(buf, lastStatus, absoluteTime, tempo, delta, p, buf[p])
    else Err(OutOfBounds)
  }

  /** One turn of the loop from state `st`: a delta time, a status byte, and
      the event it starts; the decoded event and the next state. */
  function Step(buf: seq<Byte>, st: TrackState): (r: Result<(Event, TrackState)>)
    ensures r.Ok? ==> r.value.1.pos > st.pos
  {
    var delta := VlqAt(buf, st.pos);
    StatusEventAt(buf, st.lastStatus, st.absoluteTime, st.tempo, delta.value, st.pos + delta.length)
  }

  /** The loop from state `st` with `events` decoded so far, until the
      position reaches the end of the payload. */
  function Run(buf: seq<Byte>, st: TrackState, events: seq<Event>): Result<(seq<Event>, TrackState)>
    decreases |buf| - st.pos
  {
    if st.pos >= |buf| then Ok((events, st))
    else
      var next :- Step(buf, st);
      Run(buf, next.1, events + [next.0])
  }

  /** The whole of track decoding: the id check, the loop, and the check
      that the bytes consumed equal the declared size. */
  function TrackSpec(chunk: Chunk): Result<Track>
  {
    if chunk.id != "MTrk" then Err(InvalidTrackHeader)
    else
      var run :- Run(chunk.data, Start, []);
      if run.1.pos != chunk.size then Err(TrackSizeMismatch)
      else Ok(Track(chunk.id, chunk.size, run.1.absoluteTime, run.1.tempo, run.0))
  }

  /** The sysex branch of the loop (midi.ts:48-55), after its marker. */
  method ParseSysex(parser: BytesParser, statusByte: Byte) returns (r: (EventBody, nat))
    requires parser.Valid() && (statusByte == 0xF0 || statusByte == 0xF7)
    modifies parser
    ensures parser.Valid()
    ensures r == SysexAt(parser.arrayBuffer, old(parser.pos), statusByte) && parser.pos == r.1
  {
    var sysexSize := parser.ParseVLQ();
    var sysexBytes := parser.ParseBytes(sysexSize);
    var sysexEvent := ParseSysexEvent(statusByte, sysexBytes).value;
    return (sysexEvent, parser.pos);
  }

  /** The meta branch of the loop (midi.ts:57-61), after its FF marker. */
  method ParseMeta(parser: BytesParser) returns (r: Result<(EventBody, nat)>)
    requires parser.Valid()
    modifies parser
    ensures parser.Valid()
    ensures r == MetaAt(parser.arrayBuffer, old(parser.pos))
    ensures r.Ok? ==> parser.pos == r.value.1
  {
    var metaType :- parser.ParseU8();
    r := ParseMetaPayload(parser, metaType);
  }

  /** The length and payload of a meta event whose type byte has been read. */
  method ParseMetaPayload(parser: BytesParser, metaType: Byte) returns (r: Result<(EventBody, nat)>)
    requires parser.Valid()
    modifies parser
    ensures parser.Valid()
    ensures r == MetaPayloadAt(parser.arrayBuffer, old(parser.pos), metaType)
    ensures r.Ok? ==> parser.pos == r.value.1
  {
    var metaSize := parser.ParseVLQ();
    var metaBytes := parser.ParseBytes(metaSize);
    r := EndingAt(ParseMetaEvent(metaType, metaSize, metaBytes), parser.pos);
  }

  /** The data bytes of a channel event (midi.ts:82-88), read from the
      current position with status `status`. */
  method ParseChannelEvent(parser: BytesParser, status: Byte) returns (r: Result<(EventBody, nat)>)
    requires parser.Valid()
    modifies parser
    ensures parser.Valid()
    ensures r == ChannelEventAt(parser.arrayBuffer, old(parser.pos), status)
    ensures r.Ok? ==> parser.pos == r.value.1
  {
    var p1 :- parser.ParseU8();
    var typeAndChannel := MidiChannelAndType(status);
    var two :- TwoParametersRequired(typeAndChannel.0);
    var p2: Option<Byte> := None;
    if two {
      var b :- parser.ParseU8();
      p2 := Some(b);
    }
    var midiEvent := ParseMidiEvent(typeAndChannel.0, typeAndChannel.1, p1, p2).value;
    return Ok((midiEvent, parser.pos));
  }

  /** What follows the status byte in one turn of the loop of midi.ts:46-92. */
  method ParseEventBody(parser: BytesParser, ghost p: nat, statusByte: Byte, lastStatusByte: Option<Byte>,
                        deltaTime: nat, absoluteTime: nat, tempo: nat)
    returns (r: Result<(Event, TrackState)>)
    requires parser.Valid() && parser.pos == p + 1
    requires p < |parser.arrayBuffer| && parser.arrayBuffer[p] == statusByte
    modifies parser
    ensures parser.Valid()
    ensures r == StatusEventAt(parser.arrayBuffer, lastStatusByte, absoluteTime, tempo, deltaTime, p)
    ensures r.Ok? ==> parser.pos == r.value.1.pos
  {
    var time := absoluteTime + deltaTime;
    if statusByte == 0xF0 || statusByte == 0xF7 {
      var sysex := ParseSysex(parser, statusByte);
      return Ok((Event(deltaTime, time, sysex.0), TrackState(sysex.1, lastStatusByte, time, tempo)));
    } else if statusByte == 0xFF {
      var meta :- ParseMeta(parser);
      var newTempo := if meta.0.SetTempo? then meta.0.msPerQuarterNote else tempo;
      return Ok((Event(deltaTime, time, meta.0), TrackState(meta.1, lastStatusByte, time, newTempo)));
    } else {
      var status := statusByte;
      if IsRunningStatus(statusByte) {
        if lastStatusByte.None? {
          return Err(RunningStatusUninitialized);
        }
        // no status byte: the byte just read is the first data byte
        parser.DecPos(1);
        status := lastStatusByte.value;
      }
      var channel :- ParseChannelEvent(parser, status);
      return Ok((Event(deltaTime, time, channel.0), TrackState(channel.1, Some(status), time, tempo)));
    }
  }

  /** The status byte and what follows it in one turn of the loop of
      midi.ts:42-92. */
  method ParseStatusEvent(parser: BytesParser, lastStatusByte: Option<Byte>, deltaTime: nat,
                          absoluteTime: nat, tempo: nat)
    returns (r: Result<(Event, TrackState)>)
    requires parser.Valid()
    modifies parser
    ensures parser.Valid()
    ensures r == StatusEventAt(parser.arrayBuffer, lastStatusByte, absoluteTime, tempo, deltaTime, old(parser.pos))
    ensures r.Ok? ==> parser.pos == r.value.1.pos
  {
    ghost var p := parser.pos;
    var statusByte :- parser.ParseU8();
    r := ParseEventBody(parser, p, statusByte, lastStatusByte, deltaTime, absoluteTime, tempo);
  }

  /** One turn of the loop of midi.ts:40-93 on the cursor, with the state
      the loop carries passed in and the updated state handed back. */
  method ParseEvent(parser: BytesParser, st: TrackState) returns (r: Result<(Event, TrackState)>)
    requires parser.Valid() && parser.pos == st.pos
    modifies parser
    ensures parser.Valid()
    ensures r == Step(parser.arrayBuffer, st)
    ensures r.Ok? ==> parser.pos == r.value.1.pos
  {
    var deltaTime := parser.ParseVLQ();
    r := ParseStatusEvent(parser, st.lastStatus, deltaTime, st.absoluteTime, st.tempo);
  }

  method ParseTrack(chunk: Chunk) returns (r: Result<Track>)
    ensures r == TrackSpec(chunk)
  {
    if chunk.id != "MTrk" {
      return Err(InvalidTrackHeader);
    }
    var trackChunkSize := chunk.size;
    var parser := new BytesParser(chunk.data);
    var events: seq<Event> := [];
    var lastStatusByte: Option<Byte> := None;
    var absoluteTime: nat := 0;
    var tempo: nat := 0;

    while !parser.Eof()
      invariant parser.Valid() && parser.arrayBuffer == chunk.data
      invariant Run(chunk.data, TrackState(parser.pos, lastStatusByte, absoluteTime, tempo), events)
        == Run(chunk.data, Start, [])
      decreases |chunk.data| - parser.pos
    {
      var step :- ParseEvent(parser, TrackState(parser.pos, lastStatusByte, absoluteTime, tempo));
      events := events + [step.0];
      lastStatusByte := step.1.lastStatus;
      absoluteTime := step.1.absoluteTime;
      tempo := step.1.tempo;
    }

    if trackChunkSize != parser.checkSum {
      return Err(TrackSizeMismatch);
    }
    return Ok(Track(chunk.id, chunk.size, absoluteTime, tempo, events));
  }

  // Properties of the track decoding.

  /** The sum of the delta times of `events`. */
  function SumDeltas(events: seq<Event>): nat
  {
    if events == [] then 0 else SumDeltas(events[..|events| - 1]) + events[|events| - 1].deltaTime
  }

  /** The tempo of the last set-tempo event in `events`, or 0 if there is none. */
  function LastTempo(events: seq<Event>): nat
  {
    if events == [] then 0
    else if events[|events| - 1].body.SetTempo? then events[|events| - 1].body.msPerQuarterNote
    else LastTempo(events[..|events| - 1])
  }

  /** Every event's absolute time is the sum of the delta times up to and including it. */
  predicate PrefixSums(events: seq<Event>)
  {
    forall i :: 0 <= i < |events| ==> events[i].absoluteTime == SumDeltas(events[..i + 1])
  }

  /** The state the loop carries agrees with the events decoded so far. */
  predicate Summarises(st: TrackState, events: seq<Event>)
  {
    st.absoluteTime == SumDeltas(events) && st.tempo == LastTempo(events) && PrefixSums(events)
  }

  /** One step adds the event's delta to the running time, stamps the event
      with the result, and changes the tempo only for a set-tempo event. */
  lemma StepTiming(buf: seq<Byte>, st: TrackState)
    requires Step(buf, st).Ok?
    ensures var (e, next) := Step(buf, st).value;
      && e.absoluteTime == st.absoluteTime + e.deltaTime == next.absoluteTime
      && next.tempo == (if e.body.SetTempo? then e.body.msPerQuarterNote else st.tempo)
  {
  }

  lemma StepSummarises(buf: seq<Byte>, st: TrackState, events: seq<Event>)
    requires Summarises(st, events) && Step(buf, st).Ok?
    ensures var (e, next) := Step(buf, st).value;
      Summarises(next, events + [e])
  {
    var (e, next) := Step(buf, st).value;
    var events' := events + [e];
    StepTiming(buf, st);
    assert events'[..|events'| - 1] == events;
    forall i | 0 <= i < |events'|
      ensures events'[i].absoluteTime == SumDeltas(events'[..i + 1])
    {
      if i < |events| {
        assert events'[..i + 1] == events[..i + 1];
      } else {
        assert events'[..i + 1] == events';
      }
    }
  }

  lemma {:induction false} RunSummarises(buf: seq<Byte>, st: TrackState, events: seq<Event>)
    requires Summarises(st, events) && Run(buf, st, events).Ok?
    ensures var (all, last) := Run(buf, st, events).value;
      Summarises(last, all) && events <= all
    decreases |buf| - st.pos
  {
    if st.pos < |buf| {
      var (e, next) := Step(buf, st).value;
      StepSummarises(buf, st, events);
      RunSummarises(buf, next, events + [e]);
    }
  }

  /** A decoded track's duration is the sum of all delta times, every event's
      absolute time is the sum of the delta times up to and including it,
      and the track's tempo is that of its last set-tempo event (0 if none). */
  lemma TrackTiming(chunk: Chunk)
    requires TrackSpec(chunk).Ok?
    ensures var t := TrackSpec(chunk).value;
      && t.id == "MTrk"
      && t.ticksDuration == SumDeltas(t.events)
      && t.tempo == LastTempo(t.events)
      && PrefixSums(t.events)
  {
    RunSummarises(chunk.data, Start, []);
  }

  /** The loop stops only once the position has reached or passed the end
      of the payload (a payload read can carry it past the end). */
  lemma {:induction false} RunReachesEnd(buf: seq<Byte>, st: TrackState, events: seq<Event>)
    requires Run(buf, st, events).Ok?
    ensures Run(buf, st, events).value.1.pos >= |buf|
    decreases |buf| - st.pos
  {
    if st.pos < |buf| {
      var (e, next) := Step(buf, st).value;
      RunReachesEnd(buf, next, events + [e]);
    }
  }

  /** The size check: when the events decode, they end at or past the end of
      the payload, and the track decodes exactly when they end at the
      declared size; otherwise it fails with the size error. */
  lemma TrackSizeChecked(chunk: Chunk)
    requires chunk.id == "MTrk" && Run(chunk.data, Start, []).Ok?
    ensures var end := Run(chunk.data, Start, []).value.1.pos;
      && end >= |chunk.data|
      && (TrackSpec(chunk).Ok? <==> end == chunk.size)
      && (end != chunk.size ==> TrackSpec(chunk) == Err(TrackSizeMismatch))
  {
    RunReachesEnd(chunk.data, Start, []);
  }

  lemma {:induction false} SumDeltasMonotone(events: seq<Event>, i: nat, j: nat)
    requires i <= j <= |events|
    ensures SumDeltas(events[..i]) <= SumDeltas(events[..j])
    decreases j
  {
    if i < j {
      SumDeltasMonotone(events, i, j - 1);
      assert events[..j][..j - 1] == events[..j - 1];
    }
  }

  /** Absolute times never decrease along a decoded track. */
  lemma AbsoluteTimesOrdered(chunk: Chunk, i: nat, j: nat)
    requires TrackSpec(chunk).Ok?
    requires i <= j < |TrackSpec(chunk).value.events|
    ensures var es := TrackSpec(chunk).value.events;
      es[i].absoluteTime <= es[j].absoluteTime
  {
    TrackTiming(chunk);
    SumDeltasMonotone(TrackSpec(chunk).value.events, i + 1, j + 1);
  }

  /** Splitting a status byte: its high nibble is the message type and its
      low nibble the channel. Types 8, 9, A, B and E take two data bytes, C
      and D one, and any other type fails before a second byte is read. */
  lemma ChannelDataBytes(buf: seq<Byte>, pos: nat, status: Byte)
    requires pos < |buf|
    ensures var r := ChannelEventAt(buf, pos, status);
      var t := status / 0x10;
      && (r.Ok? <==> 0x8 <= t <= 0xE && (t == 0xC || t == 0xD || pos + 1 < |buf|))
      && (!(0x8 <= t <= 0xE) ==> r == Err(InvalidMidiEventType))
      && (r.Ok? ==> r.value.1 == pos + (if t == 0xC || t == 0xD then 1 else 2))
      && (r.Ok? ==> r.value.0.channel == status % 0x10)
  {
    var t := status / 0x10;
    if 0x8 <= t <= 0xE {
      MidiEventClassified(t, status % 0x10, buf[pos], if pos + 1 < |buf| then Some(buf[pos + 1]) else None);
    }
  }

  /** The status memory across one event: a sysex or meta event is not a
      channel event and leaves it as it was; any other event is a channel
      event and remembers its own status byte, or under running status the
      status it already had. */
  lemma EventStatusMemory(buf: seq<Byte>, lastStatus: Option<Byte>, absoluteTime: nat, tempo: nat,
                          delta: nat, p: nat, status: Byte)
    requires EventFrom(buf, lastStatus, absoluteTime, tempo, delta, p, status).Ok?
    ensures var (e, next) := EventFrom(buf, lastStatus, absoluteTime, tempo, delta, p, status).value;
      if status == 0xF0 || status == 0xF7 || status == 0xFF then
        !e.body.IsChannelVoice() && next.lastStatus == lastStatus
      else
        e.body.IsChannelVoice() && next.lastStatus == (if status < 0x80 then lastStatus else Some(status))
  {
  }

  /** A data byte where the first status byte of a track is due, with no
      status byte remembered, fails the track. */
  lemma RunningStatusNeedsStatus(chunk: Chunk)
    requires chunk.id == "MTrk"
    requires var p := VlqAt(chunk.data, 0).length; p < |chunk.data| && chunk.data[p] < 0x80
    ensures TrackSpec(chunk) == Err(RunningStatusUninitialized)
  {
    assert Step(chunk.data, Start) == Err(RunningStatusUninitialized);
  }

  /** At any point of the loop: a data byte where a status byte is due,
      with no status byte remembered, fails the event. */
  lemma StepNeedsStatus(buf: seq<Byte>, st: TrackState)
    requires st.lastStatus.None?
    requires var p := st.pos + VlqAt(buf, st.pos).length; p < |buf| && buf[p] < 0x80
    ensures Step(buf, st) == Err(RunningStatusUninitialized)
  {
  }

  /** Whether none of `events` is a channel event. */
  predicate NoChannelEvent(events: seq<Event>)
  {
    forall i :: 0 <= i < |events| ==> !events[i].body.IsChannelVoice()
  }

  /** Over the whole loop, no status byte is remembered exactly as long as
      no channel event has been decoded: sysex and meta events alone never
      set it, so a data byte after them fails as at the start. */
  lemma {:induction false} RunStatusMemory(buf: seq<Byte>, st: TrackState, events: seq<Event>)
    requires st.lastStatus.None? <==> NoChannelEvent(events)
    requires Run(buf, st, events).Ok?
    ensures var (all, last) := Run(buf, st, events).value;
      last.lastStatus.None? <==> NoChannelEvent(all)
    decreases |buf| - st.pos
  {
    if st.pos < |buf| {
      var (e, next) := Step(buf, st).value;
      var delta := VlqAt(buf, st.pos);
      var p := st.pos + delta.length;
      EventStatusMemory(buf, st.lastStatus, st.absoluteTime, st.tempo, delta.value, p, buf[p]);
      assert (events + [e])[|events|] == e;
      assert NoChannelEvent(events + [e]) <==> NoChannelEvent(events) && !e.body.IsChannelVoice() by {
        assert forall i :: 0 <= i < |events| ==> (events + [e])[i] == events[i];
      }
      RunStatusMemory(buf, next, events + [e]);
    }
  }

  /** A tempo change and then a data byte where a status byte is due: the
      meta event leaves no status behind, so the track fails. */
  lemma MetaThenRunningStatusFails()
    ensures TrackSpec(Chunk("MTrk", 10, [0x00, 0xFF, 0x51, 0x03, 0x07, 0xA1, 0x20, 0x00, 0x40, 0x00]))
      == Err(RunningStatusUninitialized)
  {
    var data: seq<Byte> := [0x00, 0xFF, 0x51, 0x03, 0x07, 0xA1, 0x20, 0x00, 0x40, 0x00];
    var st1 := TrackState(7, None, 0, 500000);
    assert VlqAt(data, 0) == Vlq.Decoded(0, 1);
    assert VlqAt(data, 3) == Vlq.Decoded(3, 1);
    assert Slice(data, 4, 3) == [0x07, 0xA1, 0x20];
    SetTempoExample();
    assert MetaPayloadAt(data, 3, 0x51) == Ok((SetTempo(500000), 7));
    assert Step(data, Start) == Ok((Event(0, 0, SetTempo(500000)), st1));
    assert VlqAt(data, 7) == Vlq.Decoded(0, 1);
    StepNeedsStatus(data, st1);
    assert Run(data, st1, [Event(0, 0, SetTempo(500000))]) == Err(RunningStatusUninitialized);
  }

  /** Running status: after a note-on with status 0x90, the data bytes 0x40
      0x00 without a status byte are another type-9 event on channel 0, with
      velocity 0 and hence a note-off. */
  lemma RunningStatusExample()
    ensures TrackSpec(Chunk("MTrk", 7, [0x00, 0x90, 0x3C, 0x40, 0x00, 0x40, 0x00]))
      == Ok(Track("MTrk", 7, 0, 0, [Event(0, 0, NoteOn(0, 0x3C, 0x40)), Event(0, 0, NoteOff(0, 0x40, 0x00))]))
  {
    var data: seq<Byte> := [0x00, 0x90, 0x3C, 0x40, 0x00, 0x40, 0x00];
    var e1 := Event(0, 0, NoteOn(0, 0x3C, 0x40));
    var e2 := Event(0, 0, NoteOff(0, 0x40, 0x00));
    var st1 := TrackState(4, Some(0x90), 0, 0);
    var st2 := TrackState(7, Some(0x90), 0, 0);
    assert VlqAt(data, 0) == Vlq.Decoded(0, 1);
    assert ChannelEventAt(data, 2, 0x90) == Ok((NoteOn(0, 0x3C, 0x40), 4));
    assert Step(data, Start) == Ok((e1, st1));
    assert VlqAt(data, 4) == Vlq.Decoded(0, 1);
    assert ChannelEventAt(data, 5, 0x90) == Ok((NoteOff(0, 0x40, 0x00), 7));
    assert Step(data, st1) == Ok((e2, st2));
    assert Run(data, st2, [e1, e2]) == Ok(([e1, e2], st2));
    assert [e1] + [e2] == [e1, e2];
    assert Run(data, st1, [e1]) == Ok(([e1, e2], st2));
    assert [] + [e1] == [e1];
    assert Run(data, Start, []) == Ok(([e1, e2], st2));
  }

  /** The payload of a track that sets the tempo to 0x07A120 and then ends:
      a set-tempo meta event and an end-of-track meta event, both at delta 0. */
  const TempoTrackData: seq<Byte> := [0x00, 0xFF, 0x51, 0x03, 0x07, 0xA1, 0x20, 0x00, 0xFF, 0x2F, 0x00]

  /** The first event of `TempoTrackExample`: the tempo change. */
  lemma TempoTrackFirstStep()
    ensures Step(TempoTrackData, Start) == Ok((Event(0, 0, SetTempo(500000)), TrackState(7, None, 0, 500000)))
  {
    var data := TempoTrackData;
    assert VlqAt(data, 0) == Vlq.Decoded(0, 1);
    assert VlqAt(data, 3) == Vlq.Decoded(3, 1);
    assert Slice(data, 4, 3) == [0x07, 0xA1, 0x20];
    SetTempoExample();
    assert MetaPayloadAt(data, 3, 0x51) == Ok((SetTempo(500000), 7));
  }

  /** The second event of `TempoTrackExample`: the end of the track. */
  lemma TempoTrackSecondStep()
    ensures Step(TempoTrackData, TrackState(7, None, 0, 500000)) == Ok((Event(0, 0, EndOfTrack), TrackState(11, None, 0, 500000)))
  {
    var data := TempoTrackData;
    assert VlqAt(data, 7) == Vlq.Decoded(0, 1);
    assert VlqAt(data, 10) == Vlq.Decoded(0, 1);
    assert Slice(data, 11, 0) == [];
    assert MetaPayloadAt(data, 10, 0x2F) == Ok((EndOfTrack, 11));
  }

  /** A track that sets the tempo to 0x07A120 and then ends: its tempo is
      500000 microseconds per quarter note and it lasts 0 ticks. */
  lemma TempoTrackExample()
    ensures TrackSpec(Chunk("MTrk", 11, TempoTrackData))
      == Ok(Track("MTrk", 11, 0, 500000, [Event(0, 0, SetTempo(500000)), Event(0, 0, EndOfTrack)]))
  {
    var data := TempoTrackData;
    var e1 := Event(0, 0, SetTempo(500000));
    var e2 := Event(0, 0, EndOfTrack);
    var st1 := TrackState(7, None, 0, 500000);
    var st2 := TrackState(11, None, 0, 500000);
    TempoTrackFirstStep();
    TempoTrackSecondStep();
    assert Run(data, st2, [e1, e2]) == Ok(([e1, e2], st2));
    assert [e1] + [e2] == [e1, e2];
    assert Run(data, st1, [e1]) == Ok(([e1, e2], st2));
    assert [] + [e1] == [e1];
    assert Run(data, Start, []) == Ok(([e1, e2], st2));
  }
}
