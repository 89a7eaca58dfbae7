/** Decoding a whole Standard MIDI File (midi.ts): the `MThd` header chunk
    with its three 16-bit fields, then track chunks until the buffer is
    exhausted. `HeaderSpec`, `TracksFrom` and `MidiSpec` give the decoding
    as functions of the bytes; `ParseFileHeader` and `ParseMidi` are the
    cursor-driven code, proved to compute them. */
module Midi {
  import opened Bytes
  import opened Parser
  import Track
  import opened Events

  /** The header chunk's fields; `trackAmount` is read but not used to
      decide how many tracks follow. */
  datatype MidiHeader = MidiHeader(id: string, size: nat, formatType: nat, trackAmount: nat, timeDivision: nat)

  datatype MidiFile = MidiFile(header: MidiHeader, tracks: seq<Track.Track>)

  /** The header chunk: the id must be "MThd", then three big-endian 16-bit
      fields are read from the start of its payload. */
  function HeaderSpec(chunk: Chunk): Result<MidiHeader>
  {
    if chunk.id != "MThd" then Err(InvalidFileHeader)
    else
      var formatType :- UintAt(chunk.data, 0, 2);
      var trackAmount :- UintAt(chunk.data, 2, 2);
      var timeDivision :- UintAt(chunk.data, 4, 2);
      Ok(MidiHeader(chunk.id, chunk.size, formatType, trackAmount, timeDivision))
  }

  /** The chunks from `pos` to the end of the buffer, each decoded by
      `decode` and appended to `tracks`; the first failure ends decoding.
      The file decoder passes `Track.TrackSpec`; the loop's own properties
      hold for any decoder. */
  function TracksFrom(decode: Chunk -> Result<Track.Track>, buf: seq<Byte>, pos: nat, tracks: seq<Track.Track>)
    : Result<seq<Track.Track>>
    decreases |buf| - pos
  {
    if pos >= |buf| then Ok(tracks)
    else
      var chunk :- ChunkAt(buf, pos);
      var track :- decode(chunk);
      TracksFrom(decode, buf, pos + 8 + chunk.size, tracks + [track])
  }

  /** The whole file: the header chunk, then every chunk after it as a track. */
  function MidiSpec(buf: seq<Byte>): Result<MidiFile>
  {
    MidiFrom(Track.TrackSpec, buf)
  }

  /** The file with its tracks decoded by `decode`. */
  function MidiFrom(decode: Chunk -> Result<Track.Track>, buf: seq<Byte>): Result<MidiFile>
  {
    var chunk :- ChunkAt(buf, 0);
    var header :- HeaderSpec(chunk);
    var tracks :- TracksFrom(decode, buf, 8 + chunk.size, []);
    Ok(MidiFile(header, tracks))
  }

  method ParseFileHeader(chunk: Chunk) returns (r: Result<MidiHeader>)
    ensures r == HeaderSpec(chunk)
  {
    if chunk.id != "MThd" {
      return Err(InvalidFileHeader);
    }
    var parser := new BytesParser(chunk.data);
    var formatType :- parser.ParseU16();
    var trackAmount :- parser.ParseU16();
    var timeDivision :- parser.ParseU16();
    return Ok(MidiHeader(chunk.id, chunk.size, formatType, trackAmount, timeDivision));
  }

  /** One turn of the loop of midi.ts:10-13: the chunk at the cursor is
      framed and decoded as a track. A failure is the failure of the whole
      remaining loop; a track is what the loop appends before going on
      from the new cursor. */
  method ParseNextTrack(parser: BytesParser, ghost tracks: seq<Track.Track>) returns (r: Result<Track.Track>)
    requires parser.Valid() && parser.pos < |parser.arrayBuffer|
    modifies parser
    ensures parser.Valid()
    ensures r.Err? ==> TracksFrom(Track.TrackSpec, parser.arrayBuffer, old(parser.pos), tracks) == Err(r.error)
    ensures r.Ok? ==> parser.pos > old(parser.pos)
    ensures r.Ok? ==> TracksFrom(Track.TrackSpec, parser.arrayBuffer, old(parser.pos), tracks)
                      == TracksFrom(Track.TrackSpec, parser.arrayBuffer, parser.pos, tracks + [r.value])
  {
    ghost var pos := parser.pos;
    TracksFromCases(Track.TrackSpec, parser.arrayBuffer, pos, tracks);
    var chunk := parser.ParseChunk();
    if chunk.Err? {
      return Err(chunk.error);
    }
    r := Track.ParseTrack(chunk.value);
    if r.Ok? {
      TracksFromStep(Track.TrackSpec, parser.arrayBuffer, pos, parser.pos, tracks, chunk.value, r.value);
    }
  }

  /** The loop of midi.ts:10-13: chunks are framed and decoded as tracks
      until the cursor reaches the end of the buffer. */
  method ParseTracks(parser: BytesParser) returns (r: Result<seq<Track.Track>>)
    requires parser.Valid()
    modifies parser
    ensures r == TracksFrom(Track.TrackSpec, parser.arrayBuffer, old(parser.pos), [])
  {
    ghost var all := TracksFrom(Track.TrackSpec, parser.arrayBuffer, parser.pos, []);
    var tracks: seq<Track.Track> := [];
    while !parser.Eof()
      invariant parser.Valid()
      invariant TracksFrom(Track.TrackSpec, parser.arrayBuffer, parser.pos, tracks) == all
      decreases |parser.arrayBuffer| - parser.pos
    {
      var track :- ParseNextTrack(parser, tracks);
      tracks := tracks + [track];
    }
    TracksFromCases(Track.TrackSpec, parser.arrayBuffer, parser.pos, tracks);
    return Ok(tracks);
  }

  method ParseMidi(midiByteBuffer: seq<Byte>) returns (r: Result<MidiFile>)
    ensures r == MidiSpec(midiByteBuffer)
  {
    var parser := new BytesParser(midiByteBuffer);
    var headerChunk := parser.ParseChunk();
    if headerChunk.Err? {
      return Err(headerChunk.error);
    }
    var header := ParseFileHeader(headerChunk.value);
    if header.Err? {
      return Err(header.error);
    }
    var tracks := ParseTracks(parser);
    if tracks.Err? {
      return Err(tracks.error);
    }
    return Ok(MidiFile(header.value, tracks.value));
  }

  // Properties of the decoding.

  /** The header fields: a chunk whose id is not "MThd" is refused; with that
      id the header decodes exactly when the payload holds six bytes, and
      its fields are the three big-endian pairs of the payload, in order. */
  lemma HeaderFields(chunk: Chunk)
    ensures chunk.id != "MThd" ==> HeaderSpec(chunk) == Err(InvalidFileHeader)
    ensures chunk.id == "MThd" ==> (HeaderSpec(chunk).Ok? <==> |chunk.data| >= 6)
    ensures chunk.id == "MThd" && |chunk.data| < 6 ==> HeaderSpec(chunk) == Err(OutOfBounds)
    ensures HeaderSpec(chunk).Ok? ==>
      var h := HeaderSpec(chunk).value;
      && h.id == "MThd" && h.size == chunk.size
      && h.formatType == chunk.data[0] as int * 0x100 + chunk.data[1]
      && h.trackAmount == chunk.data[2] as int * 0x100 + chunk.data[3]
      && h.timeDivision == chunk.data[4] as int * 0x100 + chunk.data[5]
  {
    if HeaderSpec(chunk).Ok? {
      BigEndian2(chunk.data[0..2]);
      BigEndian2(chunk.data[2..4]);
      BigEndian2(chunk.data[4..6]);
    }
  }

  /** Writing three 16-bit fields big-endian at the start of an "MThd"
      payload and decoding it gives the fields back, whatever follows them. */
  lemma HeaderRoundTrip(size: nat, formatType: nat, trackAmount: nat, timeDivision: nat, rest: seq<Byte>)
    requires formatType < 0x1_0000 && trackAmount < 0x1_0000 && timeDivision < 0x1_0000
    ensures var data := ToBigEndian(formatType, 2) + ToBigEndian(trackAmount, 2) + ToBigEndian(timeDivision, 2) + rest;
      HeaderSpec(Chunk("MThd", size, data)) == Ok(MidiHeader("MThd", size, formatType, trackAmount, timeDivision))
  {
    var data := ToBigEndian(formatType, 2) + ToBigEndian(trackAmount, 2) + ToBigEndian(timeDivision, 2) + rest;
    assert data[0..2] == ToBigEndian(formatType, 2);
    assert data[2..4] == ToBigEndian(trackAmount, 2);
    assert data[4..6] == ToBigEndian(timeDivision, 2);
    BigEndianOfToBigEndian(formatType, 2);
    BigEndianOfToBigEndian(trackAmount, 2);
    BigEndianOfToBigEndian(timeDivision, 2);
  }

  /** A chunk with id "MThd" starts with the four bytes of that id. */
  lemma HeaderIdBytes(buf: seq<Byte>, pos: nat)
    requires pos + 8 <= |buf| && ChunkAt(buf, pos).value.id == "MThd"
    ensures buf[pos..pos + 4] == [0x4D, 0x54, 0x68, 0x64]
  {
    var bytes := buf[pos..pos + 4];
    var id := ChunkAt(buf, pos).value.id;
    assert id == CharsOf(bytes);
    CharsOfIndex(bytes);
    assert id[0] == 'M' && id[1] == 'T' && id[2] == 'h' && id[3] == 'd';
    assert bytes[0] == 0x4D && bytes[1] == 0x54 && bytes[2] == 0x68 && bytes[3] == 0x64;
  }

  /** A file decodes only if it starts with the four bytes of "MThd". */
  lemma FileStartsWithHeaderId(buf: seq<Byte>)
    requires MidiSpec(buf).Ok?
    ensures |buf| >= 8 && buf[..4] == [0x4D, 0x54, 0x68, 0x64]
  {
    var chunk := ChunkAt(buf, 0);
    assert chunk.Ok? && HeaderSpec(chunk.value).Ok?;
    HeaderIdBytes(buf, 0);
    assert buf[..4] == buf[0..4];
  }

  /** How the loop stops: at the end of the buffer with the tracks so far,
      or at a chunk that does not frame or does not decode, with that
      error (`TracksFromStep` is the case where it goes on). */
  lemma TracksFromCases(decode: Chunk -> Result<Track.Track>, buf: seq<Byte>, pos: nat, tracks: seq<Track.Track>)
    ensures pos >= |buf| ==> TracksFrom(decode, buf, pos, tracks) == Ok(tracks)
    ensures pos < |buf| && ChunkAt(buf, pos).Err? ==>
      TracksFrom(decode, buf, pos, tracks) == Err(ChunkAt(buf, pos).error)
    ensures pos < |buf| && ChunkAt(buf, pos).Ok? && decode(ChunkAt(buf, pos).value).Err? ==>
      TracksFrom(decode, buf, pos, tracks) == Err(decode(ChunkAt(buf, pos).value).error)
  {
  }

  /** A chunk that frames and decodes: the loop goes on after it with its
      track appended. */
  lemma TracksFromStep(decode: Chunk -> Result<Track.Track>, buf: seq<Byte>, pos: nat, next: nat,
                       tracks: seq<Track.Track>, chunk: Chunk, track: Track.Track)
    requires pos < |buf| && ChunkAt(buf, pos) == Ok(chunk) && decode(chunk) == Ok(track)
    requires next == pos + 8 + chunk.size
    ensures TracksFrom(decode, buf, pos, tracks) == TracksFrom(decode, buf, next, tracks + [track])
  {
  }

  /** A chunk after the header whose id is not "MTrk" fails the file. */
  lemma TrackIdChecked(buf: seq<Byte>, pos: nat, tracks: seq<Track.Track>)
    requires pos + 8 <= |buf| && ChunkAt(buf, pos).value.id != "MTrk"
    ensures TracksFrom(Track.TrackSpec, buf, pos, tracks) == Err(InvalidTrackHeader)
  {
  }

  /** The file's first eight bytes frame the header chunk: a shorter file
      fails with a range error, and one whose first chunk id is not "MThd"
      fails with the header error, whatever follows. */
  lemma FileHeaderChecked(buf: seq<Byte>)
    ensures |buf| < 8 ==> MidiSpec(buf) == Err(OutOfBounds)
    ensures |buf| >= 8 && ChunkAt(buf, 0).value.id != "MThd" ==> MidiSpec(buf) == Err(InvalidFileHeader)
  {
  }

  /** Framing a chunk reads only bytes from `pos` on. */
  lemma ChunkAtFromTail(buf: seq<Byte>, buf': seq<Byte>, pos: nat)
    requires |buf| == |buf'| && pos <= |buf| && buf[pos..] == buf'[pos..]
    ensures ChunkAt(buf, pos) == ChunkAt(buf', pos)
  {
    if pos + 8 <= |buf| {
      assert buf[pos..pos + 4] == buf[pos..][..4] == buf'[pos..pos + 4];
      assert buf[pos + 4..pos + 8] == buf[pos..][4..8] == buf'[pos + 4..pos + 8];
      var size := BigEndian(buf[pos + 4..pos + 8]);
      SliceClamps(buf, pos + 8, size);
      SliceClamps(buf', pos + 8, size);
      var data, data' := Slice(buf, pos + 8, size), Slice(buf', pos + 8, size);
      forall i | 0 <= i < |data|
        ensures data[i] == data'[i]
      {
        assert buf[pos + 8 + i] == buf[pos..][8 + i];
      }
      assert data == data';
    }
  }

  /** The tracks from `pos` on depend only on the bytes from `pos` on. */
  lemma {:induction false} TracksFromTail(decode: Chunk -> Result<Track.Track>, buf: seq<Byte>, buf': seq<Byte>,
                                          pos: nat, tracks: seq<Track.Track>)
    requires |buf| == |buf'| && pos <= |buf| && buf[pos..] == buf'[pos..]
    ensures TracksFrom(decode, buf, pos, tracks) == TracksFrom(decode, buf', pos, tracks)
    decreases |buf| - pos
  {
    if pos < |buf| {
      ChunkAtFromTail(buf, buf', pos);
      var chunk := ChunkAt(buf, pos);
      if chunk.Ok? && decode(chunk.value).Ok? {
        var next := pos + 8 + chunk.value.size;
        var track := decode(chunk.value).value;
        TracksFromStep(decode, buf, pos, next, tracks, chunk.value, track);
        TracksFromStep(decode, buf', pos, next, tracks, chunk.value, track);
        if next <= |buf| {
          assert buf[next..] == buf[pos..][next - pos..] == buf'[next..];
          TracksFromTail(decode, buf, buf', next, tracks + [track]);
        } else {
          TracksFromCases(decode, buf, next, tracks + [track]);
          TracksFromCases(decode, buf', next, tracks + [track]);
        }
      } else {
        TracksFromCases(decode, buf, pos, tracks);
        TracksFromCases(decode, buf', pos, tracks);
      }
    }
  }

  /** Rewriting the header's track-count bytes (file offsets 10 and 11)
      leaves the header chunk's size as it was and changes the decoded
      header's `trackAmount` and nothing else, or leaves its error as it was. */
  lemma TrackAmountHeader(buf: seq<Byte>, hi: Byte, lo: Byte)
    requires |buf| >= 12
    ensures var buf' := buf[10 := hi][11 := lo];
      && ChunkAt(buf', 0).Ok? && ChunkAt(buf', 0).value.size == ChunkAt(buf, 0).value.size
      && HeaderSpec(ChunkAt(buf', 0).value) == match HeaderSpec(ChunkAt(buf, 0).value)
        case Ok(h) => Ok(h.(trackAmount := hi * 0x100 + lo))
        case Err(e) => Err(e)
  {
    var buf' := buf[10 := hi][11 := lo];
    assert buf[0..4] == buf'[0..4] && buf[4..8] == buf'[4..8];
    var chunk := ChunkAt(buf, 0).value;
    var chunk' := ChunkAt(buf', 0).value;
    assert chunk'.id == chunk.id && chunk'.size == chunk.size;
    HeaderFields(chunk);
    HeaderFields(chunk');
  }

  /** The header's track count decides nothing: rewriting its two bytes
      changes the decoded header's `trackAmount` and nothing else, and the
      same tracks, or the same error, come out. */
  lemma TrackAmountIgnored(buf: seq<Byte>, hi: Byte, lo: Byte)
    requires |buf| >= 12
    ensures var buf' := buf[10 := hi][11 := lo];
      MidiSpec(buf') == match MidiSpec(buf)
        case Ok(f) => Ok(f.(header := f.header.(trackAmount := hi * 0x100 + lo)))
        case Err(e) => Err(e)
  {
    TrackAmountIgnoredBy(Track.TrackSpec, buf, hi, lo);
  }

  /** A header that decodes declares a payload of at least six bytes, so
      the first track chunk starts at file offset 14 or later. */
  lemma HeaderSizeBound(buf: seq<Byte>)
    requires |buf| >= 8 && HeaderSpec(ChunkAt(buf, 0).value).Ok?
    ensures ChunkAt(buf, 0).value.size >= 6
  {
    HeaderFields(ChunkAt(buf, 0).value);
    SliceClamps(buf, 8, ChunkAt(buf, 0).value.size);
  }

  /** `TrackAmountIgnored` for any track decoder. */
  lemma TrackAmountIgnoredBy(decode: Chunk -> Result<Track.Track>, buf: seq<Byte>, hi: Byte, lo: Byte)
    requires |buf| >= 12
    ensures var buf' := buf[10 := hi][11 := lo];
      MidiFrom(decode, buf') == match MidiFrom(decode, buf)
        case Ok(f) => Ok(f.(header := f.header.(trackAmount := hi * 0x100 + lo)))
        case Err(e) => Err(e)
  {
    var buf' := buf[10 := hi][11 := lo];
    TrackAmountHeader(buf, hi, lo);
    var chunk := ChunkAt(buf, 0).value;
    var start := 8 + chunk.size;
    if HeaderSpec(chunk).Ok? && start <= |buf| {
      HeaderSizeBound(buf);
      assert buf[start..] == buf'[start..] by {
        assert forall i :: start <= i < |buf| ==> buf[i] == buf'[i];
      }
      TracksFromTail(decode, buf, buf', start, []);
    }
  }

  /** What every decoded track satisfies: its chunk id was "MTrk", its
      duration is the sum of its delta times, each event's absolute time
      is the sum of the delta times up to it, and its tempo is that of its
      last set-tempo event. */
  predicate TrackDecoded(t: Track.Track)
  {
    && t.id == "MTrk"
    && t.ticksDuration == Track.SumDeltas(t.events)
    && t.tempo == Track.LastTempo(t.events)
    && Track.PrefixSums(t.events)
  }

  /** The loop only appends what `decode` returns: if every track `decode`
      returns satisfies `TrackDecoded`, so does every track in the result,
      and the tracks already decoded stay at its front. */
  lemma {:induction false} TracksFromDecoded(decode: Chunk -> Result<Track.Track>, buf: seq<Byte>, pos: nat,
                                             tracks: seq<Track.Track>)
    requires forall c :: decode(c).Ok? ==> TrackDecoded(decode(c).value)
    requires forall i :: 0 <= i < |tracks| ==> TrackDecoded(tracks[i])
    requires TracksFrom(decode, buf, pos, tracks).Ok?
    ensures var all := TracksFrom(decode, buf, pos, tracks).value;
      tracks <= all && forall i :: 0 <= i < |all| ==> TrackDecoded(all[i])
    decreases |buf| - pos
  {
    if pos < |buf| {
      var chunk := ChunkAt(buf, pos).value;
      var track := decode(chunk).value;
      TracksFromStep(decode, buf, pos, pos + 8 + chunk.size, tracks, chunk, track);
      var next := tracks + [track];
      assert forall i :: 0 <= i < |next| ==> TrackDecoded(next[i]) by {
        forall i | 0 <= i < |next|
          ensures TrackDecoded(next[i])
        {
          if i < |tracks| {
            assert next[i] == tracks[i];
          }
        }
      }
      TracksFromDecoded(decode, buf, pos + 8 + chunk.size, next);
    }
  }

  /** Every track the track decoder returns satisfies `TrackDecoded`. */
  lemma TrackSpecDecoded()
    ensures forall c :: Track.TrackSpec(c).Ok? ==> TrackDecoded(Track.TrackSpec(c).value)
  {
    forall c | Track.TrackSpec(c).Ok?
      ensures TrackDecoded(Track.TrackSpec(c).value)
    {
      Track.TrackTiming(c);
    }
  }

  /** Every track of a decoded file satisfies `TrackDecoded`. */
  lemma FileTracksDecoded(buf: seq<Byte>)
    requires MidiSpec(buf).Ok?
    ensures forall i :: 0 <= i < |MidiSpec(buf).value.tracks| ==> TrackDecoded(MidiSpec(buf).value.tracks[i])
  {
    TrackSpecDecoded();
    TracksFromDecoded(Track.TrackSpec, buf, 8 + ChunkAt(buf, 0).value.size, []);
  }
  /** A whole file: an MThd header (format 0, one track, 96 ticks per
      quarter note) and the track of `Track.TempoTrackExample`, which sets
      the tempo to 500000 and ends. */
  const TempoFile: seq<Byte> :=
    [0x4D, 0x54, 0x68, 0x64, 0x00, 0x00, 0x00, 0x06, 0x00, 0x00, 0x00, 0x01, 0x00, 0x60,
     0x4D, 0x54, 0x72, 0x6B, 0x00, 0x00, 0x00, 0x0B,
     0x00, 0xFF, 0x51, 0x03, 0x07, 0xA1, 0x20, 0x00, 0xFF, 0x2F, 0x00]

  /** The header chunk of `TempoFile`. */
  lemma TempoFileHeaderChunk()
    ensures ChunkAt(TempoFile, 0) == Ok(Chunk("MThd", 6, [0x00, 0x00, 0x00, 0x01, 0x00, 0x60]))
  {
    var id := TempoFile[0..4];
    assert id == [0x4D, 0x54, 0x68, 0x64];
    CharsOfIndex(id);
    assert CharsOf(id) == "MThd";
    var sizeBytes := TempoFile[4..8];
    assert TempoFile[4] == 0x00 && TempoFile[5] == 0x00 && TempoFile[6] == 0x00 && TempoFile[7] == 0x06;
    assert sizeBytes == [0x00, 0x00, 0x00, 0x06];
    BigEndian4(sizeBytes);
    SliceClamps(TempoFile, 8, 6);
    assert Slice(TempoFile, 8, 6) == [0x00, 0x00, 0x00, 0x01, 0x00, 0x60];
  }

  /** The fields of that header: format 0, one track, 96 ticks per quarter note. */
  lemma TempoFileHeaderFields()
    ensures HeaderSpec(Chunk("MThd", 6, [0x00, 0x00, 0x00, 0x01, 0x00, 0x60])) == Ok(MidiHeader("MThd", 6, 0, 1, 96))
  {
    HeaderFields(Chunk("MThd", 6, [0x00, 0x00, 0x00, 0x01, 0x00, 0x60]));
  }

  /** The track chunk of `TempoFile`, right after the header chunk. */
  lemma TempoFileTrackChunk()
    ensures ChunkAt(TempoFile, 14)
      == Ok(Chunk("MTrk", 11, Track.TempoTrackData))
  {
    var id := TempoFile[14..18];
    assert id == [0x4D, 0x54, 0x72, 0x6B];
    CharsOfIndex(id);
    assert CharsOf(id) == "MTrk";
    var sizeBytes := TempoFile[18..22];
    assert sizeBytes == [0x00, 0x00, 0x00, 0x0B];
    BigEndian4(sizeBytes);
    assert BigEndian(sizeBytes) == 11;
    SliceClamps(TempoFile, 22, 11);
    assert Slice(TempoFile, 22, 11) == Track.TempoTrackData;
  }

  /** `TempoFile` decodes to its header and the one track, with tempo
      500000 and duration 0. */
  lemma TempoFileExample()
    ensures MidiSpec(TempoFile)
      == Ok(MidiFile(MidiHeader("MThd", 6, 0, 1, 96),
                     [Track.Track("MTrk", 11, 0, 500000, [Event(0, 0, SetTempo(500000)), Event(0, 0, EndOfTrack)])]))
  {
    var chunk := Chunk("MTrk", 11, Track.TempoTrackData);
    var track := Track.Track("MTrk", 11, 0, 500000, [Event(0, 0, SetTempo(500000)), Event(0, 0, EndOfTrack)]);
    TempoFileHeaderChunk();
    TempoFileHeaderFields();
    TempoFileTrackChunk();
    Track.TempoTrackExample();
    TracksFromStep(Track.TrackSpec, TempoFile, 14, 33, [], chunk, track);
    TracksFromCases(Track.TrackSpec, TempoFile, 33, [track]);
    assert [] + [track] == [track];
  }
}
