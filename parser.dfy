/** The byte cursor of parser.ts: a read position over an immutable buffer,
    with fixed-width big-endian reads, clamped slices, variable-length
    quantities and chunk framing. */
module Parser {
  import opened Bytes
  import Vlq

  /** A chunk as the cursor frames it: a four-character id, the declared
      payload size, and the payload as sliced from the buffer (shorter than
      `size` when the buffer ends early). */
  datatype Chunk = Chunk(id: string, size: nat, data: seq<Byte>)

  // The reads, as functions of the buffer and the read position.

  /** `DataView.getUint8(pos)`: the byte at `pos`, or a range error past the end. */
  function U8At(buf: seq<Byte>, pos: nat): Result<Byte>
  {
    if pos < |buf| then Ok(buf[pos]) else Err(OutOfBounds)
  }

  /** `getUint16` / `getUint32`: `width` bytes at `pos`, most significant
      first, or a range error when they run past the end. */
  function UintAt(buf: seq<Byte>, pos: nat, width: nat): Result<nat>
  {
    if pos + width <= |buf| then Ok(BigEndian(buf[pos..pos + width])) else Err(OutOfBounds)
  }

  /** `getInt8` / `getInt16` / `getInt32`: the same bytes read as two's complement. */
  function IntAt(buf: seq<Byte>, pos: nat, width: nat): Result<int>
  {
    var u :- UintAt(buf, pos, width);
    Ok(Signed(u, width))
  }

  /** The variable-length quantity starting at `pos`. */
  function VlqAt(buf: seq<Byte>, pos: nat): Vlq.Decoded
  {
    VlqFrom(buf, pos, 0)
  }

  /** The rest of a quantity whose earlier bytes accumulated to `acc`, read
      in place from `pos` on, as the cursor reads it: the same steps as
      `Vlq.DecodeFrom`, indexed into the buffer (see `VlqFromDecodes`). */
  function VlqFrom(buf: seq<Byte>, pos: nat, acc: nat): Vlq.Decoded
    decreases |buf| - pos
  {
    if pos >= |buf| then Vlq.Decoded(acc, 0)
    else
      var acc' := acc * 0x80 + buf[pos] % 0x80;
      if buf[pos] < 0x80 then Vlq.Decoded(acc', 1)
      else
        var d := VlqFrom(buf, pos + 1, acc');
        Vlq.Decoded(d.value, d.length + 1)
  }

  /** Reading in place agrees with decoding the bytes left after `pos`. */
  lemma {:induction false} VlqFromDecodes(buf: seq<Byte>, pos: nat, acc: nat)
    ensures VlqFrom(buf, pos, acc) == Vlq.DecodeFrom(Drop(buf, pos), acc)
    decreases |buf| - pos
  {
    if pos < |buf| {
      var acc' := acc * 0x80 + buf[pos] % 0x80;
      VlqFromDecodes(buf, pos + 1, acc');
      assert Drop(buf, pos)[1..] == Drop(buf, pos + 1);
    }
  }

  /** So the quantity at `pos` is the one `Vlq.Decode` finds at the start
      of what is left, and every property proved there carries over. */
  lemma VlqAtDecodes(buf: seq<Byte>, pos: nat)
    ensures VlqAt(buf, pos) == Vlq.Decode(Drop(buf, pos))
  {
    VlqFromDecodes(buf, pos, 0);
  }

  /** The chunk starting at `pos`; the next chunk starts at `pos + 8 + size`.
      Only the 32-bit size read can fail, so framing fails exactly when
      fewer than eight bytes are left. */
  function ChunkAt(buf: seq<Byte>, pos: nat): (r: Result<Chunk>)
    ensures r.Ok? <==> pos + 8 <= |buf|
  {
    if pos + 8 <= |buf| then
      var size := BigEndian(buf[pos + 4..pos + 8]);
      Ok(Chunk(CharsOf(buf[pos..pos + 4]), size, Slice(buf, pos + 8, size)))
    else Err(OutOfBounds)
  }

  /** A chunk is framed as four id bytes, whose character codes are the id,
      a four-byte big-endian size, and the payload slice after them. */
  lemma ChunkLayout(buf: seq<Byte>, pos: nat)
    requires pos + 8 <= |buf|
    ensures var c := ChunkAt(buf, pos).value;
      && CodesOf(c.id) == buf[pos..pos + 4]
      && c.size == BigEndian(buf[pos + 4..pos + 8])
      && c.data == Slice(buf, pos + 8, c.size)
  {
    CodesOfCharsOf(buf[pos..pos + 4]);
  }

  /** A successful unsigned read is the number whose `width`-byte big-endian
      representation is exactly the bytes read, so it fits in `width` bytes. */
  lemma UintAtRepresents(buf: seq<Byte>, pos: nat, width: nat)
    requires UintAt(buf, pos, width).Ok?
    ensures UintAt(buf, pos, width).value < Pow256(width)
    ensures ToBigEndian(UintAt(buf, pos, width).value, width) == buf[pos..pos + width]
  {
    BigEndianBound(buf[pos..pos + width]);
    ToBigEndianOfBigEndian(buf[pos..pos + width]);
  }

  /** A cursor over an immutable byte buffer. `checkSum` counts the bytes
      consumed, for the track-size check. */
  class BytesParser {
    const arrayBuffer: seq<Byte>
    var pos: nat
    var checkSum: int

    /** Every move of the position moves the counter by the same amount, and
        both start at zero, so they never differ. */
    ghost predicate Valid()
      reads this
    {
      checkSum == pos
    }

    constructor (arrayBuffer: seq<Byte>)
      ensures this.arrayBuffer == arrayBuffer && pos == 0 && checkSum == 0
      ensures Valid()
    {
      this.arrayBuffer := arrayBuffer;
      pos := 0;
      checkSum := 0;
    }

    /** Whether a quantity byte is the last of its quantity (bit 7 clear). */
    static function LastByte(byte: Byte): (r: bool)
      ensures r <==> byte < 0x80
    {
      (byte / 0x80) % 2 == 0
    }

    /** At the end exactly when no byte is left to read. */
    function Eof(): (r: bool)
      reads this
      ensures r <==> Drop(arrayBuffer, pos) == []
    {
      pos >= |arrayBuffer|
    }

    method DecPos(amount: nat)
      requires amount <= pos
      modifies this
      ensures pos == old(pos) - amount && checkSum == old(checkSum) - amount
    {
      pos := pos - amount;
      checkSum := checkSum - amount;
    }

    method IncPos(amount: nat)
      modifies this
      ensures pos == old(pos) + amount && checkSum == old(checkSum) + amount
    {
      pos := pos + amount;
      checkSum := checkSum + amount;
    }

    method ParseU8() returns (r: Result<Byte>)
      requires Valid()
      modifies this
      ensures Valid()
      ensures r == U8At(arrayBuffer, old(pos))
      ensures pos == old(pos) + (if r.Ok? then 1 else 0)
    {
      if pos >= |arrayBuffer| {
        return Err(OutOfBounds);
      }
      var u8 := arrayBuffer[pos];
      IncPos(1);
      return Ok(u8);
    }

    method ParseI8() returns (r: Result<int>)
      requires Valid()
      modifies this
      ensures Valid()
      ensures r == IntAt(arrayBuffer, old(pos), 1)
      ensures pos == old(pos) + (if r.Ok? then 1 else 0)
    {
      if pos + 1 > |arrayBuffer| {
        return Err(OutOfBounds);
      }
      var u8: int := arrayBuffer[pos];
      assert BigEndian(arrayBuffer[pos..pos + 1]) == u8;
      var i8 := if u8 >= 0x80 then u8 - 0x100 else u8;
      IncPos(1);
      return Ok(i8);
    }

    method ParseU16() returns (r: Result<nat>)
      requires Valid()
      modifies this
      ensures Valid()
      ensures r == UintAt(arrayBuffer, old(pos), 2)
      ensures pos == old(pos) + (if r.Ok? then 2 else 0)
    {
      if pos + 2 > |arrayBuffer| {
        return Err(OutOfBounds);
      }
      var u16 := arrayBuffer[pos] as int * 0x100 + arrayBuffer[pos + 1];
      BigEndian2(arrayBuffer[pos..pos + 2]);
      IncPos(2);
      return Ok(u16);
    }

    method ParseI16() returns (r: Result<int>)
      requires Valid()
      modifies this
      ensures Valid()
      ensures r == IntAt(arrayBuffer, old(pos), 2)
      ensures pos == old(pos) + (if r.Ok? then 2 else 0)
    {
      if pos + 2 > |arrayBuffer| {
        return Err(OutOfBounds);
      }
      var u16 := arrayBuffer[pos] as int * 0x100 + arrayBuffer[pos + 1];
      BigEndian2(arrayBuffer[pos..pos + 2]);
      var i16 := if u16 >= 0x8000 then u16 - 0x1_0000 else u16;
      IncPos(2);
      return Ok(i16);
    }

    method ParseU32() returns (r: Result<nat>)
      requires Valid()
      modifies this
      ensures Valid()
      ensures r == UintAt(arrayBuffer, old(pos), 4)
      ensures pos == old(pos) + (if r.Ok? then 4 else 0)
    {
      if pos + 4 > |arrayBuffer| {
        return Err(OutOfBounds);
      }
      var u32 := arrayBuffer[pos] as int * 0x100_0000 + arrayBuffer[pos + 1] as int * 0x1_0000
        + arrayBuffer[pos + 2] as int * 0x100 + arrayBuffer[pos + 3];
      BigEndian4(arrayBuffer[pos..pos + 4]);
      IncPos(4);
      return Ok(u32);
    }

    method ParseI32() returns (r: Result<int>)
      requires Valid()
      modifies this
      ensures Valid()
      ensures r == IntAt(arrayBuffer, old(pos), 4)
      ensures pos == old(pos) + (if r.Ok? then 4 else 0)
    {
      if pos + 4 > |arrayBuffer| {
        return Err(OutOfBounds);
      }
      var u32 := arrayBuffer[pos] as int * 0x100_0000 + arrayBuffer[pos + 1] as int * 0x1_0000
        + arrayBuffer[pos + 2] as int * 0x100 + arrayBuffer[pos + 3];
      BigEndian4(arrayBuffer[pos..pos + 4]);
      var i32 := if u32 >= 0x8000_0000 then u32 - 0x1_0000_0000 else u32;
      IncPos(4);
      return Ok(i32);
    }

    method ParseBytesAsArrayBuffer(length: nat) returns (buf: seq<Byte>)
      requires Valid()
      modifies this
      ensures Valid()
      ensures buf == Slice(arrayBuffer, old(pos), length)
      ensures pos == old(pos) + length
    {
      buf := arrayBuffer[Min(pos, |arrayBuffer|)..Min(pos + length, |arrayBuffer|)];
      IncPos(length);
    }

    method ParseBytes(length: nat) returns (u8s: seq<Byte>)
      requires Valid()
      modifies this
      ensures Valid()
      ensures u8s == Slice(arrayBuffer, old(pos), length)
      ensures pos == old(pos) + length
    {
      u8s := arrayBuffer[Min(pos, |arrayBuffer|)..Min(pos + length, |arrayBuffer|)];
      IncPos(length);
    }

    method ParseStr(length: nat) returns (output: string)
      requires Valid()
      modifies this
      ensures Valid()
      ensures output == CharsOf(Slice(arrayBuffer, old(pos), length))
      ensures pos == old(pos) + length
    {
      var buf := arrayBuffer[Min(pos, |arrayBuffer|)..Min(pos + length, |arrayBuffer|)];
      output := CharsOf(buf);
      IncPos(length);
    }

    method ParseVLQ() returns (output: nat)
      requires Valid()
      modifies this
      ensures Valid()
      ensures output == VlqAt(arrayBuffer, old(pos)).value
      ensures pos == old(pos) + VlqAt(arrayBuffer, old(pos)).length
    {
      ghost var start := pos;
      output := 0;
      while !Eof()
        invariant Valid() && start <= pos
        invariant var d := VlqFrom(arrayBuffer, pos, output);
          VlqAt(arrayBuffer, start) == Vlq.Decoded(d.value, d.length + (pos - start))
        decreases |arrayBuffer| - pos
      {
        var byte := ParseU8();
        output := output * 0x80 + byte.value % 0x80;
        if LastByte(byte.value) {
          break;
        }
      }
    }

    method ParseChunk() returns (r: Result<Chunk>)
      requires Valid()
      modifies this
      ensures Valid()
      ensures r == ChunkAt(arrayBuffer, old(pos))
      ensures pos == old(pos) + (if r.Ok? then 8 + r.value.size else 4)
    {
      var id := ParseStr(4);
      var size :- ParseU32();
      var data := ParseBytesAsArrayBuffer(size);
      return Ok(Chunk(id, size, data));
    }
  }

  /** A byte read followed by a one-byte rewind, as the track loop does for
      running status: the cursor and its counter are back where they were,
      so the next read sees the same byte. */
  method RereadByte(parser: BytesParser) returns (b: Result<Byte>)
    requires parser.Valid()
    modifies parser
    ensures parser.Valid()
    ensures parser.pos == old(parser.pos) && parser.checkSum == old(parser.checkSum)
    ensures b == U8At(parser.arrayBuffer, parser.pos)
  {
    b := parser.ParseU8();
    if b.Ok? {
      parser.DecPos(1);
    }
  }
}
