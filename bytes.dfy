/** Octets, the failure-carrying result type, big-endian integers and the
    byte-to-character mapping shared by the byte cursor and the event decoder. */
module Bytes {

  /** One octet of a MIDI file. */
  type Byte = b: int | 0 <= b < 0x100

  datatype Option<+T> = None | Some(value: T)

  /** The reasons a decode aborts. */
  datatype Error =
    | OutOfBounds                 // a fixed-width read goes past the end of its buffer
    | InvalidFileHeader           // the first chunk is not "MThd"
    | InvalidTrackHeader          // a later chunk is not "MTrk"
    | RunningStatusUninitialized  // a data byte where a status byte was due, with none remembered
    | InvalidMidiEventType        // a channel status byte whose high nibble is not 8..E
    | MissingDataByte             // a two-data-byte channel event was handed only one
    | UnsupportedSysexType        // a system-exclusive marker other than F0 / F7
    | MetaLengthMismatch          // a fixed-length meta event with a different declared length
    | TrackSizeMismatch           // the bytes consumed by a track differ from its declared size

  datatype Result<+T> = Ok(value: T) | Err(error: Error) {
    predicate IsFailure() { Err? }
    function PropagateFailure<U>(): Result<U> requires Err? { Err(error) }
    function Extract(): T requires Ok? { value }
  }

  function Min(a: int, b: int): int { if a <= b then a else b }

  /** The bytes from `pos` to the end of `buf`; none once `pos` is past the end. */
  function Drop(buf: seq<Byte>, pos: nat): (r: seq<Byte>)
    ensures |r| == if pos <= |buf| then |buf| - pos else 0
  {
    if pos <= |buf| then buf[pos..] else []
  }

  /** The bytes `ArrayBuffer.slice(pos, pos + n)` returns: both ends are clamped
      to the buffer, so near the end fewer than `n` bytes come back. */
  function Slice(buf: seq<Byte>, pos: nat, n: nat): (r: seq<Byte>)
  {
    buf[Min(pos, |buf|)..Min(pos + n, |buf|)]
  }

  /** A clamped slice holds as many of the requested bytes as are left,
      and exactly the requested ones when none is missing. */
  lemma SliceClamps(buf: seq<Byte>, pos: nat, n: nat)
    ensures |Slice(buf, pos, n)| == Min(n, |Drop(buf, pos)|)
    ensures pos + n <= |buf| ==> Slice(buf, pos, n) == buf[pos..pos + n]
    ensures forall i :: 0 <= i < |Slice(buf, pos, n)| ==> Slice(buf, pos, n)[i] == buf[pos + i]
  {
  }

  function Pow256(n: nat): (r: nat)
    ensures r >= 1
  {
    if n == 0 then 1 else 0x100 * Pow256(n - 1)
  }

  /** The unsigned value of `s` read most significant byte first. */
  function BigEndian(s: seq<Byte>): nat
  {
    if s == [] then 0 else BigEndian(s[..|s| - 1]) * 0x100 + s[|s| - 1]
  }

  /** The `n`-byte big-endian representation of `v` (the low `n` bytes). */
  function ToBigEndian(v: nat, n: nat): (s: seq<Byte>)
    ensures |s| == n
  {
    if n == 0 then [] else ToBigEndian(v / 0x100, n - 1) + [v % 0x100]
  }

  lemma {:induction false} BigEndianBound(s: seq<Byte>)
    ensures BigEndian(s) < Pow256(|s|)
  {
    if s != [] {
      var init := s[..|s| - 1];
      BigEndianBound(init);
      assert BigEndian(init) <= Pow256(|init|) - 1;
      assert BigEndian(init) * 0x100 <= Pow256(|init|) * 0x100 - 0x100;
    }
  }

  /** Reading back the big-endian representation of a value that fits gives the value. */
  lemma {:induction false} BigEndianOfToBigEndian(v: nat, n: nat)
    requires v < Pow256(n)
    ensures BigEndian(ToBigEndian(v, n)) == v
  {
    if n > 0 {
      var s := ToBigEndian(v, n);
      assert s[..n - 1] == ToBigEndian(v / 0x100, n - 1);
      BigEndianOfToBigEndian(v / 0x100, n - 1);
    }
  }

  /** Every byte string is the representation of its big-endian value. */
  lemma {:induction false} ToBigEndianOfBigEndian(s: seq<Byte>)
    ensures ToBigEndian(BigEndian(s), |s|) == s
  {
    if s != [] {
      var init := s[..|s| - 1];
      ToBigEndianOfBigEndian(init);
      var v := BigEndian(s);
      assert v / 0x100 == BigEndian(init) && v % 0x100 == s[|s| - 1];
      assert s == init + [s[|s| - 1]];
    }
  }

  lemma BigEndian2(s: seq<Byte>)
    requires |s| == 2
    ensures BigEndian(s) == s[0] as int * 0x100 + s[1]
  {
    assert s[..1][..0] == [];
    assert BigEndian(s[..1]) == s[0];
  }

  lemma BigEndian3(s: seq<Byte>)
    requires |s| == 3
    ensures BigEndian(s) == s[0] as int * 0x1_0000 + s[1] as int * 0x100 + s[2]
  {
    BigEndian2(s[..2]);
  }

  lemma BigEndian4(s: seq<Byte>)
    requires |s| == 4
    ensures BigEndian(s) == s[0] as int * 0x100_0000 + s[1] as int * 0x1_0000 + s[2] as int * 0x100 + s[3]
  {
    assert s[..3][..2] == s[..2];
    BigEndian2(s[..2]);
  }

  /** The two's-complement reading of a `width`-byte unsigned value. */
  function Signed(v: nat, width: nat): int
  {
    if 2 * v >= Pow256(width) then v - Pow256(width) else v
  }

  /** A signed read lies in the two's-complement range of its width and agrees
      with the unsigned read modulo 2^(8*width). */
  lemma SignedInRange(v: nat, width: nat)
    requires v < Pow256(width)
    ensures var r := Signed(v, width);
      -(Pow256(width) as int) <= 2 * r < Pow256(width) && (v - r) % Pow256(width) == 0
      && (r >= 0 <==> 2 * v < Pow256(width))
  {
    var m: int := Pow256(width);
    if 2 * v >= m {
      assert v - Signed(v, width) == m;
    } else {
      assert v - Signed(v, width) == 0;
    }
  }

  /** Each byte taken as the character with that code (`String.fromCharCode`). */
  function CharsOf(bytes: seq<Byte>): (s: string)
    ensures |s| == |bytes|
  {
    if bytes == [] then [] else CharsOf(bytes[..|bytes| - 1]) + [bytes[|bytes| - 1] as char]
  }

  /** The character codes of a string. */
  function CodesOf(s: string): (codes: seq<int>)
    ensures |codes| == |s|
  {
    if s == [] then [] else CodesOf(s[..|s| - 1]) + [s[|s| - 1] as int]
  }

  /** The `i`-th character has the `i`-th byte as its code. */
  lemma {:induction false} CharsOfIndex(bytes: seq<Byte>)
    ensures forall i :: 0 <= i < |bytes| ==> CharsOf(bytes)[i] as int == bytes[i]
  {
    if bytes != [] {
      CharsOfIndex(bytes[..|bytes| - 1]);
    }
  }

  /** Taking the codes of the characters gives the bytes back: the mapping loses nothing. */
  lemma {:induction false} CodesOfCharsOf(bytes: seq<Byte>)
    ensures CodesOf(CharsOf(bytes)) == bytes
  {
    if bytes != [] {
      var init := bytes[..|bytes| - 1];
      CodesOfCharsOf(init);
      assert CharsOf(bytes)[..|bytes| - 1] == CharsOf(init);
      assert bytes == init + [bytes[|bytes| - 1]];
    }
  }
}
