/** Variable-length quantities: seven value bits per byte, most significant
    group first, bit 7 set on every byte except the last. */
module Vlq {
  import opened Bytes

  /** A decoded quantity and the number of bytes it occupied. */
  datatype Decoded = Decoded(value: nat, length: nat)

  function Pow128(n: nat): (r: nat)
    ensures r >= 1
  {
    if n == 0 then 1 else 0x80 * Pow128(n - 1)
  }

  /** Continues a quantity whose earlier bytes accumulated to `acc`: each byte
      contributes its low seven bits, and decoding stops right after the first
      byte with bit 7 clear, or, if there is none, at the end of `s` with the
      value accumulated so far (see `DecodeStops`). */
  function DecodeFrom(s: seq<Byte>, acc: nat): (d: Decoded)
    ensures d.length <= |s|
    ensures s != [] ==> d.length >= 1
    decreases |s|
  {
    if s == [] then Decoded(acc, 0)
    else
      var acc' := acc * 0x80 + s[0] % 0x80;
      if s[0] < 0x80 then Decoded(acc', 1)
      else
        var d := DecodeFrom(s[1..], acc');
        Decoded(d.value, d.length + 1)
  }

  /** Decoding consumes every byte up to and including the first one with
      bit 7 clear and nothing after it; without such a byte it consumes all of
      `s`, and never more. */
  lemma {:induction false} DecodeStops(s: seq<Byte>, acc: nat)
    ensures var d := DecodeFrom(s, acc);
      && (forall i :: 0 <= i < d.length - 1 ==> s[i] >= 0x80)
      && (d.length < |s| ==> s[d.length - 1] < 0x80)
      && (s != [] && s[d.length - 1] >= 0x80 ==> d.length == |s|)
    decreases |s|
  {
    if s != [] && s[0] >= 0x80 {
      var acc' := acc * 0x80 + s[0] % 0x80;
      DecodeStops(s[1..], acc');
      var d := DecodeFrom(s[1..], acc');
      forall i | 0 <= i < d.length
        ensures s[i] >= 0x80
      {
        if i > 0 { assert s[i] == s[1..][i - 1]; }
      }
    }
  }

  /** The quantity at the start of `s`. */
  function Decode(s: seq<Byte>): Decoded
  {
    DecodeFrom(s, 0)
  }

  /** The worked values: one zero byte, 128, the largest four-byte quantity,
      and a quantity cut off by the end of the buffer, which yields what had
      accumulated. */
  lemma DecodeExamples()
    ensures Decode([0x00]) == Decoded(0, 1)
    ensures Decode([0x81, 0x00]) == Decoded(0x80, 2)
    ensures Decode([0xFF, 0xFF, 0xFF, 0x7F]) == Decoded(0x0FFF_FFFF, 4)
    ensures Decode([0x81, 0x80]) == Decoded(0x80, 2)
  {
    assert DecodeFrom([0x7F], 0x1F_FFFF) == Decoded(0x0FFF_FFFF, 1);
    assert DecodeFrom([0xFF, 0x7F], 0x3FFF) == Decoded(0x0FFF_FFFF, 2);
    assert DecodeFrom([0xFF, 0xFF, 0x7F], 0x7F) == Decoded(0x0FFF_FFFF, 3);
    assert DecodeFrom([0x80], 1) == Decoded(0x80, 1);
  }

  /** The continuation bytes that carry the groups of `q` above the last seven bits. */
  function Leading(q: nat): seq<Byte>
  {
    if q == 0 then [] else Leading(q / 0x80) + [0x80 + q % 0x80]
  }

  /** The standard encoding of `v`. */
  function Encode(v: nat): (s: seq<Byte>)
    ensures |s| >= 1 && s[|s| - 1] < 0x80
  {
    Leading(v / 0x80) + [v % 0x80]
  }

  lemma {:induction false} LeadingContinues(q: nat)
    ensures forall i :: 0 <= i < |Leading(q)| ==> Leading(q)[i] >= 0x80
    decreases q
  {
    if q != 0 {
      LeadingContinues(q / 0x80);
      assert Leading(q) == Leading(q / 0x80) + [0x80 + q % 0x80];
    }
  }

  /** The standard encoding is a well-formed quantity: every byte but the
      last has bit 7 set, and the last has it clear. */
  lemma EncodeWellFormed(v: nat)
    ensures forall i :: 0 <= i < |Encode(v)| - 1 ==> Encode(v)[i] >= 0x80
  {
    LeadingContinues(v / 0x80);
    assert forall i :: 0 <= i < |Encode(v)| - 1 ==> Encode(v)[i] == Leading(v / 0x80)[i];
  }

  /** A continuation byte adds its seven bits and decoding carries on after it. */
  lemma DecodeContinuation(c: Byte, t: seq<Byte>, acc: nat)
    requires c >= 0x80
    ensures var d := DecodeFrom(t, acc * 0x80 + c % 0x80);
      DecodeFrom([c] + t, acc) == Decoded(d.value, d.length + 1)
  {
    assert ([c] + t)[1..] == t;
  }

  /** Decoding the continuation bytes of `q` accumulates exactly `q`. */
  lemma {:induction false} DecodeLeading(q: nat, t: seq<Byte>)
    ensures var d := DecodeFrom(t, q);
      DecodeFrom(Leading(q) + t, 0) == Decoded(d.value, d.length + |Leading(q)|)
    decreases q
  {
    if q == 0 {
      assert Leading(q) + t == t;
    } else {
      var c: Byte := 0x80 + q % 0x80;
      var lead := Leading(q / 0x80);
      var u := [c] + t;
      assert Leading(q) + t == lead + u by {
        assert Leading(q) == lead + [c];
      }
      DecodeLeading(q / 0x80, u);
      DecodeContinuation(c, t, q / 0x80);
      assert (q / 0x80) * 0x80 + c % 0x80 == q;
    }
  }

  /** Decoding the standard encoding of any value gives the value back and
      consumes exactly the encoding, whatever follows it. */
  lemma {:induction false} DecodeEncode(v: nat, rest: seq<Byte>)
    ensures Decode(Encode(v) + rest) == Decoded(v, |Encode(v)|)
  {
    var lead := Leading(v / 0x80);
    var tail := [v % 0x80] + rest;
    assert Encode(v) + rest == lead + tail;
    DecodeLeading(v / 0x80, tail);
    assert tail[0] < 0x80;
    assert DecodeFrom(tail, v / 0x80) == Decoded(v, 1);
  }

  lemma {:induction false} LeadingLength(q: nat, k: nat)
    requires q < Pow128(k)
    ensures |Leading(q)| <= k
    decreases q
  {
    if q != 0 {
      assert k >= 1;
      LeadingLength(q / 0x80, k - 1);
    }
  }

  /** Values below 2^(7k) encode in at most k bytes; in particular every value
      below 0x1000_0000 takes at most four. */
  lemma EncodeLength(v: nat, k: nat)
    requires 1 <= k && v < Pow128(k)
    ensures |Encode(v)| <= k
  {
    LeadingLength(v / 0x80, k - 1);
  }

  /** JavaScript's ToInt32: the two's-complement reading of `n` modulo 2^32. */
  function Int32(n: int): int
  {
    var m := n % 0x1_0000_0000;
    if m >= 0x8000_0000 then m - 0x1_0000_0000 else m
  }

  /** One step of `output = (output << 7) | (byte & 0x7f)` as JavaScript
      evaluates it: the shift is ToInt32 of `output * 128`, whose low seven
      bits are zero, so or-ing in the seven value bits adds them. */
  function Int32Step(acc: int, b: Byte): int
  {
    Int32(acc * 0x80) + b % 0x80
  }

  /** The decoding loop carried out with 32-bit integer operators. */
  function Int32DecodeFrom(s: seq<Byte>, acc: int): int
    decreases |s|
  {
    if s == [] then acc
    else if s[0] < 0x80 then Int32Step(acc, s[0])
    else Int32DecodeFrom(s[1..], Int32Step(acc, s[0]))
  }

  lemma {:induction false} Int32DecodeFromExact(s: seq<Byte>, acc: nat, k: nat)
    requires acc < Pow128(k)
    requires k + DecodeFrom(s, acc).length <= 4
    ensures Int32DecodeFrom(s, acc) == DecodeFrom(s, acc).value
    ensures DecodeFrom(s, acc).value < Pow128(k + DecodeFrom(s, acc).length)
    decreases |s|
  {
    if s != [] {
      var acc' := acc * 0x80 + s[0] % 0x80;
      assert acc * 0x80 < 0x8000_0000 by {
        assert Pow128(k) <= Pow128(3) by { Pow128Monotone(k, 3); }
      }
      assert Int32(acc * 0x80) == acc * 0x80;
      assert acc' < Pow128(k + 1);
      if s[0] >= 0x80 {
        Int32DecodeFromExact(s[1..], acc', k + 1);
      }
    }
  }

  lemma {:induction false} Pow128Monotone(i: nat, j: nat)
    requires i <= j
    ensures Pow128(i) <= Pow128(j)
    decreases j
  {
    if i < j {
      Pow128Monotone(i, j - 1);
    }
  }

  /** For quantities of at most four bytes, the unbounded decoding agrees with
      the 32-bit arithmetic of the original loop, and the value is below 2^28. */
  lemma Int32DecodeExact(s: seq<Byte>)
    requires Decode(s).length <= 4
    ensures Int32DecodeFrom(s, 0) == Decode(s).value
    ensures Decode(s).value < 0x1000_0000
  {
    Int32DecodeFromExact(s, 0, 0);
    Pow128Monotone(Decode(s).length, 4);
  }

  /** A five-byte quantity where 32-bit arithmetic wraps to a negative number. */
  lemma Int32DecodeWraps()
    ensures Decode([0x8F, 0xFF, 0xFF, 0xFF, 0x7F]).value == 0xFFFF_FFFF
    ensures Int32DecodeFrom([0x8F, 0xFF, 0xFF, 0xFF, 0x7F], 0) == -1
  {
    var s: seq<Byte> := [0x8F, 0xFF, 0xFF, 0xFF, 0x7F];
    assert DecodeFrom([0x7F], 0x1FF_FFFF).value == 0xFFFF_FFFF;
    assert DecodeFrom([0xFF, 0x7F], 0x3_FFFF).value == 0xFFFF_FFFF;
    assert DecodeFrom([0xFF, 0xFF, 0x7F], 0x7FF).value == 0xFFFF_FFFF;
    assert DecodeFrom([0xFF, 0xFF, 0xFF, 0x7F], 0xF).value == 0xFFFF_FFFF;
    assert Int32(0x1FF_FFFF * 0x80) == -0x80;
    assert Int32DecodeFrom([0x7F], 0x1FF_FFFF) == -1;
    assert Int32(0x3_FFFF * 0x80) == 0x3_FFFF * 0x80;
    assert Int32DecodeFrom([0xFF, 0x7F], 0x3_FFFF) == -1;
    assert Int32(0x7FF * 0x80) == 0x7FF * 0x80;
    assert Int32DecodeFrom([0xFF, 0xFF, 0x7F], 0x7FF) == -1;
    assert Int32(0xF * 0x80) == 0xF * 0x80;
    assert Int32DecodeFrom([0xFF, 0xFF, 0xFF, 0x7F], 0xF) == -1;
    assert Int32(0) == 0;
  }
}
