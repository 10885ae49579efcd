/** QUIC variable-length integers, section 16 of RFC 9000 (src/net/tunnel/masque.rs). Shifts are
    multiplications by powers of two, and an `|` of operands without common bits is a sum. */
module Varint {
  import opened Common

  const LIMIT: nat := 0x4000_0000_0000_0000

  datatype Decoded = Decoded(value: nat, len: nat) | EmptyBuffer | TooShort

  /** `varint_len`. */
  function Length(value: nat): nat {
    if value < 64 then 1 else if value < 16384 then 2 else if value < 1073741824 then 4 else 8
  }

  /** A byte of a buffer, as a number. */
  function At(buf: seq<byte>, i: nat): nat
    requires i < |buf|
  {
    buf[i]
  }

  /** `decode_varint`. */
  function Decode(buf: seq<byte>): Decoded {
    if buf == [] then EmptyBuffer
    else
      var prefix := buf[0] / 64;
      var len := if prefix == 0 then 1 else if prefix == 1 then 2 else if prefix == 2 then 4 else 8;
      if |buf| < len then TooShort
      else
        var top := At(buf, 0) % 64;
        Decoded(
          if len == 1 then top
          else if len == 2 then 0x100 * top + buf[1]
          else if len == 4 then 0x100_0000 * top + 0x1_0000 * At(buf, 1) + 0x100 * At(buf, 2) + buf[3]
          else 0x100_0000_0000_0000 * top + 0x1_0000_0000_0000 * At(buf, 1) + 0x100_0000_0000 * At(buf, 2)
               + 0x1_0000_0000 * At(buf, 3) + 0x100_0000 * At(buf, 4) + 0x1_0000 * At(buf, 5)
               + 0x100 * At(buf, 6) + buf[7],
          len)
  }

  /** The `n` low bytes of a number, most significant first. */
  function BigEndian(value: nat, n: nat): (s: seq<byte>)
    ensures |s| == n
  {
    if n == 0 then [] else BigEndian(value / 256, n - 1) + [value % 256]
  }

  /** The encoder of the wire tests: the length goes into the two high bits. */
  function Encode(value: nat): (s: seq<byte>)
    requires value < LIMIT
    ensures |s| == Length(value)
  {
    if value < 64 then [value]
    else if value < 16384 then BigEndian(value + 0x4000, 2)
    else if value < 1073741824 then BigEndian(value + 0x8000_0000, 4)
    else BigEndian(value + 0xc000_0000_0000_0000, 8)
  }

  /** Which buffers decode: the two high bits of the first byte announce 1, 2, 4 or 8 bytes, and those
      must be there; nothing is asked of the value. */
  lemma DecodesExactly(buf: seq<byte>)
    ensures Decode(buf).EmptyBuffer? <==> buf == []
    ensures Decode(buf).Decoded? <==>
              && |buf| >= 1 && (buf[0] >= 0x40 ==> |buf| >= 2) && (buf[0] >= 0x80 ==> |buf| >= 4)
              && (buf[0] >= 0xc0 ==> |buf| >= 8)
    ensures Decode(buf).Decoded? ==>
              var first := buf[0];
              Decode(buf).len == if first < 0x40 then 1 else if first < 0x80 then 2 else if first < 0xc0 then 4 else 8
  {
  }

  /** The examples of section A.1 of RFC 9000. */
  lemma RfcExamples()
    ensures Decode([0xc2, 0x19, 0x7c, 0x5e, 0xff, 0x14, 0xe8, 0x8c]) == Decoded(151288809941952652, 8)
    ensures Decode([0x9d, 0x7f, 0x3e, 0x7d]) == Decoded(494878333, 4)
    ensures Decode([0x7b, 0xbd]) == Decoded(15293, 2)
    ensures Decode([0x25]) == Decoded(37, 1) && Decode([0x40, 0x25]) == Decoded(37, 2)
  {
  }

  // ---------------------------------------------------------------- big-endian numbers

  function Number(s: seq<byte>): nat {
    if s == [] then 0 else Number(s[..|s| - 1]) * 256 + s[|s| - 1]
  }

  function Power(n: nat): nat {
    if n == 0 then 1 else 256 * Power(n - 1)
  }

  lemma {:induction false} NumberOfBigEndian(value: nat, n: nat)
    requires value < Power(n)
    ensures Number(BigEndian(value, n)) == value
  {
    if n > 0 {
      NumberOfBigEndian(value / 256, n - 1);
      assert BigEndian(value, n)[..n - 1] == BigEndian(value / 256, n - 1);
    }
  }

  lemma {:induction false} BigEndianOfNumber(s: seq<byte>)
    ensures BigEndian(Number(s), |s|) == s
  {
    if s != [] {
      BigEndianOfNumber(s[..|s| - 1]);
      assert s == s[..|s| - 1] + [s[|s| - 1]];
    }
  }

  lemma Number2(s: seq<byte>)
    requires |s| == 2
    ensures Number(s) == 0x100 * At(s, 0) + s[1]
  {
    assert s[..1] == [s[0]] && s[..1][..0] == [];
    assert Number(s[..1]) == s[0];
  }

  lemma Number4(s: seq<byte>)
    requires |s| == 4
    ensures Number(s) == 0x100_0000 * At(s, 0) + 0x1_0000 * At(s, 1) + 0x100 * At(s, 2) + s[3]
  {
    Number2(s[..2]);
    assert s[..4][..3] == s[..3] && s[..3][..2] == s[..2];
    assert Number(s[..3]) == Number(s[..2]) * 256 + s[2];
  }

  lemma Number8(s: seq<byte>)
    requires |s| == 8
    ensures Number(s) == 0x100_0000_0000_0000 * At(s, 0) + 0x1_0000_0000_0000 * At(s, 1) + 0x100_0000_0000 * At(s, 2)
                         + 0x1_0000_0000 * At(s, 3) + 0x100_0000 * At(s, 4) + 0x1_0000 * At(s, 5)
                         + 0x100 * At(s, 6) + s[7]
  {
    Number4(s[..4]);
    assert s[..5][..4] == s[..4] && s[..6][..5] == s[..5] && s[..7][..6] == s[..6];
    assert Number(s[..5]) == Number(s[..4]) * 256 + s[4];
    assert Number(s[..6]) == Number(s[..5]) * 256 + s[5];
    assert Number(s[..7]) == Number(s[..6]) * 256 + s[6];
  }

  lemma Powers()
    ensures Power(2) == 0x1_0000 && Power(4) == 0x1_0000_0000 && Power(8) == 0x1_0000_0000_0000_0000
  {
    assert Power(3) == 0x100_0000;
    assert Power(5) == 0x100_0000_0000 && Power(6) == 0x1_0000_0000_0000 && Power(7) == 0x100_0000_0000_0000;
  }

  // ---------------------------------------------------------------- main results

  /** The value of a decoded prefix, read as one big-endian number. */
  lemma DecodeIsNumber(buf: seq<byte>)
    requires Decode(buf).Decoded?
    ensures var d := Decode(buf);
            && (d.len == 1 || d.len == 2 || d.len == 4 || d.len == 8) && d.len <= |buf|
            && d.value < LIMIT
            && Number(buf[..d.len]) == d.value + (match d.len case 1 => 0
                                                              case 2 => 0x4000
                                                              case 4 => 0x8000_0000
                                                              case _ => 0xc000_0000_0000_0000)
  {
    var d := Decode(buf);
    if d.len == 1 {
      assert buf[..1] == [buf[0]] && buf[..1][..0] == [];
      assert Number(buf[..1]) == buf[0];
    } else if d.len == 2 {
      Number2(buf[..2]);
    } else if d.len == 4 {
      Number4(buf[..4]);
    } else {
      Number8(buf[..8]);
    }
  }

  /** Only the bytes of the integer itself matter, and the buffer must hold all of them. */
  lemma DecodePrefix(buf: seq<byte>, tail: seq<byte>)
    requires Decode(buf).Decoded?
    ensures Decode(buf + tail) == Decode(buf)
    ensures Decode(buf[..Decode(buf).len]) == Decode(buf)
  {
    assert (buf + tail)[0] == buf[0];
  }

  /** Decoding undoes encoding, whatever follows. */
  lemma RoundTrip(value: nat, tail: seq<byte>)
    requires value < LIMIT
    ensures Decode(Encode(value) + tail) == Decoded(value, Length(value))
  {
    var s := Encode(value);
    Powers();
    if value < 64 {
    } else if value < 16384 {
      NumberOfBigEndian(value + 0x4000, 2);
      Number2(s);
    } else if value < 1073741824 {
      NumberOfBigEndian(value + 0x8000_0000, 4);
      Number4(s);
    } else {
      NumberOfBigEndian(value + 0xc000_0000_0000_0000, 8);
      Number8(s);
    }
    assert Decode(s) == Decoded(value, Length(value));
    DecodePrefix(s, tail);
  }

  /** Encoding undoes decoding for every integer written with its shortest length. */
  lemma ShortestIsEncoded(buf: seq<byte>)
    requires Decode(buf).Decoded? && Decode(buf).len == Length(Decode(buf).value)
    ensures Encode(Decode(buf).value) == buf[..Decode(buf).len]
  {
    DecodeIsNumber(buf);
    BigEndianOfNumber(buf[..Decode(buf).len]);
  }
}
