/**
 * The audio wire codec of the realtime bridge.
 *
 * Outbound, a frame's samples are serialised with `ndarray.tobytes()` (16-bit
 * words, little-endian on the hosts the bridge runs on) and the bytes are
 * base64-encoded with `base64.b64encode`. Inbound, an audio delta is decoded
 * with `base64.b64decode` and reinterpreted with
 * `np.frombuffer(..., dtype=np.int16)`. Base64 follows section 4 of RFC 4648
 * (the standard alphabet, `=` padding).
 */
module Codec {
  import opened Wrappers

  type Byte = x: int | 0 <= x < 0x100

  /** A 16-bit signed PCM sample. */
  type Int16 = x: int | -0x8000 <= x < 0x8000

  /** A 6-bit group, the value one base64 character carries. */
  type Sextet = x: int | 0 <= x < 64

  /** The exceptions the decoding calls raise. */
  datatype CodecError =
    | InvalidBase64   // binascii.Error raised by b64decode
    | NonAsciiText    // ValueError raised by b64decode on a str with a non-ASCII character
    | OddBufferSize   // ValueError raised by frombuffer: size not a multiple of 2

  // ----------------------------------------------------------------------
  // 16-bit little-endian words
  // ----------------------------------------------------------------------

  /** The two's-complement bit pattern of a sample, read as an unsigned 16-bit value. */
  function Unsigned(x: Int16): (u: int)
    ensures 0 <= u < 0x1_0000
    ensures u % 0x1_0000 == x % 0x1_0000
  {
    if x < 0 then x + 0x1_0000 else x
  }

  /** The sample whose two's-complement pattern has low byte `lo` and high byte `hi`. */
  function Word(lo: Byte, hi: Byte): (x: Int16)
    ensures Unsigned(x) == LittleEndian(lo, hi)
  {
    var u := LittleEndian(lo, hi);
    if u < 0x8000 then u else u - 0x1_0000
  }

  /** The unsigned value of two bytes, low byte first. */
  function LittleEndian(lo: Byte, hi: Byte): int
  {
    lo as int + 0x100 * hi as int
  }

  /** `ndarray.tobytes()` on an int16 array: each sample as two bytes, low byte first. */
  function ToBytes(samples: seq<Int16>): (bytes: seq<Byte>)
    ensures |bytes| == 2 * |samples|
    ensures forall i :: 0 <= i < |samples| ==>
      LittleEndian(bytes[2 * i], bytes[2 * i + 1]) == Unsigned(samples[i])
  {
    if samples == [] then []
    else
      var u := Unsigned(samples[0]);
      var rest := ToBytes(samples[1..]);
      assert forall i :: 1 <= i < |samples| ==>
        LittleEndian(rest[2 * (i - 1)], rest[2 * (i - 1) + 1]) == Unsigned(samples[i]);
      [u % 0x100, u / 0x100] + rest
  }

  /** The samples of an even-sized buffer, two bytes each, low byte first. */
  function Words(bytes: seq<Byte>): (samples: seq<Int16>)
    requires |bytes| % 2 == 0
    ensures |samples| == |bytes| / 2
    ensures forall i :: 0 <= i < |samples| ==>
      Unsigned(samples[i]) == LittleEndian(bytes[2 * i], bytes[2 * i + 1])
    decreases |bytes|
  {
    if bytes == [] then []
    else
      var rest := Words(bytes[2..]);
      assert forall i :: 1 <= i < |bytes| / 2 ==>
        Unsigned(rest[i - 1]) == LittleEndian(bytes[2 * i], bytes[2 * i + 1]);
      [Word(bytes[0], bytes[1])] + rest
  }

  /** Packing the samples of an even-sized buffer gives the buffer back. */
  lemma WordsPack(bytes: seq<Byte>)
    requires |bytes| % 2 == 0
    ensures ToBytes(Words(bytes)) == bytes
  {
    var packed := ToBytes(Words(bytes));
    assert |packed| == |bytes|;
    forall j | 0 <= j < |bytes| ensures packed[j] == bytes[j] {
      var i := j / 2;
      assert j == 2 * i || j == 2 * i + 1;
      WordsPackAt(bytes, i);
    }
  }

  /** Word `i` of an even-sized buffer packs back to bytes `2i` and `2i+1`. */
  lemma WordsPackAt(bytes: seq<Byte>, i: nat)
    requires |bytes| % 2 == 0 && 2 * i < |bytes|
    ensures var packed := ToBytes(Words(bytes));
      packed[2 * i] == bytes[2 * i] && packed[2 * i + 1] == bytes[2 * i + 1]
  {
    var samples := Words(bytes);
    var packed := ToBytes(samples);
    assert LittleEndian(packed[2 * i], packed[2 * i + 1]) == Unsigned(samples[i]);
    LittleEndianInjective(packed[2 * i], packed[2 * i + 1], bytes[2 * i], bytes[2 * i + 1]);
  }

  /** Two bytes are determined by their little-endian value. */
  lemma LittleEndianInjective(lo: Byte, hi: Byte, lo': Byte, hi': Byte)
    requires LittleEndian(lo, hi) == LittleEndian(lo', hi')
    ensures lo == lo' && hi == hi'
  {
  }

  /**
   * `np.frombuffer(bytes, dtype=np.int16)`: raises when the byte count is odd,
   * otherwise yields the buffer's samples; packing them again gives the buffer back.
   */
  function FromBuffer(bytes: seq<Byte>): (r: Result<seq<Int16>, CodecError>)
    ensures r.Failure? <==> |bytes| % 2 == 1
    ensures r.Failure? ==> r.error == OddBufferSize
    ensures r.Success? ==> |r.value| == |bytes| / 2 && ToBytes(r.value) == bytes
  {
    if |bytes| % 2 == 1 then Failure(OddBufferSize)
    else
      WordsPack(bytes);
      Success(Words(bytes))
  }

  /** Distinct samples have distinct bit patterns. */
  lemma UnsignedInjective(x: Int16, y: Int16)
    requires Unsigned(x) == Unsigned(y)
    ensures x == y
  {
  }

  /** Reinterpreting the packed bytes of any sample sequence gives the samples back. */
  lemma PackRoundTrip(samples: seq<Int16>)
    ensures FromBuffer(ToBytes(samples)) == Success(samples)
  {
    var bytes := ToBytes(samples);
    var back := Words(bytes);
    forall i | 0 <= i < |samples| ensures back[i] == samples[i] {
      UnsignedInjective(back[i], samples[i]);
    }
    assert back == samples;
  }

  // ----------------------------------------------------------------------
  // Base64, section 4 of RFC 4648
  // ----------------------------------------------------------------------

  const PAD: char := '='

  /** The character of the standard alphabet that carries the value `v`. */
  function Base64Char(v: Sextet): char
  {
    if v < 26 then ('A' as int + v) as char
    else if v < 52 then ('a' as int + (v - 26)) as char
    else if v < 62 then ('0' as int + (v - 52)) as char
    else if v == 62 then '+'
    else '/'
  }

  /** The value a character carries, or None when it is not in the alphabet (`=` is not). */
  function Base64Value(c: char): (r: Option<Sextet>)
    ensures r.Some? ==> Base64Char(r.value) == c
    ensures c == PAD ==> r.None?
  {
    if 'A' <= c <= 'Z' then Some(c as int - 'A' as int)
    else if 'a' <= c <= 'z' then Some(c as int - 'a' as int + 26)
    else if '0' <= c <= '9' then Some(c as int - '0' as int + 52)
    else if c == '+' then Some(62)
    else if c == '/' then Some(63)
    else None
  }

  /** Every character of the alphabet decodes to the value it encodes. */
  lemma ValueOfChar(v: Sextet)
    ensures Base64Value(Base64Char(v)) == Some(v)
  {
  }

  /** The four 6-bit groups of three bytes, most significant bits first. */
  function Sextets(b0: Byte, b1: Byte, b2: Byte): seq<Sextet>
  {
    [b0 / 4, b0 % 4 * 16 + b1 / 16, b1 % 16 * 4 + b2 / 64, b2 % 64]
  }

  /** The three bytes that four 6-bit groups spell, most significant bits first. */
  function Octets(v0: Sextet, v1: Sextet, v2: Sextet, v3: Sextet): seq<Byte>
  {
    [v0 * 4 + v1 / 16, v1 % 16 * 16 + v2 / 4, v2 % 4 * 64 + v3]
  }

  function Chars(vs: seq<Sextet>): (s: string)
    ensures |s| == |vs|
    ensures forall i :: 0 <= i < |vs| ==> s[i] == Base64Char(vs[i])
  {
    seq(|vs|, i requires 0 <= i < |vs| => Base64Char(vs[i]))
  }

  /**
   * `base64.b64encode`: every three bytes become four characters; a final
   * group of one or two bytes is padded with zero bits and then with `=`.
   */
  function Base64Encode(bytes: seq<Byte>): (s: string)
    ensures |s| == 4 * ((|bytes| + 2) / 3)
    ensures |s| % 4 == 0
    decreases |bytes|
  {
    if |bytes| == 0 then ""
    else if |bytes| == 1 then Chars(Sextets(bytes[0], 0, 0)[..2]) + [PAD, PAD]
    else if |bytes| == 2 then Chars(Sextets(bytes[0], bytes[1], 0)[..3]) + [PAD]
    else
      var rest := Base64Encode(bytes[3..]);
      Quanta(|bytes| - 3);
      Quanta(|rest|);
      Chars(Sextets(bytes[0], bytes[1], bytes[2])) + rest
  }

  /** One more quantum: three more bytes, four more characters. */
  lemma Quanta(n: nat)
    ensures (n + 3 + 2) / 3 == (n + 2) / 3 + 1
    ensures (n + 4) % 4 == n % 4
  {
  }

  /** The last quantum of an encoding: four characters, or three or two followed by padding. */
  function DecodeLast(q: string): (r: Result<seq<Byte>, CodecError>)
    requires |q| == 4
    ensures r.Failure? ==> r.error == InvalidBase64
    ensures r.Success? ==> 1 <= |r.value| <= 3
  {
    var v0, v1, v2, v3 := Base64Value(q[0]), Base64Value(q[1]), Base64Value(q[2]), Base64Value(q[3]);
    if v0.None? || v1.None? then Failure(InvalidBase64)
    else if v2.Some? && v3.Some? then Success(Octets(v0.value, v1.value, v2.value, v3.value))
    else if v2.Some? && q[3] == PAD then Success(Octets(v0.value, v1.value, v2.value, 0)[..2])
    else if q[2] == PAD && q[3] == PAD then Success(Octets(v0.value, v1.value, 0, 0)[..1])
    else Failure(InvalidBase64)
  }

  /**
   * The decoding step of `base64.b64decode` on ASCII text: it accepts a text
   * whose length is a multiple of four, made of full quanta of alphabet
   * characters, the last of which may carry padding.
   */
  function Base64Decode(s: string): (r: Result<seq<Byte>, CodecError>)
    ensures |s| % 4 != 0 ==> r.Failure?
    ensures r.Failure? ==> r.error == InvalidBase64
    ensures r.Success? ==> |s| == 4 * ((|r.value| + 2) / 3)
    decreases |s|
  {
    if |s| % 4 != 0 then Failure(InvalidBase64)
    else if |s| == 0 then Success([])
    else if |s| == 4 then DecodeLast(s)
    else
      var v0, v1, v2, v3 := Base64Value(s[0]), Base64Value(s[1]), Base64Value(s[2]), Base64Value(s[3]);
      if v0.None? || v1.None? || v2.None? || v3.None? then Failure(InvalidBase64)
      else match Base64Decode(s[4..])
        case Failure(e) => Failure(e)
        case Success(rest) =>
          Quanta(|rest|);
          Success(Octets(v0.value, v1.value, v2.value, v3.value) + rest)
  }

  /** A text of ASCII characters only, the texts `str.encode("ascii")` accepts. */
  predicate IsAscii(s: string)
  {
    forall i :: 0 <= i < |s| ==> s[i] as int < 0x80
  }

  /**
   * `base64.b64decode` applied to a `str`: the text is first encoded as
   * ASCII, which raises ValueError on any other character, and the ASCII
   * text is then decoded.
   */
  function DecodeText(s: string): (r: Result<seq<Byte>, CodecError>)
    ensures r == Failure(NonAsciiText) <==> !IsAscii(s)
    ensures r.Success? <==> IsAscii(s) && Base64Decode(s).Success?
    ensures r.Success? ==> r == Base64Decode(s)
  {
    if IsAscii(s) then Base64Decode(s) else Failure(NonAsciiText)
  }

  /** A text with a non-ASCII character is refused before any base64 decoding. */
  lemma NonAsciiExample()
    ensures DecodeText("AB\U{E9}D") == Failure(NonAsciiText)
  {
    assert "AB\U{E9}D"[2] as int >= 0x80;
  }

  /** Every character of the alphabet is ASCII. */
  lemma CharsAscii(vs: seq<Sextet>)
    ensures IsAscii(Chars(vs))
  {
  }

  /** Every text `Base64Encode` produces is ASCII, so it passes the ASCII step of the decoder. */
  lemma {:induction false} EncodeAscii(bytes: seq<Byte>)
    ensures IsAscii(Base64Encode(bytes))
    decreases |bytes|
  {
    if |bytes| == 1 {
      CharsAscii(Sextets(bytes[0], 0, 0)[..2]);
    } else if |bytes| == 2 {
      CharsAscii(Sextets(bytes[0], bytes[1], 0)[..3]);
    } else if |bytes| > 2 {
      var q := Chars(Sextets(bytes[0], bytes[1], bytes[2]));
      CharsAscii(Sextets(bytes[0], bytes[1], bytes[2]));
      EncodeAscii(bytes[3..]);
      AsciiAppend(q, Base64Encode(bytes[3..]));
    }
  }

  lemma AsciiAppend(a: string, b: string)
    requires IsAscii(a) && IsAscii(b)
    ensures IsAscii(a + b)
  {
    assert forall i :: |a| <= i < |a + b| ==> (a + b)[i] == b[i - |a|];
  }

  /** Appending a low digit `d` in base `k` to `a`, and taking it off again. */
  lemma Digit(a: nat, d: nat, k: nat)
    requires k == 4 || k == 16 || k == 64
    requires d < k
    ensures (a * k + d) / k == a && (a * k + d) % k == d
  {
  }

  /** Three bytes survive the split into 6-bit groups and back. */
  lemma OctetsOfSextets(b0: Byte, b1: Byte, b2: Byte)
    ensures var v := Sextets(b0, b1, b2); Octets(v[0], v[1], v[2], v[3]) == [b0, b1, b2]
  {
    var v := Sextets(b0, b1, b2);
    Digit(b0 % 4, b1 / 16, 16);
    Digit(b1 % 16, b2 / 64, 4);
    assert v[1] / 16 == b0 % 4 && v[1] % 16 == b1 / 16;
    assert v[2] / 4 == b1 % 16 && v[2] % 4 == b2 / 64;
  }

  /** A final group of one byte: two characters and two pad characters. */
  lemma RoundTripOneByte(b0: Byte)
    ensures Base64Decode(Base64Encode([b0])) == Success([b0])
  {
    var v := Sextets(b0, 0, 0);
    ValueOfChar(v[0]);
    ValueOfChar(v[1]);
    OctetsOfSextets(b0, 0, 0);
    var s := Base64Encode([b0]);
    assert s == [Base64Char(v[0]), Base64Char(v[1]), PAD, PAD];
    assert Base64Value(s[0]) == Some(v[0]);
    assert Base64Value(s[1]) == Some(v[1]);
    assert Base64Value(s[2]) == None;
    assert DecodeLast(s) == Success(Octets(v[0], v[1], 0, 0)[..1]);
    assert Octets(v[0], v[1], 0, 0)[..1] == [b0];
    assert Base64Decode(s) == DecodeLast(s);
  }

  /** A final group of two bytes: three characters and one pad character. */
  lemma RoundTripTwoBytes(b0: Byte, b1: Byte)
    ensures Base64Decode(Base64Encode([b0, b1])) == Success([b0, b1])
  {
    var v := Sextets(b0, b1, 0);
    ValueOfChar(v[0]);
    ValueOfChar(v[1]);
    ValueOfChar(v[2]);
    OctetsOfSextets(b0, b1, 0);
    var s := Base64Encode([b0, b1]);
    assert s == [Base64Char(v[0]), Base64Char(v[1]), Base64Char(v[2]), PAD];
    assert Base64Value(s[0]) == Some(v[0]);
    assert Base64Value(s[1]) == Some(v[1]);
    assert Base64Value(s[2]) == Some(v[2]);
    assert Base64Value(s[3]) == None;
    assert DecodeLast(s) == Success(Octets(v[0], v[1], v[2], 0)[..2]);
    assert Octets(v[0], v[1], v[2], 0)[..2] == [b0, b1];
    assert Base64Decode(s) == DecodeLast(s);
  }

  /** `q` is four characters of the alphabet that spell the three bytes `front`. */
  ghost predicate Spells(q: string, front: seq<Byte>)
  {
    && |q| == 4
    && Base64Value(q[0]).Some? && Base64Value(q[1]).Some?
    && Base64Value(q[2]).Some? && Base64Value(q[3]).Some?
    && Octets(Base64Value(q[0]).value, Base64Value(q[1]).value,
              Base64Value(q[2]).value, Base64Value(q[3]).value) == front
  }

  /** A full group of three bytes is encoded as four characters that spell the bytes back. */
  lemma FullQuantum(b0: Byte, b1: Byte, b2: Byte)
    ensures Spells(Chars(Sextets(b0, b1, b2)), [b0, b1, b2])
  {
    var v := Sextets(b0, b1, b2);
    ValueOfChar(v[0]);
    ValueOfChar(v[1]);
    ValueOfChar(v[2]);
    ValueOfChar(v[3]);
    OctetsOfSextets(b0, b1, b2);
  }

  /** A last group of three bytes: four characters without padding. */
  lemma RoundTripThreeBytes(b0: Byte, b1: Byte, b2: Byte)
    ensures Base64Decode(Base64Encode([b0, b1, b2])) == Success([b0, b1, b2])
  {
    var s := Base64Encode([b0, b1, b2]);
    FullQuantum(b0, b1, b2);
    assert s == Chars(Sextets(b0, b1, b2));
    assert Base64Decode(s) == DecodeLast(s);
  }

  /** A full quantum in front of a decodable text decodes to its bytes in front of the text's. */
  lemma DecodeFront(q: string, rest: string, front: seq<Byte>, back: seq<Byte>)
    requires Spells(q, front)
    requires rest != [] && Base64Decode(rest) == Success(back)
    ensures Base64Decode(q + rest) == Success(front + back)
  {
    var s := q + rest;
    Quanta(|rest|);
    assert |s| == |rest| + 4;
    assert s[4..] == rest;
    assert s[0] == q[0] && s[1] == q[1] && s[2] == q[2] && s[3] == q[3];
  }

  lemma SplitFront(bytes: seq<Byte>)
    requires |bytes| >= 3
    ensures [bytes[0], bytes[1], bytes[2]] + bytes[3..] == bytes
  {
  }

  /** A full group in front of a round-tripping encoding keeps the round trip. */
  lemma RoundTripStep(bytes: seq<Byte>)
    requires |bytes| > 3
    requires Base64Decode(Base64Encode(bytes[3..])) == Success(bytes[3..])
    ensures Base64Decode(Base64Encode(bytes)) == Success(bytes)
  {
    var front := [bytes[0], bytes[1], bytes[2]];
    SplitFront(bytes);
    var q := Chars(Sextets(bytes[0], bytes[1], bytes[2]));
    var rest := Base64Encode(bytes[3..]);
    FullQuantum(bytes[0], bytes[1], bytes[2]);
    DecodeFront(q, rest, front, bytes[3..]);
    assert Base64Encode(bytes) == q + rest;
  }

  /** Decoding an encoding gives back the bytes. */
  lemma {:induction false} Base64RoundTrip(bytes: seq<Byte>)
    ensures Base64Decode(Base64Encode(bytes)) == Success(bytes)
    decreases |bytes|
  {
    if |bytes| == 1 {
      assert bytes == [bytes[0]];
      RoundTripOneByte(bytes[0]);
    } else if |bytes| == 2 {
      assert bytes == [bytes[0], bytes[1]];
      RoundTripTwoBytes(bytes[0], bytes[1]);
    } else if |bytes| == 3 {
      assert bytes == [bytes[0], bytes[1], bytes[2]];
      RoundTripThreeBytes(bytes[0], bytes[1], bytes[2]);
    } else if |bytes| > 3 {
      Base64RoundTrip(bytes[3..]);
      RoundTripStep(bytes);
    }
  }

  /** The encoding of one full group in front of the rest. */
  lemma EncodeFront(b0: Byte, b1: Byte, b2: Byte, rest: seq<Byte>)
    ensures Base64Encode([b0, b1, b2] + rest) == Chars(Sextets(b0, b1, b2)) + Base64Encode(rest)
  {
    assert ([b0, b1, b2] + rest)[3..] == rest;
  }

  /**
   * The bits that a padded last quantum does not use are zero, as in every
   * text `Base64Encode` produces (the decoder ignores them, like b64decode).
   */
  ghost predicate ZeroPadBits(s: string)
  {
    |s| >= 4 && s[|s| - 1] == PAD ==>
      var v := Base64Value(if s[|s| - 2] == PAD then s[|s| - 3] else s[|s| - 2]);
      v.Some? ==> v.value % (if s[|s| - 2] == PAD then 16 else 4) == 0
  }

  /** Four 6-bit groups survive the merge into three bytes and the split back. */
  lemma SextetsOfOctets(v0: Sextet, v1: Sextet, v2: Sextet, v3: Sextet)
    ensures var b := Octets(v0, v1, v2, v3); Sextets(b[0], b[1], b[2]) == [v0, v1, v2, v3]
  {
    var b := Octets(v0, v1, v2, v3);
    Digit(v0, v1 / 16, 4);
    Digit(v1 % 16, v2 / 4, 16);
    Digit(v2 % 4, v3, 64);
    assert b[0] / 4 == v0 && b[0] % 4 == v1 / 16;
    assert b[1] / 16 == v1 % 16 && b[1] % 16 == v2 / 4;
    assert b[2] / 64 == v2 % 4 && b[2] % 64 == v3;
  }

  /** Four characters of the alphabet are the characters of their values. */
  lemma CharsOfValues(q: string)
    requires |q| == 4
    requires forall i :: 0 <= i < 4 ==> Base64Value(q[i]).Some?
    ensures Chars([Base64Value(q[0]).value, Base64Value(q[1]).value,
                   Base64Value(q[2]).value, Base64Value(q[3]).value]) == q
  {
  }

  /** The last quantum: a decodable one with zero pad bits is the encoding of what it decodes to. */
  lemma EncodeDecodeLast(q: string, bytes: seq<Byte>)
    requires |q| == 4 && DecodeLast(q) == Success(bytes) && ZeroPadBits(q)
    ensures Base64Encode(bytes) == q
  {
    var v0, v1 := Base64Value(q[0]).value, Base64Value(q[1]).value;
    if Base64Value(q[2]).Some? && Base64Value(q[3]).Some? {
      var v2, v3 := Base64Value(q[2]).value, Base64Value(q[3]).value;
      SextetsOfOctets(v0, v1, v2, v3);
      CharsOfValues(q);
      assert bytes == Octets(v0, v1, v2, v3);
    } else if Base64Value(q[2]).Some? {
      var v2 := Base64Value(q[2]).value;
      assert q[3] == PAD && v2 % 4 == 0;
      SextetsOfOctets(v0, v1, v2, 0);
      var b := Octets(v0, v1, v2, 0);
      assert b[2] == 0 && bytes == [b[0], b[1]];
      assert Sextets(b[0], b[1], 0)[..3] == [v0, v1, v2];
      assert Base64Encode(bytes) == [Base64Char(v0), Base64Char(v1), Base64Char(v2), PAD];
    } else {
      assert q[2] == PAD && q[3] == PAD && v1 % 16 == 0;
      SextetsOfOctets(v0, v1, 0, 0);
      var b := Octets(v0, v1, 0, 0);
      assert b[1] == 0 && b[2] == 0 && bytes == [b[0]];
      assert Sextets(b[0], 0, 0)[..2] == [v0, v1];
      assert Base64Encode(bytes) == [Base64Char(v0), Base64Char(v1), PAD, PAD];
    }
  }

  /** A full quantum in front: the decoded bytes are its three bytes in front of the rest's. */
  lemma DecodeSplit(s: string, bytes: seq<Byte>)
    requires |s| > 4 && Base64Decode(s) == Success(bytes)
    ensures |bytes| > 3
    ensures Spells(s[..4], bytes[..3])
    ensures Base64Decode(s[4..]) == Success(bytes[3..])
  {
    var rest := Base64Decode(s[4..]);
    assert rest.Success? && |s[4..]| >= 4;
  }

  /** A full quantum of the alphabet encodes the three bytes it spells. */
  lemma EncodeSpelled(q: string, front: seq<Byte>)
    requires Spells(q, front)
    ensures |front| == 3 && Chars(Sextets(front[0], front[1], front[2])) == q
  {
    var v0, v1, v2, v3 := Base64Value(q[0]).value, Base64Value(q[1]).value, Base64Value(q[2]).value, Base64Value(q[3]).value;
    SextetsOfOctets(v0, v1, v2, v3);
    CharsOfValues(q);
  }

  /**
   * The converse of the round trip: a text that decodes, and whose unused
   * pad bits are zero, is exactly the encoding of what it decodes to.
   */
  lemma {:induction false} EncodeDecode(s: string, bytes: seq<Byte>)
    requires Base64Decode(s) == Success(bytes) && ZeroPadBits(s)
    ensures Base64Encode(bytes) == s
    decreases |s|
  {
    if |s| == 4 {
      EncodeDecodeLast(s, bytes);
    } else if |s| > 4 {
      DecodeSplit(s, bytes);
      assert ZeroPadBits(s[4..]) by {
        assert s[4..][|s| - 5] == s[|s| - 1];
        assert s[4..][|s| - 6] == s[|s| - 2];
        assert s[4..][|s| - 7] == s[|s| - 3];
      }
      EncodeDecode(s[4..], bytes[3..]);
      EncodeSpelled(s[..4], bytes[..3]);
      SplitFront(bytes);
      EncodeFront(bytes[0], bytes[1], bytes[2], bytes[3..]);
      PrefixAndRest(s);
    }
  }

  lemma PrefixAndRest(s: string)
    requires |s| >= 4
    ensures s[..4] + s[4..] == s
  {
  }

  // ----------------------------------------------------------------------
  // The audio message: samples <-> base64 text
  // ----------------------------------------------------------------------

  /**
   * `base64.b64encode(array.tobytes()).decode("utf-8")`: the text sent for a
   * frame; four characters per three bytes of 16-bit samples.
   */
  function EncodeAudio(samples: seq<Int16>): (s: string)
    ensures |s| == 4 * ((2 * |samples| + 2) / 3)
  {
    Base64Encode(ToBytes(samples))
  }

  /**
   * `np.frombuffer(base64.b64decode(delta), dtype=np.int16)`: fails as
   * b64decode fails on the text, then fails when the decoded byte count is odd, and
   * otherwise yields half as many samples as bytes.
   */
  function DecodeAudio(delta: string): (r: Result<seq<Int16>, CodecError>)
    ensures DecodeText(delta).Failure? ==> r == Failure(DecodeText(delta).error)
    ensures DecodeText(delta).Success? ==>
      var bytes := DecodeText(delta).value;
      (r.Failure? <==> |bytes| % 2 == 1) &&
      (r.Failure? ==> r.error == OddBufferSize) &&
      (r.Success? ==> |r.value| == |bytes| / 2 && ToBytes(r.value) == bytes)
  {
    match DecodeText(delta)
    case Failure(e) => Failure(e)
    case Success(bytes) => FromBuffer(bytes)
  }

  /** The text sent for any sample sequence decodes back to exactly that sequence. */
  lemma AudioRoundTrip(samples: seq<Int16>)
    ensures DecodeAudio(EncodeAudio(samples)) == Success(samples)
  {
    Base64RoundTrip(ToBytes(samples));
    EncodeAscii(ToBytes(samples));
    PackRoundTrip(samples);
  }

  /** The bytes of a sample in front of the bytes of the rest. */
  lemma ToBytesCons(x: Int16, rest: seq<Int16>)
    ensures ToBytes([x] + rest) == [Unsigned(x) % 0x100, Unsigned(x) / 0x100] + ToBytes(rest)
  {
    assert ([x] + rest)[1..] == rest;
  }

  /** The samples of the example frame, packed: each as its low byte, then its high byte. */
  lemma PackExample()
    ensures ToBytes([100, -100, 50, -50]) == [0x64, 0x00, 0x9C, 0xFF, 0x32, 0x00, 0xCE, 0xFF]
  {
    ToBytesCons(-50, []);
    assert [-50] + [] == [-50];
    ToBytesCons(50, [-50]);
    assert [50] + [-50] == [50, -50];
    ToBytesCons(-100, [50, -50]);
    assert [-100] + [50, -50] == [-100, 50, -50];
    ToBytesCons(100, [-100, 50, -50]);
    assert [100] + [-100, 50, -50] == [100, -100, 50, -50];
  }

  /** The samples of the example delta, packed. */
  lemma PackDeltaExample()
    ensures ToBytes([200, -200]) == [0xC8, 0x00, 0x38, 0xFF]
  {
    ToBytesCons(-200, []);
    assert [-200] + [] == [-200];
    ToBytesCons(200, [-200]);
    assert [200] + [-200] == [200, -200];
  }

  /** The four characters of a full group, one by one. */
  lemma EncodeGroup(b0: Byte, b1: Byte, b2: Byte)
    ensures Chars(Sextets(b0, b1, b2))
         == [Base64Char(b0 / 4), Base64Char(b0 % 4 * 16 + b1 / 16), Base64Char(b1 % 16 * 4 + b2 / 64), Base64Char(b2 % 64)]
  {
  }

  /** A last group of two bytes, character by character. */
  lemma EncodeTwo(b0: Byte, b1: Byte)
    ensures Base64Encode([b0, b1]) == [Base64Char(b0 / 4), Base64Char(b0 % 4 * 16 + b1 / 16), Base64Char(b1 % 16 * 4), PAD]
  {
  }

  /** A last group of one byte, character by character. */
  lemma EncodeOne(b0: Byte)
    ensures Base64Encode([b0]) == [Base64Char(b0 / 4), Base64Char(b0 % 4 * 16), PAD, PAD]
  {
  }

  /** The example frame's bytes, as three groups of characters. */
  lemma FrameQuanta()
    ensures Chars(Sextets(0x64, 0x00, 0x9C)) == "ZACc"
    ensures Chars(Sextets(0xFF, 0x32, 0x00)) == "/zIA"
    ensures Base64Encode([0xCE, 0xFF]) == "zv8="
  {
    EncodeGroup(0x64, 0x00, 0x9C);
    EncodeGroup(0xFF, 0x32, 0x00);
    EncodeTwo(0xCE, 0xFF);
  }

  /** The example delta's bytes, as two groups of characters. */
  lemma DeltaQuanta()
    ensures Chars(Sextets(0xC8, 0x00, 0x38)) == "yAA4"
    ensures Base64Encode([0xFF]) == "/w=="
  {
    EncodeGroup(0xC8, 0x00, 0x38);
    EncodeOne(0xFF);
  }

  /** The frame (24000, [[100, -100, 50, -50]]) is sent as this text. */
  lemma EncodeExample()
    ensures EncodeAudio([100, -100, 50, -50]) == "ZACc/zIAzv8="
  {
    PackExample();
    FrameQuanta();
    EncodeFront(0xFF, 0x32, 0x00, [0xCE, 0xFF]);
    assert [0xFF, 0x32, 0x00] + [0xCE, 0xFF] == [0xFF, 0x32, 0x00, 0xCE, 0xFF];
    EncodeFront(0x64, 0x00, 0x9C, [0xFF, 0x32, 0x00, 0xCE, 0xFF]);
    assert [0x64, 0x00, 0x9C] + [0xFF, 0x32, 0x00, 0xCE, 0xFF] == [0x64, 0x00, 0x9C, 0xFF, 0x32, 0x00, 0xCE, 0xFF];
    assert "ZACc" + ("/zIA" + "zv8=") == "ZACc/zIAzv8=";
  }

  /** The samples [200, -200] are sent, and delivered as a delta, as this text. */
  lemma DeltaExample()
    ensures EncodeAudio([200, -200]) == "yAA4/w=="
  {
    PackDeltaExample();
    DeltaQuanta();
    EncodeFront(0xC8, 0x00, 0x38, [0xFF]);
    assert [0xC8, 0x00, 0x38] + [0xFF] == [0xC8, 0x00, 0x38, 0xFF];
    assert "yAA4" + "/w==" == "yAA4/w==";
  }
}
