/**
 * Lowercase hexadecimal encoding of a byte array, as the client builds it at the end of
 * `hashPassword` (each byte through `toString(16)` and `padStart(2, '0')`, then joined).
 * The server's `Buffer.toString('hex')` produces the same text, so the server side of the
 * model reuses this encoder. SHA-256 itself is a parameter.
 */
module Hex {
  import opened Wrappers

  type Byte = x: int | 0 <= x < 256

  /** A SHA-256 digest: exactly 32 bytes. */
  type Digest32 = s: seq<Byte> | |s| == 32 witness seq(32, _ => 0)

  /** A character of `[0-9a-f]`. */
  predicate IsHexDigit(c: char)
  {
    '0' <= c <= '9' || 'a' <= c <= 'f'
  }

  /** The lowercase digit for a value below 16. */
  function Digit(d: nat): (c: char)
    requires d < 16
    ensures IsHexDigit(c)
  {
    if d < 10 then ('0' as int + d) as char else ('a' as int + d - 10) as char
  }

  /** The value of a lowercase hexadecimal digit, or None for any other character. */
  function DigitValue(c: char): (v: Option<nat>)
    ensures v.Some? <==> IsHexDigit(c)
    ensures v.Some? ==> v.value < 16 && Digit(v.value) == c
  {
    if '0' <= c <= '9' then Some(c as int - '0' as int)
    else if 'a' <= c <= 'f' then Some(c as int - 'a' as int + 10)
    else None
  }

  /** `Number.prototype.toString(16)` on a non-negative integer: no leading zeros, "0" for zero. */
  function ToStringRadix16(n: nat): (s: string)
    ensures 1 <= |s|
    ensures n < 16 <==> |s| == 1
    decreases n
  {
    if n < 16 then [Digit(n)] else ToStringRadix16(n / 16) + [Digit(n % 16)]
  }

  /** `String.prototype.padStart(len, [c])`: prefix copies of `c` until the length is `len`. */
  function PadStart(s: string, len: nat, c: char): (r: string)
    ensures |r| == if |s| >= len then |s| else len
    decreases len - |s|
  {
    if |s| >= len then s else PadStart([c] + s, len, c)
  }

  /** One byte as written by `b.toString(16).padStart(2, '0')`. */
  function ByteToHex(b: Byte): string
  {
    PadStart(ToStringRadix16(b), 2, '0')
  }

  /** `Array.from(bytes).map(ByteToHex).join('')`. */
  function Encode(bytes: seq<Byte>): (s: string)
    ensures |s| == 2 * |bytes|
  {
    if |bytes| == 0 then "" else ByteToHex(bytes[0]) + Encode(bytes[1..])
  }

  /** Two hexadecimal digits, high nibble first, read back as one byte. */
  function DecodePair(hi: char, lo: char): (r: Option<Byte>)
    ensures r.Some? <==> IsHexDigit(hi) && IsHexDigit(lo)
  {
    match (DigitValue(hi), DigitValue(lo))
    case (Some(h), Some(l)) => Some(h * 16 + l)
    case _ => None
  }

  /** The reference decoder: read the string two digits at a time. */
  function Decode(s: string): (r: Option<seq<Byte>>)
    ensures r.Some? ==> 2 * |r.value| == |s|
  {
    if |s| == 0 then Some([])
    else if |s| == 1 then None
    else match (DecodePair(s[0], s[1]), Decode(s[2..]))
      case (Some(b), Some(rest)) => Some([b] + rest)
      case _ => None
  }

  /** `toString(16)` writes a byte as one digit below 16 and as two digits from 16 on. */
  lemma {:induction false} ByteRadix16(b: Byte)
    ensures ToStringRadix16(b) == if b < 16 then [Digit(b)] else [Digit(b / 16), Digit(b % 16)]
  {
    if b >= 16 {
      assert b / 16 < 16;
      assert ToStringRadix16(b / 16) == [Digit(b / 16)];
    }
  }

  /** Every byte is written as exactly its high and its low nibble, zero-padded. */
  lemma {:induction false} ByteToHexNibbles(b: Byte)
    ensures ByteToHex(b) == [Digit(b / 16), Digit(b % 16)]
  {
    ByteRadix16(b);
    if b < 16 {
      assert b / 16 == 0 && b % 16 == b;
      var t := [Digit(b)];
      assert PadStart(t, 2, '0') == PadStart(['0'] + t, 2, '0');
    }
  }

  /** Byte `i` becomes characters `2i` and `2i+1`: the encoding keeps the order of the bytes. */
  lemma {:induction false} EncodeAt(bytes: seq<Byte>, i: nat)
    requires i < |bytes|
    ensures Encode(bytes)[2 * i] == Digit(bytes[i] / 16)
    ensures Encode(bytes)[2 * i + 1] == Digit(bytes[i] % 16)
  {
    var head, rest := ByteToHex(bytes[0]), Encode(bytes[1..]);
    assert Encode(bytes) == head + rest;
    ByteToHexNibbles(bytes[0]);
    if i > 0 {
      EncodeAt(bytes[1..], i - 1);
      assert bytes[1..][i - 1] == bytes[i];
      assert Encode(bytes)[2 * i] == rest[2 * (i - 1)];
      assert Encode(bytes)[2 * i + 1] == rest[2 * (i - 1) + 1];
    }
  }

  /** The output consists of lowercase hexadecimal digits only. */
  lemma EncodeIsLowerHex(bytes: seq<Byte>)
    ensures forall k :: 0 <= k < |Encode(bytes)| ==> IsHexDigit(Encode(bytes)[k])
  {
    forall k | 0 <= k < |Encode(bytes)|
      ensures IsHexDigit(Encode(bytes)[k])
    {
      EncodeAt(bytes, k / 2);
    }
  }

  /** A byte's two digits read back as that byte. */
  lemma PairOfByte(b: Byte)
    ensures DecodePair(Digit(b / 16), Digit(b % 16)) == Some(b)
  {
    assert b == (b / 16) * 16 + b % 16;
    assert DigitValue(Digit(b / 16)) == Some(b / 16);
    assert DigitValue(Digit(b % 16)) == Some(b % 16);
  }

  /** A pair of digits that reads as a byte is exactly how that byte is written. */
  lemma ByteOfPair(hi: char, lo: char)
    requires DecodePair(hi, lo).Some?
    ensures ByteToHex(DecodePair(hi, lo).value) == [hi, lo]
  {
    var h, l := DigitValue(hi).value, DigitValue(lo).value;
    var b := DecodePair(hi, lo).value;
    assert b == h * 16 + l;
    assert b / 16 == h && b % 16 == l;
    ByteToHexNibbles(b);
  }

  /** Decoding the encoding gives back the bytes. */
  lemma {:induction false} DecodeEncode(bytes: seq<Byte>)
    ensures Decode(Encode(bytes)) == Some(bytes)
  {
    if |bytes| > 0 {
      var b, rest := bytes[0], Encode(bytes[1..]);
      var s := Encode(bytes);
      ByteToHexNibbles(b);
      assert s == [Digit(b / 16), Digit(b % 16)] + rest;
      assert s[0] == Digit(b / 16) && s[1] == Digit(b % 16) && s[2..] == rest;
      PairOfByte(b);
      DecodeEncode(bytes[1..]);
      assert Decode(s) == Some([b] + bytes[1..]);
      assert bytes == [b] + bytes[1..];
    }
  }

  /** Decoding succeeds only on an encoding, so the decoder is an exact inverse. */
  lemma {:induction false} EncodeDecode(s: string)
    requires Decode(s).Some?
    ensures Encode(Decode(s).value) == s
  {
    if |s| >= 2 {
      var b := DecodePair(s[0], s[1]).value;
      var rest := Decode(s[2..]).value;
      EncodeDecode(s[2..]);
      assert Decode(s).value == [b] + rest;
      ByteOfPair(s[0], s[1]);
      assert ([b] + rest)[1..] == rest;
      assert s == [s[0], s[1]] + s[2..];
    }
  }

  /** Distinct byte arrays never share an encoding. */
  lemma EncodeInjective(a: seq<Byte>, b: seq<Byte>)
    requires Encode(a) == Encode(b)
    ensures a == b
  {
    DecodeEncode(a);
    DecodeEncode(b);
  }

  /**
   * The client-side `hashPassword`: the lowercase hex of the SHA-256 digest of the password.
   * The digest function (applied to the UTF-8 text) is a parameter.
   */
  function HashPassword(sha256: string -> Digest32, password: string): (hex: string)
    ensures |hex| == 64
    ensures Decode(hex) == Some(sha256(password))
  {
    DecodeEncode(sha256(password));
    Encode(sha256(password))
  }
}
