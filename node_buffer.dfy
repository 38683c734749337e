/**
 * The two conversions `verifySignature` applies before it hands bytes to the
 * key (src/utils/hedera.js:39-40): `Buffer.from(message, 'utf8')` and
 * `Buffer.from(signatureHex, 'hex')`, with Node's semantics (for the hex
 * decoder, on Latin-1 text). The UTF-8 encoder comes with a strict decoder as
 * its inverse; Node's hex decoder is lenient (it stops at the first pair that
 * is not two hex digits and drops an odd last character) and comes with a
 * lower-case encoder as its inverse.
 */
module NodeBuffer {
  import opened Wrappers

  type byte = b: int | 0 <= b < 256

  // ---------------------------------------------------------------------------
  // Buffer.from(s, 'hex')
  // ---------------------------------------------------------------------------

  /** The value of a hex digit (either case), or -1 for any other character. */
  function HexValue(c: char): (v: int)
    ensures -1 <= v < 16
  {
    if '0' <= c <= '9' then c as int - '0' as int
    else if 'a' <= c <= 'f' then c as int - 'a' as int + 10
    else if 'A' <= c <= 'F' then c as int - 'A' as int + 10
    else -1
  }

  predicate IsHexChar(c: char) {
    HexValue(c) >= 0
  }

  /** True when `s` starts with a pair of hex digits, which Node decodes as one byte. */
  predicate StartsWithHexPair(s: string) {
    |s| >= 2 && IsHexChar(s[0]) && IsHexChar(s[1])
  }

  /**
   * `Buffer.from(s, 'hex')`: one byte per leading pair of hex digits, stopping
   * at the first pair that is not one; never fails. Node reads UTF-16 code
   * units, so this agrees with it on Latin-1 text (characters up to U+00FF).
   */
  function HexDecode(s: string): (bs: seq<byte>)
    ensures |bs| <= |s| / 2
    decreases |s|
  {
    if StartsWithHexPair(s) then [HexValue(s[0]) * 16 + HexValue(s[1])] + HexDecode(s[2..]) else []
  }

  function HexDigitChar(d: nat): (c: char)
    requires d < 16
    ensures IsHexChar(c) && HexValue(c) == d
  {
    if d < 10 then ('0' as int + d) as char else ('a' as int + d - 10) as char
  }

  /** `buffer.toString('hex')`: two lower-case hex digits per byte. */
  function HexEncode(bs: seq<byte>): (s: string)
    ensures |s| == 2 * |bs|
    ensures forall i :: 0 <= i < |s| ==> IsHexChar(s[i])
  {
    if bs == [] then "" else [HexDigitChar(bs[0] / 16), HexDigitChar(bs[0] % 16)] + HexEncode(bs[1..])
  }

  /** Decoding the hex rendering of some bytes, followed by anything, starts with those bytes. */
  lemma {:induction false} HexDecodeEncodeAppend(bs: seq<byte>, t: string)
    ensures HexDecode(HexEncode(bs) + t) == bs + HexDecode(t)
  {
    if bs != [] {
      var s := HexEncode(bs) + t;
      assert s[2..] == HexEncode(bs[1..]) + t;
      HexDecodeEncodeAppend(bs[1..], t);
      assert HexValue(s[0]) * 16 + HexValue(s[1]) == bs[0];
      assert bs == [bs[0]] + bs[1..];
    } else {
      assert HexEncode(bs) + t == t;
    }
  }

  /** Hex decoding inverts hex encoding. */
  lemma HexRoundTrip(bs: seq<byte>)
    ensures HexDecode(HexEncode(bs)) == bs
  {
    HexDecodeEncodeAppend(bs, "");
    assert HexEncode(bs) + "" == HexEncode(bs);
  }

  /**
   * What follows well-formed hex is ignored once it does not start with a hex
   * pair: a trailing odd digit, a `0x` marker, a stray letter.
   */
  lemma HexDecodeIgnoresJunk(bs: seq<byte>, junk: string)
    requires !StartsWithHexPair(junk)
    ensures HexDecode(HexEncode(bs) + junk) == bs
  {
    HexDecodeEncodeAppend(bs, junk);
  }

  // ---------------------------------------------------------------------------
  // Buffer.from(s, 'utf8')
  // ---------------------------------------------------------------------------

  /** The UTF-8 encoding of one Unicode scalar value (RFC 3629, section 3). */
  function Utf8Char(c: char): (bs: seq<byte>)
    ensures 1 <= |bs| <= 4
    ensures (c as int < 0x80) <==> |bs| == 1
    ensures |bs| == 1 ==> bs[0] == c as int
  {
    var n := c as int;
    if n < 0x80 then [n]
    else
      var m1 := n / 64;
      if n < 0x800 then [0xC0 + m1, 0x80 + n % 64]
      else
        var m2 := m1 / 64;
        if n < 0x10000 then [0xE0 + m2, 0x80 + m1 % 64, 0x80 + n % 64]
        else [0xF0 + m2 / 64, 0x80 + m2 % 64, 0x80 + m1 % 64, 0x80 + n % 64]
  }

  /** `Buffer.from(s, 'utf8')` for a string of Unicode scalar values. */
  function Utf8Encode(s: string): (bs: seq<byte>)
    ensures |s| <= |bs| <= 4 * |s|
  {
    if s == "" then [] else Utf8Char(s[0]) + Utf8Encode(s[1..])
  }

  /** The encoding of a concatenation is the concatenation of the encodings. */
  lemma {:induction false} Utf8Append(a: string, b: string)
    ensures Utf8Encode(a + b) == Utf8Encode(a) + Utf8Encode(b)
  {
    if a != "" {
      assert (a + b)[0] == a[0];
      assert (a + b)[1..] == a[1..] + b;
      Utf8Append(a[1..], b);
    } else {
      assert a + b == b;
    }
  }

  predicate IsContinuation(b: byte) {
    0x80 <= b < 0xC0
  }

  /**
   * The first scalar value of a UTF-8 byte string and the number of bytes it
   * takes; `None` for a malformed, overlong or surrogate sequence.
   */
  function Utf8DecodeOne(bs: seq<byte>): (r: Option<(char, nat)>)
    requires |bs| > 0
    ensures r.Some? ==> 1 <= r.value.1 <= |bs| && r.value.1 <= 4
  {
    var b0: int := bs[0];
    if b0 < 0x80 then Some((b0 as char, 1))
    else if 0xC2 <= b0 < 0xE0 && |bs| >= 2 && IsContinuation(bs[1]) then
      var v := (b0 - 0xC0) * 64 + (bs[1] as int - 0x80);
      Some((v as char, 2))
    else if 0xE0 <= b0 < 0xF0 && |bs| >= 3 && IsContinuation(bs[1]) && IsContinuation(bs[2]) then
      var v := ((b0 - 0xE0) * 64 + (bs[1] as int - 0x80)) * 64 + (bs[2] as int - 0x80);
      if 0x800 <= v && !(0xD800 <= v < 0xE000) then Some((v as char, 3)) else None
    else if 0xF0 <= b0 < 0xF5 && |bs| >= 4
         && IsContinuation(bs[1]) && IsContinuation(bs[2]) && IsContinuation(bs[3]) then
      var v := (((b0 - 0xF0) * 64 + (bs[1] as int - 0x80)) * 64 + (bs[2] as int - 0x80)) * 64 + (bs[3] as int - 0x80);
      if 0x10000 <= v <= 0x10FFFF then Some((v as char, 4)) else None
    else None
  }

  /** Strict UTF-8 decoding; `None` when any sequence is malformed. */
  function Utf8Decode(bs: seq<byte>): Option<string>
    decreases |bs|
  {
    if bs == [] then Some("")
    else match Utf8DecodeOne(bs)
      case None => None
      case Some((c, k)) =>
        match Utf8Decode(bs[k..])
        case None => None
        case Some(rest) => Some([c] + rest)
  }

  /** Decoding the encoding of one character, followed by anything, reads that character back. */
  lemma Utf8DecodeOneChar(c: char, rest: seq<byte>)
    ensures Utf8DecodeOne(Utf8Char(c) + rest) == Some((c, |Utf8Char(c)|))
  {
    var n := c as int;
    var bs := Utf8Char(c) + rest;
    var m1 := n / 64;
    var m2 := m1 / 64;
    if n < 0x80 {
    } else if n < 0x800 {
      assert bs[0] == 0xC0 + m1 && bs[1] == 0x80 + n % 64;
      assert (bs[0] - 0xC0) * 64 + (bs[1] as int - 0x80) == n;
    } else if n < 0x10000 {
      assert bs[0] == 0xE0 + m2 && bs[1] == 0x80 + m1 % 64 && bs[2] == 0x80 + n % 64;
      assert (bs[0] - 0xE0) * 64 + (bs[1] as int - 0x80) == m1;
      assert m1 * 64 + (bs[2] as int - 0x80) == n;
    } else {
      var m3 := m2 / 64;
      assert bs[0] == 0xF0 + m3 && bs[1] == 0x80 + m2 % 64;
      assert bs[2] == 0x80 + m1 % 64 && bs[3] == 0x80 + n % 64;
      assert (bs[0] - 0xF0) * 64 + (bs[1] as int - 0x80) == m2;
      assert m2 * 64 + (bs[2] as int - 0x80) == m1;
      assert m1 * 64 + (bs[3] as int - 0x80) == n;
    }
  }

  /** Strict decoding inverts `Buffer.from(s, 'utf8')`: no two strings encode alike. */
  lemma {:induction false} Utf8RoundTrip(s: string)
    ensures Utf8Decode(Utf8Encode(s)) == Some(s)
  {
    if s != "" {
      var head := Utf8Char(s[0]);
      var bs := Utf8Encode(s);
      Utf8DecodeOneChar(s[0], Utf8Encode(s[1..]));
      assert bs[|head|..] == Utf8Encode(s[1..]);
      Utf8RoundTrip(s[1..]);
      assert [s[0]] + s[1..] == s;
    }
  }

  /** Distinct strings are distinct byte strings once encoded. */
  lemma Utf8Injective(a: string, b: string)
    requires Utf8Encode(a) == Utf8Encode(b)
    ensures a == b
  {
    Utf8RoundTrip(a);
    Utf8RoundTrip(b);
  }
}
