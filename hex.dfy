/**
 * Base16 ("hex") encoding of bytes, section 8 of RFC 4648, as used on both
 * ends of the transfer: `hex.EncodeToString` / `hex.DecodeString` on the host
 * and `binascii.hexlify` / `binascii.unhexlify` on the device.
 */
module Hex {
  import opened Wrappers

  /** One byte of file content. */
  type Byte = b: int | 0 <= b < 256

  /** The alphabet the encoder produces: `0-9` and lower-case `a-f`. */
  predicate IsLowerHexDigit(c: char) {
    '0' <= c <= '9' || 'a' <= c <= 'f'
  }

  /** The alphabet the decoder accepts: upper-case `A-F` is taken too. */
  predicate IsHexDigit(c: char) {
    IsLowerHexDigit(c) || 'A' <= c <= 'F'
  }

  function DigitValue(c: char): (v: int)
    requires IsHexDigit(c)
    ensures 0 <= v < 16
  {
    if '0' <= c <= '9' then c as int - '0' as int
    else if 'a' <= c <= 'f' then c as int - 'a' as int + 10
    else c as int - 'A' as int + 10
  }

  /** The lower-case digit for a nibble; `DigitValue` undoes it. */
  function Digit(v: int): (c: char)
    requires 0 <= v < 16
    ensures IsLowerHexDigit(c) && DigitValue(c) == v
  {
    if v < 10 then ('0' as int + v) as char else ('a' as int + v - 10) as char
  }

  /** Two lower-case digits per byte, high nibble first. */
  function Encode(b: seq<Byte>): (s: string)
    ensures |s| == 2 * |b|
    ensures forall i :: 0 <= i < |s| ==> IsLowerHexDigit(s[i])
  {
    if b == [] then [] else [Digit(b[0] / 16), Digit(b[0] % 16)] + Encode(b[1..])
  }

  /**
   * Decoding fails exactly on text of odd length or text holding a character
   * outside the hex alphabet; it never truncates or substitutes.
   */
  function Decode(s: string): (r: Option<seq<Byte>>)
    ensures r.Some? <==> |s| % 2 == 0 && forall i :: 0 <= i < |s| ==> IsHexDigit(s[i])
    ensures r.Some? ==> |r.value| == |s| / 2
  {
    if |s| == 0 then Some([])
    else if |s| == 1 || !IsHexDigit(s[0]) || !IsHexDigit(s[1]) then None
    else
      match Decode(s[2..])
      case None =>
        assert |s| % 2 == 0 ==> exists i :: 2 <= i < |s| && !IsHexDigit(s[i]) by {
          if |s[2..]| % 2 == 0 {
            var j :| 0 <= j < |s[2..]| && !IsHexDigit(s[2..][j]);
            assert s[2..][j] == s[j + 2];
          }
        }
        None
      case Some(rest) =>
        assert forall i :: 2 <= i < |s| ==> s[i] == s[2..][i - 2];
        Some([DigitValue(s[0]) * 16 + DigitValue(s[1])] + rest)
  }

  lemma {:induction false} DigitOfValue(c: char)
    requires IsLowerHexDigit(c)
    ensures Digit(DigitValue(c)) == c
  {
  }

  /** A byte built from two nibbles splits back into them. */
  lemma Nibbles(hi: int, lo: int)
    requires 0 <= hi < 16 && 0 <= lo < 16
    ensures (hi * 16 + lo) / 16 == hi && (hi * 16 + lo) % 16 == lo
  {
  }

  /** Decoding undoes encoding, for every byte sequence. */
  lemma {:induction false} DecodeEncode(b: seq<Byte>)
    ensures Decode(Encode(b)) == Some(b)
  {
    if b != [] {
      DecodeEncode(b[1..]);
      var s := Encode(b);
      assert s[2..] == Encode(b[1..]);
      assert DigitValue(s[0]) * 16 + DigitValue(s[1]) == b[0];
      assert [b[0]] + b[1..] == b;
    }
  }

  /** Encoding undoes decoding on the encoder's own alphabet: the codec is a bijection. */
  lemma {:induction false} EncodeDecode(s: string, b: seq<Byte>)
    requires forall i :: 0 <= i < |s| ==> IsLowerHexDigit(s[i])
    requires Decode(s) == Some(b)
    ensures Encode(b) == s
  {
    if |s| > 0 {
      var rest := Decode(s[2..]).value;
      var hi, lo := DigitValue(s[0]), DigitValue(s[1]);
      assert b == [hi * 16 + lo] + rest;
      EncodeDecode(s[2..], rest);
      Nibbles(hi, lo);
      DigitOfValue(s[0]);
      DigitOfValue(s[1]);
      assert b[1..] == rest;
      assert Encode(b) == [s[0], s[1]] + Encode(rest);
      assert [s[0], s[1]] + s[2..] == s;
    }
  }

  /** Encoding distributes over concatenation. */
  lemma {:induction false} EncodeAppend(a: seq<Byte>, b: seq<Byte>)
    ensures Encode(a + b) == Encode(a) + Encode(b)
  {
    if a != [] {
      EncodeAppend(a[1..], b);
      assert (a + b)[0] == a[0] && (a + b)[1..] == a[1..] + b;
    } else {
      assert a + b == b;
    }
  }
}
