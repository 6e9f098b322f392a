/**
 * Base16 as implemented by Go's encoding/hex (section 8 of RFC 4648):
 * encoding emits lower-case digits, decoding accepts either case and reports
 * the first invalid character, or an odd length when every character is a digit.
 */
module Hex {
  import opened Wrappers

  type byte = x: int | 0 <= x < 256

  /** hex.InvalidByteError and hex.ErrLength. */
  datatype HexError = InvalidByte(c: char) | OddLength

  predicate IsHexDigit(c: char) {
    '0' <= c <= '9' || 'a' <= c <= 'f' || 'A' <= c <= 'F'
  }

  function DigitValue(c: char): (v: nat)
    requires IsHexDigit(c)
    ensures v < 16
  {
    if '0' <= c <= '9' then c as int - '0' as int
    else if 'a' <= c <= 'f' then c as int - 'a' as int + 10
    else c as int - 'A' as int + 10
  }

  function LowerDigit(v: nat): (c: char)
    requires v < 16
    ensures IsHexDigit(c) && DigitValue(c) == v
    ensures '0' <= c <= '9' || 'a' <= c <= 'f'
  {
    if v < 10 then ('0' as int + v) as char else ('a' as int + v - 10) as char
  }

  /** The lower-case form of a character: upper-case A-F become a-f, nothing else changes. */
  function LowerChar(c: char): char {
    if 'A' <= c <= 'F' then (c as int - 'A' as int + 'a' as int) as char else c
  }

  function Lower(s: string): (r: string)
    ensures |r| == |s|
    ensures forall i :: 0 <= i < |s| ==> r[i] == LowerChar(s[i])
  {
    seq(|s|, i requires 0 <= i < |s| => LowerChar(s[i]))
  }

  /** hex.EncodeToString */
  function Encode(b: seq<byte>): (s: string)
    ensures |s| == 2 * |b|
  {
    if b == [] then ""
    else [LowerDigit(b[0] / 16), LowerDigit(b[0] % 16)] + Encode(b[1..])
  }

  /** hex.DecodeString, scanning pairs from the left as Go's hex.Decode does. */
  function Decode(s: string): (r: Result<seq<byte>, HexError>)
    ensures r.Ok? ==> 2 * |r.value| == |s|
  {
    if |s| == 0 then Ok([])
    else if !IsHexDigit(s[0]) then Err(InvalidByte(s[0]))
    else if |s| == 1 then Err(OddLength)
    else if !IsHexDigit(s[1]) then Err(InvalidByte(s[1]))
    else
      match Decode(s[2..])
      case Err(e) => Err(e)
      case Ok(t) => Ok([DigitValue(s[0]) * 16 + DigitValue(s[1])] + t)
  }

  predicate AllHexDigits(s: string) {
    forall i :: 0 <= i < |s| ==> IsHexDigit(s[i])
  }

  /** Encoding only ever produces lower-case hex digits. */
  lemma {:induction false} EncodeIsLowerHex(b: seq<byte>)
    ensures AllHexDigits(Encode(b))
    ensures Lower(Encode(b)) == Encode(b)
  {
    if b != [] {
      EncodeIsLowerHex(b[1..]);
      var s := Encode(b);
      assert s == [LowerDigit(b[0] / 16), LowerDigit(b[0] % 16)] + Encode(b[1..]);
      forall i | 0 <= i < |s| ensures IsHexDigit(s[i]) && LowerChar(s[i]) == s[i] {
        if i >= 2 {
          assert s[i] == Encode(b[1..])[i - 2];
          assert Lower(Encode(b[1..]))[i - 2] == LowerChar(Encode(b[1..])[i - 2]);
        }
      }
    }
  }

  /** Decoding an encoding gives back the bytes. */
  lemma {:induction false} DecodeEncode(b: seq<byte>)
    ensures Decode(Encode(b)) == Ok(b)
  {
    if b != [] {
      var s := Encode(b);
      assert s[2..] == Encode(b[1..]);
      DecodeEncode(b[1..]);
      assert DigitValue(s[0]) * 16 + DigitValue(s[1]) == b[0];
      assert [b[0]] + b[1..] == b;
    }
  }

  lemma DigitPair(c0: char, c1: char)
    requires IsHexDigit(c0) && IsHexDigit(c1)
    ensures var b := DigitValue(c0) * 16 + DigitValue(c1);
      0 <= b < 256 && LowerDigit(b / 16) == LowerChar(c0) && LowerDigit(b % 16) == LowerChar(c1)
  {
  }

  lemma LowerSplit(s: string)
    requires |s| >= 2
    ensures Lower(s) == [LowerChar(s[0]), LowerChar(s[1])] + Lower(s[2..])
  {
  }

  /** A successful decoding re-encodes to the lower-case form of the original string. */
  lemma {:induction false} EncodeDecode(s: string, b: seq<byte>)
    requires Decode(s) == Ok(b)
    ensures Encode(b) == Lower(s)
  {
    if |s| > 0 {
      var t := Decode(s[2..]).value;
      EncodeDecode(s[2..], t);
      DigitPair(s[0], s[1]);
      assert b == [DigitValue(s[0]) * 16 + DigitValue(s[1])] + t;
      assert b[1..] == t;
      LowerSplit(s);
    }
  }

  /** Decoding fails exactly on odd length or a non-digit, and the error says which. */
  lemma {:induction false} DecodeFails(s: string)
    ensures Decode(s).Err? <==> |s| % 2 == 1 || !AllHexDigits(s)
    ensures Decode(s) == Err(OddLength) ==> |s| % 2 == 1 && AllHexDigits(s)
    ensures Decode(s).Err? && Decode(s).error.InvalidByte? ==>
              Decode(s).error.c in s && !IsHexDigit(Decode(s).error.c)
  {
    if |s| >= 2 && IsHexDigit(s[0]) && IsHexDigit(s[1]) {
      DecodeFails(s[2..]);
      if !AllHexDigits(s[2..]) {
        var i :| 0 <= i < |s[2..]| && !IsHexDigit(s[2..][i]);
        assert s[i + 2] == s[2..][i];
      }
      if !AllHexDigits(s) {
        var i :| 0 <= i < |s| && !IsHexDigit(s[i]);
        assert s[2..][i - 2] == s[i];
      }
      if Decode(s[2..]).Err? && Decode(s[2..]).error.InvalidByte? {
        var c := Decode(s[2..]).error.c;
        var i :| 0 <= i < |s[2..]| && s[2..][i] == c;
        assert s[i + 2] == c;
      }
    }
  }

  /** Only the empty byte string encodes to the empty key. */
  lemma EncodeEmpty(b: seq<byte>)
    ensures Encode(b) == "" <==> b == []
  {
  }
}
