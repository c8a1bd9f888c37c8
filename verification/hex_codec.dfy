/** Go's `encoding/hex`: `EncodeToString` writes two lower-case digits per
    byte; `DecodeString` reads pairs of digits of either case and fails on the
    first character that is not a digit, or on an odd length when every
    character is a digit. */
module HexCodec {
  import opened Wrappers
  import opened FixedWidth

  datatype HexError = InvalidByte(c: char) | OddLength

  /** The value of one hexadecimal digit of either case. */
  function DigitValue(c: char): (r: Option<nat>)
    ensures r.Some? ==> r.value < 16
  {
    if '0' <= c <= '9' then Some(c as int - '0' as int)
    else if 'a' <= c <= 'f' then Some(c as int - 'a' as int + 10)
    else if 'A' <= c <= 'F' then Some(c as int - 'A' as int + 10)
    else None
  }

  predicate IsDigit(c: char) {
    DigitValue(c).Some?
  }

  /** The lower-case digit for a value below 16. */
  function DigitChar(d: nat): (c: char)
    requires d < 16
    ensures DigitValue(c) == Some(d)
    ensures IsLowerDigit(c)
  {
    if d < 10 then ('0' as int + d) as char else ('a' as int + d - 10) as char
  }

  predicate IsLowerDigit(c: char) {
    '0' <= c <= '9' || 'a' <= c <= 'f'
  }

  /** The digit as `EncodeToString` writes it: lower case. */
  function Lower(c: char): (r: char)
    requires IsDigit(c)
    ensures IsLowerDigit(r) && DigitValue(r) == DigitValue(c)
  {
    DigitChar(DigitValue(c).value)
  }

  function LowerAll(s: string): (r: string)
    requires forall i :: 0 <= i < |s| ==> IsDigit(s[i])
    ensures |r| == |s|
    ensures forall i :: 0 <= i < |s| ==> r[i] == Lower(s[i])
  {
    if s == [] then [] else [Lower(s[0])] + LowerAll(s[1..])
  }

  /** `hex.EncodeToString`. */
  function EncodeHex(b: seq<byte>): (s: string)
    ensures |s| == 2 * |b|
    ensures forall i :: 0 <= i < |s| ==> IsLowerDigit(s[i])
  {
    if b == [] then [] else [DigitChar(b[0] / 16), DigitChar(b[0] % 16)] + EncodeHex(b[1..])
  }

  /** `hex.DecodeString`, with Go's order of errors: the pairs are read left
      to right, the first character of a pair before the second, and a
      single trailing character is checked before the length is blamed. */
  function DecodeHex(s: string): (r: Result<seq<byte>, HexError>)
    ensures r.Success? ==> 2 * |r.value| == |s|
  {
    if |s| == 0 then Success([])
    else if !IsDigit(s[0]) then Failure(InvalidByte(s[0]))
    else if |s| == 1 then Failure(OddLength)
    else if !IsDigit(s[1]) then Failure(InvalidByte(s[1]))
    else
      match DecodeHex(s[2..])
      case Failure(e) => Failure(e)
      case Success(rest) =>
        Success([DigitValue(s[0]).value * 16 + DigitValue(s[1]).value] + rest)
  }

  predicate AllDigits(s: string) {
    forall i :: 0 <= i < |s| ==> IsDigit(s[i])
  }

  /** Decoding succeeds exactly on even-length strings of digits. */
  lemma {:induction false} DecodeHexSucceedsIff(s: string)
    ensures DecodeHex(s).Success? <==> (|s| % 2 == 0 && AllDigits(s))
  {
    if |s| >= 2 {
      DecodeHexSucceedsIff(s[2..]);
      if AllDigits(s) {
        assert AllDigits(s[2..]) by {
          forall i | 0 <= i < |s| - 2 ensures IsDigit(s[2..][i]) { assert s[2..][i] == s[i + 2]; }
        }
      }
      if DecodeHex(s).Success? {
        forall i | 0 <= i < |s| ensures IsDigit(s[i]) {
          if i >= 2 { assert s[i] == s[2..][i - 2]; }
        }
      }
    }
  }

  /** Encoding then decoding gives back the bytes. */
  lemma {:induction false} DecodeEncode(b: seq<byte>)
    ensures DecodeHex(EncodeHex(b)) == Success(b)
  {
    if b != [] {
      var s := EncodeHex(b);
      assert s[2..] == EncodeHex(b[1..]);
      DecodeEncode(b[1..]);
      assert b == [b[0] / 16 * 16 + b[0] % 16] + b[1..];
    }
  }

  /** Decoding then encoding gives back the text, in lower case. */
  lemma {:induction false} EncodeDecode(s: string)
    requires DecodeHex(s).Success?
    ensures AllDigits(s)
    ensures EncodeHex(DecodeHex(s).value) == LowerAll(s)
  {
    DecodeHexSucceedsIff(s);
    if s != [] {
      EncodeDecode(s[2..]);
      var b := DecodeHex(s).value;
      var hi, lo := DigitValue(s[0]).value, DigitValue(s[1]).value;
      assert b[0] == hi * 16 + lo && b[1..] == DecodeHex(s[2..]).value;
      assert b[0] / 16 == hi && b[0] % 16 == lo;
      assert LowerAll(s) == [Lower(s[0]), Lower(s[1])] + LowerAll(s[2..]);
    }
  }
}
