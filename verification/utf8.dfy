/** Strict UTF-8 decoding as ethers' `toUtf8String` performs it with its
    default error handling: a stray continuation byte, a bad lead byte, a
    truncated sequence, a missing continuation byte, a value above U+10FFFF,
    a UTF-16 surrogate or an overlong form each make the call throw, which
    is `None` here. */
module Utf8 {
  import opened Wrappers
  import opened FixedWidth

  /** The number of continuation bytes a lead byte announces; 4 for a byte
      that cannot start a sequence. */
  function ExtraLength(c: byte): (n: nat)
    ensures n <= 4
  {
    if c < 0x80 then 0
    else if 0xC0 <= c < 0xE0 then 1
    else if 0xE0 <= c < 0xF0 then 2
    else if 0xF0 <= c < 0xF8 then 3
    else 4
  }

  predicate IsContinuation(c: byte) {
    0x80 <= c < 0xC0
  }

  /** The bytes after a lead byte that announces `extra` of them are all
      continuation bytes. */
  predicate ContinuationsFollow(b: seq<byte>, extra: nat)
    requires 1 <= extra <= 3 && |b| > extra
  {
    && IsContinuation(b[1])
    && (extra >= 2 ==> IsContinuation(b[2]))
    && (extra >= 3 ==> IsContinuation(b[3]))
  }

  /** The six bits a continuation byte carries. */
  function Payload(c: byte): (p: nat)
    requires IsContinuation(c)
    ensures p < 0x40
  {
    c - 0x80
  }

  /** The largest value that would be overlong in a sequence of this many
      continuation bytes. */
  function OverlongBound(extra: nat): nat
    requires 1 <= extra <= 3
  {
    if extra == 1 then 0x7F else if extra == 2 then 0x7FF else 0xFFFF
  }

  /** The value carried by a lead byte and its continuation bytes. */
  function CodePoint(b: seq<byte>, extra: nat): (cp: nat)
    requires 1 <= extra <= 3 && |b| > extra
    requires ExtraLength(b[0]) == extra
    requires ContinuationsFollow(b, extra)
    ensures cp < 0x200000
  {
    var lead: int := b[0];
    if extra == 1 then (lead - 0xC0) * 0x40 + Payload(b[1])
    else if extra == 2 then (lead - 0xE0) * 0x1000 + Payload(b[1]) * 0x40 + Payload(b[2])
    else (lead - 0xF0) * 0x40000 + Payload(b[1]) * 0x1000 + Payload(b[2]) * 0x40 + Payload(b[3])
  }

  predicate IsScalar(cp: int) {
    0 <= cp < 0xD800 || 0xE000 <= cp < 0x110000
  }

  function Decode(b: seq<byte>): (r: Option<string>)
    ensures r.Some? ==> |r.value| <= |b|
    decreases |b|
  {
    if b == [] then Some([])
    else
      var extra := ExtraLength(b[0]);
      if extra == 0 then
        match Decode(b[1..])
        case None => None
        case Some(rest) => Some([b[0] as char] + rest)
      else if extra == 4 || extra >= |b| then None
      else if !ContinuationsFollow(b, extra) then None
      else
        var cp := CodePoint(b, extra);
        if !IsScalar(cp) || cp <= OverlongBound(extra) then None
        else
          match Decode(b[extra + 1..])
          case None => None
          case Some(rest) => Some([cp as char] + rest)
  }

  /** The characters of an ASCII byte string, one per byte. */
  function AsciiChars(b: seq<byte>): (s: string)
    requires forall i :: 0 <= i < |b| ==> b[i] < 0x80
    ensures |s| == |b|
    ensures forall i :: 0 <= i < |b| ==> s[i] as int == b[i]
  {
    seq(|b|, i requires 0 <= i < |b| => b[i] as char)
  }

  /** ASCII bytes decode one character per byte. */
  lemma {:induction false} DecodeAscii(b: seq<byte>)
    requires forall i :: 0 <= i < |b| ==> b[i] < 0x80
    ensures Decode(b) == Some(AsciiChars(b))
  {
    if b != [] {
      DecodeAscii(b[1..]);
      assert AsciiChars(b) == [b[0] as char] + AsciiChars(b[1..]);
    }
  }

  /** The UTF-8 form of one character, as ethers' `toUtf8Bytes` writes it. */
  function EncodeChar(c: char): (b: seq<byte>)
    ensures 1 <= |b| <= 4
  {
    var cp := c as int;
    if cp < 0x80 then [cp]
    else if cp < 0x800 then [0xC0 + cp / 0x40, 0x80 + cp % 0x40]
    else if cp < 0x10000 then [0xE0 + cp / 0x1000, 0x80 + cp / 0x40 % 0x40, 0x80 + cp % 0x40]
    else [0xF0 + cp / 0x40000, 0x80 + cp / 0x1000 % 0x40, 0x80 + cp / 0x40 % 0x40, 0x80 + cp % 0x40]
  }

  function Encode(s: string): seq<byte> {
    if s == [] then [] else EncodeChar(s[0]) + Encode(s[1..])
  }

  /** Decoding a sequence that starts with a well-formed multi-byte
      character: the character, then whatever the rest decodes to. */
  lemma DecodeStep(b: seq<byte>, extra: nat, c: char)
    requires 1 <= extra <= 3 && |b| > extra
    requires ExtraLength(b[0]) == extra
    requires ContinuationsFollow(b, extra)
    requires CodePoint(b, extra) == c as int && c as int > OverlongBound(extra)
    requires Decode(b[extra + 1..]).Some?
    ensures Decode(b) == Some([c] + Decode(b[extra + 1..]).value)
  {
    assert IsScalar(c as int);
  }

  lemma {:induction false} MulAtLeast(a: int, m: int)
    requires a >= 1 && m > 0
    ensures a * m >= m
  {
    if a > 1 {
      MulAtLeast(a - 1, m);
      assert a * m == (a - 1) * m + m;
    }
  }

  /** Division with a remainder in range has one answer. */
  lemma RemainderUnique(x: int, k: int, m: int, t: int)
    requires m > 0 && 0 <= t < m && x == k * m + t
    ensures x % m == t
    ensures x / m == k
  {
    var q, r := x / m, x % m;
    assert x == q * m + r;
    var d := q - k;
    assert d * m == q * m - k * m;
    if d >= 1 {
      MulAtLeast(d, m);
    } else if d <= -1 {
      MulAtLeast(-d, m);
    }
  }

  lemma SplitTwelve(cp: nat)
    ensures cp / 0x40 % 0x40 * 0x40 + cp % 0x40 == cp % 0x1000
  {
    var q, r := cp / 0x40, cp % 0x40;
    var a, b := q / 0x40, q % 0x40;
    assert cp == a * 0x1000 + (b * 0x40 + r);
    RemainderUnique(cp, a, 0x1000, b * 0x40 + r);
  }

  lemma SplitEighteen(cp: nat)
    ensures cp / 0x1000 % 0x40 * 0x1000 + cp % 0x1000 == cp % 0x40000
  {
    var q, r := cp / 0x1000, cp % 0x1000;
    var a, b := q / 0x40, q % 0x40;
    assert cp == a * 0x40000 + (b * 0x1000 + r);
    RemainderUnique(cp, a, 0x40000, b * 0x1000 + r);
  }

  lemma DecodeEncodeChar(c: char, rest: seq<byte>)
    requires Decode(rest).Some?
    ensures Decode(EncodeChar(c) + rest) == Some([c] + Decode(rest).value)
  {
    var cp := c as int;
    var e := EncodeChar(c);
    var b := e + rest;
    assert b[|e|..] == rest;
    if cp < 0x80 {
      assert b[1..] == rest;
    } else if cp < 0x800 {
      assert b[0] == 0xC0 + cp / 0x40 && b[1] == 0x80 + cp % 0x40;
      DecodeStep(b, 1, c);
    } else if cp < 0x10000 {
      SplitTwelve(cp);
      assert b[0] == 0xE0 + cp / 0x1000 && b[1] == 0x80 + cp / 0x40 % 0x40 && b[2] == 0x80 + cp % 0x40;
      DecodeStep(b, 2, c);
    } else {
      SplitTwelve(cp);
      SplitEighteen(cp);
      assert b[0] == 0xF0 + cp / 0x40000 && b[1] == 0x80 + cp / 0x1000 % 0x40;
      assert b[2] == 0x80 + cp / 0x40 % 0x40 && b[3] == 0x80 + cp % 0x40;
      DecodeStep(b, 3, c);
    }
  }

  lemma EncodeCons(s: string, rest: seq<byte>)
    requires s != []
    ensures Encode(s) + rest == EncodeChar(s[0]) + (Encode(s[1..]) + rest)
  {
  }

  lemma ConsAppend(s: string, after: string)
    requires s != []
    ensures [s[0]] + (s[1..] + after) == s + after
  {
    assert s == [s[0]] + s[1..];
  }

  /** Decoding is the inverse of encoding, whatever follows the encoded
      text. */
  lemma {:induction false} DecodeEncodeThen(s: string, rest: seq<byte>)
    requires Decode(rest).Some?
    ensures Decode(Encode(s) + rest) == Some(s + Decode(rest).value)
  {
    if s == [] {
      assert Encode(s) + rest == rest;
      assert s + Decode(rest).value == Decode(rest).value;
    } else {
      EncodeCons(s, rest);
      DecodeEncodeThen(s[1..], rest);
      DecodeEncodeChar(s[0], Encode(s[1..]) + rest);
      ConsAppend(s, Decode(rest).value);
    }
  }

  /** Every string, not only ASCII, comes back unchanged. */
  lemma DecodeEncode(s: string)
    ensures Decode(Encode(s)) == Some(s)
  {
    assert Encode(s) + [] == Encode(s);
    DecodeEncodeThen(s, []);
    assert s + [] == s;
  }

  /** The bytes of a well-formed two-byte character are its encoding. */
  lemma CharBytes2(b: seq<byte>)
    requires |b| > 1 && ExtraLength(b[0]) == 1 && ContinuationsFollow(b, 1)
    requires IsScalar(CodePoint(b, 1)) && CodePoint(b, 1) > OverlongBound(1)
    ensures EncodeChar(CodePoint(b, 1) as char) == b[..2]
  {
    var cp := CodePoint(b, 1);
    var lead: int := b[0];
    RemainderUnique(cp, lead - 0xC0, 0x40, Payload(b[1]));
    var e := EncodeChar(cp as char);
    assert e == [0xC0 + cp / 0x40, 0x80 + cp % 0x40];
    assert e[0] == b[0] && e[1] == b[1];
  }

  /** The bytes of a well-formed three-byte character are its encoding. */
  lemma CharBytes3(b: seq<byte>)
    requires |b| > 2 && ExtraLength(b[0]) == 2 && ContinuationsFollow(b, 2)
    requires IsScalar(CodePoint(b, 2)) && CodePoint(b, 2) > OverlongBound(2)
    ensures EncodeChar(CodePoint(b, 2) as char) == b[..3]
  {
    var cp := CodePoint(b, 2);
    var lead: int := b[0];
    var l, p1, p2 := lead - 0xE0, Payload(b[1]), Payload(b[2]);
    assert cp == l * 0x1000 + (p1 * 0x40 + p2);
    RemainderUnique(cp, l, 0x1000, p1 * 0x40 + p2);
    RemainderUnique(cp, l * 0x40 + p1, 0x40, p2);
    RemainderUnique(l * 0x40 + p1, l, 0x40, p1);
    var e := EncodeChar(cp as char);
    assert e == [0xE0 + cp / 0x1000, 0x80 + cp / 0x40 % 0x40, 0x80 + cp % 0x40];
    assert e[0] == b[0] && e[1] == b[1] && e[2] == b[2];
  }

  /** The bytes of a well-formed four-byte character are its encoding. */
  lemma CharBytes4(b: seq<byte>)
    requires |b| > 3 && ExtraLength(b[0]) == 3 && ContinuationsFollow(b, 3)
    requires IsScalar(CodePoint(b, 3)) && CodePoint(b, 3) > OverlongBound(3)
    ensures EncodeChar(CodePoint(b, 3) as char) == b[..4]
  {
    var cp := CodePoint(b, 3);
    var lead: int := b[0];
    var l, p1, p2, p3 := lead - 0xF0, Payload(b[1]), Payload(b[2]), Payload(b[3]);
    assert cp == l * 0x40000 + (p1 * 0x1000 + p2 * 0x40 + p3);
    RemainderUnique(cp, l, 0x40000, p1 * 0x1000 + p2 * 0x40 + p3);
    RemainderUnique(cp, l * 0x40 + p1, 0x1000, p2 * 0x40 + p3);
    RemainderUnique(l * 0x40 + p1, l, 0x40, p1);
    RemainderUnique(cp, l * 0x1000 + p1 * 0x40 + p2, 0x40, p3);
    RemainderUnique(l * 0x1000 + p1 * 0x40 + p2, l * 0x40 + p1, 0x40, p2);
    var e := EncodeChar(cp as char);
    assert e == [0xF0 + cp / 0x40000, 0x80 + cp / 0x1000 % 0x40, 0x80 + cp / 0x40 % 0x40, 0x80 + cp % 0x40];
    assert e[0] == b[0] && e[1] == b[1] && e[2] == b[2] && e[3] == b[3];
  }

  /** The first character a decodable byte string yields, and the bytes it
      came from, which are its encoding. */
  lemma DecodeHead(b: seq<byte>) returns (k: nat, c: char)
    requires b != [] && Decode(b).Some?
    ensures 1 <= k <= |b| && Decode(b[k..]).Some?
    ensures Decode(b).value == [c] + Decode(b[k..]).value
    ensures EncodeChar(c) == b[..k]
  {
    var extra := ExtraLength(b[0]);
    if extra == 0 {
      k, c := 1, b[0] as char;
      assert EncodeChar(c) == [b[0]];
    } else {
      k, c := extra + 1, CodePoint(b, extra) as char;
      if extra == 1 {
        CharBytes2(b);
      } else if extra == 2 {
        CharBytes3(b);
      } else {
        CharBytes4(b);
      }
    }
  }

  /** Only well-formed UTF-8 decodes: whatever decodes is the encoding of
      its result, so a stray continuation byte, an overlong form, a
      surrogate or a value above U+10FFFF is never accepted. */
  lemma {:induction false} EncodeDecode(b: seq<byte>)
    requires Decode(b).Some?
    ensures Encode(Decode(b).value) == b
    decreases |b|
  {
    if b != [] {
      var k, c := DecodeHead(b);
      EncodeDecode(b[k..]);
      var s := Decode(b).value;
      assert s[0] == c && s[1..] == Decode(b[k..]).value;
      assert Encode(s) == EncodeChar(c) + Encode(s[1..]);
      assert b == b[..k] + b[k..];
    }
  }

  /** A byte string decodes to `s` exactly when it is the encoding of `s`. */
  lemma DecodeIff(b: seq<byte>, s: string)
    ensures Decode(b) == Some(s) <==> b == Encode(s)
  {
    if Decode(b) == Some(s) {
      EncodeDecode(b);
    }
    if b == Encode(s) {
      DecodeEncode(s);
    }
  }
}
