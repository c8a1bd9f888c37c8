/** `waffle-provider/src/revertString.ts`: decoding the reason string of a
    Solidity `Error(string)` revert, attaching it to the receipt of a failed
    transaction, and the routing rule of the proxy that wraps a provider. */
module RevertString {
  import opened Wrappers
  import opened FixedWidth
  import opened HexCodec
  import opened BigText
  import Utf8

  /** `0x` and the first four bytes of keccak256("Error(string)"). */
  const ErrorSelector: string := "0x08c379a0"

  /** The characters before the string's bytes: `0x`, the selector, the
      offset word and the length word (2 + 8 + 64 + 64). */
  const HeaderLength: nat := 138

  /** What a failed `eth_estimateGas` is replaced by. */
  const GasFallback: string := "0xE4E1C0"

  /** JavaScript's `s.substring(k)` for one index: empty past the end. */
  function SubstringFrom(s: string, k: nat): (r: string)
    ensures k <= |s| ==> r == s[k..]
    ensures k > |s| ==> r == ""
  {
    if k <= |s| then s[k..] else ""
  }

  /** What ethers throws from `toUtf8String`: text that is not an even
      number of hex digits behind `0x`, or bytes that are not UTF-8. */
  datatype Thrown = InvalidHexData | InvalidUtf8

  /** ethers' `toUtf8String(hex)`: `arrayify`, then strict UTF-8 decoding. */
  function ToUtf8String(hex: string): (r: Result<string, Thrown>)
    ensures r.Success? ==> |hex| >= 2 && hex[..2] == "0x" && DecodeHex(hex[2..]).Success?
    ensures r.Success? ==> Utf8.Decode(DecodeHex(hex[2..]).value) == Some(r.value)
    ensures (|hex| >= 2 && hex[..2] == "0x" && DecodeHex(hex[2..]).Success?
             && Utf8.Decode(DecodeHex(hex[2..]).value).Some?) ==> r.Success?
  {
    if !(|hex| >= 2 && hex[..2] == "0x") then Failure(InvalidHexData)
    else
      match DecodeHex(hex[2..])
      case Failure(_) => Failure(InvalidHexData)
      case Success(b) =>
        match Utf8.Decode(b)
        case None => Failure(InvalidUtf8)
        case Some(s) => Success(s)
  }

  /** `.replace(/\x00/g, '')`: every NUL removed, everything else kept in
      order. */
  function RemoveNul(s: string): (r: string)
    ensures '\0' !in r
    ensures |r| <= |s|
  {
    if s == [] then [] else (if s[0] == '\0' then [] else [s[0]]) + RemoveNul(s[1..])
  }

  /** Every character but NUL is kept, as often as it occurs. */
  lemma {:induction false} RemoveNulContents(s: string)
    ensures multiset(RemoveNul(s)) == multiset(s)['\0' := 0]
  {
    if s != [] {
      RemoveNulContents(s[1..]);
      assert s == [s[0]] + s[1..];
    }
  }

  lemma {:induction false} RemoveNulAppend(a: string, b: string)
    ensures RemoveNul(a + b) == RemoveNul(a) + RemoveNul(b)
  {
    if a == [] {
      assert a + b == b;
    } else {
      assert (a + b)[0] == a[0] && (a + b)[1..] == a[1..] + b;
      RemoveNulAppend(a[1..], b);
    }
  }

  /** Removal changes a string exactly when it holds a NUL. */
  lemma {:induction false} RemoveNulFixpoint(s: string)
    ensures RemoveNul(s) == s <==> '\0' !in s
  {
    if s != [] && '\0' !in s {
      RemoveNulFixpoint(s[1..]);
      assert s == [s[0]] + s[1..];
    }
  }

  /** Removing NULs a second time changes nothing. */
  lemma RemoveNulIdempotent(s: string)
    ensures RemoveNul(RemoveNul(s)) == RemoveNul(s)
  {
    RemoveNulFixpoint(RemoveNul(s));
  }

  /** `decodeRevertString`, given the error's `data` (absent when the
      error has none): the empty string unless `data` starts with the
      selector; otherwise the UTF-8 text of the bytes after the header,
      NULs removed. A `Failure` is ethers throwing. */
  function DecodeRevertString(data: Option<string>): (r: Result<string, Thrown>)
    ensures data.None? || !(ErrorSelector <= data.value) ==> r == Success("")
    ensures r.Success? ==> '\0' !in r.value
  {
    if data.None? || !(ErrorSelector <= data.value) then Success("")
    else
      match ToUtf8String("0x" + SubstringFrom(data.value, HeaderLength))
      case Failure(e) => Failure(e)
      case Success(text) => Success(RemoveNul(text))
  }

  /** The selector, offset word and length word never reach the output:
      two payloads with the selector that agree from index 138 on decode
      alike, and a payload no longer than the header decodes to "". */
  lemma DecodeIgnoresHeader(d1: string, d2: string)
    requires ErrorSelector <= d1 && ErrorSelector <= d2
    ensures SubstringFrom(d1, HeaderLength) == SubstringFrom(d2, HeaderLength) ==>
      DecodeRevertString(Some(d1)) == DecodeRevertString(Some(d2))
    ensures |d1| <= HeaderLength ==> DecodeRevertString(Some(d1)) == Success("")
  {
  }

  /** `k` hex digits of `n`, most significant first (an ABI word when `k`
      is 64). */
  function HexDigits(n: nat, k: nat): (s: string)
    ensures |s| == k
    ensures forall i :: 0 <= i < k ==> IsLowerDigit(s[i])
  {
    if k == 0 then [] else HexDigits(n / 16, k - 1) + [DigitChar(n % 16)]
  }

  function Zeros(k: nat): (z: seq<byte>)
    ensures |z| == k && forall i :: 0 <= i < k ==> z[i] == 0
  {
    seq(k, _ => 0)
  }

  /** The zero bytes that fill a string's bytes up to a whole word. */
  function PadLength(n: nat): (p: nat)
    ensures p < 32 && (n + p) % 32 == 0
  {
    (32 - n % 32) % 32
  }

  /** The ABI encoding of a revert with `Error(message)`, as a Solidity
      `revert(message)` returns it: the selector, the offset 0x20, the byte
      length, and the UTF-8 bytes zero-padded to a whole word. */
  function EncodeErrorString(message: string): string {
    var bytes := Utf8.Encode(message);
    ErrorSelector + AbiHeader(|bytes|) + EncodeHex(bytes + Zeros(PadLength(|bytes|)))
  }

  /** The offset word 0x20 and the length word of a string's bytes. */
  function AbiHeader(length: nat): (h: string)
    ensures |h| == 128
  {
    HexDigits(32, 64) + HexDigits(length, 64)
  }

  lemma {:induction false} RemoveNulOfNuls(s: string)
    requires forall i :: 0 <= i < |s| ==> s[i] == '\0'
    ensures RemoveNul(s) == []
  {
    if s != [] {
      RemoveNulOfNuls(s[1..]);
    }
  }

  lemma DecodeZeros(k: nat)
    ensures Utf8.Decode(Zeros(k)).Some?
    ensures RemoveNul(Utf8.Decode(Zeros(k)).value) == []
  {
    Utf8.DecodeAscii(Zeros(k));
    RemoveNulOfNuls(Utf8.AsciiChars(Zeros(k)));
  }

  /** Any 128-character header behind the selector, then the hex of a
      message's UTF-8 bytes and any zero padding: the decoder returns the
      message with its NULs removed. */
  lemma {:induction false} DecodeAbiPayload(header: string, message: string, pad: nat)
    requires |header| == 128
    ensures DecodeRevertString(Some(ErrorSelector + header + EncodeHex(Utf8.Encode(message) + Zeros(pad))))
         == Success(RemoveNul(message))
  {
    var bytes := Utf8.Encode(message) + Zeros(pad);
    var tail := EncodeHex(bytes);
    var data := ErrorSelector + header + tail;
    assert ErrorSelector <= data;
    assert SubstringFrom(data, HeaderLength) == tail;
    var hex := "0x" + tail;
    assert hex[..2] == "0x" && hex[2..] == tail;
    DecodeEncode(bytes);
    DecodeZeros(pad);
    Utf8.DecodeEncodeThen(message, Zeros(pad));
    var nuls := Utf8.Decode(Zeros(pad)).value;
    assert ToUtf8String(hex) == Success(message + nuls);
    RemoveNulAppend(message, nuls);
    assert RemoveNul(message) + [] == RemoveNul(message);
  }

  /** Decoding inverts the ABI encoding for every message without a NUL. */
  lemma RevertStringRoundTrip(message: string)
    requires '\0' !in message
    ensures DecodeRevertString(Some(EncodeErrorString(message))) == Success(message)
  {
    var length := |Utf8.Encode(message)|;
    DecodeAbiPayload(AbiHeader(length), message, PadLength(length));
    RemoveNulFixpoint(message);
  }

  /** The white space `parseInt` skips (ECMAScript's StrWhiteSpaceChar). */
  predicate IsJsWhiteSpace(c: char) {
    c == '\t' || c == '\n' || c == '\U{000B}' || c == '\U{000C}' || c == '\r' || c == ' '
    || c == '\U{00A0}' || c == '\U{1680}' || '\U{2000}' <= c <= '\U{200A}'
    || c == '\U{2028}' || c == '\U{2029}' || c == '\U{202F}' || c == '\U{205F}'
    || c == '\U{3000}' || c == '\U{FEFF}'
  }

  function TrimStart(s: string): (t: string)
    ensures |t| <= |s| && t == s[|s| - |t|..]
    ensures t == [] || !IsJsWhiteSpace(t[0])
  {
    if s != [] && IsJsWhiteSpace(s[0]) then TrimStart(s[1..]) else s
  }

  /** The longest prefix made of digits of the radix. */
  function DigitPrefix(s: string, radix: nat): (z: string)
    requires IsBase(radix)
    ensures z <= s && AllDigitsIn(z, radix)
    ensures |z| < |s| ==> !IsDigitIn(s[|z|], radix)
  {
    if s == [] || !IsDigitIn(s[0], radix) then []
    else [s[0]] + DigitPrefix(s[1..], radix)
  }

  /** A string of digits is read whole. */
  lemma DigitPrefixOfDigits(s: string, radix: nat)
    requires IsBase(radix) && AllDigitsIn(s, radix)
    ensures DigitPrefix(s, radix) == s
  {
  }

  /** JavaScript's `parseInt(s)` without a radix: leading white space and
      one sign skipped, `0x`/`0X` selects base 16, then the longest run of
      digits; `None` is `NaN`. A number is read only when the first
      character after the white space and the sign is a decimal digit, and
      it is negative only behind a `-`. */
  function ParseInt(s: string): (r: Option<int>)
    ensures r.Some? ==> |Unsigned(TrimStart(s))| >= 1 && IsDigitIn(Unsigned(TrimStart(s))[0], 10)
    ensures r.Some? && r.value < 0 ==> TrimStart(s)[0] == '-'
  {
    var t := TrimStart(s);
    var negative := |t| > 0 && t[0] == '-';
    var numeral := NumeralOf(Unsigned(t));
    assert numeral.digits != [] ==> |Unsigned(t)| >= 1 && IsDigitIn(Unsigned(t)[0], 10);
    if numeral.digits == [] then None
    else
      var magnitude: int := DigitsValue(numeral.digits, numeral.radix);
      Some(if negative then -magnitude else magnitude)
  }

  /** The digits `parseInt` reads after the sign, and their base. */
  datatype Numeral = Numeral(digits: string, radix: nat)

  function NumeralOf(u: string): (n: Numeral)
    ensures IsBase(n.radix) && AllDigitsIn(n.digits, n.radix)
    ensures n.digits != [] ==> |u| >= 1 && IsDigitIn(u[0], 10)
  {
    if HasHexPrefix(u) then Numeral(DigitPrefix(u[2..], 16), 16)
    else
      var z := DigitPrefix(u, 10);
      assert z != [] ==> z[0] == u[0];
      Numeral(z, 10)
  }

  /** The text after one optional sign. */
  function Unsigned(t: string): (u: string)
    ensures |t| > 0 && (t[0] == '-' || t[0] == '+') ==> u == t[1..]
    ensures !(|t| > 0 && (t[0] == '-' || t[0] == '+')) ==> u == t
  {
    if |t| > 0 && (t[0] == '-' || t[0] == '+') then t[1..] else t
  }

  predicate HasHexPrefix(u: string) {
    |u| >= 2 && u[0] == '0' && (u[1] == 'x' || u[1] == 'X')
  }

  /** Hex digits behind `0x` read as their value in base 16. */
  lemma ParseIntHex(h: string)
    requires |h| >= 1 && AllDigitsIn(h, 16)
    ensures ParseInt("0x" + h) == Some(DigitsValue(h, 16))
  {
    var hs := "0x" + h;
    assert hs[0] == '0' && hs[1] == 'x' && hs[2..] == h;
    assert !IsJsWhiteSpace(hs[0]);
    assert TrimStart(hs) == hs;
    assert !(hs[0] == '-' || hs[0] == '+');
    assert Unsigned(hs) == hs;
    assert HasHexPrefix(hs);
    DigitPrefixOfDigits(h, 16);
    assert NumeralOf(hs) == Numeral(h, 16);
  }

  /** Decimal digits read as their value in base 10. */
  lemma DecimalDigitRange(c: char)
    requires IsDigitIn(c, 10)
    ensures '0' <= c <= '9'
  {
  }

  lemma ParseIntDecimal(d: string)
    requires |d| >= 1 && AllDigitsIn(d, 10)
    ensures ParseInt(d) == Some(DigitsValue(d, 10))
  {
    DecimalDigitRange(d[0]);
    assert !IsJsWhiteSpace(d[0]);
    assert TrimStart(d) == d;
    assert !(d[0] == '-' || d[0] == '+');
    assert Unsigned(d) == d;
    assert !HasHexPrefix(d) by {
      if |d| >= 2 {
        DecimalDigitRange(d[1]);
      }
    }
    DigitPrefixOfDigits(d, 10);
    assert NumeralOf(d) == Numeral(d, 10);
  }

  /** Status text in either of the forms a receipt carries it, JSON-RPC's
      `0x`-prefixed hex or a decimal number, reads back as its value. */
  lemma StatusTextReadsBack(n: nat)
    ensures ParseInt("0x" + NatText(n, 16)) == Some(n)
    ensures ParseInt(NatText(n, 10)) == Some(n)
  {
    ParseIntHex(NatText(n, 16));
    NatTextValue(n, 16);
    ParseIntDecimal(NatText(n, 10));
    NatTextValue(n, 10);
  }

  lemma FallbackDigitsValue()
    ensures AllDigitsIn("E4E1C0", 16)
    ensures DigitsValue("E4E1C0", 16) == 15_000_000
  {
    var digits := "E4E1C0";
    assert AllDigitsIn(digits, 16) by {
      forall i | 0 <= i < |digits| ensures IsDigitIn(digits[i], 16) {
      }
    }
    assert "E"[..0] == "";
    assert "E4"[..1] == "E";
    assert "E4E"[..2] == "E4";
    assert "E4E1"[..3] == "E4E";
    assert "E4E1C"[..4] == "E4E1";
    assert "E4E1C0"[..5] == "E4E1C";
    assert DigitsValue("E", 16) == 14;
    assert DigitsValue("E4", 16) == 228;
    assert DigitsValue("E4E", 16) == 3662;
    assert DigitsValue("E4E1", 16) == 58593;
    assert DigitsValue("E4E1C", 16) == 937500;
  }

  /** The replacement gas estimate is 15,000,000, read as JavaScript or
      as `math/big` reads it. */
  lemma GasFallbackValue()
    ensures ParseInt(GasFallback) == Some(15_000_000)
    ensures SetString(GasFallback[2..], 16) == Some(15_000_000)
  {
    FallbackDigitsValue();
    assert GasFallback == "0x" + "E4E1C0" && GasFallback[2..] == "E4E1C0";
    ParseIntHex("E4E1C0");
    SetStringOfDigits("E4E1C0", 16);
  }

  /** `parseInt(receipt.status) === 0`: the numeral `parseInt` reads from
      the status is made of zeros only. */
  predicate IsFailedStatus(status: string)
    ensures IsFailedStatus(status) <==> ZeroNumeral(NumeralOf(Unsigned(TrimStart(status))))
  {
    var n := NumeralOf(Unsigned(TrimStart(status)));
    DigitsValueZero(n.digits, n.radix);
    ParseIntOfNumeral(status);
    ParseInt(status) == Some(0)
  }

  /** `parseInt` is `NaN` without digits, and otherwise worth 0 exactly
      when its digits are. */
  lemma ParseIntOfNumeral(s: string)
    ensures var n := NumeralOf(Unsigned(TrimStart(s)));
      ParseInt(s) == Some(0) <==> n.digits != [] && DigitsValue(n.digits, n.radix) == 0
  {
    var n := NumeralOf(Unsigned(TrimStart(s)));
    if n.digits != [] {
      var magnitude: int := DigitsValue(n.digits, n.radix);
      assert ParseInt(s) == Some(magnitude) || ParseInt(s) == Some(-magnitude);
    }
  }

  predicate ZeroNumeral(n: Numeral) {
    |n.digits| >= 1 && forall i :: 0 <= i < |n.digits| ==> n.digits[i] == '0'
  }

  /** A string of digits is worth 0 exactly when every digit is `0`. */
  lemma {:induction false} DigitsValueZero(d: string, base: nat)
    requires IsBase(base) && AllDigitsIn(d, base)
    ensures DigitsValue(d, base) == 0 <==> forall i :: 0 <= i < |d| ==> d[i] == '0'
    decreases |d|
  {
    if d != [] {
      var init := d[..|d| - 1];
      DigitsValueZero(init, base);
      assert forall i :: 0 <= i < |init| ==> init[i] == d[i];
    }
  }

  lemma ZeroStatusFails()
    ensures IsFailedStatus("0x0") && IsFailedStatus("0")
  {
    assert "0x0" == "0x" + "0";
    assert AllDigitsIn("0", 16) && AllDigitsIn("0", 10);
    assert "0"[..0] == "";
    assert DigitsValue("0", 16) == 0 && DigitsValue("0", 10) == 0;
    ParseIntHex("0");
    ParseIntDecimal("0");
  }

  lemma OneStatusSucceeds()
    ensures !IsFailedStatus("0x1") && !IsFailedStatus("1")
  {
    assert "0x1" == "0x" + "1";
    assert AllDigitsIn("1", 16) && AllDigitsIn("1", 10);
    assert "1"[..0] == "";
    assert DigitsValue("1", 16) == 1 && DigitsValue("1", 10) == 1;
    ParseIntHex("1");
    ParseIntDecimal("1");
  }

  /** A property of the wrapped provider, as the proxy's `get` trap sees it. */
  datatype Property<V> = NonFunction(value: V) | Function

  /** What the trap hands out: the property itself, or a wrapper that
      calls the original function named `prop`. */
  datatype Trapped<V> = AsIs(value: V) | Wrapper(prop: string)

  function Get<V>(prop: string, original: Property<V>): (t: Trapped<V>)
    ensures original.NonFunction? <==> t.AsIs?
    ensures original.NonFunction? ==> t.value == original.value
    ensures original.Function? ==> t.prop == prop
  {
    match original
    case NonFunction(v) => AsIs(v)
    case Function => Wrapper(prop)
  }

  /** What a wrapper does with the original result. */
  datatype Route =
    | Original              // returned unchanged
    | EstimateGasFallback   // a failure becomes `GasFallback`
    | AwaitMining           // waits for the transaction, reporting a failure
    | AttachRevertReason    // adds the revert string to a failed receipt

  /** The branch a call through the proxy takes, from the property called
      and the `method` field of its first argument (`None` when absent). */
  function RouteOf(prop: string, rpcMethod: Option<string>): (r: Route)
    ensures prop != "request" ==> r == Original
    ensures r == EstimateGasFallback <==> prop == "request" && rpcMethod == Some("eth_estimateGas")
    ensures r == AwaitMining <==> prop == "request" && rpcMethod == Some("eth_sendRawTransaction")
    ensures r == AttachRevertReason <==> prop == "request" && rpcMethod == Some("eth_getTransactionReceipt")
  {
    if prop != "request" then Original
    else if rpcMethod == Some("eth_estimateGas") then EstimateGasFallback
    else if rpcMethod == Some("eth_sendRawTransaction") then AwaitMining
    else if rpcMethod == Some("eth_getTransactionReceipt") then AttachRevertReason
    else Original
  }

  /** Every `request` method but the three intercepted ones falls through. */
  lemma OtherMethodsFallThrough(prop: string, rpcMethod: Option<string>)
    requires rpcMethod.None? || rpcMethod.value !in {"eth_estimateGas", "eth_sendRawTransaction", "eth_getTransactionReceipt"}
    ensures RouteOf(prop, rpcMethod) == Original
  {
  }

  /** A settled original result: a value, or a thrown error. */
  datatype Settled<T> = Resolved(value: T) | Rejected(reason: string)

  /** The `eth_estimateGas` branch: a successful estimate passes through, a
      failed one becomes an estimate of 15,000,000. */
  function AfterEstimateGas(original: Settled<string>): (r: Settled<string>)
    ensures r.Resolved?
    ensures original.Resolved? ==> r == original
    ensures original.Rejected? ==> r == Resolved(GasFallback)
    ensures original.Rejected? ==> ParseInt(r.value) == Some(15_000_000)
  {
    GasFallbackValue();
    match original
    case Resolved(_) => original
    case Rejected(_) => Resolved(GasFallback)
  }

  /** How replaying a failed transaction as a call ended: it returned, or
      something threw an error with the given `data`. */
  datatype Replay = Completed | Threw(data: Option<string>)

  /** A JavaScript error escaping a wrapper. */
  datatype JsError =
    | NullReceiptStatus        // `receipt.status` read on a null receipt
    | DecodeFailed(cause: Thrown)
    | Upstream(reason: string)

  /** The receipt object `appendRevertString` updates in place. `status`
      is its status as `parseInt` reads it: the text of the JSON-RPC
      quantity, or of the number ethers stores. */
  class TxReceipt {
    var status: string
    var revertString: Option<string>

    constructor (status: string)
      ensures this.status == status && revertString.None?
    {
      this.status := status;
      revertString := None;
    }

    /** `appendRevertString`: only the receipt of a failed transaction is
        replayed, and only an error thrown by the replay sets
        `revertString`; a decoding failure propagates and sets nothing. */
    method AppendRevertString(replay: Replay) returns (r: Result<(), Thrown>)
      modifies this
      ensures Appended(this, replay, r)
    {
      if ParseInt(status) == Some(0) {
        if replay.Threw? {
          var decoded := DecodeRevertString(replay.data);
          if decoded.Failure? {
            return Failure(decoded.error);
          }
          revertString := Some(decoded.value);
        }
      }
      return Success(());
    }
  }

  /** What one `appendRevertString` call on `receipt` did, given how the
      replay ended and how the call itself ended: the status is untouched;
      a receipt that did not fail, or whose replay completed, keeps its
      revert string; otherwise the decoded reason is stored, or the
      decoder's error escapes and nothing is stored. */
  twostate predicate Appended(receipt: TxReceipt, replay: Replay, new outcome: Result<(), Thrown>)
    reads receipt
  {
    && receipt.status == old(receipt.status)
    && if !IsFailedStatus(receipt.status) || replay.Completed? then
         receipt.revertString == old(receipt.revertString) && outcome.Success?
       else
         match DecodeRevertString(replay.data)
         case Success(text) => receipt.revertString == Some(text) && outcome.Success?
         case Failure(e) => receipt.revertString == old(receipt.revertString) && outcome == Failure(e)
  }

  /** The outcome of `appendRevertString` seen through an error that
      escaped a wrapper: a decoder error, or none. */
  function AppendOutcome(escaped: Option<JsError>): Result<(), Thrown> {
    if escaped.Some? && escaped.value.DecodeFailed? then Failure(escaped.value.cause) else Success(())
  }

  /** The `eth_sendRawTransaction` branch: the hash of a transaction that
      mines successfully is returned; when waiting for it fails, the
      error's receipt gets its revert string and the error is rethrown. A
      missing receipt makes `appendRevertString` throw instead, and so does
      the decoder. `fetched` is the failure of `getTransaction`, if any. */
  method AwaitMiningBranch(original: Settled<string>, fetched: Option<string>, waited: Waited, replay: Replay)
      returns (r: Result<string, JsError>)
    modifies if waited.WaitFailed? && waited.receipt != null then {waited.receipt} else {}
    ensures original.Rejected? ==> r == Failure(Upstream(original.reason))
    ensures original.Resolved? && fetched.Some? ==> r == Failure(Upstream(fetched.value))
    ensures original.Resolved? && fetched.None? && waited.Mined? ==> r == Success(original.value)
    ensures original.Resolved? && fetched.None? && waited.WaitFailed? ==>
      if waited.receipt == null then r == Failure(NullReceiptStatus)
      else
        && r.Failure?
        && (r.error.DecodeFailed? || r.error == Upstream(waited.reason))
        && Appended(waited.receipt, replay, AppendOutcome(Some(r.error)))
  {
    if original.Rejected? {
      return Failure(Upstream(original.reason));
    }
    if fetched.Some? {
      return Failure(Upstream(fetched.value));
    }
    if waited.Mined? {
      return Success(original.value);
    }
    var receipt := waited.receipt;
    if receipt == null {
      return Failure(NullReceiptStatus);
    }
    var appended := receipt.AppendRevertString(replay);
    if appended.Failure? {
      return Failure(DecodeFailed(appended.error));
    }
    return Failure(Upstream(waited.reason));
  }

  /** How `tx.wait()` ended: the transaction mined, or waiting threw an
      error with this message and this `receipt` property. */
  datatype Waited = Mined | WaitFailed(reason: string, receipt: TxReceipt?)

  /** The `eth_getTransactionReceipt` branch as written: the awaited
      receipt goes straight to `appendRevertString`, so the null a provider
      returns for an unknown or unmined hash makes the branch throw. */
  method ReceiptBranchAsWritten(original: Settled<TxReceipt?>, replay: Replay)
      returns (r: Result<TxReceipt?, JsError>)
    modifies if original.Resolved? && original.value != null then {original.value} else {}
    ensures original.Rejected? ==> r == Failure(Upstream(original.reason))
    ensures original == Resolved(null) ==> r == Failure(NullReceiptStatus)
    ensures original.Resolved? && original.value != null ==>
      && (r.Success? ==> r.value == original.value)
      && (r.Failure? ==> r.error.DecodeFailed?)
      && Appended(original.value, replay, AppendOutcome(if r.Success? then None else Some(r.error)))
  {
    if original.Rejected? {
      return Failure(Upstream(original.reason));
    }
    var receipt := original.value;
    if receipt == null {
      return Failure(NullReceiptStatus);
    }
    var appended := receipt.AppendRevertString(replay);
    if appended.Failure? {
      return Failure(DecodeFailed(appended.error));
    }
    return Success(receipt);
  }

  /** The branch as intended: a null receipt is passed through as the
      provider returned it, and a real one gets its revert string. */
  method ReceiptBranch(original: Settled<TxReceipt?>, replay: Replay)
      returns (r: Result<TxReceipt?, JsError>)
    modifies if original.Resolved? && original.value != null then {original.value} else {}
    ensures original.Rejected? ==> r == Failure(Upstream(original.reason))
    ensures original == Resolved(null) ==> r == Success(null)
    ensures original.Resolved? && original.value != null ==>
      && (r.Success? ==> r.value == original.value)
      && (r.Failure? ==> r.error.DecodeFailed?)
      && Appended(original.value, replay, AppendOutcome(if r.Success? then None else Some(r.error)))
  {
    if original.Rejected? {
      return Failure(Upstream(original.reason));
    }
    var receipt := original.value;
    if receipt == null {
      return Success(null);
    }
    var appended := receipt.AppendRevertString(replay);
    if appended.Failure? {
      return Failure(DecodeFailed(appended.error));
    }
    return Success(receipt);
  }

  /** A lookup of an unknown hash: the branch as written rejects where the
      provider itself resolved, the corrected branch resolves to null. */
  method NullReceiptScenario(replay: Replay) returns (asWritten: Result<TxReceipt?, JsError>, corrected: Result<TxReceipt?, JsError>)
    ensures asWritten == Failure(NullReceiptStatus)
    ensures corrected == Success(null)
  {
    asWritten := ReceiptBranchAsWritten(Resolved(null), replay);
    corrected := ReceiptBranch(Resolved(null), replay);
  }
}
