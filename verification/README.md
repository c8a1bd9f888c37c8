# Waffle simulator gateway and revert-string provider, in Dafny

This project models two pieces of Waffle.

The first is the cgo gateway of `waffle-geth` (`main.go`):
- a process-wide registry hands out integer handles for simulated
  go-ethereum ledgers;
- exported functions translate loosely typed C requests into typed engine
  calls;
- those functions drive the resolved ledger and encode its results back as
  text;
- there are two small pure helpers, `countLines` and `sumProduct`.

The second is `revertString.ts` of `waffle-provider`:
- the decoder of Solidity `Error(string)` revert payloads;
- the status-0 guard that attaches a decoded reason to a failed receipt;
- the routing rule of the proxy that wraps a Ganache provider.

Modules, one per file:

- `Wrappers`: `Option` and `Result`.
- `FixedWidth`: Go/C integer widths and the conversions between them,
  written out as reductions modulo a power of two.
- `HexCodec`: Go's `encoding/hex`, including its error order.
- `BigText`: `math/big`'s `Text(base)` and `SetString(s, base)`.
- `Utf8`: strict UTF-8 decoding as ethers' `toUtf8String` performs it. It
  also holds an encoder, used to state round trips.
- `Engine`: the go-ethereum library and the simulated ledger, which the
  gateway calls but does not implement. The library functions and the
  ledger's rules are total function values supplied from outside, so every
  property holds whatever they compute. The backend is a class that keeps
  the committed chain and the pending pool. `Commit` seals the pool as one
  block.
- `Gateway`: the registry (class `Registry`, holding the table
  `simulators` and the counter `nextSimulatorId`) and the exported
  functions. Every `log.Fatal` and every Go panic of the source is an
  `Error` result.
- `Helpers`: `countLines` and `sumProduct`.
- `RevertString`: `decodeRevertString`, JavaScript's `parseInt`, the class
  `TxReceipt` with `appendRevertString`, and the proxy's branches.

Three behaviours of the gateway's code are modelled as written:

- `call` sets the legacy gas price, the fee cap and the tip cap
  independently. Nothing makes them exclusive
  (`Gateway.PricingFieldsIndependent`).
- Five numeric conversions truncate or wrap:
  - the handle returned by `newSimulator` (`C.int`);
  - the nonce returned by `getTransactionCount` (`C.int`);
  - the receipt's transaction index (`C.uint`);
  - the line count of `countLines`, narrowed from Go's `int` by `int32`;
  - the sum and product of `sumProduct`, which wrap at 32 bits in `C.int`.
- Input data shorter than two characters makes `s[2:]` panic instead of
  returning an error (`MissingPrefix`). The two dropped characters are
  never checked to be `0x`.

## Model

| member | source | states |
|---|---|---|
| FixedWidth.ToUint64 | waffle-geth/go/main/main.go:131 | `uint64(msg.Gas)` keeps every value in range and is congruent to its argument modulo 2^64 |
| FixedWidth.ToUint32 | waffle-geth/go/main/main.go:229 | `C.uint` keeps values below 2^32 and is congruent modulo 2^32 |
| FixedWidth.ToInt32 | waffle-geth/go/main/main.go:46 | `C.int` keeps values in the signed 32-bit range and is congruent modulo 2^32 |
| HexCodec.EncodeHex | waffle-geth/go/main/main.go:165 | two lower-case hex digits per byte |
| HexCodec.DecodeHex | waffle-geth/go/main/main.go:152 | a decoded byte string is half as long as its text |
| HexCodec.DecodeHexSucceedsIff | waffle-geth/go/main/main.go:152-155 | decoding succeeds exactly on even-length strings of hex digits (both directions) |
| HexCodec.DecodeEncode | waffle-geth/go/main/main.go:165 | decoding the encoding of any bytes gives them back |
| HexCodec.EncodeDecode | waffle-geth/go/main/main.go:152 | encoding the decoded bytes gives back the text, in lower case |
| BigText.NatText | waffle-geth/go/main/main.go:54 | the digits of a value are a non-empty string of digits of the base |
| BigText.Text | waffle-geth/go/main/main.go:54 | `Text(base)` and `String()` write a `-` exactly for negative values, then one or more digits of the base, with a leading `0` only for zero |
| BigText.SetString | waffle-geth/go/main/main.go:136 | `SetString(s, base)` accepts exactly one or more digits of the base behind at most one sign; only a `-` gives a negative value |
| BigText.NatTextValue | waffle-geth/go/main/main.go:54 | the digits read back as the value |
| BigText.TextRoundTrip | waffle-geth/go/main/main.go:83 | `SetString(x.Text(b), b)` gives back `x` for every integer in base 10 and base 16: no truncation |
| BigText.BasesAgreeOnlyBelowTen | waffle-geth/go/main/main.go:228 | the base-16 and base-10 texts of a value are equal exactly when it is below 10 (both directions) |
| Utf8.Decode | waffle-provider/src/revertString.ts:20 | strict UTF-8 decoding never yields more characters than bytes |
| Utf8.DecodeAscii | waffle-provider/src/revertString.ts:20 | ASCII bytes decode one character per byte |
| Utf8.DecodeEncodeThen | waffle-provider/src/revertString.ts:20 | the UTF-8 form of any string, followed by decodable bytes, decodes to the string followed by their decoding |
| Utf8.DecodeEncode | waffle-provider/src/revertString.ts:20 | decoding inverts UTF-8 encoding for every string |
| Utf8.EncodeDecode | waffle-provider/src/revertString.ts:20 | whatever decodes is the UTF-8 encoding of its result: a stray continuation byte, an overlong form, a surrogate or a value above U+10FFFF never decodes |
| Utf8.DecodeIff | waffle-provider/src/revertString.ts:20 | bytes decode to a string exactly when they are its UTF-8 encoding (both directions) |
| Engine.Backend.constructor | waffle-geth/go/main/main.go:39 | a new ledger has no blocks after genesis and an empty pool |
| Engine.Backend.SendTransaction | waffle-geth/go/main/main.go:208 | a refused transaction changes nothing; an admitted one joins the pool; the chain is unchanged |
| Engine.Backend.Commit | waffle-geth/go/main/main.go:213 | the pool becomes exactly one new block and is emptied |
| Gateway.GoString | waffle-geth/go/main/main.go:133 | a NULL `char *` reads as the empty string |
| Gateway.DropMarker | waffle-geth/go/main/main.go:152 | `s[2:]` succeeds exactly on strings of two or more characters and drops the first two; otherwise it is the panic |
| Gateway.DecodePayload | waffle-geth/go/main/main.go:151-155 | succeeds exactly when the text after the first two characters is an even number of hex digits; the result re-encodes to that text |
| Gateway.PayloadRoundTrip | waffle-geth/go/main/main.go:152 | any two characters followed by the hex of some bytes decode to those bytes |
| Gateway.SetStringInto | waffle-geth/go/main/main.go:135-136 | the field holds the base-16 value when `SetString` accepts the text, and an undefined value otherwise; never nil |
| Gateway.GasField | waffle-geth/go/main/main.go:133-137 | a pricing field is nil exactly when its text is empty |
| Gateway.GasFieldRoundTrip | waffle-geth/go/main/main.go:133-149 | any value written in base 16 reaches the engine unchanged, and the empty text never becomes zero |
| Gateway.Translate | waffle-geth/go/main/main.go:119-158 | the `callMsg` that `call` builds fails exactly when given input data does not decode, only as a missing marker or malformed hex; the decoded data re-encodes to the text after the marker |
| Gateway.BuildCallMsg | waffle-geth/go/main/main.go:119-158 | the step-by-step construction of `callMsg` equals the translation `Translate` |
| Gateway.TranslateFields | waffle-geth/go/main/main.go:124-158 | absent sender gives the zero address; recipient present exactly when given; gas copied; each pricing field nil exactly when its text is empty; value never set; translation fails exactly on malformed data |
| Gateway.PricingFieldsIndependent | waffle-geth/go/main/main.go:133-149 | changing the text of any one of gas price, fee cap or tip cap changes only that field of the message and never makes the translation fail |
| Gateway.CallResult | waffle-geth/go/main/main.go:160-165 | a translation failure is returned unchanged; an engine failure gives `ExecutionReverted` with the engine's reason, and only then is a revert reported; a result is twice as many hex digits as the engine's output has bytes |
| Gateway.MalformedInputBeforeEngine | waffle-geth/go/main/main.go:151-160 | malformed input data gives the same decode error whatever the ledger would do |
| Gateway.CallOutputRoundTrip | waffle-geth/go/main/main.go:160-165 | the hex text returned by `call` decodes to exactly the engine's output |
| Gateway.DecodeTransaction | waffle-geth/go/main/main.go:197-206 | a raw transaction fails only as a missing marker, malformed hex or malformed transaction |
| Gateway.TransactionPayloadRoundTrip | waffle-geth/go/main/main.go:197-206 | the bytes behind any two-character marker reach `UnmarshalBinary` intact |
| Gateway.HashText | waffle-geth/go/main/main.go:224 | a hash is `0x` and 64 hex digits that decode back to the hash |
| Gateway.EncodeReceipt | waffle-geth/go/main/main.go:220-230 | type, status and both gas counts are copied; hashes are decodable text; the block number is base-16 text that reads back as the number; the index is the low 32 bits |
| Gateway.Simulator.constructor | waffle-geth/go/main/main.go:39 | a new simulator owns a fresh ledger at genesis |
| Gateway.Registry.constructor | waffle-geth/go/main/main.go:32-35 | the table starts empty and the counter at 0 |
| Gateway.Registry.NewSimulator | waffle-geth/go/main/main.go:37-47 | returns the old counter value and advances it by one; the new entry is fresh and every earlier entry is unchanged; handles stay exactly 0 .. counter-1 with distinct ledgers |
| Gateway.Registry.GetSimulator | waffle-geth/go/main/main.go:233-240 | exactly the stored instance for an issued handle; "does not exist" for any other |
| Gateway.Registry.GetBlockNumber | waffle-geth/go/main/main.go:49-55 | the number of blocks after genesis, as base-10 text that reads back as the number |
| Gateway.Registry.GetCode | waffle-geth/go/main/main.go:57-66 | the account's code as hex text that decodes to the code; the query's failure otherwise |
| Gateway.Registry.GetChainId | waffle-geth/go/main/main.go:68-73 | the chain id as base-10 text that reads back as the id |
| Gateway.Registry.GetBalance | waffle-geth/go/main/main.go:75-84 | the balance as base-10 text that reads back as the balance; the query's failure otherwise |
| Gateway.Registry.GetTransactionCount | waffle-geth/go/main/main.go:86-95 | the nonce narrowed to a C `int`: equal below 2^31, congruent modulo 2^32 always |
| Gateway.Registry.Call | waffle-geth/go/main/main.go:118-166 | changes nothing and returns the call result against the resolved ledger |
| Gateway.Registry.SendTransaction | waffle-geth/go/main/main.go:193-231 | decoding or sending failures leave the chain as it was; an admitted transaction ends up alone in exactly one new block; the receipt is flattened or reported unavailable |
| Gateway.FreshSimulatorScenario | waffle-geth/go/main/main.go:43-54 | a fresh simulator reads block "0", and after one send reads "0" or "1" |
| Gateway.TwoSimulatorsScenario | waffle-geth/go/main/main.go:32-47 | the first two handles are 0 and 1, and a send to the first leaves the second at block "0" |
| Helpers.Newlines | waffle-geth/go/main/main.go:260 | the count is the multiplicity of `\n` |
| Helpers.CountLines | waffle-geth/go/main/main.go:257-262 | the newline count, exact below 2^31 and congruent modulo 2^32 always |
| Helpers.NewlinesAppend | waffle-geth/go/main/main.go:260 | counting splits over concatenation |
| Helpers.SumProduct | waffle-geth/go/main/main.go:274-280 | sum and product exact when in 32-bit range, congruent modulo 2^32 always |
| RevertString.SubstringFrom | waffle-provider/src/revertString.ts:20 | `substring(k)` is the suffix from `k`, or empty past the end |
| RevertString.ToUtf8String | waffle-provider/src/revertString.ts:20 | succeeds exactly on `0x` and an even number of hex digits whose bytes are UTF-8 (both directions), and returns their decoding |
| RevertString.RemoveNul | waffle-provider/src/revertString.ts:21 | the result holds no NUL |
| RevertString.RemoveNulContents | waffle-provider/src/revertString.ts:21 | every character other than NUL is kept, as often as it occurs |
| RevertString.RemoveNulAppend | waffle-provider/src/revertString.ts:21 | removal distributes over concatenation, so order is kept |
| RevertString.RemoveNulFixpoint | waffle-provider/src/revertString.ts:21 | removal leaves a string unchanged exactly when it has no NUL (both directions) |
| RevertString.RemoveNulIdempotent | waffle-provider/src/revertString.ts:21 | removing NULs twice is removing them once |
| RevertString.DecodeRevertString | waffle-provider/src/revertString.ts:12-22 | missing data or data without the selector gives ""; a decoded reason never holds a NUL |
| RevertString.DecodeIgnoresHeader | waffle-provider/src/revertString.ts:19-20 | two payloads with the selector that agree from index 138 on decode alike; a payload no longer than the header gives "" |
| RevertString.DecodeAbiPayload | waffle-provider/src/revertString.ts:17-21 | selector, any 128-character header, then a message's UTF-8 hex and zero padding decode to the message without NULs |
| RevertString.RevertStringRoundTrip | waffle-provider/src/revertString.ts:12-22 | the ABI encoding of `Error(message)` decodes to the message, for every message without NUL |
| RevertString.ParseInt | waffle-provider/src/revertString.ts:25 | `parseInt` is `NaN` unless the first character after white space and sign is a decimal digit, and negative only behind a `-` |
| RevertString.IsFailedStatus | waffle-provider/src/revertString.ts:25 | a status counts as failed exactly when the numeral `parseInt` reads from it is non-empty and made of zeros only |
| RevertString.DigitPrefix | waffle-provider/src/revertString.ts:25 | `parseInt` reads the longest prefix of digits of its base |
| RevertString.ParseIntHex | waffle-provider/src/revertString.ts:25 | `0x` and hex digits parse to their exact base-16 value (JavaScript rounds above 2^53) |
| RevertString.ParseIntDecimal | waffle-provider/src/revertString.ts:25 | decimal digits parse to their exact base-10 value (JavaScript rounds above 2^53) |
| RevertString.StatusTextReadsBack | waffle-provider/src/revertString.ts:25 | a status in JSON-RPC hex or as a decimal number parses back to its exact value (JavaScript rounds above 2^53) |
| RevertString.ZeroStatusFails | waffle-provider/src/revertString.ts:25 | statuses "0x0" and "0" count as failed |
| RevertString.OneStatusSucceeds | waffle-provider/src/revertString.ts:25 | statuses "0x1" and "1" do not |
| RevertString.GasFallbackValue | waffle-provider/src/revertString.ts:85 | the replacement estimate `0xE4E1C0` is 15,000,000, read by `parseInt` or by `math/big` |
| RevertString.Get | waffle-provider/src/revertString.ts:58-65 | a non-function property is returned as-is; a function is replaced by a wrapper for its name |
| RevertString.RouteOf | waffle-provider/src/revertString.ts:70-113 | anything but `request` passes through; each of the three intercepted methods takes its own branch exactly when named (both directions) |
| RevertString.OtherMethodsFallThrough | waffle-provider/src/revertString.ts:113 | any other `request` method returns the original result |
| RevertString.AfterEstimateGas | waffle-provider/src/revertString.ts:80-87 | always resolves; a success passes through unchanged; a failure becomes exactly the literal `0xE4E1C0`, which parses to 15,000,000 |
| RevertString.TxReceipt.AppendRevertString | waffle-provider/src/revertString.ts:24-40 | the status is untouched; `revertString` changes only for a status that parses to 0 whose replay threw; a decoding error escapes and sets nothing |
| RevertString.AwaitMiningBranch | waffle-provider/src/revertString.ts:88-105 | a mined transaction returns its hash; a failed wait attaches the reason to the error's receipt and rethrows; a missing receipt throws instead |
| RevertString.ReceiptBranchAsWritten | waffle-provider/src/revertString.ts:106-111 | as written: a null receipt makes the branch reject |
| RevertString.ReceiptBranch | waffle-provider/src/revertString.ts:106-111 | corrected: a null receipt resolves to null; a real one gets its revert string as `appendRevertString` promises |
| RevertString.NullReceiptScenario | waffle-provider/src/revertString.ts:106-111 | for an unknown hash, the branch as written rejects where the corrected branch resolves to null |

## Findings

| source | as written | input that shows it | evidently intended | confidence | as-written member | corrected member |
|---|---|---|---|---|---|---|
| waffle-provider/src/revertString.ts:106-111 | the awaited receipt is passed to `appendRevertString`, which reads `receipt.status` even when the provider resolved `null` | `eth_getTransactionReceipt` for a hash that is unknown or not yet mined: Ganache resolves `null`, and the wrapper rejects with a TypeError | pass `null` through, as the unwrapped provider would, so that pollers waiting for a receipt keep polling | medium; not executed | RevertString.ReceiptBranchAsWritten | RevertString.ReceiptBranch |

## Left out

- The ledger engine (`simulator.NewSimulator` and the backend's
  `CallContract`, `SendTransaction`, `Commit`, `TransactionReceipt`,
  `CodeAt`, `BalanceAt`, `NonceAt`) is foreign code. It is a set of
  uninterpreted functions of the committed chain.
- `getLogs` and `getTransaction` are left out. They only pass opaque
  go-ethereum values through JSON marshalling.
- `toUpper` is left out. It delegates Unicode case mapping to the standard
  library.
- `cgoCurrentMillis`, `cgoSeed` and `cgoRandom` are left out. They read
  the clock and a random source.
- `C.CString` memory ownership and the cgo struct layouts are left out.
  `main.h` is not part of this model, so two field types are assumed:
  - `Gas` is a C integer converted by `uint64()`;
  - `InputStruct.A`/`B` and `OutputStruct` fields are 32-bit C `int`.
- `common.HexToAddress`, `common.HexToHash`, `Address.String` (EIP-55
  checksum), `Transaction.Hash` and `UnmarshalBinary` are uninterpreted
  functions.
- Concurrency and locking are left out. The source has none.
- Go strings are byte strings; here they are sequences of Unicode scalar
  values. In hex digits a non-ASCII character is rejected either way, but
  the `InvalidByte` error carries a character, not a byte.
- Gateway.DropMarker drops two characters, where Go's `s[2:]` drops two
  bytes. The results differ when the marker holds a non-ASCII character:
  Go reads `"éab"` as the byte 0xAB and `"é"` as empty data, where the
  model reports malformed hex and a missing marker.
- RevertString.DecodeRevertString takes the error's `data` as an optional
  string. An error that is itself `null`, or whose `data` is present but
  not a string, makes the source throw a TypeError, which the model does
  not represent.
- JavaScript strings are UTF-16. `substring(138)` counts UTF-16 code units,
  and here it counts scalar values. The two agree on the ASCII hex payloads
  the decoder recognises.
- The asynchronous machinery of the proxy is left out: promises,
  `Web3Provider`, `getTransaction`, `call`, `tx.wait()` and `log`. How a
  replay or a wait ended is a parameter (`Replay`, `Waited`), and a rejected
  promise is a `Failure`.
- Gateway.Registry.NewSimulator: handles are unique on the C side only
  while the counter is below 2^31, because `C.int(id)` wraps. The contract
  states the wrapped value, not uniqueness beyond that bound.
- Gateway.Registry.GetTransactionCount: the nonce is exact only below 2^31,
  because of the same `C.int` narrowing.
- Gateway.FreshSimulatorScenario: requires the counter to be below 2^31,
  so that the returned handle resolves to the new simulator.
- RevertString.ParseInt models `parseInt` without a radix argument on
  strings only. `receipt.status` given as a number is represented by its
  decimal text, which is how `parseInt` converts it.
- RevertString.ParseInt returns an exact unbounded integer. JavaScript's
  `parseInt` returns a double, so above 2^53 its value is rounded:
  `parseInt("0x20000000000001")` is 2^53 there, not 2^53 + 1. The guard at
  revertString.ts:25 only asks whether the value is zero, and that answer
  is the same either way.
- RevertString.ParseIntHex, RevertString.ParseIntDecimal and
  RevertString.StatusTextReadsBack state the exact value for numerals of any
  length. They match JavaScript only for values up to 2^53.
- Utf8.Decode: ethers' error handler can be replaced by a caller. Only its
  default, throwing behaviour is modelled.
