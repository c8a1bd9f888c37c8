/** The simulator registry and the request/response translation of
    `waffle-geth/go/main/main.go`: a process-wide table from integer handles
    to simulator instances, and the exported functions that decode the
    loosely typed cgo requests, drive the resolved simulator, and encode its
    results as text. Every `log.Fatal` and Go runtime panic of the source is
    an `Error` result here. */
module Gateway {
  import opened Wrappers
  import opened FixedWidth
  import opened HexCodec
  import opened BigText
  import opened Engine

  datatype Error =
    | UnknownSimulator(id: int)              // "simulator with %d does not exist"
    | EngineConstructionFailure(reason: string)
    | MissingPrefix                          // `s[2:]` on a string shorter than 2: a Go panic
    | MalformedHex(cause: HexError)
    | MalformedTransaction                   // `UnmarshalBinary` failed
    | TransactionRejected(reason: string)    // `SendTransaction` failed
    | ExecutionReverted(reason: string)      // `CallContract` failed
    | ReceiptUnavailable                     // `TransactionReceipt` failed after the commit
    | QueryFailed(reason: string)            // `CodeAt`, `BalanceAt` or `NonceAt` failed

  /** The cgo `TransactionRequest` struct as `call` reads it: each `char *`
      field may be NULL. */
  datatype TransactionRequest = TransactionRequest(
    from: Option<string>,
    to: Option<string>,
    gas: int,
    gasPrice: Option<string>,
    gasFeeCap: Option<string>,
    gasTipCap: Option<string>,
    data: Option<string>)

  /** `C.GoString`: a NULL pointer reads as the empty string. */
  function GoString(p: Option<string>): (s: string)
    ensures p.Some? ==> s == p.value
    ensures p.None? ==> s == ""
  {
    if p.Some? then p.value else ""
  }

  /** `s[2:]`: drops the two-character marker, whatever its characters;
      Go panics on a shorter string. */
  function DropMarker(s: string): (r: Result<string, Error>)
    ensures r.Success? <==> |s| >= 2
    ensures r.Success? ==> s == s[..2] + r.value
    ensures r.Failure? ==> r.error == MissingPrefix
  {
    if |s| < 2 then Failure(MissingPrefix) else Success(s[2..])
  }

  /** `hex.DecodeString(s[2:])`, the hex payload behind a marker. */
  function DecodePayload(s: string): (r: Result<seq<byte>, Error>)
    ensures r.Success? <==> |s| >= 2 && |s| % 2 == 0 && AllDigits(s[2..])
    ensures r.Success? ==> EncodeHex(r.value) == LowerAll(s[2..])
    ensures r.Failure? ==> r.error.MissingPrefix? || r.error.MalformedHex?
  {
    match DropMarker(s)
    case Failure(e) => Failure(e)
    case Success(digits) =>
      DecodeHexSucceedsIff(digits);
      match DecodeHex(digits)
      case Failure(e) => Failure(MalformedHex(e))
      case Success(b) => EncodeDecode(digits); Success(b)
  }

  /** Any marker followed by the hex of some bytes decodes to those bytes. */
  lemma PayloadRoundTrip(marker: string, b: seq<byte>)
    requires |marker| == 2
    ensures DecodePayload(marker + EncodeHex(b)) == Success(b)
  {
    assert (marker + EncodeHex(b))[2..] == EncodeHex(b);
    DecodeEncode(b);
  }

  /** `big.NewInt(0).SetString(text, 16)` with its result ignored: the
      parsed value, or a non-nil pointer to an undefined value. */
  function SetStringInto(text: string): (f: BigField)
    ensures f.Set? || f.Undefined?
    ensures f.Set? <==> SetString(text, 16).Some?
    ensures f.Set? ==> SetString(text, 16) == Some(f.value)
  {
    match SetString(text, 16)
    case Some(v) => Set(v)
    case None => Undefined
  }

  /** A gas-pricing field of `call`: the empty string leaves it nil. */
  function GasField(text: string): (f: BigField)
    ensures f.Unset? <==> text == ""
    ensures text != "" ==> f == SetStringInto(text)
  {
    if text == "" then Unset else SetStringInto(text)
  }

  /** A value written as base-16 text reaches the engine unchanged, and
      the empty text never becomes zero. */
  lemma {:induction false} GasFieldRoundTrip(v: int)
    ensures GasField(Text(v, 16)) == Set(v)
    ensures GasField("") != Set(0)
  {
    TextRoundTrip(v, 16);
  }

  /** The call message `call` builds from a request, or the error that
      stops it before the engine is reached. */
  function Translate(lib: Library, req: TransactionRequest): (r: Result<CallMsg, Error>)
    ensures r.Failure? <==> req.data.Some? && DecodePayload(req.data.value).Failure?
    ensures r.Failure? ==> r.error.MissingPrefix? || r.error.MalformedHex?
    ensures r.Success? && req.data.Some? ==> EncodeHex(r.value.data) == LowerAll(req.data.value[2..])
  {
    var data := if req.data.Some? then DecodePayload(req.data.value) else Success([]);
    match data
    case Failure(e) => Failure(e)
    case Success(bytes) =>
      Success(CallMsg(
        from := if req.from.Some? then lib.hexToAddress(req.from.value) else ZeroAddress,
        to := if req.to.Some? then Some(lib.hexToAddress(req.to.value)) else None,
        gas := ToUint64(req.gas),
        gasPrice := GasField(GoString(req.gasPrice)),
        gasFeeCap := GasField(GoString(req.gasFeeCap)),
        gasTipCap := GasField(GoString(req.gasTipCap)),
        value := Unset,
        data := bytes))
  }

  /** `call`'s construction of `callMsg`, field after field. */
  method BuildCallMsg(lib: Library, req: TransactionRequest) returns (r: Result<CallMsg, Error>)
    ensures r == Translate(lib, req)
  {
    var callMsg := CallMsg(ZeroAddress, None, 0, Unset, Unset, Unset, Unset, []);
    if req.from.Some? {
      callMsg := callMsg.(from := lib.hexToAddress(req.from.value));
    }
    if req.to.Some? {
      var temp := lib.hexToAddress(req.to.value);
      callMsg := callMsg.(to := Some(temp));
    }
    callMsg := callMsg.(gas := ToUint64(req.gas));

    var gasPrice := GoString(req.gasPrice);
    if gasPrice != "" {
      callMsg := callMsg.(gasPrice := SetStringInto(gasPrice));
    }
    var gasFeeCap := GoString(req.gasFeeCap);
    if gasFeeCap != "" {
      callMsg := callMsg.(gasFeeCap := SetStringInto(gasFeeCap));
    }
    var gasTipCap := GoString(req.gasTipCap);
    if gasTipCap != "" {
      callMsg := callMsg.(gasTipCap := SetStringInto(gasTipCap));
    }

    if req.data.Some? {
      var data := DecodePayload(req.data.value);
      if data.Failure? {
        return Failure(data.error);
      }
      callMsg := callMsg.(data := data.value);
    }
    return Success(callMsg);
  }

  /** The field rules of `call`: an absent sender is the zero address, an
      absent recipient stays nil and a present one does not, the gas limit
      is always copied, each pricing field is nil exactly when its text is
      empty, the value is never set, and only the input data can fail. */
  lemma TranslateFields(lib: Library, req: TransactionRequest)
    ensures Translate(lib, req).Failure? <==>
      req.data.Some? && !(|req.data.value| >= 2 && |req.data.value| % 2 == 0 && AllDigits(req.data.value[2..]))
    ensures Translate(lib, req).Success? ==>
      var m := Translate(lib, req).value;
      && (req.from.None? ==> m.from == ZeroAddress)
      && (req.from.Some? ==> m.from == lib.hexToAddress(req.from.value))
      && (m.to.Some? <==> req.to.Some?)
      && (0 <= req.gas < TWO_64 ==> m.gas == req.gas)
      && (m.gasPrice.Unset? <==> GoString(req.gasPrice) == "")
      && (m.gasFeeCap.Unset? <==> GoString(req.gasFeeCap) == "")
      && (m.gasTipCap.Unset? <==> GoString(req.gasTipCap) == "")
      && m.value.Unset?
      && (req.data.None? ==> m.data == [])
  {
  }

  /** The three pricing fields are handled independently: changing the text
      of one leaves the other two, and everything else, as they were; no
      combination of them is refused. */
  lemma PricingFieldsIndependent(lib: Library, req: TransactionRequest,
                                  price: Option<string>, feeCap: Option<string>, tipCap: Option<string>)
    requires Translate(lib, req).Success?
    ensures Translate(lib, req.(gasPrice := price)).Success?
    ensures Translate(lib, req.(gasPrice := price)).value
         == Translate(lib, req).value.(gasPrice := GasField(GoString(price)))
    ensures Translate(lib, req.(gasFeeCap := feeCap)).Success?
    ensures Translate(lib, req.(gasFeeCap := feeCap)).value
         == Translate(lib, req).value.(gasFeeCap := GasField(GoString(feeCap)))
    ensures Translate(lib, req.(gasTipCap := tipCap)).Success?
    ensures Translate(lib, req.(gasTipCap := tipCap)).value
         == Translate(lib, req).value.(gasTipCap := GasField(GoString(tipCap)))
  {
  }

  /** The result of `call` as a function of the ledger it runs against. */
  function CallResult(lib: Library, rules: Rules, blocks: seq<Block>, req: TransactionRequest): (r: Result<string, Error>)
    ensures Translate(lib, req).Failure? ==> r == Failure(Translate(lib, req).error)
    ensures Translate(lib, req).Success? && rules.callContract(blocks, Translate(lib, req).value).Failure? ==>
      r == Failure(ExecutionReverted(rules.callContract(blocks, Translate(lib, req).value).error))
    ensures r.Failure? ==> r.error.MissingPrefix? || r.error.MalformedHex? || r.error.ExecutionReverted?
    ensures r.Failure? && r.error.ExecutionReverted? ==>
      Translate(lib, req).Success? && rules.callContract(blocks, Translate(lib, req).value).Failure?
    ensures r.Success? ==>
      Translate(lib, req).Success? && rules.callContract(blocks, Translate(lib, req).value).Success?
      && |r.value| == 2 * |rules.callContract(blocks, Translate(lib, req).value).value|
  {
    match Translate(lib, req)
    case Failure(e) => Failure(e)
    case Success(m) =>
      match rules.callContract(blocks, m)
      case Failure(reason) => Failure(ExecutionReverted(reason))
      case Success(output) => Success(EncodeHex(output))
  }

  /** Malformed input data fails the same way whatever the engine would do:
      the failure is reached before the engine is called. */
  lemma MalformedInputBeforeEngine(lib: Library, rules1: Rules, blocks1: seq<Block>,
                                   rules2: Rules, blocks2: seq<Block>, req: TransactionRequest)
    requires Translate(lib, req).Failure?
    ensures CallResult(lib, rules1, blocks1, req) == CallResult(lib, rules2, blocks2, req)
    ensures CallResult(lib, rules1, blocks1, req).error.MissingPrefix?
         || CallResult(lib, rules1, blocks1, req).error.MalformedHex?
  {
  }

  /** The hex text `call` returns decodes to exactly the engine's output. */
  lemma {:induction false} CallOutputRoundTrip(lib: Library, rules: Rules, blocks: seq<Block>, req: TransactionRequest)
    requires CallResult(lib, rules, blocks, req).Success?
    ensures Translate(lib, req).Success?
    ensures rules.callContract(blocks, Translate(lib, req).value).Success?
    ensures DecodeHex(CallResult(lib, rules, blocks, req).value)
         == Success(rules.callContract(blocks, Translate(lib, req).value).value)
  {
    DecodeEncode(rules.callContract(blocks, Translate(lib, req).value).value);
  }

  /** The transaction `sendTransaction` decodes from its text argument. */
  function DecodeTransaction(lib: Library, txData: string): (r: Result<Transaction, Error>)
    ensures r.Failure? ==> r.error.MissingPrefix? || r.error.MalformedHex? || r.error.MalformedTransaction?
  {
    match DecodePayload(txData)
    case Failure(e) => Failure(e)
    case Success(bytes) =>
      match lib.unmarshalBinary(bytes)
      case None => Failure(MalformedTransaction)
      case Some(tx) => Success(tx)
  }

  /** Any marker, then the hex of a transaction's binary form: the marker
      is dropped and the bytes reach `UnmarshalBinary` intact. */
  lemma {:induction false} TransactionPayloadRoundTrip(lib: Library, marker: string, raw: seq<byte>)
    requires |marker| == 2
    ensures DecodeTransaction(lib, marker + EncodeHex(raw))
         == if lib.unmarshalBinary(raw).Some? then Success(lib.unmarshalBinary(raw).value)
            else Failure(MalformedTransaction)
  {
    PayloadRoundTrip(marker, raw);
  }

  /** `Hash.String()`: `0x` and 64 lower-case hex digits. */
  function HashText(h: Hash): (s: string)
    ensures |s| == 66 && s[..2] == "0x"
    ensures DecodeHex(s[2..]) == Success(h)
  {
    DecodeEncode(h);
    "0x" + EncodeHex(h)
  }

  /** The cgo `TransactionReceipt` record `sendTransaction` returns. */
  datatype ReceiptRecord = ReceiptRecord(
    txType: byte,
    status: uint64,
    cumulativeGasUsed: uint64,
    txHash: string,
    contractAddress: string,
    gasUsed: uint64,
    blockHash: string,
    blockNumber: string,
    transactionIndex: uint32)

  /** The flattening of a receipt: numeric fields copied, hashes and the
      contract address as text, the block number as base-16 text, and the
      index narrowed to C's 32-bit `unsigned int`. */
  function EncodeReceipt(lib: Library, rc: Receipt): (rec: ReceiptRecord)
    ensures rec.txType == rc.txType && rec.status == rc.status
    ensures rec.cumulativeGasUsed == rc.cumulativeGasUsed && rec.gasUsed == rc.gasUsed
    ensures rec.txHash == HashText(rc.txHash) && rec.blockHash == HashText(rc.blockHash)
    ensures rec.contractAddress == lib.addressText(rc.contractAddress)
    ensures SetString(rec.blockNumber, 16) == Some(rc.blockNumber)
    ensures rc.transactionIndex < TWO_32 ==> rec.transactionIndex == rc.transactionIndex
    ensures (rec.transactionIndex - rc.transactionIndex) % TWO_32 == 0
  {
    TextRoundTrip(rc.blockNumber, 16);
    ReceiptRecord(
      txType := rc.txType,
      status := rc.status,
      cumulativeGasUsed := rc.cumulativeGasUsed,
      txHash := HashText(rc.txHash),
      contractAddress := lib.addressText(rc.contractAddress),
      gasUsed := rc.gasUsed,
      blockHash := HashText(rc.blockHash),
      blockNumber := Text(rc.blockNumber, 16),
      transactionIndex := ToUint32(rc.transactionIndex))
  }

  /** One simulator instance: an isolated ledger behind its backend. */
  class Simulator {
    const backend: Backend

    /** `simulator.NewSimulator`: a fresh ledger at genesis. */
    constructor (rules: Rules)
      ensures fresh(backend)
      ensures backend.rules == rules && backend.blocks == [] && backend.pending == []
    {
      backend := new Backend(rules);
    }
  }

  /** The process-wide state of main.go: the table `simulators` and the
      counter `nextSimulatorID`, with the exported functions that use them. */
  class Registry {
    const lib: Library
    var simulators: map<int, Simulator>
    var nextSimulatorId: int

    function Backends(): set<Backend>
      reads this
    {
      set id | id in simulators :: simulators[id].backend
    }

    /** The handles issued so far are exactly 0 .. nextSimulatorId - 1,
        distinct handles hold independent ledgers, and no ledger has a
        transaction waiting outside a block. */
    ghost predicate Valid()
      reads this, Backends()
    {
      && nextSimulatorId >= 0
      && (forall id :: id in simulators <==> 0 <= id < nextSimulatorId)
      && (forall i, j :: i in simulators && j in simulators && i != j ==>
            simulators[i].backend != simulators[j].backend)
      && (forall id :: id in simulators ==> simulators[id].backend.pending == [])
    }

    constructor (lib: Library)
      ensures Valid()
      ensures this.lib == lib && simulators == map[] && nextSimulatorId == 0
    {
      this.lib := lib;
      simulators := map[];
      nextSimulatorId := 0;
    }

    /** `newSimulator`: stores the new instance under the current counter
        value, returns that value as a C `int`, and advances the counter by
        one; earlier entries are untouched. `created` is the outcome of
        `simulator.NewSimulator()`. */
    method NewSimulator(created: Result<Rules, string>) returns (r: Result<int32, Error>)
      requires Valid()
      modifies this
      ensures Valid()
      ensures created.Failure? ==>
        && r == Failure(EngineConstructionFailure(created.error))
        && simulators == old(simulators) && nextSimulatorId == old(nextSimulatorId)
      ensures created.Success? ==>
        var id := old(nextSimulatorId);
        && r == Success(ToInt32(id))
        && (id < TWO_31 ==> r.value == id)
        && nextSimulatorId == id + 1
        && id in simulators && id !in old(simulators)
        && simulators == old(simulators)[id := simulators[id]]
        && fresh(simulators[id]) && fresh(simulators[id].backend)
        && simulators[id].backend.rules == created.value
        && simulators[id].backend.blocks == []
    {
      if created.Failure? {
        return Failure(EngineConstructionFailure(created.error));
      }
      var sim := new Simulator(created.value);
      var id := nextSimulatorId;
      simulators := simulators[id := sim];
      nextSimulatorId := nextSimulatorId + 1;
      r := Success(ToInt32(id));
    }

    /** `getSimulator`: exactly the stored instance, or the "does not
        exist" failure for a handle never issued. */
    method GetSimulator(simId: int32) returns (r: Result<Simulator, Error>)
      ensures simId in simulators ==> r == Success(simulators[simId])
      ensures simId !in simulators ==> r == Failure(UnknownSimulator(simId))
    {
      if simId !in simulators {
        return Failure(UnknownSimulator(simId));
      }
      return Success(simulators[simId]);
    }

    /** `getBlockNumber`: the latest block number as base-10 text. */
    method GetBlockNumber(simId: int32) returns (r: Result<string, Error>)
      ensures simId !in simulators ==> r == Failure(UnknownSimulator(simId))
      ensures simId in simulators ==>
        r == Success(Text(|simulators[simId].backend.blocks|, 10))
        && SetString(r.value, 10) == Some(|simulators[simId].backend.blocks|)
    {
      var found := GetSimulator(simId);
      if found.Failure? {
        return Failure(found.error);
      }
      var bn := |found.value.backend.blocks|;
      TextRoundTrip(bn, 10);
      return Success(Text(bn, 10));
    }

    /** `getCode`: the account's code as hex text without a marker. */
    method GetCode(simId: int32, account: string) returns (r: Result<string, Error>)
      ensures simId !in simulators ==> r == Failure(UnknownSimulator(simId))
      ensures simId in simulators ==>
        var b := simulators[simId].backend;
        var code := b.rules.codeAt(b.blocks, lib.hexToAddress(account));
        && (code.Failure? ==> r == Failure(QueryFailed(code.error)))
        && (code.Success? ==> r.Success? && DecodeHex(r.value) == Success(code.value))
    {
      var found := GetSimulator(simId);
      if found.Failure? {
        return Failure(found.error);
      }
      var b := found.value.backend;
      var code := b.rules.codeAt(b.blocks, lib.hexToAddress(account));
      if code.Failure? {
        return Failure(QueryFailed(code.error));
      }
      DecodeEncode(code.value);
      return Success(EncodeHex(code.value));
    }

    /** `getChainID`: the chain identifier as base-10 text. */
    method GetChainId(simId: int32) returns (r: Result<string, Error>)
      ensures simId !in simulators ==> r == Failure(UnknownSimulator(simId))
      ensures simId in simulators ==>
        r == Success(Text(simulators[simId].backend.rules.chainId, 10))
        && SetString(r.value, 10) == Some(simulators[simId].backend.rules.chainId)
    {
      var found := GetSimulator(simId);
      if found.Failure? {
        return Failure(found.error);
      }
      var chainId := found.value.backend.rules.chainId;
      TextRoundTrip(chainId, 10);
      return Success(Text(chainId, 10));
    }

    /** `getBalance`: the balance as base-10 text. */
    method GetBalance(simId: int32, account: string) returns (r: Result<string, Error>)
      ensures simId !in simulators ==> r == Failure(UnknownSimulator(simId))
      ensures simId in simulators ==>
        var b := simulators[simId].backend;
        var bal := b.rules.balanceAt(b.blocks, lib.hexToAddress(account));
        && (bal.Failure? ==> r == Failure(QueryFailed(bal.error)))
        && (bal.Success? ==> r == Success(Text(bal.value, 10)) && SetString(r.value, 10) == Some(bal.value))
    {
      var found := GetSimulator(simId);
      if found.Failure? {
        return Failure(found.error);
      }
      var b := found.value.backend;
      var bal := b.rules.balanceAt(b.blocks, lib.hexToAddress(account));
      if bal.Failure? {
        return Failure(QueryFailed(bal.error));
      }
      TextRoundTrip(bal.value, 10);
      return Success(Text(bal.value, 10));
    }

    /** `getTransactionCount`: the nonce, narrowed to a C `int`. */
    method GetTransactionCount(simId: int32, account: string) returns (r: Result<int32, Error>)
      ensures simId !in simulators ==> r == Failure(UnknownSimulator(simId))
      ensures simId in simulators ==>
        var b := simulators[simId].backend;
        var count := b.rules.nonceAt(b.blocks, lib.hexToAddress(account));
        && (count.Failure? ==> r == Failure(QueryFailed(count.error)))
        && (count.Success? ==> r.Success? && (r.value - count.value) % TWO_32 == 0)
        && (count.Success? && count.value < TWO_31 ==> r == Success(count.value))
    {
      var found := GetSimulator(simId);
      if found.Failure? {
        return Failure(found.error);
      }
      var b := found.value.backend;
      var count := b.rules.nonceAt(b.blocks, lib.hexToAddress(account));
      if count.Failure? {
        return Failure(QueryFailed(count.error));
      }
      return Success(ToInt32(count.value));
    }

    /** `call`: a read-only evaluation (the method may change nothing)
        whose result is `CallResult` against the resolved ledger. */
    method Call(simId: int32, msg: TransactionRequest) returns (r: Result<string, Error>)
      ensures simId !in simulators ==> r == Failure(UnknownSimulator(simId))
      ensures simId in simulators ==>
        var b := simulators[simId].backend;
        r == CallResult(lib, b.rules, b.blocks, msg)
    {
      var found := GetSimulator(simId);
      if found.Failure? {
        return Failure(found.error);
      }
      var b := found.value.backend;
      var callMsg := BuildCallMsg(lib, msg);
      if callMsg.Failure? {
        return Failure(callMsg.error);
      }
      var res := b.rules.callContract(b.blocks, callMsg.value);
      if res.Failure? {
        return Failure(ExecutionReverted(res.error));
      }
      return Success(EncodeHex(res.value));
    }

    /** `sendTransaction`: decode, send, commit exactly once, then fetch and
        flatten the receipt. A decoding or sending failure leaves the ledger
        as it was; a sent transaction ends up alone in one new block. */
    method SendTransaction(simId: int32, txData: string) returns (r: Result<ReceiptRecord, Error>)
      requires Valid()
      modifies if simId in simulators then {simulators[simId].backend} else {}
      ensures Valid()
      ensures simId !in simulators ==> r == Failure(UnknownSimulator(simId))
      ensures simId in simulators ==>
        var b := simulators[simId].backend;
        var decoded := DecodeTransaction(lib, txData);
        if decoded.Failure? then
          r == Failure(decoded.error) && b.blocks == old(b.blocks) && b.pending == []
        else
          var tx := decoded.value;
          var refusal := b.rules.admit(old(b.blocks), [], tx);
          if refusal.Some? then
            r == Failure(TransactionRejected(refusal.value)) && b.blocks == old(b.blocks) && b.pending == []
          else
            && b.blocks == old(b.blocks) + [[tx]]
            && b.pending == []
            && var receipt := b.rules.receiptOf(b.blocks, lib.txHash(tx));
               r == if receipt.Some? then Success(EncodeReceipt(lib, receipt.value)) else Failure(ReceiptUnavailable)
    {
      var found := GetSimulator(simId);
      if found.Failure? {
        return Failure(found.error);
      }
      var b := found.value.backend;
      assert b.pending == [];

      var bytes := DecodePayload(txData);
      if bytes.Failure? {
        return Failure(bytes.error);
      }
      var tx := lib.unmarshalBinary(bytes.value);
      if tx.None? {
        return Failure(MalformedTransaction);
      }

      var err := b.SendTransaction(tx.value);
      if err.Some? {
        return Failure(TransactionRejected(err.value));
      }
      assert b.pending == [tx.value];

      b.Commit();

      var receipt := b.rules.receiptOf(b.blocks, lib.txHash(tx.value));
      if receipt.None? {
        return Failure(ReceiptUnavailable);
      }
      return Success(EncodeReceipt(lib, receipt.value));
    }
  }

  /** The scenario of a fresh simulator: its block number reads "0", and
      one transaction sent to it leaves it at "0" or advances it to
      exactly "1". */
  method FreshSimulatorScenario(reg: Registry, rules: Rules, txData: string)
      returns (before: Result<string, Error>, after: Result<string, Error>)
    requires reg.Valid() && reg.nextSimulatorId < TWO_31
    modifies reg, reg.Backends()
    ensures before == Success("0")
    ensures after == Success("0") || after == Success("1")
  {
    var h := reg.NewSimulator(Success(rules));
    before := reg.GetBlockNumber(h.value);
    var receipt := reg.SendTransaction(h.value, txData);
    after := reg.GetBlockNumber(h.value);
  }

  /** Two creations in a new process: handles 0 and 1, and a transaction
      sent to the first leaves the second ledger at block "0". */
  method TwoSimulatorsScenario(lib: Library, rules: Rules, txData: string)
      returns (first: Result<int32, Error>, second: Result<int32, Error>, untouched: Result<string, Error>)
    ensures first == Success(0) && second == Success(1)
    ensures untouched == Success("0")
  {
    var reg := new Registry(lib);
    first := reg.NewSimulator(Success(rules));
    second := reg.NewSimulator(Success(rules));
    var receipt := reg.SendTransaction(0, txData);
    untouched := reg.GetBlockNumber(1);
  }
}
