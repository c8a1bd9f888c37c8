/** The collaborators the gateway drives but does not implement: the
    go-ethereum library functions it calls, and the simulated ledger
    (`simulator.Simulator` and its backend). Their behaviour is left
    uninterpreted: each is a total function value supplied from outside,
    so every property proved about the gateway holds whatever they do.
    What the gateway does observe of the ledger is its committed chain of
    blocks and its pending pool, which the backend keeps here. */
module Engine {
  import opened Wrappers
  import opened FixedWidth

  type Address = s: seq<byte> | |s| == 20 witness seq(20, _ => 0)
  type Hash = s: seq<byte> | |s| == 32 witness seq(32, _ => 0)

  /** The zero value of go-ethereum's `common.Address`. */
  const ZeroAddress: Address := seq(20, _ => 0)

  /** A signed transaction as go-ethereum decodes it from its canonical
      binary form; the gateway never builds or alters one. */
  datatype Transaction = Transaction(encoding: seq<byte>)

  /** The transactions one committed block contains, in order. */
  type Block = seq<Transaction>

  /** A `*big.Int` field of a call message: nil, a value, or a non-nil
      pointer whose value `SetString` left undefined after failing. */
  datatype BigField = Unset | Set(value: int) | Undefined

  /** go-ethereum's `ethereum.CallMsg`, with the fields the gateway sets.
      An empty `data` stands for a nil slice too: the engine does not tell
      them apart. */
  datatype CallMsg = CallMsg(
    from: Address,
    to: Option<Address>,
    gas: uint64,
    gasPrice: BigField,
    gasFeeCap: BigField,
    gasTipCap: BigField,
    value: BigField,
    data: seq<byte>)

  /** The fields of go-ethereum's `types.Receipt` that the gateway reads.
      `transactionIndex` is Go's 64-bit `uint`. */
  datatype Receipt = Receipt(
    txType: byte,
    status: uint64,
    cumulativeGasUsed: uint64,
    txHash: Hash,
    contractAddress: Address,
    gasUsed: uint64,
    blockHash: Hash,
    blockNumber: nat,
    transactionIndex: uint64)

  /** go-ethereum library functions: `common.HexToAddress`,
      `common.HexToHash`, `Transaction.UnmarshalBinary` (`None` is its
      error), `Transaction.Hash` and `Address.String` (EIP-55 checksummed
      hex). */
  datatype Library = Library(
    hexToAddress: string -> Address,
    hexToHash: string -> Hash,
    unmarshalBinary: seq<byte> -> Option<Transaction>,
    txHash: Transaction -> Hash,
    addressText: Address -> string)

  /** The simulated ledger's behaviour, as deterministic functions of the
      committed chain (and, for admission, of the pending pool). */
  datatype Rules = Rules(
    chainId: int,
    admit: (seq<Block>, seq<Transaction>, Transaction) -> Option<string>,
    callContract: (seq<Block>, CallMsg) -> Result<seq<byte>, string>,
    receiptOf: (seq<Block>, Hash) -> Option<Receipt>,
    balanceAt: (seq<Block>, Address) -> Result<int, string>,
    codeAt: (seq<Block>, Address) -> Result<seq<byte>, string>,
    nonceAt: (seq<Block>, Address) -> Result<uint64, string>)

  /** The simulated backend of one ledger: the committed blocks after
      genesis, and the transactions sent but not yet committed. */
  class Backend {
    const rules: Rules
    var blocks: seq<Block>
    var pending: seq<Transaction>

    constructor (rules: Rules)
      ensures this.rules == rules && blocks == [] && pending == []
    {
      this.rules := rules;
      blocks := [];
      pending := [];
    }

    /** `SendTransaction`: the ledger either refuses the transaction,
        changing nothing, or adds it to the pending pool. */
    method SendTransaction(tx: Transaction) returns (err: Option<string>)
      modifies this
      ensures err == rules.admit(old(blocks), old(pending), tx)
      ensures blocks == old(blocks)
      ensures pending == if err.None? then old(pending) + [tx] else old(pending)
    {
      err := rules.admit(blocks, pending, tx);
      if err.None? {
        pending := pending + [tx];
      }
    }

    /** `Commit`: seals the pending pool as one new block. */
    method Commit()
      modifies this
      ensures blocks == old(blocks) + [old(pending)] && pending == []
    {
      blocks := blocks + [pending];
      pending := [];
    }
  }
}
