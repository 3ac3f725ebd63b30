/** The values that the ledger, the mempool, the wallet and the network pass around. */
module Types {
  const U32_LIMIT: nat := 0x1_0000_0000
  const U64_LIMIT: nat := 0x1_0000_0000_0000_0000
  const U128_LIMIT: nat := 0x1_0000_0000_0000_0000_0000_0000_0000_0000

  type byte = n: int | 0 <= n < 0x100
  type u32 = n: int | 0 <= n < 0x1_0000_0000
  type u64 = n: int | 0 <= n < 0x1_0000_0000_0000_0000
  type u128 = n: int | 0 <= n < 0x1_0000_0000_0000_0000_0000_0000_0000_0000

  const MAX_U64: u64 := 0xFFFF_FFFF_FFFF_FFFF

  /** A 32-byte digest, read as one number with its first byte most significant,
      so that `<` on digests is the byte-wise order of the arrays. */
  type Digest = n: int
    | 0 <= n < 0x1_0000_0000_0000_0000_0000_0000_0000_0000_0000_0000_0000_0000_0000_0000_0000_0000

  type Bytes = seq<byte>

  datatype Option<+T> = None | Some(value: T)

  datatype Error =
    | BlockKnown
    | PreviousMissing
    | NoTransactions
    | HeightMismatch
    | PreviousHashMismatch
    | TimestampBackwards
    | GenesisHeight
    | BadMerkleRoot
    | ProofOfWork
    | NoPath
    | BlockMissing
    | FirstNotCoinbase
    | ExtraCoinbase
    | FeeOverflow
    | RewardOverflow
    | RewardTooLarge
    | NoOutputs
    | DuplicateInputs
    | ZeroOutput
    | InputMissing
    | NoPublicKey
    | WrongOwner
    | InputOverflow
    | OutputsExceedInputs
    | NoInputs
    | AlreadyConfirmed
    | AlreadyPooled
    | FeeTooLow
    | Conflict
    | PoolFull
    | NoBestChain
    | BadRecipient
    | ZeroAmount
    | AmountOverflow
    | SelectionOverflow
    | InsufficientFunds

  /** `Trap` is the panic of an arithmetic overflow in a build with overflow checks. */
  datatype Result<+T> = Ok(value: T) | Err(error: Error) | Trap {
    predicate IsFailure() {
      !Ok?
    }

    function PropagateFailure<U>(): Result<U>
      requires IsFailure()
    {
      match this
      case Err(e) => Err(e)
      case Trap => Trap
    }

    function Extract(): T
      requires Ok?
    {
      value
    }
  }

  datatype OutPoint = OutPoint(txid: Digest, vout: u32)

  datatype TxInput = TxInput(previousOutput: OutPoint, scriptSig: Bytes, sequence: u32)

  datatype TxOutput = TxOutput(value: u64, scriptPubkey: Bytes)

  datatype Transaction = Transaction(version: u32, inputs: seq<TxInput>, outputs: seq<TxOutput>, lockTime: u64)

  /** Transaction::new */
  function NewTransaction(inputs: seq<TxInput>, outputs: seq<TxOutput>): Transaction {
    Transaction(1, inputs, outputs, 0)
  }

  datatype BlockHeader = BlockHeader(
    previousBlockHash: Digest,
    merkleRoot: Digest,
    timestamp: u64,
    bits: u32,
    nonce: u64,
    height: u64)

  datatype Block = Block(header: BlockHeader, transactions: seq<Transaction>)

  datatype Utxo = Utxo(output: TxOutput, blockHeight: u64, isCoinbase: bool)

  type UtxoSet = map<OutPoint, Utxo>

  /** What the ledger rules run on: the foreign functions, about which nothing is known (a theorem
      that needs them collision-free says so; `owner` is `address_from_script_sig`), and whether the
      build checks the overflow of plain u64 arithmetic or wraps around. */
  datatype Host = Host(
    txid: Transaction -> Digest,
    block: BlockHeader -> Digest,
    pair: (Digest, Digest) -> Digest,
    owner: Bytes -> Option<Bytes>,
    overflowChecks: bool)
  {
    /** The result of u64 arithmetic that the source leaves unchecked. */
    function Plain(n: nat): Result<u64> {
      if n < U64_LIMIT then Ok(n) else if overflowChecks then Trap else Ok(n % U64_LIMIT)
    }
  }

  function SaturatingAdd(a: u64, b: u64): u64 {
    if a + b < U64_LIMIT then a + b else MAX_U64
  }

  function SaturatingMul(a: u64, b: u64): u64 {
    if a * b < U64_LIMIT then a * b else MAX_U64
  }

  function SaturatingSub(a: u64, b: u64): u64 {
    if a < b then 0 else a - b
  }

  function DivCeil(a: nat, b: nat): nat
    requires b > 0
  {
    (a + b - 1) / b
  }
}
