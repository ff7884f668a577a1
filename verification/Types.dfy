/** Transactions, blocks and the constants of qbit_network/config.py. */
module Types {
  import opened Maps
  import opened Hashing

  type Addr = string
  type TxId = string
  type TokenId = string
  type DocHash = string

  const QUBIT_PER_QBIT := 1_000_000_000
  const MAX_SUPPLY := 21_000_000 * QUBIT_PER_QBIT
  const INITIAL_BLOCK_REWARD := 5 * QUBIT_PER_QBIT
  const HALVING_INTERVAL := 2_100_000
  const GENESIS_BALANCE := 2_100_000 * QUBIT_PER_QBIT
  const MIN_STAKE := 1
  const MAX_STAKE := 1_000_000
  const UNBONDING_PERIOD := 100
  const EPOCH_LENGTH := 100
  const SLASH_PERCENTAGE := 50
  const DEFAULT_COMMISSION_RATE := 10
  const MAX_REORG_DEPTH := 32
  const MAX_TX_PER_BLOCK := 200
  const MAX_TX_POOL_SIZE := 10000
  const MAX_TOKEN_AMOUNT := 0x7fff_ffff_ffff_ffff
  const MAX_BLOCK_WEIGHT := 20_000_000
  const TARGET_BLOCK_WEIGHT := MAX_BLOCK_WEIGHT / 2
  const BASE_FEE_CHANGE_DENOM := 8
  const INITIAL_BASE_FEE := 10
  const MIN_BASE_FEE := 1
  const MAX_BASE_FEE := 10_000
  const MAX_SELF_TX_WEIGHT_RATIO := 25

  /** The payload fields the ledger reads. `proofOk` says that both signatures of the evidence
      verify under the accused validator's registered key; `tokenId` of IssueToken is
      sha3_256(sender + symbol + nonce)[:32 hex digits]. */
  datatype Payload =
    | RegisterKey
    | RegisterValidator(commission: Option<int>)
    | RevokeKey(keyType: string)
    | Notarize(documentHash: DocHash)
    | Store
    | Share(recipient: Addr)
    | Stake(validator: Addr, amount: int)
    | Delegate(validator: Addr, amount: int)
    | Unstake(validator: Addr, amount: int)
    | Evidence(validator: Addr, proofOk: bool)
    | Transfer(recipient: Addr, amount: int)
    | IssueToken(tokenId: TokenId, symbol: string, maxSupply: int, transferable: bool)
    | MintToken(tokenId: TokenId, recipient: Addr, amount: int)
    | TransferToken(tokenId: TokenId, recipient: Addr, amount: int)

  datatype Tx = Tx(id: TxId, sender: Addr, nonce: int, maxFee: int, maxPriority: int, payload: Payload)

  /** `headerOk` stands for the checks of a block that look only at its header, its proposer
      and its signatures; the empty state root of a block is None. */
  datatype Block = Block(index: nat, validator: Addr, baseFee: int, txs: seq<Tx>, stateRoot: Option<Digest>,
    headerOk: bool)

  /** What `validate_payload` guarantees of the amounts. */
  predicate ValidPayload(tx: Tx) {
    match tx.payload
    case Stake(v, a) => MIN_STAKE <= a <= MAX_STAKE && v != ""
    case Delegate(v, a) => MIN_STAKE <= a <= MAX_STAKE && v != ""
    case Unstake(v, a) => MIN_STAKE <= a <= MAX_STAKE && v != ""
    case Transfer(r, a) => 0 < a <= MAX_SUPPLY && r != "" && r != tx.sender
    case MintToken(t, r, a) => 0 < a <= MAX_SUPPLY && r != ""
    case TransferToken(t, r, a) => 0 < a <= MAX_SUPPLY && r != "" && r != tx.sender
    case IssueToken(t, s, m, f) => 0 <= m <= MAX_TOKEN_AMOUNT && s != ""
    case RegisterValidator(c) => c.Some? ==> 0 <= c.value <= 100
    case Notarize(d) => d != ""
    case _ => true
  }

  predicate ValidPayloads(txs: seq<Tx>) { forall i | 0 <= i < |txs| :: ValidPayload(txs[i]) }

  predicate DistinctIds(txs: seq<Tx>) {
    forall i, j | 0 <= i < j < |txs| :: txs[i].id != txs[j].id
  }

  function LegacyFee(p: Payload): nat {
    match p
    case Transfer(_, _) => 1_000_000
    case Notarize(_) => 10_000_000
    case Store => 20_000_000
    case Share(_) => 10_000_000
    case RegisterKey => 100_000_000
    case RegisterValidator(_) => 1_000_000_000
    case Stake(_, _) => 10_000_000
    case Delegate(_, _) => 10_000_000
    case Unstake(_, _) => 10_000_000
    case RevokeKey(_) => 0
    case Evidence(_, _) => 0
    case IssueToken(_, _, _, _) => 500_000_000
    case MintToken(_, _, _) => 10_000_000
    case TransferToken(_, _, _) => 1_000_000
  }

  function Weight(p: Payload): nat {
    match p
    case Transfer(_, _) => 100_000
    case Notarize(_) => 1_000_000
    case Store => 2_000_000
    case Share(_) => 1_000_000
    case RegisterKey => 10_000_000
    case RegisterValidator(_) => 100_000_000
    case Stake(_, _) => 1_000_000
    case Delegate(_, _) => 1_000_000
    case Unstake(_, _) => 1_000_000
    case RevokeKey(_) => 0
    case Evidence(_, _) => 0
    case IssueToken(_, _, _, _) => 50_000_000
    case MintToken(_, _, _) => 1_000_000
    case TransferToken(_, _, _) => 100_000
  }
}
