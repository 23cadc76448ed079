/** Primitive types of the test runtime: integer widths, storage keys and values,
    extrinsics, headers, blocks, the results the runtime hands back, and the external
    collaborators (signatures, hashing, encoding, trie commitments) it calls into. */
module Types {

  const U32_LIMIT: int := 0x1_0000_0000
  const U64_LIMIT: int := 0x1_0000_0000_0000_0000

  type byte = x: int | 0 <= x < 256
  type Bytes = seq<byte>
  type u32 = x: int | 0 <= x < U32_LIMIT
  type u64 = x: int | 0 <= x < U64_LIMIT

  type AccountId = Bytes
  type AuthorityId = Bytes
  type Hash = Bytes
  type EngineId = Bytes

  /** The two consensus engine identifiers the runtime notifies of a new authority set. */
  const AURA: EngineId := [0x61, 0x75, 0x72, 0x61]  // "aura"
  const BABE: EngineId := [0x62, 0x61, 0x62, 0x65]  // "babe"

  /** The longevity the pool is told for every valid transfer, and the width of the
      nonce window it admits. */
  const TRANSACTION_LONGEVITY: u64 := 64
  const NONCE_WINDOW: u64 := 64

  datatype Option<T> = None | Some(value: T)

  /** One variant per storage slot the runtime touches. The per-account slots stand for
      the blake2-hashed "nonce:" and "balance:" keys; giving them their own variants makes
      the key derivation injective by construction. */
  datatype Key =
    | Nonce(who: AccountId)
    | Balance(who: AccountId)
    | Raw(bytes: Bytes)
    | ExtrinsicIndex
    | ExtrinsicData(index: u32)
    | Number
    | ParentHash
    | NewAuthorities
    | Digest

  /** A stored value, already decoded at the type its slot is declared with. */
  datatype Value =
    | U32Val(n32: u32)
    | U64Val(n64: u64)
    | HashVal(hash: Hash)
    | BytesVal(bytes: Bytes)
    | AuthoritiesVal(authorities: seq<AuthorityId>)
    | DigestVal(logs: seq<DigestItem>)

  type Storage = map<Key, Value>

  datatype Transfer = Transfer(from: AccountId, to: AccountId, amount: u64, nonce: u64)

  datatype Extrinsic =
    | TransferTx(transfer: Transfer, signature: Bytes)
    | AuthoritiesChange(newAuthorities: seq<AuthorityId>)
    | IncludeData(data: Bytes)
    | StorageChange(key: Bytes, newValue: Option<Bytes>)

  datatype DigestItem =
    | ChangesTrieRoot(root: Hash)
    | Consensus(engine: EngineId, payload: Bytes)
    | Other(data: Bytes)

  datatype Header = Header(
    number: u64,
    parentHash: Hash,
    stateRoot: Hash,
    extrinsicsRoot: Hash,
    digest: seq<DigestItem>)

  datatype Block = Block(header: Header, extrinsics: seq<Extrinsic>)

  /** The recoverable rejections a transaction can meet. */
  datatype InvalidTransaction = BadProof | Stale | Future | Payment

  /** The inner result of applying an extrinsic: dispatched, or included but failed. */
  datatype DispatchOutcome = Dispatched | DispatchFailed

  /** `Ok(inner)`: the extrinsic was applied; `Err(e)`: it could not be applied at all. */
  datatype ApplyResult = Ok(dispatch: DispatchOutcome) | Err(error: InvalidTransaction)

  datatype ValidTransaction = ValidTransaction(
    priority: u64,
    requiredTags: seq<Bytes>,
    providedTags: seq<Bytes>,
    longevity: u64,
    propagate: bool)

  datatype TransactionValidity = Valid(valid: ValidTransaction) | Invalid(reason: InvalidTransaction)

  /** Why an execution aborted (a panic in the runtime). */
  datatype Fatal =
    | Overflow
    | InvalidTransactionInBlock
    | ExtrinsicsRootMismatch
    | StateRootMismatch
    | MissingExtrinsicIndex
    | MissingExtrinsicData
    | MissingNumber
    | MissingParentHash
    | MissingDigest

  /** Either the computation finished with a value, or the runtime panicked. */
  datatype Run<T> = Done(value: T) | Panic(reason: Fatal)

  /** A value together with the storage left behind by the computation that produced it. */
  datatype Post<T> = Post(storage: Storage, out: T)

  /** The collaborators the runtime calls but does not define: the signature check, the
      SCALE encoding, the transaction tag hash, and the trie commitments. */
  datatype Oracles = Oracles(
    signatureValid: Extrinsic -> bool,
    encode: Extrinsic -> Bytes,
    encodeAuthorities: seq<AuthorityId> -> Bytes,
    tag: (AccountId, u64) -> Bytes,
    orderedTrieRoot: seq<Bytes> -> Hash,
    storageRoot: Storage -> Hash,
    changesRoot: (Storage, Hash) -> Option<Hash>)
}
