/** Typed access to the storage slots: what a read returns when the slot is absent or
    holds something that does not decode at the slot's type, and the per-account reads. */
module Slots {
  import opened Types

  function GetU32(s: Storage, k: Key): Option<u32> {
    if k in s && s[k].U32Val? then Some(s[k].n32) else None
  }

  function GetU64(s: Storage, k: Key): Option<u64> {
    if k in s && s[k].U64Val? then Some(s[k].n64) else None
  }

  function GetHash(s: Storage, k: Key): Option<Hash> {
    if k in s && s[k].HashVal? then Some(s[k].hash) else None
  }

  function GetBytes(s: Storage, k: Key): Option<Bytes> {
    if k in s && s[k].BytesVal? then Some(s[k].bytes) else None
  }

  function GetAuthorities(s: Storage, k: Key): Option<seq<AuthorityId>> {
    if k in s && s[k].AuthoritiesVal? then Some(s[k].authorities) else None
  }

  function GetDigest(s: Storage, k: Key): Option<seq<DigestItem>> {
    if k in s && s[k].DigestVal? then Some(s[k].logs) else None
  }

  /** The slots that exist only while a block is being built or executed: the extrinsic
      index, the extrinsic buffer, the block number, the parent hash and the digest. */
  predicate ContextSlot(k: Key) {
    k.ExtrinsicIndex? || k.ExtrinsicData? || k.Number? || k.ParentHash? || k.Digest?
  }

  function BalanceOfKey(who: AccountId): Key {
    Balance(who)
  }

  function NonceOfKey(who: AccountId): Key {
    Nonce(who)
  }

  /** `s` and `t` agree at `k`: both lack it or both hold the same value. */
  predicate SameAt(s: Storage, t: Storage, k: Key) {
    (k in s <==> k in t) && (k in s ==> s[k] == t[k])
  }

  /** The balance of `who`, 0 when never written. */
  function BalanceOf(s: Storage, who: AccountId): u64 {
    match GetU64(s, BalanceOfKey(who))
    case Some(n) => n
    case None => 0
  }

  /** The nonce of `who`, 0 when never written. */
  function NonceOf(s: Storage, who: AccountId): u64 {
    match GetU64(s, NonceOfKey(who))
    case Some(n) => n
    case None => 0
  }

  /** Derived account keys never collide: one account's balance key is no other account's,
      and never a nonce key. */
  lemma AccountKeysDistinct(a: AccountId, b: AccountId)
    ensures BalanceOfKey(a) == BalanceOfKey(b) <==> a == b
    ensures NonceOfKey(a) == NonceOfKey(b) <==> a == b
    ensures BalanceOfKey(a) != NonceOfKey(b)
  {
  }

  /** An account nobody wrote to has balance and nonce 0; a written one reads back its value. */
  lemma AccountReadsDefault(s: Storage, who: AccountId)
    ensures BalanceOfKey(who) !in s ==> BalanceOf(s, who) == 0
    ensures NonceOfKey(who) !in s ==> NonceOf(s, who) == 0
    ensures forall n: u64 :: BalanceOfKey(who) in s && s[BalanceOfKey(who)] == U64Val(n) ==> BalanceOf(s, who) == n
    ensures forall n: u64 :: NonceOfKey(who) in s && s[NonceOfKey(who)] == U64Val(n) ==> NonceOf(s, who) == n
  {
  }

  /** Writing one account's balance changes only that account's balance read. */
  lemma BalanceAfterPut(s: Storage, a: AccountId, v: u64, b: AccountId)
    ensures BalanceOf(s[BalanceOfKey(a) := U64Val(v)], b) == if a == b then v else BalanceOf(s, b)
    ensures NonceOf(s[BalanceOfKey(a) := U64Val(v)], b) == NonceOf(s, b)
  {
  }

  /** Writing one account's nonce changes only that account's nonce read. */
  lemma NonceAfterPut(s: Storage, a: AccountId, v: u64, b: AccountId)
    ensures NonceOf(s[NonceOfKey(a) := U64Val(v)], b) == if a == b then v else NonceOf(s, b)
    ensures BalanceOf(s[NonceOfKey(a) := U64Val(v)], b) == BalanceOf(s, b)
  {
  }
}
