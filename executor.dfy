/** Application of a single extrinsic to storage: the per-kind backends, the dispatcher in
    front of them, and the buffering wrapper used when a block is built one extrinsic at a
    time. Each is a function from the storage before to the storage after and the result. */
module Executor {
  import opened Types
  import opened Slots

  /** A transfer: the nonce must be the sender's next one; the nonce is then bumped before
      the balance is checked; the sender's balance is written before the receiver's, which
      was read first (so a transfer to oneself adds `amount`). The two unchecked `u64`
      additions panic on overflow. */
  function ApplyTransfer(s: Storage, tx: Transfer): Run<Post<ApplyResult>> {
    var expected := NonceOf(s, tx.from);
    if tx.nonce != expected then Done(Post(s, Err(Stale)))
    else if expected + 1 >= U64_LIMIT then Panic(Overflow)
    else
      var s1 := s[NonceOfKey(tx.from) := U64Val(expected + 1)];
      var fromBalance := BalanceOf(s1, tx.from);
      if tx.amount > fromBalance then Done(Post(s1, Err(Payment)))
      else
        var toBalance := BalanceOf(s1, tx.to);
        var s2 := s1[BalanceOfKey(tx.from) := U64Val(fromBalance - tx.amount)];
        if toBalance + tx.amount >= U64_LIMIT then Panic(Overflow)
        else Done(Post(s2[BalanceOfKey(tx.to) := U64Val(toBalance + tx.amount)], Ok(Dispatched)))
  }

  /** Staging a new authority set: overwrite the pending slot. */
  function ApplyNewAuthorities(s: Storage, authorities: seq<AuthorityId>): Post<ApplyResult> {
    Post(s[NewAuthorities := AuthoritiesVal(authorities)], Ok(Dispatched))
  }

  /** The raw storage escape hatch: put, or kill when there is no value. */
  function ApplyStorageChange(s: Storage, key: Bytes, value: Option<Bytes>): Post<ApplyResult> {
    match value
    case Some(v) => Post(s[Raw(key) := BytesVal(v)], Ok(Dispatched))
    case None => Post(s - {Raw(key)}, Ok(Dispatched))
  }

  /** The dispatcher: the signature check first, then one backend per extrinsic kind. */
  function ApplyBackend(s: Storage, x: Extrinsic, o: Oracles): Run<Post<ApplyResult>> {
    if !o.signatureValid(x) then Done(Post(s, Err(BadProof)))
    else
      match x
      case TransferTx(tx, _) => ApplyTransfer(s, tx)
      case AuthoritiesChange(authorities) => Done(ApplyNewAuthorities(s, authorities))
      case IncludeData(_) => Done(Post(s, Ok(Dispatched)))
      case StorageChange(key, value) => Done(ApplyStorageChange(s, key, value))
  }

  /** The buffering wrapper: the current index must be present; the extrinsic is applied,
      then recorded at that index and the index advanced, whatever the result was.
      `index + 1` is an unchecked `u32` addition; its overflow is a panic. */
  function ExecuteTransaction(s: Storage, utx: Extrinsic, o: Oracles): Run<Post<ApplyResult>> {
    match GetU32(s, ExtrinsicIndex)
    case None => Panic(MissingExtrinsicIndex)
    case Some(i) =>
      match ApplyBackend(s, utx, o)
      case Panic(f) => Panic(f)
      case Done(p) =>
        var s1 := p.storage[ExtrinsicData(i) := BytesVal(o.encode(utx))];
        if i + 1 >= U32_LIMIT then Panic(Overflow)
        else Done(Post(s1[ExtrinsicIndex := U32Val(i + 1)], p.out))
  }

  /** The keys a transfer may write. */
  function TransferKeys(tx: Transfer): set<Key> {
    {NonceOfKey(tx.from), BalanceOfKey(tx.from), BalanceOfKey(tx.to)}
  }

  /** A transfer whose nonce is not the sender's next one is stale and changes nothing. */
  lemma TransferStale(s: Storage, tx: Transfer)
    ensures tx.nonce != NonceOf(s, tx.from) <==> ApplyTransfer(s, tx) == Done(Post(s, Err(Stale)))
  {
  }

  /** With the right nonce the sender's nonce goes up by one, whether or not the payment
      then goes through; no other account's nonce moves. */
  lemma TransferBumpsNonce(s: Storage, tx: Transfer, a: AccountId)
    requires tx.nonce == NonceOf(s, tx.from)
    requires ApplyTransfer(s, tx).Done?
    ensures var p := ApplyTransfer(s, tx).value;
      NonceOf(p.storage, a) == if a == tx.from then NonceOf(s, a) + 1 else NonceOf(s, a)
  {
    var s1 := s[NonceOfKey(tx.from) := U64Val(NonceOf(s, tx.from) + 1)];
    NonceAfterPut(s, tx.from, NonceOf(s, tx.from) + 1, a);
    if tx.amount <= BalanceOf(s1, tx.from) {
      var s2 := s1[BalanceOfKey(tx.from) := U64Val(BalanceOf(s1, tx.from) - tx.amount)];
      BalanceAfterPut(s1, tx.from, BalanceOf(s1, tx.from) - tx.amount, a);
      BalanceAfterPut(s2, tx.to, BalanceOf(s1, tx.to) + tx.amount, a);
    }
  }

  /** A transfer of more than the sender holds is rejected with `Payment` after the nonce
      bump, and leaves every balance as it was. */
  lemma TransferPaymentRejected(s: Storage, tx: Transfer, a: AccountId)
    requires tx.nonce == NonceOf(s, tx.from) && tx.nonce + 1 < U64_LIMIT
    requires tx.amount > BalanceOf(s, tx.from)
    ensures ApplyTransfer(s, tx) == Done(Post(s[NonceOfKey(tx.from) := U64Val(tx.nonce + 1)], Err(Payment)))
    ensures BalanceOf(ApplyTransfer(s, tx).value.storage, a) == BalanceOf(s, a)
  {
    NonceAfterPut(s, tx.from, tx.nonce + 1, a);
  }

  /** A successful transfer between two different accounts moves `amount` from one to the
      other, so their sum is conserved, and writes no key but the two balances and the
      sender's nonce. */
  lemma TransferMovesFunds(s: Storage, tx: Transfer)
    requires tx.from != tx.to
    requires ApplyTransfer(s, tx).Done? && ApplyTransfer(s, tx).value.out.Ok?
    ensures var s' := ApplyTransfer(s, tx).value.storage;
      && BalanceOf(s', tx.from) == BalanceOf(s, tx.from) - tx.amount
      && BalanceOf(s', tx.to) == BalanceOf(s, tx.to) + tx.amount
      && BalanceOf(s', tx.from) + BalanceOf(s', tx.to) == BalanceOf(s, tx.from) + BalanceOf(s, tx.to)
      && NonceOf(s', tx.from) == NonceOf(s, tx.from) + 1
      && s' - TransferKeys(tx) == s - TransferKeys(tx)
  {
    var s' := ApplyTransfer(s, tx).value.storage;
    assert s' - TransferKeys(tx) == s - TransferKeys(tx) by {
      forall k | k in s' - TransferKeys(tx)
        ensures k in s - TransferKeys(tx) && s'[k] == s[k]
      {
      }
    }
  }

  /** A transfer to oneself does not cancel out: the receiver's balance is read before the
      sender's debit is written, and the credit then overwrites the debit, so the account
      ends with `amount` more than it had. */
  lemma SelfTransferMints(s: Storage, tx: Transfer)
    requires tx.from == tx.to
    requires ApplyTransfer(s, tx).Done? && ApplyTransfer(s, tx).value.out.Ok?
    ensures BalanceOf(ApplyTransfer(s, tx).value.storage, tx.from) == BalanceOf(s, tx.from) + tx.amount
  {
  }

  /** Every kind of extrinsic with a bad signature is rejected with `BadProof` before
      anything is written. */
  lemma BackendChecksSignatureFirst(s: Storage, x: Extrinsic, o: Oracles)
    ensures !o.signatureValid(x) <==> ApplyBackend(s, x, o) == Done(Post(s, Err(BadProof)))
  {
  }

  /** Rejections leave the backend as the outer `Err`; the inner result, when there is one, is
      always a successful dispatch. */
  lemma BackendRejectionsAreOuter(s: Storage, x: Extrinsic, o: Oracles)
    requires ApplyBackend(s, x, o).Done?
    ensures ApplyBackend(s, x, o).value.out != Ok(DispatchFailed)
    ensures ApplyBackend(s, x, o).value.out.Err? ==> x.TransferTx? || ApplyBackend(s, x, o).value.out.error == BadProof
  {
  }

  /** The non-transfer kinds always succeed once the signature passes: an authority change
      overwrites the pending set, included data writes nothing, and a storage change puts or
      kills exactly its raw key. */
  lemma BackendOtherKinds(s: Storage, x: Extrinsic, o: Oracles)
    requires o.signatureValid(x) && !x.TransferTx?
    ensures ApplyBackend(s, x, o).Done? && ApplyBackend(s, x, o).value.out == Ok(Dispatched)
    ensures var s' := ApplyBackend(s, x, o).value.storage;
      match x
      case AuthoritiesChange(a) =>
        GetAuthorities(s', NewAuthorities) == Some(a) && s' - {NewAuthorities} == s - {NewAuthorities}
      case IncludeData(_) => s' == s
      case StorageChange(k, Some(v)) =>
        GetBytes(s', Raw(k)) == Some(v) && s' - {Raw(k)} == s - {Raw(k)}
      case StorageChange(k, None) => s' == s - {Raw(k)}
      case TransferTx(_, _) => false
  {
  }

  /** Two authority changes in one block: the later one is the staged set. */
  lemma AuthoritiesLastWriterWins(s: Storage, a: seq<AuthorityId>, b: seq<AuthorityId>)
    ensures GetAuthorities(ApplyNewAuthorities(ApplyNewAuthorities(s, a).storage, b).storage, NewAuthorities) == Some(b)
    ensures ApplyNewAuthorities(ApplyNewAuthorities(s, a).storage, b).storage == ApplyNewAuthorities(s, b).storage
  {
  }

  /** The buffering wrapper panics exactly when the index is missing (or the backend or
      the index increment panics); otherwise it records the encoded extrinsic at the index,
      advances the index, and passes the backend's result through unchanged. */
  lemma ExecuteTransactionBuffers(s: Storage, utx: Extrinsic, o: Oracles)
    ensures GetU32(s, ExtrinsicIndex).None? ==> ExecuteTransaction(s, utx, o) == Panic(MissingExtrinsicIndex)
    ensures GetU32(s, ExtrinsicIndex).Some? && ApplyBackend(s, utx, o).Done? && GetU32(s, ExtrinsicIndex).value + 1 < U32_LIMIT ==>
      var i, p := GetU32(s, ExtrinsicIndex).value, ApplyBackend(s, utx, o).value;
      && ExecuteTransaction(s, utx, o).Done?
      && ExecuteTransaction(s, utx, o).value.out == p.out
      && GetBytes(ExecuteTransaction(s, utx, o).value.storage, ExtrinsicData(i)) == Some(o.encode(utx))
      && GetU32(ExecuteTransaction(s, utx, o).value.storage, ExtrinsicIndex) == Some(i + 1)
      && ExecuteTransaction(s, utx, o).value.storage - {ExtrinsicData(i), ExtrinsicIndex} == p.storage - {ExtrinsicData(i), ExtrinsicIndex}
  {
  }

  /** No backend touches the block context or the extrinsic buffer. */
  lemma BackendKeepsContext(s: Storage, x: Extrinsic, o: Oracles, k: Key)
    requires ContextSlot(k)
    requires ApplyBackend(s, x, o).Done?
    ensures SameAt(s, ApplyBackend(s, x, o).value.storage, k)
  {
  }
}
