/** Transaction-pool validation of a signed transfer: the signature first, then a window of
    admissible nonces, then the dependency tags that let the pool order one sender's
    transfers. Validation only reads storage: it returns a verdict and no new state. */
module Validation {
  import opened Types
  import opened Slots

  /** The pool's verdict on `utx`. `expected + 64` is an unchecked `u64` addition in the
      runtime; here its overflow is a panic. */
  function ValidateTransaction(s: Storage, utx: Extrinsic, o: Oracles): (r: Run<TransactionValidity>)
    requires utx.TransferTx?
    ensures !o.signatureValid(utx) ==> r == Done(Invalid(BadProof))
    ensures r.Panic? ==> r.reason == Overflow && NonceOf(s, utx.transfer.from) + NONCE_WINDOW >= U64_LIMIT
    ensures r.Done? && r.value.Valid? <==>
              o.signatureValid(utx) && r.Done? &&
              NonceOf(s, utx.transfer.from) <= utx.transfer.nonce <= NonceOf(s, utx.transfer.from) + NONCE_WINDOW
  {
    if !o.signatureValid(utx) then Done(Invalid(BadProof))
    else
      var tx := utx.transfer;
      var expected := NonceOf(s, tx.from);
      if tx.nonce < expected then Done(Invalid(Stale))
      else if expected + NONCE_WINDOW >= U64_LIMIT then Panic(Overflow)
      else if tx.nonce > expected + NONCE_WINDOW then Done(Invalid(Future))
      else
        var requiredTags := if tx.nonce != expected && tx.nonce > 0 then [o.tag(tx.from, tx.nonce - 1)] else [];
        var providedTags := [o.tag(tx.from, tx.nonce)];
        Done(Valid(ValidTransaction(tx.amount, requiredTags, providedTags, TRANSACTION_LONGEVITY, true)))
  }

  /** With a valid signature the verdict is decided by where the nonce falls relative to the
      sender's stored nonce: below it is stale, whether or not the window end overflows; when
      it does not, beyond the 64-wide window is future, and everything in between, both ends
      included, is accepted. */
  lemma ValidateNonceWindow(s: Storage, utx: Extrinsic, o: Oracles)
    requires utx.TransferTx? && o.signatureValid(utx)
    ensures var expected, n := NonceOf(s, utx.transfer.from), utx.transfer.nonce;
      && (ValidateTransaction(s, utx, o) == Done(Invalid(Stale)) <==> n < expected)
      && (expected + NONCE_WINDOW < U64_LIMIT ==>
            && (ValidateTransaction(s, utx, o) == Done(Invalid(Future)) <==> n > expected + NONCE_WINDOW)
            && (ValidateTransaction(s, utx, o).Done? && ValidateTransaction(s, utx, o).value.Valid? <==>
                  expected <= n <= expected + NONCE_WINDOW))
      && ValidateTransaction(s, utx, o) != Done(Invalid(Payment))
      && ValidateTransaction(s, utx, o) != Done(Invalid(BadProof))
  {
  }

  /** The last nonce of the window is still admitted. */
  lemma ValidateAcceptsWindowEdge(s: Storage, utx: Extrinsic, o: Oracles)
    requires utx.TransferTx? && o.signatureValid(utx)
    requires utx.transfer.nonce == NonceOf(s, utx.transfer.from) + NONCE_WINDOW
    ensures ValidateTransaction(s, utx, o).Done? && ValidateTransaction(s, utx, o).value.Valid?
  {
  }

  /** An accepted transfer is prioritised by its amount, lives 64 blocks, is propagated,
      provides its own (sender, nonce) tag, and requires its predecessor's tag exactly when
      its nonce is not the sender's next one. */
  lemma ValidateAcceptedFields(s: Storage, utx: Extrinsic, o: Oracles)
    requires utx.TransferTx?
    requires ValidateTransaction(s, utx, o).Done? && ValidateTransaction(s, utx, o).value.Valid?
    ensures var v, tx := ValidateTransaction(s, utx, o).value.valid, utx.transfer;
      && v.priority == tx.amount
      && v.longevity == 64
      && v.propagate
      && v.providedTags == [o.tag(tx.from, tx.nonce)]
      && (tx.nonce != NonceOf(s, tx.from) ==> tx.nonce > 0 && v.requiredTags == [o.tag(tx.from, tx.nonce - 1)])
      && (tx.nonce == NonceOf(s, tx.from) ==> v.requiredTags == [])
  {
  }

  /** Overflow of `expected + 64` is the only way validation panics. */
  lemma ValidateOverflowOnly(s: Storage, utx: Extrinsic, o: Oracles)
    requires utx.TransferTx?
    ensures ValidateTransaction(s, utx, o).Panic? <==>
              o.signatureValid(utx) && NonceOf(s, utx.transfer.from) <= utx.transfer.nonce &&
              NonceOf(s, utx.transfer.from) + NONCE_WINDOW >= U64_LIMIT
  {
  }
}
