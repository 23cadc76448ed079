# Test-runtime state transition, in Dafny

This project models the state-transition logic of the Substrate test runtime
(`core/test-runtime/src/system.rs`). It covers:

- the account reads;
- block-context set-up;
- transaction-pool validation;
- the per-extrinsic backends and their dispatcher;
- the buffering wrapper a block author calls once per extrinsic;
- the two-mode whole-block pipeline (Verify for import, Overwrite for sealing);
- the build-side finaliser.

The process-wide storage is a `map<Key, Value>` with one key variant per slot:

- the hashed per-account `Nonce(who)` and `Balance(who)`;
- `Raw(bytes)`;
- the well-known `ExtrinsicIndex`;
- the slots declared with `storage_items!`: `ExtrinsicData(u32)`, `Number`, `ParentHash`, `NewAuthorities`, `Digest`.

As a modelling choice, a slot that holds a value of the wrong shape reads as absent.

Every panic in the runtime is a `Panic(reason)` outcome of `Run<T>`. This covers an `unwrap`, an `expect`, an `assert!`, the `panic!` in the block loop, and an unchecked addition that would overflow.

The model has two layers.

- **Specification functions.** The modules `Slots`, `Validation`, `Executor`, `Context`, `Pipeline` and `Finalizer` hold one function per runtime operation. The functions that change state take the storage before the call and return the storage after it, together with a result where the runtime returns one. The account reads return a value, and validation returns only its verdict.
- **Imperative runtime.** The class `Runtime.Externalities` holds the storage as a mutable field. Its methods update that field step by step, as the Rust code does: put, kill, take-and-clear, the loop over the block's extrinsics, and the drain loop of the finaliser. Each method is proved to realise its specification function.

The properties are lemmas about the specification functions:

- the nonce window and the dependency tags;
- the nonce bump before the payment check;
- fund movement and its frame;
- minting on a self-transfer;
- the outer error shape;
- the root checks and root writes of the two modes;
- the shared digest reconciliation;
- sealing followed by import;
- nonce accounting over a block;
- the finaliser's in-order drain;
- a build-then-finalise round trip;
- build-then-import: a block built with every push accepted imports against the storage it was built on, reaching the storage the builder left;
- the runtime's own two-block transfer scenario with its balances.

The signature check, the tag hash, the trie commitments and the SCALE encoding of extrinsics and authority lists are fields of an `Oracles` value, passed to the operations that use them.

A transfer to oneself is not a no-op. The receiver's balance is read before the sender's debit is written, and the credit then overwrites the debit (`system.rs:277-280`), so the account ends `amount` richer. `Executor.SelfTransferMints` states this.

## Model

| member | source | states |
|---|---|---|
| Slots.BalanceOfKey | core/test-runtime/src/system.rs:47-49 | no contract of its own; properties in `Slots.AccountKeysDistinct` |
| Slots.BalanceOf | core/test-runtime/src/system.rs:51-53 | no contract of its own; properties in `Slots.AccountReadsDefault` and `Slots.BalanceAfterPut` |
| Slots.NonceOf | core/test-runtime/src/system.rs:55-57 | no contract of its own; properties in `Slots.AccountReadsDefault` and `Slots.NonceAfterPut` |
| Context.InitializeBlock | core/test-runtime/src/system.rs:59-71 | no contract of its own; properties in `Context.InitializeBlockWrites` |
| Slots.AccountKeysDistinct | core/test-runtime/src/system.rs:34-57 | balance and nonce keys are injective in the account and never collide with each other |
| Slots.AccountReadsDefault | core/test-runtime/src/system.rs:51-57 | an unwritten balance or nonce reads 0; a written one reads back its value |
| Slots.BalanceAfterPut | core/test-runtime/src/system.rs:51-53 | writing one account's balance changes only that account's balance read and never a nonce |
| Slots.NonceAfterPut | core/test-runtime/src/system.rs:55-57 | writing one account's nonce changes only that account's nonce read and never a balance |
| Context.InitializeBlockWrites | core/test-runtime/src/system.rs:59-71 | initialisation stores the header's number, parent hash and digest, starts the index at 0, and leaves every other slot as it was |
| Validation.ValidateTransaction | core/test-runtime/src/system.rs:158-197 | a bad signature gives `BadProof`; the only panic is the `expected + 64` overflow; the transfer is accepted iff the signature holds and `expected <= nonce <= expected + 64` |
| Validation.ValidateNonceWindow | core/test-runtime/src/system.rs:164-171 | with a good signature: `Stale` iff nonce < expected, whatever the stored nonce; when `expected + 64` fits in u64, `Future` iff nonce > expected + 64 and accepted iff in between with both ends included; never `Payment` or `BadProof` |
| Validation.ValidateAcceptsWindowEdge | core/test-runtime/src/system.rs:169-171 | nonce `expected + 64` is still accepted |
| Validation.ValidateAcceptedFields | core/test-runtime/src/system.rs:173-196 | an accepted transfer has priority = amount, longevity 64, propagate set, provides its own (sender, nonce) tag, and requires the (sender, nonce - 1) tag exactly when its nonce is not the expected one |
| Validation.ValidateOverflowOnly | core/test-runtime/src/system.rs:164-169 | validation panics iff the signature holds, the nonce is not stale, and `expected + 64` overflows `u64` |
| Executor.ApplyTransfer | core/test-runtime/src/system.rs:258-282 | no contract of its own; properties in `Executor.TransferStale`, `Executor.TransferBumpsNonce`, `Executor.TransferPaymentRejected`, `Executor.TransferMovesFunds` and `Executor.SelfTransferMints` |
| Executor.ApplyNewAuthorities | core/test-runtime/src/system.rs:284-287 | no contract of its own; properties in `Executor.BackendOtherKinds` and `Executor.AuthoritiesLastWriterWins` |
| Executor.ApplyStorageChange | core/test-runtime/src/system.rs:289-295 | no contract of its own; properties in `Executor.BackendOtherKinds` |
| Executor.ApplyBackend | core/test-runtime/src/system.rs:248-256 | no contract of its own; properties in `Executor.BackendChecksSignatureFirst`, `Executor.BackendRejectionsAreOuter`, `Executor.BackendOtherKinds` and `Executor.BackendKeepsContext` |
| Executor.ExecuteTransaction | core/test-runtime/src/system.rs:201-207 | no contract of its own; properties in `Executor.ExecuteTransactionBuffers` |
| Executor.TransferStale | core/test-runtime/src/system.rs:260-264 | a transfer is rejected as `Stale` with storage unchanged iff its nonce is not the sender's stored nonce |
| Executor.TransferBumpsNonce | core/test-runtime/src/system.rs:262-267 | with the right nonce the sender's nonce goes up by one whether or not the payment succeeds; no other nonce moves |
| Executor.TransferPaymentRejected | core/test-runtime/src/system.rs:267-276 | an amount above the sender's balance gives `Payment` after the nonce bump, and every balance is unchanged |
| Executor.TransferMovesFunds | core/test-runtime/src/system.rs:270-281 | a successful transfer between distinct accounts debits the sender and credits the receiver by `amount`, conserves their sum, bumps the sender's nonce, and writes no other key |
| Executor.SelfTransferMints | core/test-runtime/src/system.rs:277-280 | a successful transfer to oneself leaves the account `amount` richer |
| Executor.BackendChecksSignatureFirst | core/test-runtime/src/system.rs:243-249 | for every extrinsic kind the result is `Err(BadProof)` with storage unchanged iff the signature check fails |
| Executor.BackendRejectionsAreOuter | core/test-runtime/src/system.rs:248-282 | rejections are the outer `Err`, which only a transfer or a bad signature produces; the inner result is never a failed dispatch |
| Executor.BackendOtherKinds | core/test-runtime/src/system.rs:248-295 | with a good signature, an authority change overwrites only the pending set, included data changes nothing, and a storage change puts or kills exactly its raw key; all three return `Ok(Ok(()))` |
| Executor.AuthoritiesLastWriterWins | core/test-runtime/src/system.rs:284-287 | two authority changes leave the later set staged, the same storage as the later change alone |
| Executor.ExecuteTransactionBuffers | core/test-runtime/src/system.rs:201-207 | a missing index panics; otherwise the encoded extrinsic is stored at the index, the index advances by one, the backend's result is passed through whatever it was, and nothing else differs from the backend's storage |
| Executor.BackendKeepsContext | core/test-runtime/src/system.rs:248-295 | no backend writes the number, parent hash, digest, index or extrinsic-buffer slots |
| Pipeline.ExtrinsicsRoot | core/test-runtime/src/system.rs:103-104 | no contract of its own; properties in `Pipeline.VerifyChecksRoots`, `Pipeline.OverwriteWritesRoots` and `Builder.BuildThenFinalize` |
| Pipeline.ApplyAt | core/test-runtime/src/system.rs:119-123 | no contract of its own; properties in `Pipeline.ApplyAtNonce`, `Pipeline.ApplyAtTransfer`, `Pipeline.ApplyAtKeepsContext` and `Pipeline.RejectionAborts` |
| Pipeline.SealDigest | core/test-runtime/src/system.rs:136-144 | no contract of its own; properties in `Pipeline.SealDigestItems` and `Pipeline.PipelineDigest` |
| Pipeline.ExecuteWithHandler | core/test-runtime/src/system.rs:96-145 | no contract of its own; properties in `Pipeline.VerifyChecksRoots`, `Pipeline.OverwriteWritesRoots`, `Pipeline.PipelineDigest` and `Pipeline.SealThenVerify` |
| Pipeline.PolishBlock | core/test-runtime/src/system.rs:88-90 | no contract of its own; properties in `Pipeline.SealThenVerify` and `Pipeline.TamperedStateRootAborts` |
| Pipeline.ExecuteBlock | core/test-runtime/src/system.rs:92-94 | no contract of its own; properties in `Pipeline.SealThenVerify`, `Pipeline.TamperedStateRootAborts` and `Builder.BuildThenImport` |
| Pipeline.RunExtrinsics | core/test-runtime/src/system.rs:119-123 | after a completed loop over at least one extrinsic the index slot is absent |
| Pipeline.BlockLoopClearsIndex | core/test-runtime/src/system.rs:119-123 | the same for the loop with `ApplyAt` as its step: the index is killed after every extrinsic |
| Pipeline.LoopAppend | core/test-runtime/src/system.rs:119-123 | for any step that can panic, looping over `xs + ys` is looping over `xs`, then over `ys` from where it stopped at the next index, and a panic inside `xs` is the whole result |
| Pipeline.SealDigestItems | core/test-runtime/src/system.rs:136-144 | the header's digest is kept as a prefix; a changes-trie root item follows iff the collaborator returns one; if authorities were staged, exactly two consensus items follow, aura then babe, with the same payload; nothing appended is an `Other` item |
| Pipeline.VerifyChecksRoots | core/test-runtime/src/system.rs:102-134 | in Verify mode a transaction-root mismatch aborts before anything runs; after the loop the block aborts with `StateRootMismatch` iff the state root of the storage without pending authorities differs from the header's; a loop panic aborts the import |
| Pipeline.OverwriteWritesRoots | core/test-runtime/src/system.rs:102-129 | in Overwrite mode both computed roots are written into the header, number, parent hash and extrinsics are kept, the pending authorities are taken, and the index is gone after one or more extrinsics |
| Pipeline.PipelineDigest | core/test-runtime/src/system.rs:136-144 | in both modes the resulting digest is the header's digest reconciled from the state after the loop |
| Pipeline.SealThenVerify | core/test-runtime/src/system.rs:88-145 | importing a sealed block against the storage it was sealed on succeeds and reaches the same storage |
| Pipeline.TamperedStateRootAborts | core/test-runtime/src/system.rs:128-134 | importing a sealed block whose state root was changed aborts with `StateRootMismatch` |
| Pipeline.RunExtrinsicsAppend | core/test-runtime/src/system.rs:119-123 | running `xs + ys` is running `xs`, then `ys` from the next index; a panic inside `xs` aborts `xs + ys` the same way |
| Pipeline.RejectionAborts | core/test-runtime/src/system.rs:119-123 | an extrinsic at any position that the backend rejects aborts the block with `InvalidTransactionInBlock` |
| Pipeline.ApplyAtNonce | core/test-runtime/src/system.rs:258-267 | one loop step raises the sender's nonce of a transfer by one and no other nonce |
| Pipeline.ApplyAtTransfer | core/test-runtime/src/system.rs:258-281 | a valid, funded transfer between distinct accounts goes through inside the loop, moving the funds and bumping only the sender's nonce |
| Pipeline.BlockNonceAccounting | core/test-runtime/src/system.rs:119-123 | after a completed loop every account's nonce has risen by exactly the number of transfers it sent in the block |
| Pipeline.ApplyAtKeepsContext | core/test-runtime/src/system.rs:119-123 | one loop step leaves the number, parent hash, digest and buffered-extrinsic slots as they were |
| Pipeline.RunExtrinsicsKeepsContext | core/test-runtime/src/system.rs:96-123 | the block loop does not initialise the block context or buffer extrinsics: those slots end as they began |
| Pipeline.ReplayRejected | core/test-runtime/src/system.rs:158-264 | a transfer with a nonce below the sender's is `Stale` to the pool and to the backend, and aborts a block that contains it |
| Finalizer.FinalizeBlock | core/test-runtime/src/system.rs:210-240 | no contract of its own; properties in `Finalizer.FinalizeBlockDrains`, `Finalizer.FinalizeBlockAborts` and `Builder.BuildThenImport` |
| Finalizer.DrainFrom | core/test-runtime/src/system.rs:211-212 | draining panics iff some buffered index in the range is empty, and then with `MissingExtrinsicData` |
| Finalizer.DrainFromInOrder | core/test-runtime/src/system.rs:211-212 | a completed drain returns the buffered extrinsics in index order after those already taken, removes their slots, and touches no other slot |
| Finalizer.FinalizeBlockDrains | core/test-runtime/src/system.rs:210-240 | a completed finalisation needs the index, number, parent hash, digest and every buffered slot; the transaction root is over the buffered extrinsics in order; number and parent hash are the stored ones; the state root is over the storage left; the digest is reconciled as in the pipeline; the context slots and the buffer are cleared and every other slot is untouched |
| Finalizer.FinalizeBlockAborts | core/test-runtime/src/system.rs:210-216 | finalisation panics when the index, the number or the digest is missing |
| Builder.PushAllBuffers | core/test-runtime/src/system.rs:201-207 | pushing extrinsics through the wrapper from index `n` advances it by their count, buffers each encoding at its own index, keeps every buffer slot outside that range, and keeps the block context |
| Builder.BuildThenFinalize | core/test-runtime/src/system.rs:201-240 | initialise, push, finalise yields a header with the initial number and parent hash and the transaction root that import checks for the same extrinsics |
| Builder.StripUpdates | core/test-runtime/src/system.rs:59-71 | removing the context slots (index, buffer, number, parent hash, digest) is the identity on storage without them, and a put or kill commutes with it for other slots and vanishes under it for context slots |
| Builder.TransferRespectsStrip | core/test-runtime/src/system.rs:258-282 | a transfer on two storages that differ only in context slots has the same outcome on both and leaves them differing only in context slots |
| Builder.BumpedTransferRespectsStrip | core/test-runtime/src/system.rs:262-282 | the same, once the nonce check has passed |
| Builder.BackendRespectsStrip | core/test-runtime/src/system.rs:248-295 | the same for every backend, behind the signature check |
| Builder.PushStepMatchesApply | core/test-runtime/src/system.rs:119-123 | one accepted push at index `n` and one block-loop step at index `n` on the storage without its context slots reach the same storage up to context slots, and the push advances the index to `n + 1` |
| Builder.PushMatchesRun | core/test-runtime/src/system.rs:119-123 | pushing accepted extrinsics from index `n` cannot panic, and the block loop over them from the stripped storage reaches the stripped result of the pushes |
| Builder.InitializeStrips | core/test-runtime/src/system.rs:59-71 | initialisation adds only context slots: stripping undoes it on storage without them |
| Builder.FinalizeLeavesStripped | core/test-runtime/src/system.rs:210-240 | on storage without context slots, after initialise and push, finalisation succeeds and leaves exactly the pushed storage without context slots and without the pending authorities |
| Builder.BuildThenImport | core/test-runtime/src/system.rs:201-240 | on storage without context slots, when every push is accepted, the finalised header and the pushed extrinsics import against the storage the block was built on, and reach the storage the finaliser left; both roots match. A push rejected with `Payment` still bumps the nonce and is buffered, but the import loop aborts on it, so that hypothesis is needed |
| Runtime.Externalities.constructor | core/test-runtime/src/system.rs:339-358 | the externalities start from the given storage and collaborators |
| Runtime.Externalities.InitializeBlock | core/test-runtime/src/system.rs:59-71 | the four puts, then the probe read, leave the storage of `Context.InitializeBlock` |
| Runtime.Externalities.ExecuteTransfer | core/test-runtime/src/system.rs:258-282 | the step-by-step transfer realises `Executor.ApplyTransfer` in result and new storage |
| Runtime.Externalities.ExecuteNewAuthorities | core/test-runtime/src/system.rs:284-287 | realises `Executor.ApplyNewAuthorities` |
| Runtime.Externalities.ExecuteStorageChange | core/test-runtime/src/system.rs:289-295 | realises `Executor.ApplyStorageChange` |
| Runtime.Externalities.ExecuteTransactionBackend | core/test-runtime/src/system.rs:248-256 | realises `Executor.ApplyBackend` |
| Runtime.Externalities.ExecuteTransaction | core/test-runtime/src/system.rs:201-207 | realises `Executor.ExecuteTransaction` |
| Runtime.Externalities.ExecuteBlockWithStateRootHandler | core/test-runtime/src/system.rs:96-145 | the loop that sets and kills the index around each backend call, followed by the in-place header updates, realises `Pipeline.ExecuteWithHandler` in both modes |
| Runtime.Externalities.PolishBlock | core/test-runtime/src/system.rs:88-90 | realises `Pipeline.PolishBlock` |
| Runtime.Externalities.ExecuteBlock | core/test-runtime/src/system.rs:92-94 | realises `Pipeline.ExecuteBlock`: the storage is updated and the reconciled header is discarded |
| Runtime.Externalities.FinalizeBlock | core/test-runtime/src/system.rs:210-240 | the drain loop and the takes of each context slot realise `Finalizer.FinalizeBlock` |
| Scenario.FirstBlockRuns | core/test-runtime/src/system.rs:399-458 | from the test's initial balances, the first block leaves Alice 42, Bob 69 and Alice's nonce 1 |
| Scenario.SecondBlockRuns | core/test-runtime/src/system.rs:420-466 | from those balances, the second block leaves Alice 0, Bob 42 and Charlie 69 |
| Scenario.BlockImportWithTransfers | core/test-runtime/src/system.rs:396-467 | both blocks seal; the balances after each are 42/69 and 0/42/69; importing the sealed blocks in turn from the same initial storage succeeds with the storage sealing reached |
| Scenario.EmptyBlockImport | core/test-runtime/src/system.rs:360-377 | an empty block seals and its sealed form imports against the same storage |

## Left out

- Signature checking (`check_signature`, `system.rs:243-246`) is the oracle predicate `signatureValid`.
- `blake2_256` key hashing and `to_keyed_vec` are not modelled: the per-account keys are the constructors `Balance(who)` and `Nonce(who)`, which are injective by construction.
- The `twox_128` tag hash is the oracle `tag(from, nonce)`.
- A `Raw` key is a separate key variant, so a `StorageChange` is modelled as never aliasing a hashed account slot or a named slot. In the runtime, a raw key equal to such a slot's storage key (for example the hashed nonce key of an account, or the well-known extrinsic-index key) overwrites that slot, and anyone can compute those keys. `Pipeline.BlockNonceAccounting`, `Executor.BackendKeepsContext`, `Pipeline.ApplyAtKeepsContext` and `Pipeline.RunExtrinsicsKeepsContext` hold only under this disjointness. So does the build-side chain, through `Executor.BackendKeepsContext`: `Builder.PushAllBuffers`, `Builder.BuildThenFinalize`, `Builder.PushStepMatchesApply`, `Builder.FinalizeLeavesStripped` and `Builder.BuildThenImport`. In the runtime, an accepted storage change whose raw key is the number slot's key would change the number `finalize_block` reports, and would stay in the import's storage after finalisation took it, so the import's state-root assert would fail.
- `ordered_trie_root`, `storage_root` and `storage_changes_root` are oracles.
- The changes-trie root is an oracle over the present storage and the parent hash. The changes-trie machinery behind it is not part of this model.
- SCALE `Encode` of extrinsics and authority lists is an oracle. Header encoding and `Header::hash` are not modelled, so the second block's parent hash is a parameter of the scenario.
- `info_expect_equal_hash` (`system.rs:298-316`) is diagnostic printing only.
- The `BlockExecutor` delegation (`system.rs:148-154`) is not modelled.
- `get_block_number` and `take_block_number` (`system.rs:73-79`) are a read and a read-and-clear of the `Number` slot and are not modelled.
- The `Authorities` slot (`system.rs:44`) is not used by the modelled operations.
- The native and Wasm executors and the `TestExternalities` set-up are not modelled. The scenario keeps only the account balances and nonces of the initial storage; every other slot of it is left free.
- Validation.ValidateTransaction: defined only for transfer extrinsics. `utx.transfer()` is defined outside `system.rs`, and it assumes a transfer.
- Overflow of the unchecked additions (`expected_nonce + 64`, `expected_nonce + 1`, `to_balance + amount`, `extrinsic_index + 1`) is a panic. This is the debug-build behaviour; a release build wraps around instead.
- The `required` modifier of `storage_items!` is read as "taking a missing value panics". The macro is not part of this model.
- A panic is modelled by its reason alone. The storage a panicking call leaves behind is not modelled, since the panic aborts the whole execution.
- The digest probe read in `initialize_block` and in the pipeline has no effect on storage. It matters only to the execution proof, which is not modelled.
- The account identifiers inside the scenario are stand-ins for the keyring keys.
- Builder.BuildThenImport: stated for a starting storage without context slots. Finalisation takes every context slot, so this is the storage between two blocks; a block built on storage that still held a buffered extrinsic or a digest is not covered.
