/** The runtime as it runs: process-wide storage in one object, and the entry points of the
    system module as methods that update it step by step, each proved to realise the
    corresponding function of the specification modules. */
module Runtime {
  import opened Types
  import opened Slots
  import Context
  import Executor
  import Pipeline
  import Finalizer

  /** `r` and `s` are what the specification `spec` says a call returns and leaves behind;
      after a panic the storage is not looked at again. */
  predicate Realizes<T(==)>(spec: Run<Post<T>>, r: Run<T>, s: Storage) {
    match spec
    case Panic(f) => r == Panic(f)
    case Done(p) => r == Done(p.out) && s == p.storage
  }

  /** The storage the runtime executes against, with the collaborators it calls. */
  class Externalities {
    var storage: Storage
    const env: Oracles

    constructor (initial: Storage, env: Oracles)
      ensures storage == initial && this.env == env
    {
      storage := initial;
      this.env := env;
    }

    method InitializeBlock(header: Header)
      modifies this
      ensures storage == Context.InitializeBlock(old(storage), header)
    {
      storage := storage[Number := U64Val(header.number)];
      storage := storage[ParentHash := HashVal(header.parentHash)];
      storage := storage[Digest := DigestVal(header.digest)];
      storage := storage[ExtrinsicIndex := U32Val(0)];
      // A read of the slot named by a leading `Other` digest item, so that it is part of
      // any execution proof; its value is not used.
      if |header.digest| > 0 && header.digest[0].Other? {
        var probe := GetU32(storage, Raw(header.digest[0].data));
      }
    }

    method ExecuteTransfer(tx: Transfer) returns (r: Run<ApplyResult>)
      modifies this
      ensures Realizes(Executor.ApplyTransfer(old(storage), tx), r, storage)
    {
      var expected := NonceOf(storage, tx.from);
      if tx.nonce != expected {
        return Done(Err(Stale));
      }
      if expected + 1 >= U64_LIMIT {
        return Panic(Overflow);
      }
      storage := storage[NonceOfKey(tx.from) := U64Val(expected + 1)];
      var fromBalance := BalanceOf(storage, tx.from);
      if tx.amount > fromBalance {
        return Done(Err(Payment));
      }
      var toBalance := BalanceOf(storage, tx.to);
      storage := storage[BalanceOfKey(tx.from) := U64Val(fromBalance - tx.amount)];
      if toBalance + tx.amount >= U64_LIMIT {
        return Panic(Overflow);
      }
      storage := storage[BalanceOfKey(tx.to) := U64Val(toBalance + tx.amount)];
      return Done(Ok(Dispatched));
    }

    method ExecuteNewAuthorities(authorities: seq<AuthorityId>) returns (r: ApplyResult)
      modifies this
      ensures Post(storage, r) == Executor.ApplyNewAuthorities(old(storage), authorities)
    {
      storage := storage[NewAuthorities := AuthoritiesVal(authorities)];
      return Ok(Dispatched);
    }

    method ExecuteStorageChange(key: Bytes, value: Option<Bytes>) returns (r: ApplyResult)
      modifies this
      ensures Post(storage, r) == Executor.ApplyStorageChange(old(storage), key, value)
    {
      match value {
        case Some(v) => storage := storage[Raw(key) := BytesVal(v)];
        case None => storage := storage - {Raw(key)};
      }
      return Ok(Dispatched);
    }

    method ExecuteTransactionBackend(x: Extrinsic) returns (r: Run<ApplyResult>)
      modifies this
      ensures Realizes(Executor.ApplyBackend(old(storage), x, env), r, storage)
    {
      if !env.signatureValid(x) {
        return Done(Err(BadProof));
      }
      match x {
        case TransferTx(tx, _) =>
          r := ExecuteTransfer(tx);
        case AuthoritiesChange(authorities) =>
          var res := ExecuteNewAuthorities(authorities);
          r := Done(res);
        case IncludeData(_) =>
          r := Done(Ok(Dispatched));
        case StorageChange(key, value) =>
          var res := ExecuteStorageChange(key, value);
          r := Done(res);
      }
    }

    method ExecuteTransaction(utx: Extrinsic) returns (r: Run<ApplyResult>)
      modifies this
      ensures Realizes(Executor.ExecuteTransaction(old(storage), utx, env), r, storage)
    {
      var index := GetU32(storage, ExtrinsicIndex);
      if index.None? {
        return Panic(MissingExtrinsicIndex);
      }
      var i := index.value;
      r := ExecuteTransactionBackend(utx);
      if r.Panic? {
        return;
      }
      storage := storage[ExtrinsicData(i) := BytesVal(env.encode(utx))];
      if i + 1 >= U32_LIMIT {
        return Panic(Overflow);
      }
      storage := storage[ExtrinsicIndex := U32Val(i + 1)];
    }

    method ExecuteBlockWithStateRootHandler(block: Block, mode: Pipeline.Mode) returns (r: Run<Block>)
      modifies this
      ensures Realizes(Pipeline.ExecuteWithHandler(old(storage), block, mode, env), r, storage)
    {
      var header := block.header;
      var xs := block.extrinsics;

      var txsRoot := Pipeline.ExtrinsicsRoot(xs, env);
      if mode.Overwrite? {
        header := header.(extrinsicsRoot := txsRoot);
      } else if txsRoot != header.extrinsicsRoot {
        return Panic(ExtrinsicsRootMismatch);
      }

      if |header.digest| > 0 && header.digest[0].Other? {
        var probe := GetU32(storage, Raw(header.digest[0].data));
      }

      var i := 0;
      while i < |xs|
        invariant 0 <= i <= |xs|
        invariant Pipeline.RunExtrinsics(old(storage), xs, 0, env) == Pipeline.RunExtrinsics(storage, xs[i..], i, env)
      {
        assert xs[i..][0] == xs[i] && xs[i..][1..] == xs[i + 1..];
        storage := storage[ExtrinsicIndex := U32Val(i % U32_LIMIT)];
        var res := ExecuteTransactionBackend(xs[i]);
        if res.Panic? {
          return Panic(res.reason);
        }
        if res.value.Err? {
          return Panic(InvalidTransactionInBlock);
        }
        storage := storage - {ExtrinsicIndex};
        i := i + 1;
      }

      var staged := GetAuthorities(storage, NewAuthorities);
      storage := storage - {NewAuthorities};

      var stateRoot := env.storageRoot(storage);
      if mode.Overwrite? {
        header := header.(stateRoot := stateRoot);
      } else if stateRoot != header.stateRoot {
        return Panic(StateRootMismatch);
      }

      var digest := header.digest;
      var changes := env.changesRoot(storage, header.parentHash);
      if changes.Some? {
        digest := digest + [ChangesTrieRoot(changes.value)];
      }
      if staged.Some? {
        digest := digest + [Consensus(AURA, env.encodeAuthorities(staged.value))];
        digest := digest + [Consensus(BABE, env.encodeAuthorities(staged.value))];
      }
      assert digest == Pipeline.SealDigest(header.digest, changes, staged, env);
      header := header.(digest := digest);
      return Done(Block(header, xs));
    }

    method PolishBlock(block: Block) returns (r: Run<Block>)
      modifies this
      ensures Realizes(Pipeline.PolishBlock(old(storage), block, env), r, storage)
    {
      r := ExecuteBlockWithStateRootHandler(block, Pipeline.Overwrite);
    }

    /** The block is taken by value: its reconciled header is dropped. */
    method ExecuteBlock(block: Block) returns (r: Run<()>)
      modifies this
      ensures match Pipeline.ExecuteBlock(old(storage), block, env)
              case Panic(f) => r == Panic(f)
              case Done(s) => r == Done(()) && storage == s
    {
      var executed := ExecuteBlockWithStateRootHandler(block, Pipeline.Verify);
      match executed {
        case Panic(f) => r := Panic(f);
        case Done(_) => r := Done(());
      }
    }

    method FinalizeBlock() returns (r: Run<Header>)
      modifies this
      ensures Realizes(Finalizer.FinalizeBlock(old(storage), env), r, storage)
    {
      var index := GetU32(storage, ExtrinsicIndex);
      storage := storage - {ExtrinsicIndex};
      if index.None? {
        return Panic(MissingExtrinsicIndex);
      }
      var n := index.value;

      ghost var drained := storage;
      var txs: seq<Bytes> := [];
      var i: nat := 0;
      while i < n
        invariant i <= n
        invariant Finalizer.DrainFrom(drained, 0, n, []) == Finalizer.DrainFrom(storage, i, n, txs)
      {
        var tx := GetBytes(storage, ExtrinsicData(i));
        storage := storage - {ExtrinsicData(i)};
        if tx.None? {
          return Panic(MissingExtrinsicData);
        }
        txs := txs + [tx.value];
        i := i + 1;
      }
      var extrinsicsRoot := env.orderedTrieRoot(txs);

      var number := GetU64(storage, Number);
      storage := storage - {Number};
      if number.None? {
        return Panic(MissingNumber);
      }
      var parentHash := GetHash(storage, ParentHash);
      storage := storage - {ParentHash};
      if parentHash.None? {
        return Panic(MissingParentHash);
      }
      var digest := GetDigest(storage, Digest);
      storage := storage - {Digest};
      if digest.None? {
        return Panic(MissingDigest);
      }

      var staged := GetAuthorities(storage, NewAuthorities);
      storage := storage - {NewAuthorities};
      // Every change to storage is done: only now are the roots computed.
      var stateRoot := env.storageRoot(storage);
      var changes := env.changesRoot(storage, parentHash.value);

      var logs := digest.value;
      if changes.Some? {
        logs := logs + [ChangesTrieRoot(changes.value)];
      }
      if staged.Some? {
        logs := logs + [Consensus(AURA, env.encodeAuthorities(staged.value))];
        logs := logs + [Consensus(BABE, env.encodeAuthorities(staged.value))];
      }
      assert logs == Pipeline.SealDigest(digest.value, changes, staged, env);
      return Done(Header(number.value, parentHash.value, stateRoot, extrinsicsRoot, logs));
    }
  }
}
