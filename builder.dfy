/** The calling sequence of a block author: set up the block context, push each extrinsic
    through the buffering wrapper, and finalise. The header this yields commits to the
    extrinsics in the order they were pushed, with the same transaction root the import
    pipeline checks; when every push was accepted, its state root is also the one import
    computes, so the built block imports against the storage it was built on. */
module Builder {
  import opened Types
  import opened Slots
  import Context
  import Executor
  import Pipeline
  import Finalizer

  /** Push `xs` one after another through the buffering wrapper; a panic stops the run.
      The per-extrinsic results are not looked at: rejected extrinsics are buffered too. */
  function PushAll(s: Storage, xs: seq<Extrinsic>, o: Oracles): Run<Storage>
    decreases |xs|
  {
    if xs == [] then Done(s)
    else
      match Executor.ExecuteTransaction(s, xs[0], o)
      case Panic(f) => Panic(f)
      case Done(p) => PushAll(p.storage, xs[1..], o)
  }

  /** Starting from index `n`, pushing `xs` advances the index by `|xs|`, buffers the
      encoding of `xs[j - n]` at each index `j` from `n`, keeps the buffer slots outside that
      range, and leaves the number, parent hash and digest as they were. */
  lemma {:induction false} PushAllBuffers(s: Storage, xs: seq<Extrinsic>, o: Oracles, n: nat)
    requires GetU32(s, ExtrinsicIndex) == Some(n)
    requires PushAll(s, xs, o).Done?
    ensures var t := PushAll(s, xs, o).value;
      && GetU32(t, ExtrinsicIndex) == Some(n + |xs|)
      && (forall j: u32 :: n <= j < n + |xs| ==> GetBytes(t, ExtrinsicData(j)) == Some(o.encode(xs[j - n])))
      && (forall j: u32 :: !(n <= j < n + |xs|) ==> SameAt(s, t, ExtrinsicData(j)))
      && SameAt(s, t, Number) && SameAt(s, t, ParentHash) && SameAt(s, t, Digest)
    decreases |xs|
  {
    if xs != [] {
      var p := Executor.ExecuteTransaction(s, xs[0], o).value;
      var q := Executor.ApplyBackend(s, xs[0], o).value;
      Executor.ExecuteTransactionBuffers(s, xs[0], o);
      Executor.BackendKeepsContext(s, xs[0], o, Number);
      Executor.BackendKeepsContext(s, xs[0], o, ParentHash);
      Executor.BackendKeepsContext(s, xs[0], o, Digest);
      assert GetU32(p.storage, ExtrinsicIndex) == Some(n + 1);
      PushAllBuffers(p.storage, xs[1..], o, n + 1);
      var t := PushAll(s, xs, o).value;
      assert t == PushAll(p.storage, xs[1..], o).value;
      assert SameAt(s, p.storage, Number) && SameAt(s, p.storage, ParentHash) && SameAt(s, p.storage, Digest) by {
        assert Number !in {ExtrinsicData(n), ExtrinsicIndex};
        assert ParentHash !in {ExtrinsicData(n), ExtrinsicIndex};
        assert Digest !in {ExtrinsicData(n), ExtrinsicIndex};
      }
      forall j: u32 | n <= j < n + |xs|
        ensures GetBytes(t, ExtrinsicData(j)) == Some(o.encode(xs[j - n]))
      {
        if j > n {
          assert xs[1..][j - (n + 1)] == xs[j - n];
        }
      }
      forall j: u32 | !(n <= j < n + |xs|)
        ensures SameAt(s, t, ExtrinsicData(j))
      {
        Executor.BackendKeepsContext(s, xs[0], o, ExtrinsicData(j));
        assert ExtrinsicData(j) !in {ExtrinsicData(n), ExtrinsicIndex};
      }
    }
  }

  /** Building a block: initialise from `h`, push `xs`, finalise. When the pushes do not
      panic, finalisation succeeds and the header carries the number and parent hash of `h`
      and the transaction root of `xs` as the import pipeline computes it. */
  lemma BuildThenFinalize(s: Storage, h: Header, xs: seq<Extrinsic>, o: Oracles)
    requires PushAll(Context.InitializeBlock(s, h), xs, o).Done?
    ensures var t := PushAll(Context.InitializeBlock(s, h), xs, o).value;
      && Finalizer.FinalizeBlock(t, o).Done?
      && Finalizer.FinalizeBlock(t, o).value.out.number == h.number
      && Finalizer.FinalizeBlock(t, o).value.out.parentHash == h.parentHash
      && Finalizer.FinalizeBlock(t, o).value.out.extrinsicsRoot == Pipeline.ExtrinsicsRoot(xs, o)
  {
    var s0 := Context.InitializeBlock(s, h);
    Context.InitializeBlockWrites(s, h);
    PushAllBuffers(s0, xs, o, 0);
    var t := PushAll(s0, xs, o).value;
    var n: u32 := |xs|;
    assert GetU32(t, ExtrinsicIndex) == Some(n);
    var t1 := t - {ExtrinsicIndex};
    forall j: u32 | 0 <= j < n
      ensures GetBytes(t1, ExtrinsicData(j)).Some?
    {
      assert GetBytes(t1, ExtrinsicData(j)) == GetBytes(t, ExtrinsicData(j));
    }
    var d := Finalizer.DrainFrom(t1, 0, n, []);
    assert d.Done?;
    Finalizer.DrainFromInOrder(t1, 0, n, []);
    assert SameAt(t1, d.value.storage, Number);
    assert SameAt(t1, d.value.storage, ParentHash);
    assert SameAt(t1, d.value.storage, Digest);
    assert Finalizer.FinalizeBlock(t, o).Done?;
    Finalizer.FinalizeBlockDrains(t, o);
    assert Finalizer.Buffered(t, n) == Pipeline.EncodeAll(xs, o);
  }

  /** The storage with every block-context slot removed. */
  function Strip(s: Storage): Storage {
    map k | k in s && !ContextSlot(k) :: s[k]
  }

  predicate ContextFree(s: Storage) {
    forall k :: ContextSlot(k) ==> k !in s
  }

  /** Stripping is the identity on context-free storage, agrees with a write or a removal of
      a non-context slot, and ignores a write or a removal of a context slot. */
  lemma StripUpdates(s: Storage, k: Key, v: Value)
    ensures ContextFree(s) ==> Strip(s) == s
    ensures ContextFree(Strip(s))
    ensures !ContextSlot(k) ==> Strip(s[k := v]) == Strip(s)[k := v] && Strip(s - {k}) == Strip(s) - {k}
    ensures ContextSlot(k) ==> Strip(s[k := v]) == Strip(s) && Strip(s - {k}) == Strip(s)
  {
  }

  /** Account reads do not look at context slots. */
  lemma ReadsRespectStrip(u: Storage, v: Storage, a: AccountId)
    requires Strip(u) == Strip(v)
    ensures BalanceOf(u, a) == BalanceOf(v, a) && NonceOf(u, a) == NonceOf(v, a)
  {
    assert !ContextSlot(BalanceOfKey(a)) && !ContextSlot(NonceOfKey(a));
    assert BalanceOfKey(a) in u <==> BalanceOfKey(a) in Strip(u);
    assert BalanceOfKey(a) in v <==> BalanceOfKey(a) in Strip(v);
    assert NonceOfKey(a) in u <==> NonceOfKey(a) in Strip(u);
    assert NonceOfKey(a) in v <==> NonceOfKey(a) in Strip(v);
  }

  /** Writing the same non-context slot on both sides keeps them equal up to context slots. */
  lemma PutRespectsStrip(u: Storage, v: Storage, k: Key, w: Value)
    requires Strip(u) == Strip(v) && !ContextSlot(k)
    ensures Strip(u[k := w]) == Strip(v[k := w])
  {
    StripUpdates(u, k, w);
    StripUpdates(v, k, w);
  }

  /** `TransferRespectsStrip` once the nonce check has passed. */
  lemma BumpedTransferRespectsStrip(u: Storage, v: Storage, tx: Transfer)
    requires Strip(u) == Strip(v)
    requires tx.nonce == NonceOf(u, tx.from) && NonceOf(u, tx.from) + 1 < U64_LIMIT
    ensures var ru, rv := Executor.ApplyTransfer(u, tx), Executor.ApplyTransfer(v, tx);
      && (ru.Done? <==> rv.Done?)
      && (ru.Panic? ==> ru == rv)
      && (ru.Done? ==> ru.value.out == rv.value.out && Strip(ru.value.storage) == Strip(rv.value.storage))
  {
    ReadsRespectStrip(u, v, tx.from);
    var nk, nv := NonceOfKey(tx.from), U64Val(NonceOf(u, tx.from) + 1);
    var u1, v1 := u[nk := nv], v[nk := nv];
    PutRespectsStrip(u, v, nk, nv);
    ReadsRespectStrip(u1, v1, tx.from);
    ReadsRespectStrip(u1, v1, tx.to);
    if tx.amount <= BalanceOf(u1, tx.from) {
      var bk, bv := BalanceOfKey(tx.from), U64Val(BalanceOf(u1, tx.from) - tx.amount);
      var u2, v2 := u1[bk := bv], v1[bk := bv];
      PutRespectsStrip(u1, v1, bk, bv);
      if BalanceOf(u1, tx.to) + tx.amount < U64_LIMIT {
        var ck, cv := BalanceOfKey(tx.to), U64Val(BalanceOf(u1, tx.to) + tx.amount);
        PutRespectsStrip(u2, v2, ck, cv);
        assert Executor.ApplyTransfer(u, tx) == Done(Post(u2[ck := cv], Ok(Dispatched)));
        assert Executor.ApplyTransfer(v, tx) == Done(Post(v2[ck := cv], Ok(Dispatched)));
      } else {
        assert Executor.ApplyTransfer(u, tx) == Panic(Overflow) == Executor.ApplyTransfer(v, tx);
      }
    } else {
      assert Executor.ApplyTransfer(u, tx) == Done(Post(u1, Err(Payment)));
      assert Executor.ApplyTransfer(v, tx) == Done(Post(v1, Err(Payment)));
    }
  }

  /** A transfer on two storages that differ only in context slots has the same outcome on
      both, and leaves them differing only in context slots. */
  lemma TransferRespectsStrip(u: Storage, v: Storage, tx: Transfer)
    requires Strip(u) == Strip(v)
    ensures var ru, rv := Executor.ApplyTransfer(u, tx), Executor.ApplyTransfer(v, tx);
      && (ru.Done? <==> rv.Done?)
      && (ru.Panic? ==> ru == rv)
      && (ru.Done? ==> ru.value.out == rv.value.out && Strip(ru.value.storage) == Strip(rv.value.storage))
  {
    ReadsRespectStrip(u, v, tx.from);
    if tx.nonce == NonceOf(u, tx.from) && NonceOf(u, tx.from) + 1 < U64_LIMIT {
      BumpedTransferRespectsStrip(u, v, tx);
    }
  }

  /** The same for every backend. */
  lemma BackendRespectsStrip(u: Storage, v: Storage, x: Extrinsic, o: Oracles)
    requires Strip(u) == Strip(v)
    ensures var ru, rv := Executor.ApplyBackend(u, x, o), Executor.ApplyBackend(v, x, o);
      && (ru.Done? <==> rv.Done?)
      && (ru.Panic? ==> ru == rv)
      && (ru.Done? ==> ru.value.out == rv.value.out && Strip(ru.value.storage) == Strip(rv.value.storage))
  {
    match x
    case TransferTx(tx, _) => TransferRespectsStrip(u, v, tx);
    case AuthoritiesChange(a) =>
      StripUpdates(u, NewAuthorities, AuthoritiesVal(a));
      StripUpdates(v, NewAuthorities, AuthoritiesVal(a));
    case IncludeData(_) =>
    case StorageChange(key, value) =>
      var w := if value.Some? then BytesVal(value.value) else BytesVal([]);
      StripUpdates(u, Raw(key), w);
      StripUpdates(v, Raw(key), w);
  }

  /** Every push is accepted: none panics and none is rejected by its backend. A rejected
      push (a `Payment` failure, say) still bumps a nonce and is buffered, but the block loop
      of an import aborts on it. */
  predicate AllAccepted(s: Storage, xs: seq<Extrinsic>, o: Oracles)
    decreases |xs|
  {
    xs == [] ||
    (var r := Executor.ExecuteTransaction(s, xs[0], o);
     r.Done? && r.value.out.Ok? && AllAccepted(r.value.storage, xs[1..], o))
  }

  /** One accepted push from index `n`, and one iteration of the block loop at index `n` on
      the same storage without its context slots, reach the same storage up to context
      slots. */
  lemma PushStepMatchesApply(t: Storage, x: Extrinsic, n: nat, o: Oracles)
    requires GetU32(t, ExtrinsicIndex) == Some(n)
    requires var r := Executor.ExecuteTransaction(t, x, o); r.Done? && r.value.out.Ok?
    ensures var t' := Executor.ExecuteTransaction(t, x, o).value.storage;
      && GetU32(t', ExtrinsicIndex) == Some(n + 1)
      && Pipeline.ApplyAt(Strip(t), x, n, o) == Done(Strip(t'))
  {
    var p := Executor.ApplyBackend(t, x, o).value;
    Executor.ExecuteTransactionBuffers(t, x, o);
    var t' := Executor.ExecuteTransaction(t, x, o).value.storage;
    assert t' == p.storage[ExtrinsicData(n) := BytesVal(o.encode(x))][ExtrinsicIndex := U32Val(n + 1)];
    StripUpdates(p.storage, ExtrinsicData(n), BytesVal(o.encode(x)));
    StripUpdates(p.storage[ExtrinsicData(n) := BytesVal(o.encode(x))], ExtrinsicIndex, U32Val(n + 1));
    assert Strip(t') == Strip(p.storage);

    var r := Strip(t);
    var r1 := r[ExtrinsicIndex := U32Val(n % U32_LIMIT)];
    StripUpdates(t, ExtrinsicIndex, U32Val(0));
    StripUpdates(r, ExtrinsicIndex, U32Val(n % U32_LIMIT));
    BackendRespectsStrip(t, r1, x, o);
    var q := Executor.ApplyBackend(r1, x, o).value;
    var m := q.storage - {ExtrinsicIndex};
    assert Pipeline.ApplyAt(r, x, n, o) == Done(m);
    forall k | ContextSlot(k)
      ensures k !in m
    {
      if k != ExtrinsicIndex {
        Executor.BackendKeepsContext(r1, x, o, k);
      }
    }
    StripUpdates(q.storage, ExtrinsicIndex, U32Val(0));
    StripUpdates(m, ExtrinsicIndex, U32Val(0));
    assert m == Strip(t');
  }

  /** Pushing accepted extrinsics from index `n` and running them through the block loop from
      the same storage without its context slots reach the same storage, up to context
      slots. */
  lemma {:induction false} PushMatchesRun(t: Storage, xs: seq<Extrinsic>, n: nat, o: Oracles)
    requires GetU32(t, ExtrinsicIndex) == Some(n)
    requires AllAccepted(t, xs, o)
    ensures PushAll(t, xs, o).Done?
    ensures Pipeline.RunExtrinsics(Strip(t), xs, n, o) == Done(Strip(PushAll(t, xs, o).value))
    decreases |xs|
  {
    if xs != [] {
      PushStepMatchesApply(t, xs[0], n, o);
      var t' := Executor.ExecuteTransaction(t, xs[0], o).value.storage;
      PushMatchesRun(t', xs[1..], n + 1, o);
      assert Pipeline.Loop(Pipeline.BlockStep(o), Strip(t), xs, n)
          == Pipeline.Loop(Pipeline.BlockStep(o), Strip(t'), xs[1..], n + 1);
    }
  }

  /** Initialising adds only context slots. */
  lemma InitializeStrips(s: Storage, h: Header)
    requires ContextFree(s)
    ensures Strip(Context.InitializeBlock(s, h)) == s
  {
    var s0 := Context.InitializeBlock(s, h);
    forall k
      ensures SameAt(Strip(s0), s, k)
    {
    }
  }

  /** After building, finalisation leaves exactly the pushed storage without its context
      slots and without the pending authorities. */
  lemma FinalizeLeavesStripped(s: Storage, h: Header, xs: seq<Extrinsic>, o: Oracles)
    requires ContextFree(s)
    requires PushAll(Context.InitializeBlock(s, h), xs, o).Done?
    ensures var t := PushAll(Context.InitializeBlock(s, h), xs, o).value;
      && Finalizer.FinalizeBlock(t, o).Done?
      && Finalizer.FinalizeBlock(t, o).value.storage == Strip(t) - {NewAuthorities}
  {
    var s0 := Context.InitializeBlock(s, h);
    var t := PushAll(s0, xs, o).value;
    BuildThenFinalize(s, h, xs, o);
    Context.InitializeBlockWrites(s, h);
    PushAllBuffers(s0, xs, o, 0);
    Finalizer.FinalizeBlockDrains(t, o);
    var f := Finalizer.FinalizeBlock(t, o).value.storage;
    var n := GetU32(t, ExtrinsicIndex).value;
    assert n == |xs|;
    forall k
      ensures SameAt(f, Strip(t) - {NewAuthorities}, k)
    {
      if ContextSlot(k) || k == NewAuthorities {
        assert k !in Strip(t) - {NewAuthorities};
        if k.ExtrinsicData? && !(0 <= k.index < n) {
          assert SameAt(s0, t, ExtrinsicData(k.index));
          assert k !in s0;
          assert !Finalizer.FinalizedSlot(k) && !Finalizer.InRange(k, 0, n);
          assert SameAt(t, f, k);
        } else {
          assert Finalizer.FinalizedSlot(k) || Finalizer.InRange(k, 0, n);
        }
        assert k !in f;
      } else {
        assert !Finalizer.FinalizedSlot(k) && !Finalizer.InRange(k, 0, n);
        assert SameAt(t, f, k);
      }
    }
    var m := Strip(t) - {NewAuthorities};
    assert f.Keys == m.Keys by {
      forall k | k in f ensures k in m { assert SameAt(f, m, k); }
      forall k | k in m ensures k in f { assert SameAt(f, m, k); }
    }
    forall k | k in f ensures f[k] == m[k] { assert SameAt(f, m, k); }
  }

  /** A block built from context-free storage, with every push accepted, imports against that
      same storage: the header finalisation produces passes both root checks of the import,
      and the import reaches the storage finalisation left. */
  lemma BuildThenImport(s: Storage, h: Header, xs: seq<Extrinsic>, o: Oracles)
    requires ContextFree(s)
    requires AllAccepted(Context.InitializeBlock(s, h), xs, o)
    ensures PushAll(Context.InitializeBlock(s, h), xs, o).Done?
    ensures var t := PushAll(Context.InitializeBlock(s, h), xs, o).value;
      && Finalizer.FinalizeBlock(t, o).Done?
      && Pipeline.ExecuteBlock(s, Block(Finalizer.FinalizeBlock(t, o).value.out, xs), o) ==
           Done(Finalizer.FinalizeBlock(t, o).value.storage)
  {
    var s0 := Context.InitializeBlock(s, h);
    InitializeStrips(s, h);
    PushMatchesRun(s0, xs, 0, o);
    BuildThenFinalize(s, h, xs, o);
    FinalizeLeavesStripped(s, h, xs, o);
    var f := Finalizer.FinalizeBlock(PushAll(s0, xs, o).value, o).value;
    Finalizer.FinalizeBlockDrains(PushAll(s0, xs, o).value, o);
    Pipeline.VerifyChecksRoots(s, Block(f.out, xs), o);
  }
}
