/** Whole-block execution in its two modes: Verify (importing a received block, whose roots
    must match what execution computes) and Overwrite (sealing a freshly built block, whose
    roots are written from what execution computes). */
module Pipeline {
  import opened Types
  import opened Slots
  import opened Executor
  import Validation

  datatype Mode = Verify | Overwrite

  function EncodeAll(xs: seq<Extrinsic>, o: Oracles): seq<Bytes> {
    seq(|xs|, i requires 0 <= i < |xs| => o.encode(xs[i]))
  }

  /** The transaction-root commitment over the encoded extrinsics, in order. */
  function ExtrinsicsRoot(xs: seq<Extrinsic>, o: Oracles): Hash {
    o.orderedTrieRoot(EncodeAll(xs, o))
  }

  /** The digest once execution is reconciled: a changes-trie root item when the
      collaborator has one, then one consensus item per engine when authorities were staged. */
  function SealDigest(digest: seq<DigestItem>, changes: Option<Hash>, staged: Option<seq<AuthorityId>>, o: Oracles): seq<DigestItem> {
    var changesItems := match changes case Some(root) => [ChangesTrieRoot(root)] case None => [];
    var authorityItems := match staged
      case Some(a) => [Consensus(AURA, o.encodeAuthorities(a)), Consensus(BABE, o.encodeAuthorities(a))]
      case None => [];
    digest + changesItems + authorityItems
  }

  /** One iteration of the block loop: set the index, apply through the backend (not the
      buffering wrapper), abort on an outer rejection, and kill the index. The index is
      stored as `i as u32`, a truncating cast. */
  function ApplyAt(s: Storage, x: Extrinsic, i: nat, o: Oracles): Run<Storage> {
    var s1 := s[ExtrinsicIndex := U32Val(i % U32_LIMIT)];
    match ApplyBackend(s1, x, o)
    case Panic(f) => Panic(f)
    case Done(p) => if p.out.Err? then Panic(InvalidTransactionInBlock) else Done(p.storage - {ExtrinsicIndex})
  }

  /** `ApplyAt` as one step of the block loop. */
  function BlockStep(o: Oracles): (Storage, Extrinsic, nat) -> Run<Storage> {
    (s: Storage, x: Extrinsic, j: nat) => ApplyAt(s, x, j, o)
  }

  /** A loop over `xs` that runs `step` on each element in turn, with the element's index
      counted from `i`, and stops at the first panic. */
  function Loop(step: (Storage, Extrinsic, nat) -> Run<Storage>, s: Storage, xs: seq<Extrinsic>, i: nat): Run<Storage>
    decreases |xs|
  {
    if xs == [] then Done(s)
    else
      match step(s, xs[0], i)
      case Panic(f) => Panic(f)
      case Done(s1) => Loop(step, s1, xs[1..], i + 1)
  }

  /** The block loop over `xs`, whose first element has index `i`. After one or more
      extrinsics the index slot is gone. */
  function RunExtrinsics(s: Storage, xs: seq<Extrinsic>, i: nat, o: Oracles): (r: Run<Storage>)
    ensures r.Done? && |xs| > 0 ==> ExtrinsicIndex !in r.value
  {
    BlockLoopClearsIndex(s, xs, i, o);
    Loop(BlockStep(o), s, xs, i)
  }

  lemma {:induction false} BlockLoopClearsIndex(s: Storage, xs: seq<Extrinsic>, i: nat, o: Oracles)
    ensures var r := Loop(BlockStep(o), s, xs, i); r.Done? && |xs| > 0 ==> ExtrinsicIndex !in r.value
    decreases |xs|
  {
    if xs != [] {
      match ApplyAt(s, xs[0], i, o)
      case Panic(_) =>
      case Done(s1) => BlockLoopClearsIndex(s1, xs[1..], i + 1, o);
    }
  }

  /** The whole pipeline. The block context is not initialised here: only the index is set
      and killed around each extrinsic. */
  function ExecuteWithHandler(s: Storage, b: Block, mode: Mode, o: Oracles): Run<Post<Block>> {
    var txsRoot := ExtrinsicsRoot(b.extrinsics, o);
    if mode.Verify? && txsRoot != b.header.extrinsicsRoot then Panic(ExtrinsicsRootMismatch)
    else
      var h1 := if mode.Overwrite? then b.header.(extrinsicsRoot := txsRoot) else b.header;
      match RunExtrinsics(s, b.extrinsics, 0, o)
      case Panic(f) => Panic(f)
      case Done(s2) =>
        var staged := GetAuthorities(s2, NewAuthorities);
        var s3 := s2 - {NewAuthorities};
        var stateRoot := o.storageRoot(s3);
        if mode.Verify? && stateRoot != h1.stateRoot then Panic(StateRootMismatch)
        else
          var h2 := if mode.Overwrite? then h1.(stateRoot := stateRoot) else h1;
          var digest := SealDigest(h2.digest, o.changesRoot(s3, h2.parentHash), staged, o);
          Done(Post(s3, Block(h2.(digest := digest), b.extrinsics)))
  }

  /** Sealing: the block comes back with its roots and digest filled in. */
  function PolishBlock(s: Storage, b: Block, o: Oracles): Run<Post<Block>> {
    ExecuteWithHandler(s, b, Overwrite, o)
  }

  /** Importing: the block is taken by value, so the digest items pushed onto its header are
      dropped and only the storage survives. */
  function ExecuteBlock(s: Storage, b: Block, o: Oracles): Run<Storage> {
    match ExecuteWithHandler(s, b, Verify, o)
    case Panic(f) => Panic(f)
    case Done(p) => Done(p.storage)
  }

  /** Number of transfers sent by `a` in `xs`. */
  function TransfersFrom(xs: seq<Extrinsic>, a: AccountId): nat {
    if xs == [] then 0
    else (if xs[0].TransferTx? && xs[0].transfer.from == a then 1 else 0) + TransfersFrom(xs[1..], a)
  }

  /** The context slots the block loop leaves alone: all but the index it sets and kills. */
  predicate BlockContextSlot(k: Key) {
    ContextSlot(k) && !k.ExtrinsicIndex?
  }

  /** The digest items are appended after the header's own: the changes-trie root exactly
      when the collaborator returns one, and when authorities were staged exactly two
      consensus items, aura then babe, carrying the same payload. */
  lemma SealDigestItems(digest: seq<DigestItem>, changes: Option<Hash>, staged: Option<seq<AuthorityId>>, o: Oracles)
    ensures var r := SealDigest(digest, changes, staged, o);
      var c := if changes.Some? then 1 else 0;
      && |r| == |digest| + c + (if staged.Some? then 2 else 0)
      && r[..|digest|] == digest
      && (changes.Some? ==> r[|digest|] == ChangesTrieRoot(changes.value))
      && (staged.Some? ==>
            r[|digest| + c] == Consensus(AURA, o.encodeAuthorities(staged.value)) &&
            r[|digest| + c + 1] == Consensus(BABE, o.encodeAuthorities(staged.value)))
      && (forall j :: |digest| <= j < |r| ==> !r[j].Other?)
  {
  }

  /** In Verify mode the block aborts on a transaction-root mismatch before anything runs, and,
      when the transactions run to the end, aborts exactly when the state root differs. */
  lemma VerifyChecksRoots(s: Storage, b: Block, o: Oracles)
    ensures ExtrinsicsRoot(b.extrinsics, o) != b.header.extrinsicsRoot ==>
              ExecuteBlock(s, b, o) == Panic(ExtrinsicsRootMismatch)
    ensures ExtrinsicsRoot(b.extrinsics, o) == b.header.extrinsicsRoot && RunExtrinsics(s, b.extrinsics, 0, o).Done? ==>
              var s2 := RunExtrinsics(s, b.extrinsics, 0, o).value;
              && (ExecuteBlock(s, b, o).Done? <==> o.storageRoot(s2 - {NewAuthorities}) == b.header.stateRoot)
              && (ExecuteBlock(s, b, o).Panic? ==> ExecuteBlock(s, b, o) == Panic(StateRootMismatch))
              && (ExecuteBlock(s, b, o).Done? ==> ExecuteBlock(s, b, o).value == s2 - {NewAuthorities})
    ensures RunExtrinsics(s, b.extrinsics, 0, o).Panic? ==> ExecuteBlock(s, b, o).Panic?
  {
  }

  /** In Overwrite mode the computed roots are written into the header, the extrinsics and
      the rest of the header are kept, the pending authorities are taken before the state
      root is computed, and the index is gone once at least one extrinsic ran. */
  lemma OverwriteWritesRoots(s: Storage, b: Block, o: Oracles)
    requires PolishBlock(s, b, o).Done?
    ensures var p := PolishBlock(s, b, o).value;
      && p.out.header.extrinsicsRoot == ExtrinsicsRoot(b.extrinsics, o)
      && p.out.header.stateRoot == o.storageRoot(p.storage)
      && p.out.header.number == b.header.number
      && p.out.header.parentHash == b.header.parentHash
      && p.out.extrinsics == b.extrinsics
      && NewAuthorities !in p.storage
      && (|b.extrinsics| > 0 ==> ExtrinsicIndex !in p.storage)
  {
  }

  /** Both modes reconcile the digest the same way. */
  lemma PipelineDigest(s: Storage, b: Block, mode: Mode, o: Oracles)
    requires ExecuteWithHandler(s, b, mode, o).Done?
    ensures var p := ExecuteWithHandler(s, b, mode, o).value;
      var staged := GetAuthorities(RunExtrinsics(s, b.extrinsics, 0, o).value, NewAuthorities);
      p.out.header.digest == SealDigest(b.header.digest, o.changesRoot(p.storage, b.header.parentHash), staged, o)
  {
  }

  /** Sealing a block and then importing the sealed block against the same prior storage
      succeeds and reaches the same storage: the roots computed in the two modes agree. */
  lemma SealThenVerify(s: Storage, b: Block, o: Oracles)
    requires PolishBlock(s, b, o).Done?
    ensures ExecuteBlock(s, PolishBlock(s, b, o).value.out, o) == Done(PolishBlock(s, b, o).value.storage)
  {
  }

  /** Importing a sealed block whose state root was altered aborts. */
  lemma TamperedStateRootAborts(s: Storage, b: Block, o: Oracles, forged: Hash)
    requires PolishBlock(s, b, o).Done?
    requires forged != PolishBlock(s, b, o).value.out.header.stateRoot
    ensures var sealed := PolishBlock(s, b, o).value.out;
      ExecuteBlock(s, sealed.(header := sealed.header.(stateRoot := forged)), o) == Panic(StateRootMismatch)
  {
  }

  /** Running `xs + ys` is running `xs` and then `ys` from where it stopped, for any step. */
  lemma {:induction false} LoopAppend(step: (Storage, Extrinsic, nat) -> Run<Storage>, s: Storage, xs: seq<Extrinsic>, ys: seq<Extrinsic>, i: nat)
    ensures Loop(step, s, xs + ys, i) ==
      match Loop(step, s, xs, i)
      case Panic(f) => Panic(f)
      case Done(s1) => Loop(step, s1, ys, i + |xs|)
    decreases |xs|
  {
    if xs == [] {
      assert xs + ys == ys;
    } else {
      assert (xs + ys)[0] == xs[0] && (xs + ys)[1..] == xs[1..] + ys;
      match step(s, xs[0], i)
      case Panic(f) =>
      case Done(s1) =>
        LoopAppend(step, s1, xs[1..], ys, i + 1);
        assert i + 1 + |xs[1..]| == i + |xs|;
    }
  }

  /** Running `xs + ys` through the block loop is running `xs` and then `ys` from where it
      stopped, at the next index. */
  lemma RunExtrinsicsAppend(s: Storage, xs: seq<Extrinsic>, ys: seq<Extrinsic>, i: nat, o: Oracles)
    ensures RunExtrinsics(s, xs + ys, i, o) ==
      match RunExtrinsics(s, xs, i, o)
      case Panic(f) => Panic(f)
      case Done(s1) => RunExtrinsics(s1, ys, i + |xs|, o)
  {
    LoopAppend(BlockStep(o), s, xs, ys, i);
  }

  /** An extrinsic anywhere in the block that the backend rejects aborts the whole block. */
  lemma RejectionAborts(s: Storage, xs: seq<Extrinsic>, j: nat, o: Oracles)
    requires j < |xs|
    requires RunExtrinsics(s, xs[..j], 0, o).Done?
    requires var s1 := RunExtrinsics(s, xs[..j], 0, o).value;
      var q := ApplyBackend(s1[ExtrinsicIndex := U32Val(j % U32_LIMIT)], xs[j], o);
      q.Done? && q.value.out.Err?
    ensures RunExtrinsics(s, xs, 0, o) == Panic(InvalidTransactionInBlock)
  {
    assert xs == xs[..j] + xs[j..];
    RunExtrinsicsAppend(s, xs[..j], xs[j..], 0, o);
    assert xs[j..][0] == xs[j];
  }

  /** One iteration of the loop bumps the nonce of the sender of a transfer and no other. */
  lemma ApplyAtNonce(s: Storage, x: Extrinsic, i: nat, o: Oracles, a: AccountId)
    requires ApplyAt(s, x, i, o).Done?
    ensures NonceOf(ApplyAt(s, x, i, o).value, a) ==
              NonceOf(s, a) + (if x.TransferTx? && x.transfer.from == a then 1 else 0)
  {
    var s1 := s[ExtrinsicIndex := U32Val(i % U32_LIMIT)];
    assert NonceOf(s1, a) == NonceOf(s, a);
    var p := ApplyBackend(s1, x, o).value;
    assert NonceOf(p.storage - {ExtrinsicIndex}, a) == NonceOf(p.storage, a);
    match x
    case TransferTx(tx, _) =>
      TransferStale(s1, tx);
      TransferBumpsNonce(s1, tx, a);
    case AuthoritiesChange(_) =>
    case IncludeData(_) =>
    case StorageChange(_, _) =>
  }

  /** A valid transfer between two different accounts, with the sender's next nonce and
      enough funds, goes through inside a block: the funds move, the sender's nonce goes up,
      and no other account's balance or nonce changes. */
  lemma ApplyAtTransfer(s: Storage, x: Extrinsic, i: nat, o: Oracles)
    requires x.TransferTx? && o.signatureValid(x)
    requires var tx := x.transfer;
      && tx.from != tx.to
      && tx.nonce == NonceOf(s, tx.from) && tx.nonce + 1 < U64_LIMIT
      && tx.amount <= BalanceOf(s, tx.from)
      && BalanceOf(s, tx.to) + tx.amount < U64_LIMIT
    ensures ApplyAt(s, x, i, o).Done?
    ensures var tx, s' := x.transfer, ApplyAt(s, x, i, o).value;
      forall a :: && BalanceOf(s', a) == (if a == tx.from then BalanceOf(s, a) - tx.amount
                                          else if a == tx.to then BalanceOf(s, a) + tx.amount
                                          else BalanceOf(s, a))
                  && NonceOf(s', a) == if a == tx.from then NonceOf(s, a) + 1 else NonceOf(s, a)
  {
  }

  /** Nonce accounting over a block: once the loop runs to the end, every account's nonce has
      gone up by exactly the number of transfers it sent. */
  lemma {:induction false} BlockNonceAccounting(s: Storage, xs: seq<Extrinsic>, i: nat, o: Oracles, a: AccountId)
    requires RunExtrinsics(s, xs, i, o).Done?
    ensures NonceOf(RunExtrinsics(s, xs, i, o).value, a) == NonceOf(s, a) + TransfersFrom(xs, a)
    decreases |xs|
  {
    if xs != [] {
      var s1 := ApplyAt(s, xs[0], i, o).value;
      ApplyAtNonce(s, xs[0], i, o, a);
      BlockNonceAccounting(s1, xs[1..], i + 1, o, a);
    }
  }

  /** One iteration of the loop leaves the block-context slots as they were. */
  lemma ApplyAtKeepsContext(s: Storage, x: Extrinsic, i: nat, o: Oracles, k: Key)
    requires BlockContextSlot(k)
    requires ApplyAt(s, x, i, o).Done?
    ensures SameAt(s, ApplyAt(s, x, i, o).value, k)
  {
  }

  /** The block loop neither initialises the block context nor buffers extrinsics: the
      number, parent hash, digest and extrinsic-buffer slots end as they began. */
  lemma {:induction false} RunExtrinsicsKeepsContext(s: Storage, xs: seq<Extrinsic>, i: nat, o: Oracles, k: Key)
    requires BlockContextSlot(k)
    requires RunExtrinsics(s, xs, i, o).Done?
    ensures SameAt(s, RunExtrinsics(s, xs, i, o).value, k)
    decreases |xs|
  {
    if xs != [] {
      var s1 := ApplyAt(s, xs[0], i, o).value;
      ApplyAtKeepsContext(s, xs[0], i, o, k);
      RunExtrinsicsKeepsContext(s1, xs[1..], i + 1, o, k);
    }
  }

  /** A replayed transfer, with a nonce below the sender's, is rejected as stale by the pool,
      by the backend, and aborts a block that contains it. */
  lemma ReplayRejected(s: Storage, utx: Extrinsic, i: nat, o: Oracles)
    requires utx.TransferTx? && o.signatureValid(utx)
    requires utx.transfer.nonce < NonceOf(s, utx.transfer.from)
    ensures Validation.ValidateTransaction(s, utx, o) == Done(Invalid(Stale))
    ensures ApplyBackend(s, utx, o) == Done(Post(s, Err(Stale)))
    ensures RunExtrinsics(s, [utx], i, o) == Panic(InvalidTransactionInBlock)
  {
    var s1 := s[ExtrinsicIndex := U32Val(i % U32_LIMIT)];
    assert NonceOf(s1, utx.transfer.from) == NonceOf(s, utx.transfer.from);
  }
}
