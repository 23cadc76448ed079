/** Finishing a block that was built one extrinsic at a time: drain the buffered extrinsics,
    take every block-context slot, and assemble the header from what is left. */
module Finalizer {
  import opened Types
  import opened Slots
  import Pipeline

  predicate InRange(k: Key, i: nat, n: nat) {
    k.ExtrinsicData? && i <= k.index < n
  }

  /** Take the buffered extrinsics at indices `i` up to `n`, in order, after those already in
      `acc`. Every slot in that range must be present. */
  function DrainFrom(s: Storage, i: nat, n: u32, acc: seq<Bytes>): (r: Run<Post<seq<Bytes>>>)
    requires i <= n
    ensures r.Panic? <==> exists j: u32 :: i <= j < n && GetBytes(s, ExtrinsicData(j)).None?
    ensures r.Panic? ==> r.reason == MissingExtrinsicData
    decreases n - i
  {
    if i == n then Done(Post(s, acc))
    else
      match GetBytes(s, ExtrinsicData(i))
      case None => Panic(MissingExtrinsicData)
      case Some(tx) => DrainFrom(s - {ExtrinsicData(i)}, i + 1, n, acc + [tx])
  }

  /** Draining returns the buffered extrinsics in index order after `acc`, removes their
      slots, and touches no other slot. */
  lemma {:induction false} DrainFromInOrder(s: Storage, i: nat, n: u32, acc: seq<Bytes>)
    requires i <= n
    requires DrainFrom(s, i, n, acc).Done?
    ensures var r := DrainFrom(s, i, n, acc).value;
      && |r.out| == |acc| + (n - i)
      && r.out[..|acc|] == acc
      && (forall j: u32 :: i <= j < n ==>
            ExtrinsicData(j) !in r.storage && GetBytes(s, ExtrinsicData(j)) == Some(r.out[|acc| + j - i]))
      && (forall k :: !InRange(k, i, n) ==> SameAt(s, r.storage, k))
    decreases n - i
  {
    if i < n {
      var tx := GetBytes(s, ExtrinsicData(i)).value;
      var s' := s - {ExtrinsicData(i)};
      DrainFromInOrder(s', i + 1, n, acc + [tx]);
      var r := DrainFrom(s, i, n, acc).value;
      assert r == DrainFrom(s', i + 1, n, acc + [tx]).value;
      assert r.out[..|acc|] == (r.out[..|acc| + 1])[..|acc|];
      assert SameAt(s', r.storage, ExtrinsicData(i));
      forall j: u32 | i <= j < n
        ensures ExtrinsicData(j) !in r.storage && GetBytes(s, ExtrinsicData(j)) == Some(r.out[|acc| + j - i])
      {
        if j == i {
          assert r.out[|acc|] == (r.out[..|acc| + 1])[|acc|];
        } else {
          assert GetBytes(s', ExtrinsicData(j)) == GetBytes(s, ExtrinsicData(j));
        }
      }
      forall k | !InRange(k, i, n)
        ensures SameAt(s, r.storage, k)
      {
        assert !InRange(k, i + 1, n);
      }
    }
  }

  /** The build-side finaliser. Any missing context slot is a panic, in the order the runtime
      takes them: the index, the buffered extrinsics, the number, the parent hash, the digest.
      The state root is computed only after every slot has been taken. */
  function FinalizeBlock(s: Storage, o: Oracles): Run<Post<Header>> {
    match GetU32(s, ExtrinsicIndex)
    case None => Panic(MissingExtrinsicIndex)
    case Some(n) =>
      match DrainFrom(s - {ExtrinsicIndex}, 0, n, [])
      case Panic(f) => Panic(f)
      case Done(d) =>
        var txsRoot := o.orderedTrieRoot(d.out);
        match GetU64(d.storage, Number)
        case None => Panic(MissingNumber)
        case Some(number) =>
          var s1 := d.storage - {Number};
          match GetHash(s1, ParentHash)
          case None => Panic(MissingParentHash)
          case Some(parentHash) =>
            var s2 := s1 - {ParentHash};
            match GetDigest(s2, Digest)
            case None => Panic(MissingDigest)
            case Some(digest) =>
              var s3 := s2 - {Digest};
              var staged := GetAuthorities(s3, NewAuthorities);
              var s4 := s3 - {NewAuthorities};
              var stateRoot := o.storageRoot(s4);
              var changes := o.changesRoot(s4, parentHash);
              Done(Post(s4, Header(number, parentHash, stateRoot, txsRoot,
                                   Pipeline.SealDigest(digest, changes, staged, o))))
  }

  /** The extrinsics buffered at indices `0` up to `n`, in index order. */
  function Buffered(s: Storage, n: u32): seq<Bytes>
    requires forall j: u32 :: j < n ==> GetBytes(s, ExtrinsicData(j)).Some?
  {
    seq(n, j requires 0 <= j < n => GetBytes(s, ExtrinsicData(j)).value)
  }

  /** The slots finalisation takes, besides the buffered extrinsics: the context slots
      other than the buffer, and the pending authorities. */
  predicate FinalizedSlot(k: Key) {
    (ContextSlot(k) && !k.ExtrinsicData?) || k.NewAuthorities?
  }

  /** A successful finalisation commits to the buffered extrinsics in index order, reports
      the number and parent hash that were stored, reconciles the digest as the pipeline does,
      computes the state root over the storage it leaves, and leaves no block-context slot and
      no buffered extrinsic behind; every other slot is untouched. */
  lemma FinalizeBlockDrains(s: Storage, o: Oracles)
    requires FinalizeBlock(s, o).Done?
    ensures GetU32(s, ExtrinsicIndex).Some? && GetU64(s, Number).Some? && GetHash(s, ParentHash).Some?
    ensures GetDigest(s, Digest).Some?
    ensures forall j: u32 :: j < GetU32(s, ExtrinsicIndex).value ==> GetBytes(s, ExtrinsicData(j)).Some?
    ensures FinalizeBlock(s, o).value.out.extrinsicsRoot ==
              o.orderedTrieRoot(Buffered(s, GetU32(s, ExtrinsicIndex).value))
    ensures var h := FinalizeBlock(s, o).value.out;
      && h.number == GetU64(s, Number).value
      && h.parentHash == GetHash(s, ParentHash).value
      && h.stateRoot == o.storageRoot(FinalizeBlock(s, o).value.storage)
    ensures var p := FinalizeBlock(s, o).value;
      p.out.digest == Pipeline.SealDigest(GetDigest(s, Digest).value, o.changesRoot(p.storage, p.out.parentHash),
                                          GetAuthorities(s, NewAuthorities), o)
    ensures forall k :: FinalizedSlot(k) || InRange(k, 0, GetU32(s, ExtrinsicIndex).value) ==>
              k !in FinalizeBlock(s, o).value.storage
    ensures forall k :: !FinalizedSlot(k) && !InRange(k, 0, GetU32(s, ExtrinsicIndex).value) ==>
              SameAt(s, FinalizeBlock(s, o).value.storage, k)
  {
    var n := GetU32(s, ExtrinsicIndex).value;
    var d := DrainFrom(s - {ExtrinsicIndex}, 0, n, []).value;
    DrainFromInOrder(s - {ExtrinsicIndex}, 0, n, []);
    assert d.out == Buffered(s, n) by {
      forall j: u32 | j < n
        ensures GetBytes(s, ExtrinsicData(j)) == GetBytes(s - {ExtrinsicIndex}, ExtrinsicData(j))
      {
      }
    }
    assert SameAt(s - {ExtrinsicIndex}, d.storage, Number);
    assert SameAt(s - {ExtrinsicIndex}, d.storage, ParentHash);
    assert SameAt(s - {ExtrinsicIndex}, d.storage, Digest);
    assert SameAt(s - {ExtrinsicIndex}, d.storage, NewAuthorities);
    forall k | InRange(k, 0, n)
      ensures k !in d.storage
    {
      assert k == ExtrinsicData(k.index);
    }
  }

  /** Finalisation aborts when the index, the number or the digest was never set. */
  lemma FinalizeBlockAborts(s: Storage, o: Oracles)
    ensures GetU32(s, ExtrinsicIndex).None? ==> FinalizeBlock(s, o) == Panic(MissingExtrinsicIndex)
    ensures GetU64(s, Number).None? ==> FinalizeBlock(s, o).Panic?
    ensures GetDigest(s, Digest).None? ==> FinalizeBlock(s, o).Panic?
  {
    if GetU32(s, ExtrinsicIndex).Some? {
      var n := GetU32(s, ExtrinsicIndex).value;
      var r := DrainFrom(s - {ExtrinsicIndex}, 0, n, []);
      if r.Done? {
        DrainFromInOrder(s - {ExtrinsicIndex}, 0, n, []);
        assert SameAt(s - {ExtrinsicIndex}, r.value.storage, Number);
        assert SameAt(s - {ExtrinsicIndex}, r.value.storage, Digest);
      }
    }
  }
}
