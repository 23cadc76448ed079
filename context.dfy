/** The block context kept in storage while one block is built or executed: the block
    number, the parent hash, the digest, and the extrinsic index. */
module Context {
  import opened Types
  import opened Slots

  /** The slots `InitializeBlock` writes: every context slot but the extrinsic buffer. */
  function ContextKeys(): set<Key> {
    {Number, ParentHash, Digest, ExtrinsicIndex}
  }

  /** The storage after setting up a block from `header`. The runtime also reads the raw
      slot named by a leading `Other` digest item; that read has no effect on storage. */
  function InitializeBlock(s: Storage, header: Header): Storage {
    s[Number := U64Val(header.number)]
     [ParentHash := HashVal(header.parentHash)]
     [Digest := DigestVal(header.digest)]
     [ExtrinsicIndex := U32Val(0)]
  }

  /** Initialisation records the header's number, parent hash and digest, starts the index
      at 0, and writes nothing else. */
  lemma InitializeBlockWrites(s: Storage, header: Header)
    ensures var s' := InitializeBlock(s, header);
      && GetU64(s', Number) == Some(header.number)
      && GetHash(s', ParentHash) == Some(header.parentHash)
      && GetDigest(s', Digest) == Some(header.digest)
      && GetU32(s', ExtrinsicIndex) == Some(0)
      && s' - ContextKeys() == s - ContextKeys()
  {
    var s' := InitializeBlock(s, header);
    assert s' - ContextKeys() == s - ContextKeys() by {
      forall k | k in s' - ContextKeys()
        ensures k in s - ContextKeys() && s'[k] == s[k]
      {
      }
    }
  }
}
