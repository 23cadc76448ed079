/** The runtime's own block-import scenario with concrete numbers: Alice starts with 111,
    sends 69 to Bob in block 1, and in block 2 Bob sends 27 back before Alice sends 69 on to
    Charlie. Each block is sealed against the state the previous one left, and importing the
    sealed blocks in turn against the same initial state reaches the same storage. */
module Scenario {
  import opened Types
  import opened Slots
  import opened Pipeline

  // Stand-ins for the three test keyrings' public keys.
  const ALICE: AccountId := [1]
  const BOB: AccountId := [2]
  const CHARLIE: AccountId := [3]

  /** The test's initial storage, as far as accounts go: Alice holds 111, Bob and Charlie
      nothing, and no nonce has been used. Any other slots (the test also sets a "latest"
      hash and the authority list) are left free. */
  predicate TestGenesis(g: Storage) {
    && BalanceOf(g, ALICE) == 111 && BalanceOf(g, BOB) == 0 && BalanceOf(g, CHARLIE) == 0
    && NonceOf(g, ALICE) == 0 && NonceOf(g, BOB) == 0
  }

  /** The parent hash of the first block: 32 bytes of 69. */
  const GENESIS_HASH: Hash := [69, 69, 69, 69, 69, 69, 69, 69, 69, 69, 69, 69, 69, 69, 69, 69, 69, 69, 69, 69, 69, 69, 69, 69, 69, 69, 69, 69, 69, 69, 69, 69]

  const ALICE_TO_BOB: Extrinsic := TransferTx(Transfer(ALICE, BOB, 69, 0), [])
  const BOB_TO_ALICE: Extrinsic := TransferTx(Transfer(BOB, ALICE, 27, 0), [])
  const ALICE_TO_CHARLIE: Extrinsic := TransferTx(Transfer(ALICE, CHARLIE, 69, 1), [])

  function FirstBlock(): Block {
    Block(Header(1, GENESIS_HASH, [], [], []), [ALICE_TO_BOB])
  }

  function SecondBlock(parent: Hash): Block {
    Block(Header(2, parent, [], [], []), [BOB_TO_ALICE, ALICE_TO_CHARLIE])
  }

  /** Block 1 runs from the test's initial storage: Alice 42, Bob 69, Alice's nonce 1. */
  lemma FirstBlockRuns(g: Storage, o: Oracles)
    requires TestGenesis(g) && o.signatureValid(ALICE_TO_BOB)
    ensures RunExtrinsics(g, FirstBlock().extrinsics, 0, o).Done?
    ensures var s := RunExtrinsics(g, FirstBlock().extrinsics, 0, o).value;
      && BalanceOf(s, ALICE) == 42 && BalanceOf(s, BOB) == 69 && BalanceOf(s, CHARLIE) == 0
      && NonceOf(s, ALICE) == 1 && NonceOf(s, BOB) == 0
  {
    ApplyAtTransfer(g, ALICE_TO_BOB, 0, o);
    assert [ALICE_TO_BOB][1..] == [];
  }

  /** Block 2 runs from any storage with block 1's balances and nonces: Alice 0, Bob 42,
      Charlie 69. */
  lemma SecondBlockRuns(s: Storage, parent: Hash, o: Oracles)
    requires o.signatureValid(BOB_TO_ALICE) && o.signatureValid(ALICE_TO_CHARLIE)
    requires BalanceOf(s, ALICE) == 42 && BalanceOf(s, BOB) == 69 && BalanceOf(s, CHARLIE) == 0
    requires NonceOf(s, ALICE) == 1 && NonceOf(s, BOB) == 0
    ensures RunExtrinsics(s, SecondBlock(parent).extrinsics, 0, o).Done?
    ensures var s' := RunExtrinsics(s, SecondBlock(parent).extrinsics, 0, o).value;
      BalanceOf(s', ALICE) == 0 && BalanceOf(s', BOB) == 42 && BalanceOf(s', CHARLIE) == 69
  {
    ApplyAtTransfer(s, BOB_TO_ALICE, 0, o);
    var s1 := ApplyAt(s, BOB_TO_ALICE, 0, o).value;
    ApplyAtTransfer(s1, ALICE_TO_CHARLIE, 1, o);
    var s2 := ApplyAt(s1, ALICE_TO_CHARLIE, 1, o).value;
    assert [ALICE_TO_CHARLIE][1..] == [];
    assert BlockStep(o)(s1, ALICE_TO_CHARLIE, 1) == Done(s2);
    assert Loop(BlockStep(o), s1, [ALICE_TO_CHARLIE], 1) == Loop(BlockStep(o), s2, [], 2) == Done(s2);
    assert RunExtrinsics(s1, [ALICE_TO_CHARLIE], 1, o) == Done(s2);
    assert SecondBlock(parent).extrinsics[1..] == [ALICE_TO_CHARLIE];
  }

  /** Taking the pending-authorities slot does not change any balance or nonce. */
  lemma TakeKeepsAccounts(s: Storage, a: AccountId)
    ensures BalanceOf(s - {NewAuthorities}, a) == BalanceOf(s, a)
    ensures NonceOf(s - {NewAuthorities}, a) == NonceOf(s, a)
  {
  }

  /** The whole scenario: both blocks seal, the balances after each block are the ones the
      runtime's test expects, and importing the two sealed blocks in turn from the initial
      storage succeeds at each step with the storage the sealing reached. */
  lemma BlockImportWithTransfers(g: Storage, o: Oracles, parent: Hash)
    requires TestGenesis(g)
    requires o.signatureValid(ALICE_TO_BOB)
    requires o.signatureValid(BOB_TO_ALICE)
    requires o.signatureValid(ALICE_TO_CHARLIE)
    ensures PolishBlock(g, FirstBlock(), o).Done?
    ensures var s1 := PolishBlock(g, FirstBlock(), o).value.storage;
      && BalanceOf(s1, ALICE) == 42
      && BalanceOf(s1, BOB) == 69
      && NonceOf(s1, ALICE) == 1
      && PolishBlock(s1, SecondBlock(parent), o).Done?
    ensures var p1 := PolishBlock(g, FirstBlock(), o).value;
      var p2 := PolishBlock(p1.storage, SecondBlock(parent), o).value;
      && BalanceOf(p2.storage, ALICE) == 0
      && BalanceOf(p2.storage, BOB) == 42
      && BalanceOf(p2.storage, CHARLIE) == 69
      && ExecuteBlock(g, p1.out, o) == Done(p1.storage)
      && ExecuteBlock(p1.storage, p2.out, o) == Done(p2.storage)
  {
    FirstBlockRuns(g, o);
    var r1 := RunExtrinsics(g, FirstBlock().extrinsics, 0, o).value;
    var p1 := PolishBlock(g, FirstBlock(), o).value;
    assert p1.storage == r1 - {NewAuthorities};
    TakeKeepsAccounts(r1, ALICE);
    TakeKeepsAccounts(r1, BOB);
    TakeKeepsAccounts(r1, CHARLIE);
    SealThenVerify(g, FirstBlock(), o);

    SecondBlockRuns(p1.storage, parent, o);
    var r2 := RunExtrinsics(p1.storage, SecondBlock(parent).extrinsics, 0, o).value;
    var p2 := PolishBlock(p1.storage, SecondBlock(parent), o).value;
    assert p2.storage == r2 - {NewAuthorities};
    TakeKeepsAccounts(r2, ALICE);
    TakeKeepsAccounts(r2, BOB);
    TakeKeepsAccounts(r2, CHARLIE);
    SealThenVerify(p1.storage, SecondBlock(parent), o);
  }

  /** An empty block on top of the initial storage seals, whatever its header, and the sealed
      block imports against the same storage. */
  lemma EmptyBlockImport(g: Storage, o: Oracles)
    ensures var b := Block(Header(1, GENESIS_HASH, [], [], []), []);
      && PolishBlock(g, b, o).Done?
      && ExecuteBlock(g, PolishBlock(g, b, o).value.out, o) == Done(PolishBlock(g, b, o).value.storage)
  {
    var b := Block(Header(1, GENESIS_HASH, [], [], []), []);
    SealThenVerify(g, b, o);
  }
}
