/** Inputs at which the store does less than its operations seem to promise. */
module StoreWitnesses {
  import opened Wrappers
  import opened Tables
  import opened ChainTypes
  import opened StoreSpec
  import opened StoreRuns
  import opened StoreAcceptance
  import opened StoreOutputs
  import opened StoreReach
  import opened StoreLedger
  import opened StoreRct

  const META: BlockMeta := BlockMeta(0, 0, 0, 0)

  /** A block after the change to BLS that lists one transaction. */
  function Listing(id: nat, prev: nat, tx: Transaction): Addition {
    Addition(Block(Hash(id), Hash(prev), ETH_BLS, 0, None, [tx.id]), META, [tx])
  }

  lemma ListingEntries(id: nat, prev: nat, tx: Transaction)
    ensures Listing(id, prev, tx).Listed() == [Entry(tx.id, tx)]
  {
  }

  /** Adding such a block is adding its transaction and pushing the block. */
  lemma AddListing(db: Store, id: nat, prev: nat, tx: Transaction, db1: Store)
    requires AddTransaction(db, Entry(tx.id, tx)) == Ok(db1)
    ensures var b := Listing(id, prev, tx);
      AddTo(db, b) == PushBlock(db1, b.blk, META, CountZeroAmounts(tx.vout))
  {
    var b, e := Listing(id, prev, tx), Entry(tx.id, tx);
    ListingEntries(id, prev, tx);
    assert [e][..0] == [] && AddTransactions(db, []) == Ok(db);
    assert AddTransactions(db, [e]) == Ok(db1);
    assert [tx][..0] == [] && CountRctOutputs([]) == 0;
    assert NumRctOuts(b.blk, [tx]) == CountZeroAmounts(tx.vout);
    AddToSteps(db, b);
  }

  /** Spends nothing and is dropped: its input is a script. */
  function Dropped(id: nat, vout: seq<TxOut>): Transaction {
    Transaction(Hash(id), V2_RINGCT, 0, [ToScript], vout, [], seq(|vout|, _ => 9))
  }

  lemma DroppedIsDropped(db: Store, id: nat, vout: seq<TxOut>)
    ensures AddTransaction(db, Entry(Hash(id), Dropped(id, vout))) == Ok(db)
  {
    var tx := Dropped(id, vout);
    assert SupportedPrefix(tx.vin) == 0;
    assert KeyImages(tx.vin) == [];
    assert db.spent - Elements(KeyImages(tx.vin)) == db.spent;
    assert db.(spent := db.spent) == db;
  }

  lemma PopMissing(db: Store, blk: Block, h: Hash)
    requires db.blocks != [] && db.blocks[|db.blocks| - 1].block == blk && blk.id in db.blockHeights
    requires blk.txHashes == [h] && h !in db.txIndices
    ensures PopBlock(db) == Err(DbError)
  {
    var db1 := RemoveTopBlock(db).value;
    assert GetTx(db1, h).None?;
    assert RemoveListed(db1, [h]) == Err(DbError);
  }

  /** On an empty store a block with a dropped transaction goes in and does not come off. */
  lemma DroppedBlockStuck()
    ensures var r := AddTo(EMPTY, Listing(1, 0, Dropped(7, [])));
      r.Ok? && PopBlock(r.value) == Err(DbError)
  {
    var b := Listing(1, 0, Dropped(7, []));
    DroppedIsDropped(EMPTY, 7, []);
    AddListing(EMPTY, 1, 0, Dropped(7, []), EMPTY);
    PopMissing(AddTo(EMPTY, b).value, b.blk, Hash(7));
  }

  /** The count that goes with a block has an output that was never stored. */
  lemma CountsDroppedOutput()
    ensures var r := AddTo(EMPTY, Listing(1, 0, Dropped(7, [TxOut(0, KeyTarget(1))])));
      r.Ok? && RunningTotal(r.value) == 1 && ZeroList(r.value) == 0
  {
    var vout := [TxOut(0, KeyTarget(1))];
    DroppedIsDropped(EMPTY, 7, vout);
    AddListing(EMPTY, 1, 0, Dropped(7, vout), EMPTY);
    assert vout[..0] == [];
    assert CountZeroAmounts(vout) == 1;
  }

  /** Spends one image and pays nobody. */
  function Spender(id: nat, k: KeyImage): Transaction {
    Transaction(Hash(id), V2_RINGCT, 0, [ToKey(k)], [], [], [])
  }

  /** Names an image after an input that is not supported. */
  function Namer(id: nat, k: KeyImage): Transaction {
    Transaction(Hash(id), V2_RINGCT, 0, [ToScript, ToKey(k)], [], [], [])
  }

  lemma SpenderImages(id: nat, k: KeyImage)
    ensures Supported(Spender(id, k)) && KeyImages(Spender(id, k).vin) == [k]
    ensures AllStorable(Spender(id, k))
  {
    assert [ToKey(k)][..0] == [];
  }

  lemma NamerImages(id: nat, k: KeyImage)
    ensures !Supported(Namer(id, k)) && Elements(KeyImages(Namer(id, k).vin)) == {k}
    ensures SupportedPrefix(Namer(id, k).vin) == 0
  {
    var vin := Namer(id, k).vin;
    assert !vin[0].ToKey? && vin[1].ToKey?;
    assert vin[..1][..0] == [] && vin[..1] == [ToScript];
  }

  /** A block of this number may go on the block of that number. */
  predicate Extends(db: Store, id: nat, prev: nat) {
    && DenseStore(db)
    && Hash(id) !in db.blockHeights
    && (db.blocks != [] ==> Hash(prev) in db.blockHeights && db.blockHeights[Hash(prev)] == |db.blocks| - 1)
  }

  /** It did. */
  predicate Extended(db: Store, id: nat, db': Store) {
    && DenseStore(db')
    && |db'.blocks| == |db.blocks| + 1
    && db'.blockHeights == db.blockHeights[Hash(id) := |db.blocks|]
  }

  lemma AddSpender(db: Store, id: nat, prev: nat, h: nat, k: KeyImage) returns (db': Store)
    requires Extends(db, id, prev) && Hash(h) !in db.txIndices && k !in db.spent
    ensures AddTo(db, Listing(id, prev, Spender(h, k))) == Ok(db') && Extended(db, id, db')
    ensures db'.spent == db.spent + {k}
    ensures db'.txIndices == db.txIndices[Hash(h) := TxIndex(|db.txs|, 0, |db.blocks|)]
    ensures db'.txs == db.txs + [Row(|db.txs|, Spender(h, k))]
  {
    var e := Entry(Hash(h), Spender(h, k));
    SpenderImages(h, k);
    AddTransactionAcceptsIff(db, e);
    assert Elements([k]) == {k};
    var db1 := AddTransaction(db, e).value;
    AddListing(db, id, prev, e.tx, db1);
    db' := AddTo(db, Listing(id, prev, e.tx)).value;
  }

  lemma AddNamer(db: Store, id: nat, prev: nat, h: nat, k: KeyImage) returns (db': Store)
    requires Extends(db, id, prev)
    ensures AddTo(db, Listing(id, prev, Namer(h, k))) == Ok(db') && Extended(db, id, db')
    ensures db'.spent == db.spent - {k}
    ensures db'.txIndices == db.txIndices && db'.txs == db.txs
  {
    var e := Entry(Hash(h), Namer(h, k));
    NamerImages(h, k);
    AddTransactionAcceptsIff(db, e);
    var db1 := AddTransaction(db, e).value;
    AddListing(db, id, prev, e.tx, db1);
    db' := AddTo(db, Listing(id, prev, e.tx)).value;
  }

  lemma RunMore(ops: seq<Op>, b: Addition)
    requires AddTo(RunDb(ops), b).Ok?
    ensures RunDb(ops + [Add(b)]) == AddTo(RunDb(ops), b).value
  {
    assert (ops + [Add(b)])[..|ops|] == ops;
  }

  /** The store after a block with a spender, and after one with a namer of its image on top. */
  lemma SpentThenNamed(k: KeyImage) returns (db: Store)
    ensures db == RunDb([Add(Listing(1, 0, Spender(3, k)))] + [Add(Listing(2, 1, Namer(7, k)))])
    ensures DenseStore(db) && db.spent == {} && db.txIndices == map[Hash(3) := TxIndex(0, 0, 0)]
    ensures db.txs == [Row(0, Spender(3, k))]
    ensures |db.blocks| == 2 && db.blockHeights == map[Hash(1) := 0, Hash(2) := 1]
  {
    var db1 := AddSpender(EMPTY, 1, 0, 3, k);
    assert [] + [Add(Listing(1, 0, Spender(3, k)))] == [Add(Listing(1, 0, Spender(3, k)))];
    RunMore([], Listing(1, 0, Spender(3, k)));
    db := AddNamer(db1, 2, 1, 7, k);
    RunMore([Add(Listing(1, 0, Spender(3, k)))], Listing(2, 1, Namer(7, k)));
    assert {k} - {k} == {};
    assert EMPTY.spent + {k} == {k};
  }

  lemma OneImage(k: KeyImage)
    ensures ImagesIn([Row(0, Spender(3, k))]) == [k]
  {
    SpenderImages(3, k);
    assert [Row(0, Spender(3, k))][..0] == [];
  }

  /** A run after which a transaction is stored and its image is not spent. */
  lemma StoredButNotSpent(k: KeyImage)
    ensures var db := RunDb([Add(Listing(1, 0, Spender(3, k)))] + [Add(Listing(2, 1, Namer(7, k)))]);
      GetTx(db, Hash(3)) == Some(Spender(3, k)) && db.spent == {} && !Union(db)
  {
    var db := SpentThenNamed(k);
    OneImage(k);
    assert k in [k];
    assert k in Elements([k]);
  }

  /** One block more, and two stored transactions spend the same image. */
  lemma StoredTwice(k: KeyImage)
    ensures var db := RunDb([Add(Listing(1, 0, Spender(3, k)))] + [Add(Listing(2, 1, Namer(7, k)))]
                            + [Add(Listing(4, 2, Spender(5, k)))]);
      && GetTx(db, Hash(3)) == Some(Spender(3, k))
      && GetTx(db, Hash(5)) == Some(Spender(5, k))
      && !NoImageTwice(db)
  {
    var ops := [Add(Listing(1, 0, Spender(3, k)))] + [Add(Listing(2, 1, Namer(7, k)))];
    var db1 := SpentThenNamed(k);
    var db := AddSpender(db1, 4, 2, 5, k);
    RunMore(ops, Listing(4, 2, Spender(5, k)));
    TwoRows(db.txs, k);
  }

  lemma TwoRows(txs: seq<Row<Transaction>>, k: KeyImage)
    requires txs == [Row(0, Spender(3, k))] + [Row(1, Spender(5, k))]
    ensures Get(txs, 0) == Some(Spender(3, k)) && Get(txs, 1) == Some(Spender(5, k))
    ensures !NoDuplicates(ImagesIn(txs))
  {
    assert txs[..1] == [Row(0, Spender(3, k))];
    OneImage(k);
    SpenderImages(5, k);
    assert ImagesIn(txs) == [k] + [k];
    assert ImagesIn(txs)[0] == ImagesIn(txs)[1];
  }

  /** Looks like a miner transaction, and pays one output of amount 5. */
  const MINER_LIKE: Transaction :=
    Transaction(Hash(7), V2_RINGCT, 0, [Gen(0)], [TxOut(5, KeyTarget(1))], [], [])

  /** Its record in an empty store. */
  const STORED_MINER_LIKE: Store := EMPTY.(
    txIndices := map[Hash(7) := TxIndex(0, 0, 0)],
    txs := [Row(0, MINER_LIKE)],
    txOutputs := [Row(0, [0])],
    outputs := OutputTables([Row(0, OutTx(Hash(7), 0))],
                            map[0 := [Row(0, OutKey(0, 1, 0, 0, IdentityMask(5)))]]))

  lemma MinerLikeStored()
    ensures AddTransaction(EMPTY, Entry(Hash(7), MINER_LIKE)) == Ok(STORED_MINER_LIKE)
  {
    var o, o1 := EMPTY.outputs, STORED_MINER_LIKE.outputs;
    assert OutputRecord(o, 0, MINER_LIKE, 0) == OutKey(0, 1, 0, 0, IdentityMask(5));
    assert [] + [Row(0, OutTx(Hash(7), 0))] == o1.byId;
    assert [] + [Row(0, OutKey(0, 1, 0, 0, IdentityMask(5)))] == o1.byAmount[0];
    assert AddOutput(o, 0, Hash(7), MINER_LIKE, 0) == Ok((o1, 0));
    assert AddOutputs(o, 0, Hash(7), MINER_LIKE, 0) == Ok((o, []));
    assert [] + [0] == [0];
    assert AddOutputs(o, 0, Hash(7), MINER_LIKE, 1) == Ok((o1, [0]));
    assert [] + [Row(0, MINER_LIKE)] == STORED_MINER_LIKE.txs;
    assert [] + [Row(0, [0])] == STORED_MINER_LIKE.txOutputs;
  }

  /** Listed, its output is filed under amount zero and not counted. */
  lemma MissesMinerLikeOutput()
    ensures var db := RunDb([Add(Listing(1, 0, MINER_LIKE))]);
      RunningTotal(db) == 0 && ZeroList(db) == 1
  {
    var b := Listing(1, 0, MINER_LIKE);
    MinerLikeStored();
    AddListing(EMPTY, 1, 0, MINER_LIKE, STORED_MINER_LIKE);
    assert MINER_LIKE.vout[..0] == [];
    assert CountZeroAmounts(MINER_LIKE.vout) == 0;
    assert [Add(b)][..0] == [];
    assert RunDb([Add(b)]) == StepDb(EMPTY, Add(b));
  }

  lemma PopOfOne(db: Store, blk: Block, h: Hash)
    requires Consistent(db) && HeightsMatch(db) && h in db.txIndices
    requires db.blocks != [] && db.blocks[|db.blocks| - 1].block == blk && HashesIn(blk) == [h]
    ensures var p := PopBlock(db);
      p.Ok? && p.value.db.blocks == db.blocks[..|db.blocks| - 1] && h !in p.value.db.txIndices
  {
    assert Elements(HashesIn(blk)) == {h};
    PopSucceedsIff(db);
    assert h !in PopBlock(db).value.db.txIndices.Keys;
  }

  lemma AddDropped(db: Store, b: Addition)
    requires Consistent(db) && HeightsMatch(db) && b == Listing(2, 1, Dropped(7, []))
    requires Hash(2) !in db.blockHeights && Hash(1) in db.blockHeights && db.blockHeights[Hash(1)] == |db.blocks| - 1
    ensures AddTo(db, b).Ok?
    ensures var db' := AddTo(db, b).value;
      && Consistent(db') && HeightsMatch(db')
      && db'.txIndices == db.txIndices
      && |db'.blocks| == |db.blocks| + 1 && db'.blocks[..|db.blocks|] == db.blocks
      && db'.blocks[|db.blocks|].block == b.blk
  {
    DroppedIsDropped(db, 7, []);
    AddListing(db, 2, 1, Dropped(7, []), db);
    AddedConsistent(db, b);
  }

  lemma FirstBlock()
    ensures var r := AddTo(EMPTY, Listing(1, 0, MINER_LIKE));
      && r.Ok?
      && Consistent(r.value) && HeightsMatch(r.value)
      && Hash(7) in r.value.txIndices
      && |r.value.blocks| == 1 && r.value.blockHeights == map[Hash(1) := 0]
  {
    MinerLikeStored();
    AddListing(EMPTY, 1, 0, MINER_LIKE, STORED_MINER_LIKE);
    RunConsistent([]);
    AddedConsistent(EMPTY, Listing(1, 0, MINER_LIKE));
  }

  /** A block that lists the hash of a stored transaction with one that is dropped comes off
      again, and takes the stored transaction of the block below with it. */
  lemma PopTakesAnother()
    ensures var r1 := AddTo(EMPTY, Listing(1, 0, MINER_LIKE));
      && r1.Ok?
      && Hash(7) in r1.value.txIndices
      && var r2 := AddTo(r1.value, Listing(2, 1, Dropped(7, [])));
         && r2.Ok?
         && var p := PopBlock(r2.value);
            p.Ok? && p.value.db.blocks == r1.value.blocks && Hash(7) !in p.value.db.txIndices
  {
    FirstBlock();
    var db1, b := AddTo(EMPTY, Listing(1, 0, MINER_LIKE)).value, Listing(2, 1, Dropped(7, []));
    AddDropped(db1, b);
    assert HashesIn(b.blk) == [Hash(7)];
    PopOfOne(AddTo(db1, b).value, b.blk, Hash(7));
  }
}
