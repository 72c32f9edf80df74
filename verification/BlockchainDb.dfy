/** The block store with its tables updated in place, loop by loop. */
module BlockchainDb {
  import opened Wrappers
  import opened Tables
  import opened ChainTypes
  import S = StoreSpec
  import opened StoreRoundTrip
  import opened StoreAcceptance
  import Runs = StoreRuns

  type Error = S.Error

  /** The call threw what the specification throws, or left the store it promises. */
  ghost predicate Agrees(r: Result<(), Error>, spec: Result<S.Store, Error>, now: S.Store) {
    match spec
    case Ok(db) => r.Ok? && now == db
    case Err(e) => r == Err(e)
  }

  class Db {
    var spent: set<KeyImage>
    var txIndices: map<Hash, S.TxIndex>
    var txs: seq<Row<Transaction>>
    var txOutputs: seq<Row<seq<nat>>>
    var outputTxs: seq<Row<S.OutTx>>
    var outputAmounts: map<nat, seq<Row<S.OutKey>>>
    var blocks: seq<S.BlockRow>
    var blockHeights: map<Hash, nat>

    function Contents(): S.Store
      reads this
    {
      S.Store(spent, txIndices, txs, txOutputs, S.OutputTables(outputTxs, outputAmounts), blocks, blockHeights)
    }

    constructor ()
      ensures Contents() == S.EMPTY
    {
      spent, txIndices, txs, txOutputs := {}, map[], [], [];
      outputTxs, outputAmounts, blocks, blockHeights := [], map[], [], map[];
    }

    // ----- Key images

    method AddSpentKey(image: KeyImage) returns (r: Result<(), Error>)
      modifies this`spent
      ensures r == if image in old(spent) then Err(S.KeyImageExists) else Ok(())
      ensures spent == old(spent) + {image}
    {
      if image in spent {
        return Err(S.KeyImageExists);
      }
      spent := spent + {image};
      r := Ok(());
    }

    method RemoveSpentKeys(vin: seq<TxIn>)
      modifies this`spent
      ensures spent == old(spent) - Elements(KeyImages(vin))
    {
      assert vin[..|vin|] == vin;
      for i := 0 to |vin|
        invariant spent == old(spent) - Elements(KeyImages(vin[..i]))
      {
        assert vin[..i + 1][..i] == vin[..i];
        if vin[i].ToKey? {
          ElementsConcat(KeyImages(vin[..i]), [vin[i].keyImage]);
          spent := spent - {vin[i].keyImage};
        }
      }
    }

    /** Spends the inputs of a transaction that is not a miner's; `aborted` when an input is
        unsupported. */
    method SpendInputs(vin: seq<TxIn>) returns (r: Result<(), Error>, aborted: bool)
      modifies this`spent
      ensures match S.SpendInputs(old(spent), vin)
        case Rejected => r == Err(S.KeyImageExists)
        case Aborted(images) => r.Ok? && aborted && spent == images
        case Spent(images) => r.Ok? && !aborted && spent == images
    {
      ghost var good := S.SupportedPrefix(vin);
      aborted := false;
      assert KeyImages(vin[..0]) == [];
      for i := 0 to |vin|
        invariant i <= good
        invariant S.Fresh(old(spent), KeyImages(vin[..i]))
        invariant spent == old(spent) + Elements(KeyImages(vin[..i]))
      {
        if vin[i].ToKey? {
          var image := vin[i].keyImage;
          PrefixImages(vin, i);
          FreshSplit(old(spent), KeyImages(vin[..i]), [image]);
          r := AddSpentKey(image);
          if r.Err? {
            assert image in [image];
            FreshPrefix(old(spent), vin, i + 1, good);
            return;
          }
          ElementsConcat(KeyImages(vin[..i]), [image]);
        } else {
          assert i == good;
          RemoveSpentKeys(vin);
          assert vin == vin[..i] + vin[i..];
          KeyImagesConcat(vin[..i], vin[i..]);
          ElementsConcat(KeyImages(vin[..i]), KeyImages(vin[i..]));
          aborted := true;
          return Ok(()), true;
        }
      }
      assert vin[..|vin|] == vin;
      r := Ok(());
    }

    // ----- Outputs

    method AddOutput(hash: Hash, tx: Transaction, i: nat) returns (r: Result<nat, Error>)
      requires i < |tx.vout|
      modifies this`outputTxs, this`outputAmounts
      ensures match S.AddOutput(old(Contents()).outputs, |blocks|, hash, tx, i)
        case Ok((o, index)) => r == Ok(index) && Contents().outputs == o
        case Err(e) => r == Err(e)
    {
      var miner := tx.IsMiner() && tx.version >= V2_RINGCT;
      var amount := if miner then 0 else tx.vout[i].amount;
      var commitment := if miner then IdentityMask(tx.vout[i].amount)
                        else if tx.version >= V2_RINGCT then RctMask(tx.outPk[i])
                        else Absent;
      var unlockTime := if tx.version >= V3_PER_OUTPUT_UNLOCK_TIMES then tx.outputUnlockTimes[i] else tx.unlockTime;
      if !tx.vout[i].target.KeyTarget? || (amount == 0 && commitment == Absent) {
        return Err(S.DbError);
      }
      var id := if outputTxs == [] then 0 else outputTxs[|outputTxs| - 1].key + 1;
      var rows := if amount in outputAmounts then outputAmounts[amount] else [];
      if !CanAppend(rows, |rows|) {
        return Err(S.DbError);
      }
      var record := S.OutKey(id, tx.vout[i].target.key, unlockTime, |blocks|,
                             if amount == 0 then commitment else Absent);
      outputTxs := outputTxs + [Row(id, S.OutTx(hash, i))];
      outputAmounts := outputAmounts[amount := rows + [Row(|rows|, record)]];
      r := Ok(|rows|);
    }

    method RemoveOutput(amount: nat, index: nat) returns (r: Result<(), Error>)
      modifies this`outputTxs, this`outputAmounts
      ensures match S.RemoveOutput(old(Contents()).outputs, amount, index)
        case Ok(o) => r.Ok? && Contents().outputs == o
        case Err(e) => r == Err(e)
    {
      var rows := if amount in outputAmounts then outputAmounts[amount] else [];
      var record := Get(rows, index);
      if record.None? {
        return Err(S.OutputDne);
      }
      if Get(outputTxs, record.value.outputId).None? {
        return Err(S.DbError);
      }
      outputTxs := Delete(outputTxs, record.value.outputId);
      var rest := Delete(rows, index);
      outputAmounts := if rest == [] then outputAmounts - {amount} else outputAmounts[amount := rest];
      r := Ok(());
    }

    // ----- Transactions

    /** Adds the outputs in order and collects their positions. */
    method AddOutputs(hash: Hash, tx: Transaction) returns (r: Result<seq<nat>, Error>)
      modifies this`outputTxs, this`outputAmounts
      ensures match S.AddOutputs(old(Contents()).outputs, |blocks|, hash, tx, |tx.vout|)
        case Ok((o, indices)) => r == Ok(indices) && Contents().outputs == o
        case Err(e) => r == Err(e)
    {
      var indices := [];
      ghost var before := Contents().outputs;
      for i := 0 to |tx.vout|
        invariant S.AddOutputs(before, |blocks|, hash, tx, i) == Ok((Contents().outputs, indices))
      {
        var index := AddOutput(hash, tx, i);
        if index.Err? {
          AddOutputsErrPersists(before, |blocks|, hash, tx, i + 1, |tx.vout|);
          return Err(index.error);
        }
        indices := indices + [index.value];
      }
      r := Ok(indices);
    }

    method AddTransactionData(hash: Hash, tx: Transaction) returns (r: Result<nat, Error>)
      modifies this`txIndices, this`txs
      ensures r == if hash in old(txIndices) then Err(S.TxExists)
                   else if !CanAppend(old(txs), |old(txs)|) then Err(S.DbError)
                   else Ok(|old(txs)|)
      ensures r.Ok? ==>
        && txIndices == old(txIndices)[hash := S.TxIndex(r.value, tx.unlockTime, |blocks|)]
        && txs == old(txs) + [Row(r.value, tx)]
    {
      var id := |txs|;
      if hash in txIndices {
        return Err(S.TxExists);
      }
      if !CanAppend(txs, id) {
        return Err(S.DbError);
      }
      txIndices := txIndices[hash := S.TxIndex(id, tx.unlockTime, |blocks|)];
      txs := txs + [Row(id, tx)];
      r := Ok(id);
    }

    /** `txHash` is absent for the miner transaction, whose hash is then computed. */
    method AddTransaction(tx: Transaction, txHash: Option<Hash>) returns (r: Result<(), Error>)
      modifies this
      ensures var hash := if txHash.Some? then txHash.value else tx.id;
        Agrees(r, S.AddTransaction(old(Contents()), Entry(hash, tx)), Contents())
    {
      var hash := if txHash.Some? then txHash.value else tx.id;
      if !tx.IsMiner() {
        var aborted;
        r, aborted := SpendInputs(tx.vin);
        if r.Err? || aborted {
          return;
        }
      }
      var id := AddTransactionData(hash, tx);
      if id.Err? {
        return Err(id.error);
      }
      var indices := AddOutputs(hash, tx);
      if indices.Err? {
        return Err(indices.error);
      }
      if !CanAppend(txOutputs, id.value) {
        return Err(S.DbError);
      }
      txOutputs := txOutputs + [Row(id.value, indices.value)];
      r := Ok(());
    }

    /** Removes the outputs, the last one first. */
    method RemoveTxOutputs(tx: Transaction, indices: seq<nat>) returns (r: Result<(), Error>)
      requires |tx.vout| <= |indices|
      modifies this`outputTxs, this`outputAmounts
      ensures match S.RemoveOutputs(old(Contents()).outputs, tx, indices, |tx.vout|)
        case Ok(o) => r.Ok? && Contents().outputs == o
        case Err(e) => r == Err(e)
    {
      ghost var before := Contents().outputs;
      for i := |tx.vout| downto 0
        invariant S.RemoveOutputs(before, tx, indices, |tx.vout|) == S.RemoveOutputs(Contents().outputs, tx, indices, i)
      {
        var amount := if tx.IsPseudoRct() then 0 else tx.vout[i].amount;
        ghost var now := Contents().outputs;
        RemoveOutputsNext(now, tx, indices, i);
        r := RemoveOutput(amount, indices[i]);
        if r.Err? {
          return;
        }
        assert S.RemoveOutput(now, amount, indices[i]) == Ok(Contents().outputs);
      }
      r := Ok(());
    }

    method RemoveTransactionData(hash: Hash, tx: Transaction) returns (r: Result<(), Error>)
      modifies this
      ensures Agrees(r, S.RemoveTransactionData(old(Contents()), hash, tx), Contents())
    {
      if hash !in txIndices {
        return Err(S.TxDne);
      }
      var id := txIndices[hash].txId;
      var indices := Get(txOutputs, id);
      if indices.None? || |indices.value| < |tx.vout| || Get(txs, id).None? {
        return Err(S.DbError);
      }
      txs := Delete(txs, id);
      r := RemoveTxOutputs(tx, indices.value);
      if r.Err? {
        return;
      }
      txOutputs := Delete(txOutputs, id);
      txIndices := txIndices - {hash};
    }

    method RemoveTransaction(hash: Hash) returns (r: Result<(), Error>)
      modifies this
      ensures Agrees(r, S.RemoveTransaction(old(Contents()), hash), Contents())
    {
      var tx := S.GetTx(Contents(), hash);
      if tx.None? {
        return Err(S.TxDne);
      }
      RemoveSpentKeys(tx.value.vin);
      r := RemoveTransactionData(hash, tx.value);
    }

    // ----- Blocks

    method PushBlock(blk: Block, meta: BlockMeta, numRctOuts: nat) returns (r: Result<(), Error>)
      modifies this`blocks, this`blockHeights
      ensures Agrees(r, S.PushBlock(old(Contents()), blk, meta, numRctOuts), Contents())
    {
      var height := |blocks|;
      if blk.id in blockHeights {
        return Err(S.BlockExists);
      }
      var cumulative := numRctOuts;
      if height > 0 {
        if blk.prevId !in blockHeights {
          return Err(S.DbError);
        }
        if blockHeights[blk.prevId] != height - 1 {
          return Err(S.BlockParentDne);
        }
        cumulative := cumulative + blocks[height - 1].cumulativeRct;
      }
      blocks := blocks + [S.BlockRow(blk, meta, cumulative)];
      blockHeights := blockHeights[blk.id := height];
      r := Ok(());
    }

    /** Adds the miner transaction, if there is one, and counts its outputs. */
    method AddMiner(blk: Block) returns (r: Result<(), Error>, numRctOuts: nat)
      modifies this
      ensures Agrees(r, S.AddTransactions(old(Contents()), MinerEntry(blk)), Contents())
      ensures numRctOuts == S.NumRctOuts(blk, [])
    {
      r, numRctOuts := Ok(()), 0;
      if blk.minerTx.Some? {
        SingleEntry(Contents(), MinerEntry(blk)[0]);
        r := AddTransaction(blk.minerTx.value, None);
        if blk.minerTx.value.version >= V2_RINGCT {
          numRctOuts := numRctOuts + |blk.minerTx.value.vout|;
        }
      }
    }

    /** Adds the listed transactions under the block's hashes and counts their outputs. */
    method AddListed(blk: Block, listed: seq<Transaction>) returns (r: Result<(), Error>, numRctOuts: nat)
      requires |blk.txHashes| == |listed|
      modifies this
      ensures Agrees(r, S.AddTransactions(old(Contents()), ListedEntries(blk, listed)), Contents())
      ensures r.Ok? ==> numRctOuts == S.CountRctOutputs(listed)
    {
      ghost var db0, entries := Contents(), ListedEntries(blk, listed);
      numRctOuts := 0;
      for i := 0 to |listed|
        invariant S.AddTransactions(db0, entries[..i]) == Ok(Contents())
        invariant numRctOuts == S.CountRctOutputs(listed[..i])
      {
        AddTransactionsNext(db0, entries, i);
        CountRctNext(listed, i);
        r := AddTransaction(listed[i], Some(blk.txHashes[i]));
        if r.Err? {
          AddTransactionsErr(db0, entries, i + 1);
          return;
        }
        numRctOuts := CountZeroOutputs(listed[i].vout, numRctOuts);
      }
      assert entries[..|entries|] == entries && listed[..|listed|] == listed;
      r := Ok(());
    }

    method AddEntries(blk: Block, listed: seq<Transaction>) returns (r: Result<(), Error>, numRctOuts: nat)
      requires |blk.txHashes| == |listed|
      modifies this
      ensures Agrees(r, S.AddTransactions(old(Contents()), Entries(blk, listed)), Contents())
      ensures r.Ok? ==> numRctOuts == S.NumRctOuts(blk, listed)
    {
      ghost var miner, rest := MinerEntry(blk), ListedEntries(blk, listed);
      AddTransactionsSplit(Contents(), miner, rest);
      r, numRctOuts := AddMiner(blk);
      if r.Err? {
        return;
      }
      var listedOuts;
      r, listedOuts := AddListed(blk, listed);
      numRctOuts := numRctOuts + listedOuts;
    }

    /** The height returned is the one the block was added at. */
    method AddBlock(blk: Block, meta: BlockMeta, listed: seq<Transaction>)
      returns (r: Result<(), Error>, prevHeight: nat)
      modifies this
      ensures Agrees(r, S.AddBlock(old(Contents()), blk, meta, listed), Contents())
      ensures prevHeight == |old(blocks)|
    {
      prevHeight := |blocks|;
      if |blk.txHashes| != |listed| {
        return Err(S.RuntimeError), prevHeight;
      }
      if (blk.majorVersion >= ETH_BLS) == blk.minerTx.Some? {
        return Err(S.RuntimeError), prevHeight;
      }
      var numRctOuts;
      r, numRctOuts := AddEntries(blk, listed);
      if r.Err? {
        return;
      }
      r := PushBlock(blk, meta, numRctOuts);
    }

    static method CountZeroOutputs(vout: seq<TxOut>, start: nat) returns (n: nat)
      ensures n == start + S.CountZeroAmounts(vout)
    {
      n := start;
      for i := 0 to |vout|
        invariant n == start + S.CountZeroAmounts(vout[..i])
      {
        assert vout[..i + 1][..i] == vout[..i];
        if vout[i].amount == 0 {
          n := n + 1;
        }
      }
      assert vout[..|vout|] == vout;
    }

    /** An empty chain has the default block on top. */
    function GetTopBlock(): Block
      reads this
    {
      if blocks == [] then Block(Hash(0), Hash(0), 0, 0, None, []) else blocks[|blocks| - 1].block
    }

    method RemoveTopBlock() returns (r: Result<(), Error>)
      modifies this`blocks, this`blockHeights
      ensures Agrees(r, S.RemoveTopBlock(old(Contents())), Contents())
    {
      if blocks == [] {
        return Err(S.BlockDne);
      }
      var top := blocks[|blocks| - 1].block;
      if top.id !in blockHeights {
        return Err(S.DbError);
      }
      blocks := blocks[..|blocks| - 1];
      blockHeights := blockHeights - {top.id};
      r := Ok(());
    }

    /** Removes the listed transactions, the last one first, and appends each to `given`. */
    method RemoveListed(hashes: seq<Hash>, given: seq<Transaction>)
      returns (r: Result<(), Error>, taken: seq<Transaction>)
      modifies this
      ensures match S.RemoveListed(old(Contents()), hashes)
        case Ok((db, popped)) => r.Ok? && taken == given + popped && Contents() == db
        case Err(e) => r == Err(e)
    {
      ghost var popped, result := [], S.RemoveListed(Contents(), hashes);
      taken := given;
      assert hashes[..|hashes|] == hashes;
      PrependNothing(result);
      for i := |hashes| downto 0
        invariant taken == given + popped
        invariant result == Prepend(popped, S.RemoveListed(Contents(), hashes[..i]))
      {
        assert hashes[..i + 1][..i] == hashes[..i];
        var tx := S.GetTx(Contents(), hashes[i]);
        if tx.None? {
          return Err(S.DbError), taken;
        }
        PrependStep(popped, Contents(), hashes[..i + 1], tx.value);
        taken := taken + [tx.value];
        popped := popped + [tx.value];
        r := RemoveTransaction(hashes[i]);
        if r.Err? {
          return;
        }
      }
      PrependEnd(popped, Contents(), hashes[..0]);
      r := Ok(());
    }

    /** Appends the transactions of the top block to `given`, the last one first. */
    method PopBlock(given: seq<Transaction>) returns (r: Result<Block, Error>, taken: seq<Transaction>)
      modifies this
      ensures match S.PopBlock(old(Contents()))
        case Ok(p) => r == Ok(p.block) && taken == given + p.txs && Contents() == p.db
        case Err(e) => r == Err(e)
    {
      taken := given;
      var blk := GetTopBlock();
      var done := RemoveTopBlock();
      if done.Err? {
        return Err(done.error), taken;
      }
      done, taken := RemoveListed(blk.txHashes, given);
      if done.Err? {
        return Err(done.error), taken;
      }
      if blk.minerTx.Some? {
        done := RemoveTransaction(blk.minerTx.value.id);
        if done.Err? {
          return Err(done.error), taken;
        }
      }
      r := Ok(blk);
    }

    /** Puts every table back to what it was when the write transaction began. */
    method Abort(snapshot: S.Store)
      modifies this
      ensures Contents() == snapshot
    {
      spent, txIndices, txs, txOutputs := snapshot.spent, snapshot.txIndices, snapshot.txs, snapshot.txOutputs;
      outputTxs, outputAmounts := snapshot.outputs.byId, snapshot.outputs.byAmount;
      blocks, blockHeights := snapshot.blocks, snapshot.blockHeights;
    }

    /** The pop inside a write transaction: an error puts every table back. */
    method PopBlockOrAbort() returns (r: Result<Block, Error>, taken: seq<Transaction>)
      modifies this
      ensures match S.PopBlock(old(Contents()))
        case Ok(p) => r == Ok(p.block) && taken == p.txs && Contents() == p.db
        case Err(e) => r == Err(e) && Contents() == old(Contents())
    {
      var snapshot := Contents();
      r, taken := PopBlock([]);
      if r.Err? {
        Abort(snapshot);
      }
    }

    /** The addition as a batch of its own: an error aborts the batch. */
    method AddBlockOrAbort(b: Runs.Addition) returns (r: Result<(), Error>)
      modifies this
      ensures match Runs.AddTo(old(Contents()), b)
        case Ok(db) => r.Ok? && Contents() == db
        case Err(e) => r == Err(e) && Contents() == old(Contents())
    {
      var snapshot := Contents();
      var prevHeight;
      r, prevHeight := AddBlock(b.blk, b.meta, b.txs);
      if r.Err? {
        Abort(snapshot);
      }
    }

    /** Any run of additions and pops leaves the store that the run stands for. */
    method Perform(ops: seq<Runs.Op>)
      requires Contents() == S.EMPTY
      modifies this
      ensures Contents() == Runs.RunDb(ops)
    {
      assert ops[..0] == [];
      for i := 0 to |ops|
        invariant Contents() == Runs.RunDb(ops[..i])
      {
        assert ops[..i + 1][..i] == ops[..i];
        match ops[i]
        case Add(b) => var _ := AddBlockOrAbort(b);
        case Pop => var _, _ := PopBlockOrAbort();
      }
      assert ops[..|ops|] == ops;
    }

    method GetOutputUnlockTime(amount: nat, index: nat) returns (r: Result<nat, Error>)
      ensures r == S.OutputUnlockTime(Contents(), amount, index)
    {
      var rows := if amount in outputAmounts then outputAmounts[amount] else [];
      var record := Get(rows, index);
      r := if record.None? then Err(S.OutputDne) else Ok(record.value.unlockTime);
    }
  }

  // ----- Steps of the loops above

  lemma PrefixImages(vin: seq<TxIn>, i: nat)
    requires i < |vin| && vin[i].ToKey?
    ensures KeyImages(vin[..i + 1]) == KeyImages(vin[..i]) + [vin[i].keyImage]
  {
    assert vin[..i + 1][..i] == vin[..i];
  }

  lemma FreshPrefix(used: set<KeyImage>, vin: seq<TxIn>, m: nat, n: nat)
    requires m <= n <= |vin|
    ensures S.Fresh(used, KeyImages(vin[..n])) ==> S.Fresh(used, KeyImages(vin[..m]))
  {
    assert vin[..n] == vin[..m] + vin[m..n];
    KeyImagesConcat(vin[..m], vin[m..n]);
    FreshSplit(used, KeyImages(vin[..m]), KeyImages(vin[m..n]));
  }

  lemma {:induction false} AddOutputsErrPersists(o: S.OutputTables, height: nat, hash: Hash, tx: Transaction,
                                                 m: nat, n: nat)
    requires m <= n <= |tx.vout| && S.AddOutputs(o, height, hash, tx, m).Err?
    ensures S.AddOutputs(o, height, hash, tx, n) == S.AddOutputs(o, height, hash, tx, m)
    decreases n
  {
    if m < n {
      AddOutputsErrPersists(o, height, hash, tx, m, n - 1);
    }
  }

  lemma RemoveOutputsNext(o: S.OutputTables, tx: Transaction, indices: seq<nat>, i: nat)
    requires i < |tx.vout| <= |indices|
    ensures S.RemoveOutputs(o, tx, indices, i + 1) ==
      match S.RemoveOutput(o, StoredAmount(tx, i), indices[i])
      case Ok(o1) => S.RemoveOutputs(o1, tx, indices, i)
      case Err(e) => Err(e)
  {
  }

  lemma AddTransactionsNext(db: S.Store, entries: seq<Entry>, i: nat)
    requires i < |entries|
    ensures S.AddTransactions(db, entries[..i + 1]) ==
      var r := S.AddTransactions(db, entries[..i]);
      if r.Ok? then S.AddTransaction(r.value, entries[i]) else r
  {
    assert entries[..i + 1][..i] == entries[..i];
  }

  lemma AddTransactionsErr(db: S.Store, entries: seq<Entry>, m: nat)
    requires m <= |entries| && S.AddTransactions(db, entries[..m]).Err?
    ensures S.AddTransactions(db, entries) == S.AddTransactions(db, entries[..m])
  {
    assert entries == entries[..m] + entries[m..];
    AddTransactionsSplit(db, entries[..m], entries[m..]);
  }

  lemma CountRctNext(txs: seq<Transaction>, i: nat)
    requires i < |txs|
    ensures S.CountRctOutputs(txs[..i + 1]) == S.CountRctOutputs(txs[..i]) + S.CountZeroAmounts(txs[i].vout)
  {
    assert txs[..i + 1][..i] == txs[..i];
  }

  lemma SingleEntry(db: S.Store, e: Entry)
    ensures S.AddTransactions(db, [e]) == S.AddTransaction(db, e)
  {
    assert [e][..0] == [];
  }

  function Prepend(first: seq<Transaction>, r: Result<(S.Store, seq<Transaction>), Error>)
    : Result<(S.Store, seq<Transaction>), Error>
  {
    match r
    case Ok((db, rest)) => Ok((db, first + rest))
    case Err(e) => Err(e)
  }

  lemma PrependNothing(r: Result<(S.Store, seq<Transaction>), Error>)
    ensures Prepend([], r) == r
  {
    match r
    case Ok((_, rest)) => assert [] + rest == rest;
    case Err(_) =>
  }

  lemma PrependEnd(first: seq<Transaction>, db: S.Store, hashes: seq<Hash>)
    requires hashes == []
    ensures Prepend(first, S.RemoveListed(db, hashes)) == Ok((db, first))
  {
    assert first + [] == first;
  }

  lemma PrependStep(first: seq<Transaction>, db: S.Store, hashes: seq<Hash>, tx: Transaction)
    requires hashes != [] && S.GetTx(db, hashes[|hashes| - 1]) == Some(tx)
    ensures Prepend(first, S.RemoveListed(db, hashes)) ==
      match S.RemoveTransaction(db, hashes[|hashes| - 1])
      case Ok(db1) => Prepend(first + [tx], S.RemoveListed(db1, hashes[..|hashes| - 1]))
      case Err(e) => Err(e)
  {
    match S.RemoveTransaction(db, hashes[|hashes| - 1])
    case Err(_) =>
    case Ok(db1) =>
      match S.RemoveListed(db1, hashes[..|hashes| - 1])
      case Err(_) =>
      case Ok((_, rest)) => assert first + ([tx] + rest) == first + [tx] + rest;
  }
}
