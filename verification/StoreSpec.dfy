/**
 * What each operation of the block store does to its tables, as functions of the whole
 * table state.  The class in BlockchainDb.dfy runs the loops; these functions say what the
 * loops must leave behind.
 */
module StoreSpec {
  import opened Wrappers
  import opened Tables
  import opened ChainTypes

  datatype Error =
    | KeyImageExists
    | TxExists
    | TxDne
    | BlockExists
    | BlockParentDne
    | BlockDne
    | OutputDne
    | DbError
    | RuntimeError

  datatype TxIndex = TxIndex(txId: nat, unlockTime: nat, blockId: nat)
  datatype OutTx = OutTx(txHash: Hash, localIndex: nat)
  datatype OutKey = OutKey(
    outputId: nat, pubkey: nat, unlockTime: nat, height: nat, commitment: Commitment)

  /** Every output by its global number, and again by amount and position in that amount. */
  datatype OutputTables = OutputTables(
    byId: seq<Row<OutTx>>,
    byAmount: map<nat, seq<Row<OutKey>>>)

  datatype BlockRow = BlockRow(block: Block, meta: BlockMeta, cumulativeRct: nat)

  datatype Store = Store(
    spent: set<KeyImage>,
    txIndices: map<Hash, TxIndex>,
    txs: seq<Row<Transaction>>,
    txOutputs: seq<Row<seq<nat>>>,
    outputs: OutputTables,
    blocks: seq<BlockRow>,
    blockHeights: map<Hash, nat>)

  const EMPTY: Store := Store({}, map[], [], [], OutputTables([], map[]), [], map[])

  // ----- Key images

  /** What the loop over a transaction's inputs leaves behind. */
  datatype Spending =
    | Spent(images: set<KeyImage>)
    | Aborted(images: set<KeyImage>)
    | Rejected

  /** The number of inputs before the first one that is not a key input. */
  function SupportedPrefix(vin: seq<TxIn>): (n: nat)
    ensures n <= |vin|
    ensures forall i :: 0 <= i < n ==> vin[i].ToKey?
    ensures n < |vin| ==> !vin[n].ToKey?
  {
    if vin == [] then 0
    else
      var n := SupportedPrefix(vin[..|vin| - 1]);
      if n == |vin| - 1 && vin[n].ToKey? then |vin| else n
  }

  /** The new values are distinct and none of them is used already. */
  predicate Fresh<T(==)>(used: set<T>, values: seq<T>) {
    NoDuplicates(values) && forall v :: v in values ==> v !in used
  }

  function SpendInputs(spent: set<KeyImage>, vin: seq<TxIn>): Spending {
    var good := SupportedPrefix(vin);
    if !Fresh(spent, KeyImages(vin[..good])) then Rejected
    else if good == |vin| then Spent(spent + Elements(KeyImages(vin)))
    else Aborted(spent - Elements(KeyImages(vin)))
  }

  function SpendTransaction(spent: set<KeyImage>, tx: Transaction): Spending {
    if tx.IsMiner() then Spent(spent) else SpendInputs(spent, tx.vin)
  }

  // ----- Outputs

  function OutputsOf(m: map<nat, seq<Row<OutKey>>>, amount: nat): seq<Row<OutKey>> {
    if amount in m then m[amount] else []
  }

  /** A key with no rows left is not a key. */
  function WithOutputs(m: map<nat, seq<Row<OutKey>>>, amount: nat, rows: seq<Row<OutKey>>)
    : map<nat, seq<Row<OutKey>>>
  {
    if rows == [] then m - {amount} else m[amount := rows]
  }

  /** No amount is a key without rows. */
  predicate Trim(m: map<nat, seq<Row<OutKey>>>) {
    forall a :: a in m ==> m[a] != []
  }

  function NextOutputId(o: OutputTables): nat {
    if o.byId == [] then 0 else o.byId[|o.byId| - 1].key + 1
  }

  /** An output the store accepts: a key target, and a commitment when the amount is zero. */
  predicate Storable(tx: Transaction, i: nat)
    requires i < |tx.vout|
  {
    tx.vout[i].target.KeyTarget? && (StoredAmount(tx, i) == 0 ==> CommitmentOf(tx, i) != Absent)
  }

  function OutputRecord(o: OutputTables, height: nat, tx: Transaction, i: nat): OutKey
    requires i < |tx.vout| && Storable(tx, i)
  {
    OutKey(NextOutputId(o), tx.vout[i].target.key, UnlockTimeOf(tx, i), height,
           if StoredAmount(tx, i) == 0 then CommitmentOf(tx, i) else Absent)
  }

  /** Appends output i of tx; the number returned is its position in its amount. */
  function AddOutput(o: OutputTables, height: nat, hash: Hash, tx: Transaction, i: nat)
    : Result<(OutputTables, nat), Error>
    requires i < |tx.vout|
  {
    if !Storable(tx, i) then Err(DbError)
    else
      var amount := StoredAmount(tx, i);
      var rows := OutputsOf(o.byAmount, amount);
      if !CanAppend(rows, |rows|) then Err(DbError)
      else
        Ok((OutputTables(
              o.byId + [Row(NextOutputId(o), OutTx(hash, i))],
              o.byAmount[amount := rows + [Row(|rows|, OutputRecord(o, height, tx, i))]]),
            |rows|))
  }

  /** Appends the first n outputs of tx in order. */
  function AddOutputs(o: OutputTables, height: nat, hash: Hash, tx: Transaction, n: nat)
    : (r: Result<(OutputTables, seq<nat>), Error>)
    requires n <= |tx.vout|
    ensures r.Ok? ==> |r.value.1| == n
  {
    if n == 0 then Ok((o, []))
    else
      var (o1, indices) :- AddOutputs(o, height, hash, tx, n - 1);
      var (o2, index) :- AddOutput(o1, height, hash, tx, n - 1);
      Ok((o2, indices + [index]))
  }

  function RemoveOutput(o: OutputTables, amount: nat, index: nat): Result<OutputTables, Error> {
    var rows := OutputsOf(o.byAmount, amount);
    match Get(rows, index)
    case None => Err(OutputDne)
    case Some(record) =>
      if Get(o.byId, record.outputId).None? then Err(DbError)
      else Ok(OutputTables(Delete(o.byId, record.outputId),
                           WithOutputs(o.byAmount, amount, Delete(rows, index))))
  }

  /** Removes the first n outputs of tx, the last of them first. */
  function RemoveOutputs(o: OutputTables, tx: Transaction, indices: seq<nat>, n: nat)
    : Result<OutputTables, Error>
    requires n <= |tx.vout| && n <= |indices|
    decreases n
  {
    if n == 0 then Ok(o)
    else
      var o1 :- RemoveOutput(o, StoredAmount(tx, n - 1), indices[n - 1]);
      RemoveOutputs(o1, tx, indices, n - 1)
  }

  // ----- Transactions

  /** The store with the index and the row of one transaction more. */
  function WithRow(db: Store, e: Entry): Store {
    db.(txIndices := db.txIndices[e.hash := TxIndex(|db.txs|, e.tx.unlockTime, |db.blocks|)],
        txs := db.txs + [Row(|db.txs|, e.tx)])
  }

  /** The same with its images spent and its outputs filed at these positions. */
  function WithTransaction(db: Store, e: Entry, images: set<KeyImage>, outputs: OutputTables, indices: seq<nat>)
    : Store
  {
    WithRow(db, e).(spent := images, txOutputs := db.txOutputs + [Row(|db.txs|, indices)], outputs := outputs)
  }

  function AddTransaction(db: Store, e: Entry): Result<Store, Error> {
    match SpendTransaction(db.spent, e.tx)
    case Rejected => Err(KeyImageExists)
    case Aborted(images) => Ok(db.(spent := images))
    case Spent(images) =>
      var id := |db.txs|;
      if e.hash in db.txIndices then Err(TxExists)
      else if !CanAppend(db.txs, id) then Err(DbError)
      else
        var (outputs, indices) :- AddOutputs(db.outputs, |db.blocks|, e.hash, e.tx, |e.tx.vout|);
        if !CanAppend(db.txOutputs, id) then Err(DbError)
        else Ok(WithTransaction(db, e, images, outputs, indices))
  }

  function AddTransactions(db: Store, entries: seq<Entry>): Result<Store, Error> {
    if entries == [] then Ok(db)
    else
      var db1 :- AddTransactions(db, entries[..|entries| - 1]);
      AddTransaction(db1, entries[|entries| - 1])
  }

  function GetTx(db: Store, hash: Hash): Option<Transaction> {
    if hash in db.txIndices then Get(db.txs, db.txIndices[hash].txId) else None
  }

  /** Deletes the rows of the transaction stored under `hash`, its outputs last to first. */
  function RemoveTransactionData(db: Store, hash: Hash, tx: Transaction): Result<Store, Error> {
    if hash !in db.txIndices then Err(TxDne)
    else
      var id := db.txIndices[hash].txId;
      match Get(db.txOutputs, id)
      case None => Err(DbError)
      case Some(indices) =>
        if |indices| < |tx.vout| || Get(db.txs, id).None? then Err(DbError)
        else
          var outputs :- RemoveOutputs(db.outputs, tx, indices, |tx.vout|);
          Ok(db.(
            txIndices := db.txIndices - {hash},
            txs := Delete(db.txs, id),
            txOutputs := Delete(db.txOutputs, id),
            outputs := outputs))
  }

  function RemoveTransaction(db: Store, hash: Hash): Result<Store, Error> {
    match GetTx(db, hash)
    case None => Err(TxDne)
    case Some(tx) =>
      RemoveTransactionData(db.(spent := db.spent - Elements(KeyImages(tx.vin))), hash, tx)
  }

  /** Removes the listed transactions, last first, and collects them in that order. */
  function RemoveListed(db: Store, hashes: seq<Hash>): Result<(Store, seq<Transaction>), Error>
    decreases |hashes|
  {
    if hashes == [] then Ok((db, []))
    else
      var hash := hashes[|hashes| - 1];
      match GetTx(db, hash)
      case None => Err(DbError)
      case Some(tx) =>
        var db1 :- RemoveTransaction(db, hash);
        var (db2, rest) :- RemoveListed(db1, hashes[..|hashes| - 1]);
        Ok((db2, [tx] + rest))
  }

  // ----- Blocks

  function CountZeroAmounts(vout: seq<TxOut>): (n: nat)
    ensures n <= |vout|
  {
    if vout == [] then 0
    else CountZeroAmounts(vout[..|vout| - 1]) + (if vout[|vout| - 1].amount == 0 then 1 else 0)
  }

  function CountRctOutputs(txs: seq<Transaction>): nat {
    if txs == [] then 0
    else CountRctOutputs(txs[..|txs| - 1]) + CountZeroAmounts(txs[|txs| - 1].vout)
  }

  /** The count of amount-zero outputs handed on with the block. */
  function NumRctOuts(blk: Block, txs: seq<Transaction>): nat {
    (if blk.minerTx.Some? && blk.minerTx.value.version >= V2_RINGCT
     then |blk.minerTx.value.vout| else 0)
    + CountRctOutputs(txs)
  }

  function PushBlock(db: Store, blk: Block, meta: BlockMeta, numRctOuts: nat): Result<Store, Error> {
    var height := |db.blocks|;
    if blk.id in db.blockHeights then Err(BlockExists)
    else if height > 0 && blk.prevId !in db.blockHeights then Err(DbError)
    else if height > 0 && db.blockHeights[blk.prevId] != height - 1 then Err(BlockParentDne)
    else
      var before := if height > 0 then db.blocks[height - 1].cumulativeRct else 0;
      Ok(db.(
        blocks := db.blocks + [BlockRow(blk, meta, numRctOuts + before)],
        blockHeights := db.blockHeights[blk.id := height]))
  }

  function AddBlock(db: Store, blk: Block, meta: BlockMeta, txs: seq<Transaction>): Result<Store, Error> {
    if |blk.txHashes| != |txs| then Err(RuntimeError)
    else if (blk.majorVersion >= ETH_BLS) == blk.minerTx.Some? then Err(RuntimeError)
    else
      var db1 :- AddTransactions(db, Entries(blk, txs));
      PushBlock(db1, blk, meta, NumRctOuts(blk, txs))
  }

  function RemoveTopBlock(db: Store): Result<Store, Error> {
    if db.blocks == [] then Err(BlockDne)
    else
      var top := db.blocks[|db.blocks| - 1].block;
      if top.id !in db.blockHeights then Err(DbError)
      else Ok(db.(blocks := db.blocks[..|db.blocks| - 1], blockHeights := db.blockHeights - {top.id}))
  }

  /** The block taken off, and its transactions with the last one first. */
  datatype Popped = Popped(db: Store, block: Block, txs: seq<Transaction>)

  function PopBlock(db: Store): Result<Popped, Error> {
    var db1 :- RemoveTopBlock(db);
    var blk := db.blocks[|db.blocks| - 1].block;
    var (db2, txs) :- RemoveListed(db1, blk.txHashes);
    if blk.minerTx.Some? then
      var db3 :- RemoveTransaction(db2, blk.minerTx.value.id);
      Ok(Popped(db3, blk, txs))
    else Ok(Popped(db2, blk, txs))
  }

  /** Where the source reads the unlock time of a stored output. */
  function OutputUnlockTime(db: Store, amount: nat, index: nat): Result<nat, Error> {
    match Get(OutputsOf(db.outputs.byAmount, amount), index)
    case None => Err(OutputDne)
    case Some(record) => Ok(record.unlockTime)
  }
}
