/**
 * Runs of the store: any sequence of additions and pops from an empty store, where an
 * operation that throws leaves the store alone.
 */
module StoreRuns {
  import opened Wrappers
  import opened ChainTypes
  import opened StoreSpec

  /** One call to add a block. */
  datatype Addition = Addition(blk: Block, meta: BlockMeta, txs: seq<Transaction>) {
    /** The transactions it would add, in order. */
    function Listed(): seq<Entry> {
      if |blk.txHashes| == |txs| then Entries(blk, txs) else []
    }
  }

  function AddTo(db: Store, b: Addition): Result<Store, Error> {
    AddBlock(db, b.blk, b.meta, b.txs)
  }

  /** As many transactions as hashes, and a miner transaction exactly before the change to BLS. */
  predicate ShapeOk(b: Addition) {
    && |b.blk.txHashes| == |b.txs|
    && (b.blk.majorVersion >= ETH_BLS <==> b.blk.minerTx.None?)
  }

  /** Adding a block is storing its transactions and then pushing it. */
  lemma AddToSteps(db: Store, b: Addition)
    ensures !ShapeOk(b) ==> AddTo(db, b).Err?
    ensures ShapeOk(b) ==>
      match AddTransactions(db, b.Listed())
      case Err(_) => AddTo(db, b).Err?
      case Ok(db1) => AddTo(db, b) == PushBlock(db1, b.blk, b.meta, NumRctOuts(b.blk, b.txs))
  {
  }

  /** A block that goes in has as many transactions as hashes, and a miner transaction exactly
      before version 21; one that does not is refused before anything else. */
  lemma AddedShape(db: Store, b: Addition)
    ensures AddTo(db, b).Ok? ==> |b.txs| == |b.blk.txHashes| && (b.blk.minerTx.Some? <==> b.blk.majorVersion < 21)
    ensures |b.txs| != |b.blk.txHashes| || (b.blk.minerTx.Some? <==> b.blk.majorVersion >= 21) ==>
      AddTo(db, b) == Err(RuntimeError)
  {
  }

  datatype Op = Add(b: Addition) | Pop

  function StepDb(db: Store, op: Op): Store {
    match op
    case Add(b) => (match AddTo(db, b) case Ok(db') => db' case Err(_) => db)
    case Pop => (match PopBlock(db) case Ok(p) => p.db case Err(_) => db)
  }

  function RunDb(ops: seq<Op>): Store {
    if ops == [] then EMPTY else StepDb(RunDb(ops[..|ops| - 1]), ops[|ops| - 1])
  }
}
