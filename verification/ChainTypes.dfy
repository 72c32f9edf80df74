/** Transactions and blocks, with the fields the block store reads. */
module ChainTypes {
  import opened Wrappers

  datatype Hash = Hash(bits: nat)
  datatype KeyImage = KeyImage(bits: nat)

  datatype TxIn =
    | ToKey(keyImage: KeyImage)
    | Gen(height: nat)
    | ToScript
    | ToScriptHash

  datatype Target =
    | KeyTarget(key: nat)
    | ScriptTarget

  datatype TxOut = TxOut(amount: nat, target: Target)

  /** The commitment stored beside an output of amount zero. */
  datatype Commitment =
    | Absent
    | IdentityMask(amount: nat)
    | RctMask(mask: nat)

  const V2_RINGCT: nat := 2
  const V3_PER_OUTPUT_UNLOCK_TIMES: nat := 3
  const ETH_BLS: nat := 21

  /** `id` is what hashing the transaction gives. */
  datatype RawTransaction = Transaction(
    id: Hash,
    version: nat,
    unlockTime: nat,
    vin: seq<TxIn>,
    vout: seq<TxOut>,
    outputUnlockTimes: seq<nat>,
    outPk: seq<nat>)
  {
    predicate IsMiner() {
      |vin| == 1 && vin[0].Gen?
    }

    /** A miner transaction that stores its outputs as amount-zero outputs. */
    predicate IsPseudoRct() {
      IsMiner() && version >= V2_RINGCT
    }

    /** The vectors that the store indexes by output number reach every output. */
    predicate Parsed() {
      && (version >= V3_PER_OUTPUT_UNLOCK_TIMES ==> |outputUnlockTimes| >= |vout|)
      && (version >= V2_RINGCT && !IsMiner() ==> |outPk| >= |vout|)
    }
  }

  type Transaction = tx: RawTransaction | tx.Parsed()
    witness Transaction(Hash(0), 0, 0, [], [], [], [])

  /** The amount under which output i is filed. */
  function StoredAmount(tx: Transaction, i: nat): nat
    requires i < |tx.vout|
  {
    if tx.IsPseudoRct() then 0 else tx.vout[i].amount
  }

  function UnlockTimeOf(tx: Transaction, i: nat): nat
    requires i < |tx.vout|
  {
    if tx.version >= V3_PER_OUTPUT_UNLOCK_TIMES then tx.outputUnlockTimes[i] else tx.unlockTime
  }

  function CommitmentOf(tx: Transaction, i: nat): Commitment
    requires i < |tx.vout|
  {
    if tx.IsPseudoRct() then IdentityMask(tx.vout[i].amount)
    else if tx.version >= V2_RINGCT then RctMask(tx.outPk[i])
    else Absent
  }

  /** `id` is what hashing the block gives. */
  datatype Block = Block(
    id: Hash,
    prevId: Hash,
    majorVersion: nat,
    timestamp: nat,
    minerTx: Option<Transaction>,
    txHashes: seq<Hash>)

  datatype BlockMeta = BlockMeta(
    weight: nat,
    longTermWeight: nat,
    cumulativeDifficulty: nat,
    coinsGenerated: nat)

  /** A transaction with the hash it is stored under. */
  datatype Entry = Entry(hash: Hash, tx: Transaction)

  predicate NoDuplicates<T(==)>(s: seq<T>) {
    forall i, j :: 0 <= i < j < |s| ==> s[i] != s[j]
  }

  function Elements<T>(s: seq<T>): set<T> {
    set x | x in s
  }

  /** Input kinds that a non-miner transaction may spend from. */
  predicate Supported(tx: Transaction) {
    tx.IsMiner() || forall i :: 0 <= i < |tx.vin| ==> tx.vin[i].ToKey?
  }

  function KeyImages(vin: seq<TxIn>): (r: seq<KeyImage>)
    ensures forall k :: k in r <==> exists i :: 0 <= i < |vin| && vin[i].ToKey? && vin[i].keyImage == k
  {
    if vin == [] then []
    else
      var rest := KeyImages(vin[..|vin| - 1]);
      var last := vin[|vin| - 1];
      if last.ToKey? then rest + [last.keyImage] else rest
  }

  /** The transactions that adding a block stores, in the order they are stored. */
  function Entries(blk: Block, txs: seq<Transaction>): (r: seq<Entry>)
    requires |blk.txHashes| == |txs|
    ensures |r| == |txs| + (if blk.minerTx.Some? then 1 else 0)
  {
    MinerEntry(blk) + seq(|txs|, i requires 0 <= i < |txs| => Entry(blk.txHashes[i], txs[i]))
  }

  function MinerEntry(blk: Block): seq<Entry> {
    if blk.minerTx.Some? then [Entry(blk.minerTx.value.id, blk.minerTx.value)] else []
  }
}
