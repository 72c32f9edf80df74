/** Exactly which transactions the store accepts, and what accepting them does to each table. */
module StoreAcceptance {
  import opened Wrappers
  import opened Tables
  import opened ChainTypes
  import opened StoreSpec
  import opened StoreRoundTrip

  /** Rows are numbered without gaps, so appending never fails. */
  predicate DenseOutputs(o: OutputTables) {
    && Dense(o.byId)
    && Trim(o.byAmount)
    && forall a :: a in o.byAmount ==> Dense(o.byAmount[a])
  }

  predicate DenseStore(db: Store) {
    && Dense(db.txs)
    && Dense(db.txOutputs)
    && |db.txOutputs| == |db.txs|
    && DenseOutputs(db.outputs)
  }

  predicate AllStorable(tx: Transaction) {
    forall i :: 0 <= i < |tx.vout| ==> Storable(tx, i)
  }

  /** An output is refused exactly when it does not pay to a key, or has amount zero in a
      transaction before version 2. */
  lemma StorableMeans(tx: Transaction, i: nat)
    requires i < |tx.vout|
    ensures Storable(tx, i) <==> tx.vout[i].target.KeyTarget? && (tx.version >= 2 || tx.vout[i].amount != 0)
  {
  }

  /** The images of key inputs only are those of the inputs, one for one. */
  lemma {:induction false} ImagesOfKeyInputs(vin: seq<TxIn>)
    requires forall i :: 0 <= i < |vin| ==> vin[i].ToKey?
    ensures |KeyImages(vin)| == |vin| && forall i :: 0 <= i < |vin| ==> KeyImages(vin)[i] == vin[i].keyImage
    decreases |vin|
  {
    if vin != [] {
      ImagesOfKeyInputs(vin[..|vin| - 1]);
    }
  }

  /** What a transaction of key inputs is refused with: a spent or repeated image comes first, a
      known hash second, and an output that cannot be stored last. */
  lemma {:induction false} WhyRefused(db: Store, e: Entry)
    requires DenseStore(db) && forall i :: 0 <= i < |e.tx.vin| ==> e.tx.vin[i].ToKey?
    ensures var spends := exists i :: 0 <= i < |e.tx.vin| && e.tx.vin[i].keyImage in db.spent;
      var repeats := exists i, j :: 0 <= i < j < |e.tx.vin| && e.tx.vin[i].keyImage == e.tx.vin[j].keyImage;
      var unstorable := exists i ::
        0 <= i < |e.tx.vout| && (!e.tx.vout[i].target.KeyTarget? || (e.tx.version < 2 && e.tx.vout[i].amount == 0));
      var r := AddTransaction(db, e);
      if spends || repeats then r == Err(KeyImageExists)
      else if e.hash in db.txIndices then r == Err(TxExists)
      else if unstorable then r == Err(DbError)
      else r.Ok?
  {
    ImagesOfKeyInputs(e.tx.vin);
    SpendsIffFresh(db.spent, e.tx);
    FreshMeans(db.spent, e.tx.vin);
    forall i | 0 <= i < |e.tx.vout|
      ensures Storable(e.tx, i) <==> e.tx.vout[i].target.KeyTarget? && (e.tx.version >= 2 || e.tx.vout[i].amount != 0)
    {
      StorableMeans(e.tx, i);
    }
    AddOutputsAcceptsIff(db.outputs, |db.blocks|, e.hash, e.tx, |e.tx.vout|);
    AddOutputsError(db.outputs, |db.blocks|, e.hash, e.tx, |e.tx.vout|);
  }

  lemma FreshMeans(spent: set<KeyImage>, vin: seq<TxIn>)
    requires forall i :: 0 <= i < |vin| ==> vin[i].ToKey?
    requires |KeyImages(vin)| == |vin| && forall i :: 0 <= i < |vin| ==> KeyImages(vin)[i] == vin[i].keyImage
    ensures Fresh(spent, KeyImages(vin)) <==>
      && !(exists i :: 0 <= i < |vin| && vin[i].keyImage in spent)
      && !(exists i, j :: 0 <= i < j < |vin| && vin[i].keyImage == vin[j].keyImage)
  {
    var images := KeyImages(vin);
    if i :| 0 <= i < |vin| && vin[i].keyImage in spent {
      assert images[i] in images;
    }
    if i, j :| 0 <= i < j < |vin| && vin[i].keyImage == vin[j].keyImage {
      assert images[i] == images[j];
    }
  }

  lemma {:induction false} AddOutputsError(o: OutputTables, height: nat, hash: Hash, tx: Transaction, n: nat)
    requires n <= |tx.vout|
    ensures AddOutputs(o, height, hash, tx, n).Err? ==> AddOutputs(o, height, hash, tx, n) == Err(DbError)
  {
    if n > 0 {
      AddOutputsError(o, height, hash, tx, n - 1);
    }
  }

  lemma AddOutputAcceptsIff(o: OutputTables, height: nat, hash: Hash, tx: Transaction, i: nat)
    requires i < |tx.vout| && DenseOutputs(o)
    ensures NextOutputId(o) == |o.byId|
    ensures AddOutput(o, height, hash, tx, i).Ok? <==> Storable(tx, i)
    ensures AddOutput(o, height, hash, tx, i).Ok? ==> DenseOutputs(AddOutput(o, height, hash, tx, i).value.0)
  {
    assert forall a :: Dense(OutputsOf(o.byAmount, a));
  }

  lemma AddOutputsUnfold(o: OutputTables, height: nat, hash: Hash, tx: Transaction, n: nat)
    requires 0 < n <= |tx.vout|
    ensures match AddOutputs(o, height, hash, tx, n - 1)
      case Err(_) => AddOutputs(o, height, hash, tx, n).Err?
      case Ok((o1, _)) =>
        match AddOutput(o1, height, hash, tx, n - 1)
        case Err(_) => AddOutputs(o, height, hash, tx, n).Err?
        case Ok((o2, _)) => AddOutputs(o, height, hash, tx, n).Ok? && AddOutputs(o, height, hash, tx, n).value.0 == o2
  {
  }

  lemma {:induction false} AddOutputsAcceptsIff(o: OutputTables, height: nat, hash: Hash, tx: Transaction, n: nat)
    requires n <= |tx.vout| && DenseOutputs(o)
    ensures AddOutputs(o, height, hash, tx, n).Ok? <==> FirstStorable(tx, n)
    ensures AddOutputs(o, height, hash, tx, n).Ok? ==> DenseOutputs(AddOutputs(o, height, hash, tx, n).value.0)
  {
    if n > 0 {
      AddOutputsUnfold(o, height, hash, tx, n);
      StorableLast(tx, n);
      AddOutputsAcceptsIff(o, height, hash, tx, n - 1);
      match AddOutputs(o, height, hash, tx, n - 1)
      case Err(_) =>
      case Ok((o1, _)) => AddOutputAcceptsIff(o1, height, hash, tx, n - 1);
    }
  }

  predicate FirstStorable(tx: Transaction, n: nat)
    requires n <= |tx.vout|
  {
    forall i :: 0 <= i < n ==> Storable(tx, i)
  }

  lemma StorableLast(tx: Transaction, n: nat)
    requires 0 < n <= |tx.vout|
    ensures FirstStorable(tx, n) <==> FirstStorable(tx, n - 1) && Storable(tx, n - 1)
  {
  }

  /** The images that must be unspent: all of them, or those before the first unsupported input. */
  function NeededImages(tx: Transaction): seq<KeyImage> {
    if Supported(tx) then KeyImages(tx.vin) else KeyImages(tx.vin[..SupportedPrefix(tx.vin)])
  }

  /** The spent images after a transaction was stored or dropped. */
  function SpentAfterOne(spent: set<KeyImage>, tx: Transaction): set<KeyImage> {
    if Supported(tx) then spent + Elements(KeyImages(tx.vin)) else spent - Elements(KeyImages(tx.vin))
  }

  predicate Admissible(db: Store, e: Entry) {
    && Fresh(db.spent, NeededImages(e.tx))
    && (Supported(e.tx) ==> e.hash !in db.txIndices && AllStorable(e.tx))
  }

  /** The tables other than the outputs after one transaction was stored or dropped. */
  predicate StoredAfter(db: Store, e: Entry, db': Store) {
    && db'.spent == SpentAfterOne(db.spent, e.tx)
    && (if Supported(e.tx) then RowsAdded(db, e, db') else db' == db.(spent := db'.spent))
  }

  predicate RowsAdded(db: Store, e: Entry, db': Store) {
    db' == WithRow(db, e).(spent := db'.spent, txOutputs := db'.txOutputs, outputs := db'.outputs)
  }

  lemma {:induction false} AddTransactionAcceptsIff(db: Store, e: Entry)
    requires DenseStore(db)
    ensures AddTransaction(db, e).Ok? <==> Admissible(db, e)
    ensures AddTransaction(db, e).Ok? ==>
      && DenseStore(AddTransaction(db, e).value)
      && StoredAfter(db, e, AddTransaction(db, e).value)
  {
    if Supported(e.tx) {
      SpendsIffFresh(db.spent, e.tx);
      AddOutputsAcceptsIff(db.outputs, |db.blocks|, e.hash, e.tx, |e.tx.vout|);
    } else {
      DroppedTransaction(db, e);
    }
  }

  lemma SpendsIffFresh(spent: set<KeyImage>, tx: Transaction)
    requires Supported(tx)
    ensures SpendTransaction(spent, tx) ==
      if Fresh(spent, KeyImages(tx.vin)) then Spent(spent + Elements(KeyImages(tx.vin))) else Rejected
  {
    if tx.IsMiner() {
      assert KeyImages(tx.vin) == [];
      assert spent + Elements(KeyImages(tx.vin)) == spent;
    } else {
      assert tx.vin[..|tx.vin|] == tx.vin;
    }
  }

  // ----- Sequences of transactions

  function ImagesOf(entries: seq<Entry>): seq<KeyImage> {
    if entries == [] then []
    else ImagesOf(entries[..|entries| - 1]) + KeyImages(entries[|entries| - 1].tx.vin)
  }

  lemma FreshSplit<T>(used: set<T>, a: seq<T>, b: seq<T>)
    ensures Fresh(used, a + b) <==> Fresh(used, a) && Fresh(used + Elements(a), b)
  {
    var c := a + b;
    assert forall i :: 0 <= i < |a| ==> c[i] == a[i];
    assert forall i :: 0 <= i < |b| ==> c[|a| + i] == b[i];
    if Fresh(used, c) {
      assert forall v :: v in a ==> v in c;
      assert forall v :: v in b ==> v in c;
    }
    if Fresh(used, a) && Fresh(used + Elements(a), b) {
      forall i, j | 0 <= i < j < |c| ensures c[i] != c[j] {
        if i < |a| <= j {
          assert c[j] in b && c[i] in Elements(a);
        }
      }
    }
  }

  lemma FreshSingle<T>(used: set<T>, v: T)
    ensures Fresh(used, [v]) <==> v !in used
  {
    assert v in [v];
  }

  lemma ElementsConcat<T>(a: seq<T>, b: seq<T>)
    ensures Elements(a + b) == Elements(a) + Elements(b)
  {
  }

  /** The entries that are stored: those without an unsupported input. */
  function Kept(entries: seq<Entry>): (r: seq<Entry>)
    ensures |r| <= |entries|
  {
    if entries == [] then []
    else
      var e := entries[|entries| - 1];
      Kept(entries[..|entries| - 1]) + (if Supported(e.tx) then [e] else [])
  }

  /** The spent images after a list of transactions. */
  function SpentAfter(spent: set<KeyImage>, entries: seq<Entry>): set<KeyImage> {
    if entries == [] then spent
    else SpentAfterOne(SpentAfter(spent, entries[..|entries| - 1]), entries[|entries| - 1].tx)
  }

  /** No transaction of the list needs an image that is spent when its turn comes. */
  predicate Spendable(spent: set<KeyImage>, entries: seq<Entry>) {
    entries != [] ==>
      var init, tx := entries[..|entries| - 1], entries[|entries| - 1].tx;
      Spendable(spent, init) && Fresh(SpentAfter(spent, init), NeededImages(tx))
  }

  predicate EntriesStorable(entries: seq<Entry>) {
    forall i :: 0 <= i < |entries| ==> AllStorable(entries[i].tx)
  }

  /** What a list of transactions must satisfy: hashes of the kept ones are new and distinct,
      images are unspent when needed, and outputs of the kept ones are storable. */
  predicate EntriesAdmissible(db: Store, entries: seq<Entry>) {
    && Fresh(db.txIndices.Keys, HashesOf(Kept(entries)))
    && Spendable(db.spent, entries)
    && EntriesStorable(Kept(entries))
  }

  lemma HashesStep(hashes: set<Hash>, kept: seq<Entry>, e: Entry)
    ensures HashesOf(kept + [e]) == HashesOf(kept) + [e.hash]
    ensures Fresh(hashes, HashesOf(kept + [e])) <==>
      Fresh(hashes, HashesOf(kept)) && e.hash !in hashes + Elements(HashesOf(kept))
    ensures hashes + Elements(HashesOf(kept + [e])) == hashes + Elements(HashesOf(kept)) + {e.hash}
  {
    assert HashesOf(kept + [e]) == HashesOf(kept) + [e.hash];
    FreshSplit(hashes, HashesOf(kept), [e.hash]);
    FreshSingle(hashes + Elements(HashesOf(kept)), e.hash);
    ElementsConcat(HashesOf(kept), [e.hash]);
  }

  lemma StorableStep(kept: seq<Entry>, e: Entry)
    ensures EntriesStorable(kept + [e]) <==> EntriesStorable(kept) && AllStorable(e.tx)
  {
    var all := kept + [e];
    assert forall i :: 0 <= i < |kept| ==> all[i] == kept[i];
    assert all[|kept|] == e;
  }

  lemma AdmissibleStep(db: Store, entries: seq<Entry>, db1: Store)
    requires entries != []
    requires var init := entries[..|entries| - 1];
      && db1.spent == SpentAfter(db.spent, init)
      && db1.txIndices.Keys == db.txIndices.Keys + Elements(HashesOf(Kept(init)))
    ensures EntriesAdmissible(db, entries) <==>
      EntriesAdmissible(db, entries[..|entries| - 1]) && Admissible(db1, entries[|entries| - 1])
  {
    var kept, e := Kept(entries[..|entries| - 1]), entries[|entries| - 1];
    if Supported(e.tx) {
      HashesStep(db.txIndices.Keys, kept, e);
      StorableStep(kept, e);
    } else {
      assert Kept(entries) == kept;
    }
  }

  lemma AdmissiblePrefix(db: Store, entries: seq<Entry>)
    requires entries != [] && EntriesAdmissible(db, entries)
    ensures EntriesAdmissible(db, entries[..|entries| - 1])
  {
    var kept, e := Kept(entries[..|entries| - 1]), entries[|entries| - 1];
    if Supported(e.tx) {
      HashesStep(db.txIndices.Keys, kept, e);
      StorableStep(kept, e);
    } else {
      assert Kept(entries) == kept;
    }
  }

  /** The transaction rows and hashes after these transactions were stored. */
  predicate AllStoredAfter(db: Store, kept: seq<Entry>, db': Store) {
    && db'.txIndices.Keys == db.txIndices.Keys + Elements(HashesOf(kept))
    && |db'.txs| == |db.txs| + |kept|
    && db.txs <= db'.txs
    && (forall i :: 0 <= i < |kept| ==> db'.txs[|db.txs| + i].value == kept[i].tx)
    && db'.blocks == db.blocks
    && db'.blockHeights == db.blockHeights
  }

  /** The index rows after these transactions were stored. */
  predicate AllIndexedAfter(db: Store, kept: seq<Entry>, db': Store) {
    && (forall h :: h in db.txIndices ==> h in db'.txIndices && db'.txIndices[h] == db.txIndices[h])
    && forall i :: 0 <= i < |kept| ==>
         && kept[i].hash in db'.txIndices
         && db'.txIndices[kept[i].hash] == TxIndex(|db.txs| + i, kept[i].tx.unlockTime, |db.blocks|)
  }

  lemma StoredStep(db: Store, kept: seq<Entry>, e: Entry, db1: Store, db': Store)
    requires AllStoredAfter(db, kept, db1) && RowsAdded(db1, e, db')
    ensures AllStoredAfter(db, kept + [e], db')
  {
    HashesStep(db.txIndices.Keys, kept, e);
    var all := kept + [e];
    forall i | 0 <= i < |all| ensures db'.txs[|db.txs| + i].value == all[i].tx {
      if i < |kept| {
        assert db'.txs[|db.txs| + i] == db1.txs[|db.txs| + i];
      }
    }
  }

  lemma IndexedStep(db: Store, kept: seq<Entry>, e: Entry, db1: Store, db': Store)
    requires AllStoredAfter(db, kept, db1) && AllIndexedAfter(db, kept, db1)
    requires e.hash !in db1.txIndices && RowsAdded(db1, e, db')
    ensures AllIndexedAfter(db, kept + [e], db')
  {
    var all := kept + [e];
    forall i | 0 <= i < |all|
      ensures
        && all[i].hash in db'.txIndices
        && db'.txIndices[all[i].hash] == TxIndex(|db.txs| + i, all[i].tx.unlockTime, |db.blocks|)
    {
      if i < |kept| {
        assert all[i] == kept[i];
      }
    }
  }

  /** What one more transaction does to the tables after a list. */
  lemma TablesStep(db: Store, entries: seq<Entry>, db1: Store, db': Store)
    requires entries != []
    requires var init := Kept(entries[..|entries| - 1]); AllStoredAfter(db, init, db1) && AllIndexedAfter(db, init, db1)
    requires Admissible(db1, entries[|entries| - 1]) && StoredAfter(db1, entries[|entries| - 1], db')
    ensures AllStoredAfter(db, Kept(entries), db') && AllIndexedAfter(db, Kept(entries), db')
  {
    var kept, e := Kept(entries[..|entries| - 1]), entries[|entries| - 1];
    if Supported(e.tx) {
      StoredStep(db, kept, e, db1, db');
      IndexedStep(db, kept, e, db1, db');
    } else {
      assert Kept(entries) == kept;
    }
  }

  /** A list of transactions is accepted exactly when it is admissible; the kept ones then have
      the next rows, and the spent images are those of the list played through. */
  lemma {:induction false} AddTransactionsAcceptsIff(db: Store, entries: seq<Entry>)
    requires DenseStore(db)
    ensures AddTransactions(db, entries).Ok? <==> EntriesAdmissible(db, entries)
    ensures AddTransactions(db, entries).Ok? ==>
      var db' := AddTransactions(db, entries).value;
      && DenseStore(db')
      && db'.spent == SpentAfter(db.spent, entries)
      && AllStoredAfter(db, Kept(entries), db')
      && AllIndexedAfter(db, Kept(entries), db')
    decreases |entries|
  {
    if entries != [] {
      var init, e := entries[..|entries| - 1], entries[|entries| - 1];
      AddTransactionsAcceptsIff(db, init);
      match AddTransactions(db, init)
      case Err(_) =>
        if EntriesAdmissible(db, entries) {
          AdmissiblePrefix(db, entries);
        }
      case Ok(db1) =>
        AdmissibleStep(db, entries, db1);
        AddTransactionAcceptsIff(db1, e);
        match AddTransaction(db1, e)
        case Err(_) =>
        case Ok(db') => TablesStep(db, entries, db1, db');
    }
  }

  // ----- Lists without dropped transactions

  /** With nothing dropped the images must be new and distinct, and all become spent. */
  lemma {:induction false} SupportedSpending(spent: set<KeyImage>, entries: seq<Entry>)
    requires AllSupported(entries)
    ensures Kept(entries) == entries
    ensures SpentAfter(spent, entries) == spent + Elements(ImagesOf(entries))
    ensures Spendable(spent, entries) <==> Fresh(spent, ImagesOf(entries))
    decreases |entries|
  {
    if entries != [] {
      var init, e := entries[..|entries| - 1], entries[|entries| - 1];
      assert entries == init + [e];
      SupportedSpending(spent, init);
      ElementsConcat(ImagesOf(init), KeyImages(e.tx.vin));
      FreshSplit(spent, ImagesOf(init), KeyImages(e.tx.vin));
    }
  }

  // ----- Appending lists

  lemma {:induction false} KeptConcat(a: seq<Entry>, b: seq<Entry>)
    ensures Kept(a + b) == Kept(a) + Kept(b)
    decreases |b|
  {
    if b == [] {
      assert a + b == a;
    } else {
      var init, all := b[..|b| - 1], a + b;
      assert all[..|all| - 1] == a + init;
      KeptConcat(a, init);
    }
  }

  lemma {:induction false} SpentConcat(spent: set<KeyImage>, a: seq<Entry>, b: seq<Entry>)
    ensures SpentAfter(spent, a + b) == SpentAfter(SpentAfter(spent, a), b)
    ensures Spendable(spent, a + b) <==> Spendable(spent, a) && Spendable(SpentAfter(spent, a), b)
    decreases |b|
  {
    if b == [] {
      assert a + b == a;
    } else {
      SpentConcat(spent, a, b[..|b| - 1]);
      assert (a + b)[..|a + b| - 1] == a + b[..|b| - 1];
    }
  }
}
