/**
 * In every store that any run can reach, the recorded position of each output leads back to
 * that output, every stored output is owned by one transaction output, and exactly the stored
 * transactions can be removed.
 */
module StoreOutputs {
  import opened Wrappers
  import opened Tables
  import opened ChainTypes
  import opened StoreSpec

  // ----- The output tables

  predicate OrderedOutputs(o: OutputTables) {
    && Ascending(o.byId)
    && Trim(o.byAmount)
    && forall a :: a in o.byAmount ==> Ascending(o.byAmount[a])
  }

  lemma OrderedRows(o: OutputTables, a: nat)
    requires OrderedOutputs(o)
    ensures Ascending(OutputsOf(o.byAmount, a)) && CanAppend(o.byId, NextOutputId(o))
  {
  }

  function RecordAt(o: OutputTables, a: nat, k: nat): Option<OutKey> {
    Get(OutputsOf(o.byAmount, a), k)
  }

  /** The output that the record's number names. */
  function OwnerAt(o: OutputTables, a: nat, k: nat): Option<OutTx> {
    match RecordAt(o, a, k)
    case None => None
    case Some(record) => Get(o.byId, record.outputId)
  }

  /** Position `index` of its amount holds output j of tx, and its number names (hash, j). */
  predicate FoundAt(o: OutputTables, hash: Hash, tx: Transaction, height: nat, index: nat, j: nat)
    requires j < |tx.vout|
  {
    var amount := StoredAmount(tx, j);
    && Storable(tx, j)
    && RecordAt(o, amount, index).Some?
    && var record := RecordAt(o, amount, index).value;
       && record.pubkey == tx.vout[j].target.key
       && record.unlockTime == UnlockTimeOf(tx, j)
       && record.height == height
       && record.commitment == (if amount == 0 then CommitmentOf(tx, j) else Absent)
       && Get(o.byId, record.outputId) == Some(OutTx(hash, j))
  }

  /** The first outputs of tx are found at these positions. */
  predicate AllFound(o: OutputTables, hash: Hash, tx: Transaction, height: nat, indices: seq<nat>) {
    && |indices| <= |tx.vout|
    && forall j :: 0 <= j < |indices| ==> FoundAt(o, hash, tx, height, indices[j], j)
  }

  // ----- Adding an output

  lemma AddOutputOrdered(o: OutputTables, height: nat, hash: Hash, tx: Transaction, i: nat)
    requires i < |tx.vout| && OrderedOutputs(o) && AddOutput(o, height, hash, tx, i).Ok?
    ensures OrderedOutputs(AddOutput(o, height, hash, tx, i).value.0)
  {
    var amount := StoredAmount(tx, i);
    var rows := OutputsOf(o.byAmount, amount);
    OrderedRows(o, amount);
    Appended(rows, |rows|, OutputRecord(o, height, tx, i));
    Appended(o.byId, NextOutputId(o), OutTx(hash, i));
  }

  /** The one new record, and every old one as it was. */
  lemma AddOutputRecords(o: OutputTables, height: nat, hash: Hash, tx: Transaction, i: nat, a: nat, k: nat)
    requires i < |tx.vout| && OrderedOutputs(o) && AddOutput(o, height, hash, tx, i).Ok?
    ensures var (o', index) := AddOutput(o, height, hash, tx, i).value;
      RecordAt(o', a, k) ==
        if (a, k) == (StoredAmount(tx, i), index) then Some(OutputRecord(o, height, tx, i)) else RecordAt(o, a, k)
    ensures RecordAt(o, a, k).Some? ==> (a, k) != (StoredAmount(tx, i), AddOutput(o, height, hash, tx, i).value.1)
  {
    var amount := StoredAmount(tx, i);
    var rows := OutputsOf(o.byAmount, amount);
    OrderedRows(o, amount);
    GetAppended(rows, |rows|, OutputRecord(o, height, tx, i), k);
    if Get(rows, k).Some? {
      GetBelow(rows, k, |rows|);
    }
  }

  lemma AddOutputNames(o: OutputTables, height: nat, hash: Hash, tx: Transaction, i: nat, id: nat)
    requires i < |tx.vout| && OrderedOutputs(o) && AddOutput(o, height, hash, tx, i).Ok?
    ensures var o' := AddOutput(o, height, hash, tx, i).value.0;
      && Get(o'.byId, NextOutputId(o)) == Some(OutTx(hash, i))
      && (Get(o.byId, id).Some? ==> Get(o'.byId, id) == Get(o.byId, id))
  {
    OrderedRows(o, 0);
    GetAppended(o.byId, NextOutputId(o), OutTx(hash, i), NextOutputId(o));
    if Get(o.byId, id).Some? {
      StillFound(o.byId, NextOutputId(o), OutTx(hash, i), id);
    }
  }

  lemma AddOutputFound(o: OutputTables, height: nat, hash: Hash, tx: Transaction, i: nat)
    requires i < |tx.vout| && OrderedOutputs(o) && AddOutput(o, height, hash, tx, i).Ok?
    ensures var (o', index) := AddOutput(o, height, hash, tx, i).value;
      FoundAt(o', hash, tx, height, index, i)
  {
    var index := AddOutput(o, height, hash, tx, i).value.1;
    AddOutputRecords(o, height, hash, tx, i, StoredAmount(tx, i), index);
    AddOutputNames(o, height, hash, tx, i, 0);
  }

  /** What is found stays found when another output is added. */
  lemma AddOutputKeeps(o: OutputTables, height: nat, hash: Hash, tx: Transaction, i: nat,
                       h: Hash, other: Transaction, at: nat, index: nat, j: nat)
    requires i < |tx.vout| && OrderedOutputs(o) && AddOutput(o, height, hash, tx, i).Ok?
    requires j < |other.vout| && FoundAt(o, h, other, at, index, j)
    ensures FoundAt(AddOutput(o, height, hash, tx, i).value.0, h, other, at, index, j)
  {
    var a := StoredAmount(other, j);
    AddOutputRecords(o, height, hash, tx, i, a, index);
    AddOutputNames(o, height, hash, tx, i, RecordAt(o, a, index).value.outputId);
  }

  lemma {:induction false} AddOutputsOrdered(o: OutputTables, height: nat, hash: Hash, tx: Transaction, n: nat)
    requires n <= |tx.vout| && OrderedOutputs(o) && AddOutputs(o, height, hash, tx, n).Ok?
    ensures OrderedOutputs(AddOutputs(o, height, hash, tx, n).value.0)
  {
    if n > 0 {
      AddOutputsOrdered(o, height, hash, tx, n - 1);
      AddOutputOrdered(AddOutputs(o, height, hash, tx, n - 1).value.0, height, hash, tx, n - 1);
    }
  }

  lemma {:induction false} AddOutputsKeep(o: OutputTables, height: nat, hash: Hash, tx: Transaction, n: nat,
                                          h: Hash, other: Transaction, at: nat, index: nat, j: nat)
    requires n <= |tx.vout| && OrderedOutputs(o) && AddOutputs(o, height, hash, tx, n).Ok?
    requires j < |other.vout| && FoundAt(o, h, other, at, index, j)
    ensures FoundAt(AddOutputs(o, height, hash, tx, n).value.0, h, other, at, index, j)
  {
    if n > 0 {
      AddOutputsOrdered(o, height, hash, tx, n - 1);
      AddOutputsKeep(o, height, hash, tx, n - 1, h, other, at, index, j);
      AddOutputKeeps(AddOutputs(o, height, hash, tx, n - 1).value.0, height, hash, tx, n - 1, h, other, at, index, j);
    }
  }

  /** The positions collected for a transaction lead to its outputs. */
  lemma {:induction false} AddOutputsFound(o: OutputTables, height: nat, hash: Hash, tx: Transaction, n: nat)
    requires n <= |tx.vout| && OrderedOutputs(o) && AddOutputs(o, height, hash, tx, n).Ok?
    ensures var (o', indices) := AddOutputs(o, height, hash, tx, n).value;
      AllFound(o', hash, tx, height, indices)
  {
    if n > 0 {
      AddOutputsOrdered(o, height, hash, tx, n - 1);
      AddOutputsFound(o, height, hash, tx, n - 1);
      var (o1, before) := AddOutputs(o, height, hash, tx, n - 1).value;
      AddOneFound(o1, height, hash, tx, n - 1, before);
    }
  }

  lemma AddOneFound(o: OutputTables, height: nat, hash: Hash, tx: Transaction, i: nat, before: seq<nat>)
    requires i < |tx.vout| && OrderedOutputs(o) && AddOutput(o, height, hash, tx, i).Ok?
    requires |before| == i && AllFound(o, hash, tx, height, before)
    ensures var (o', index) := AddOutput(o, height, hash, tx, i).value;
      AllFound(o', hash, tx, height, before + [index])
  {
    var (o', index) := AddOutput(o, height, hash, tx, i).value;
    var all := before + [index];
    forall j | 0 <= j < |all| ensures FoundAt(o', hash, tx, height, all[j], j) {
      if j < i {
        AddOutputKeeps(o, height, hash, tx, i, hash, tx, height, before[j], j);
      } else {
        AddOutputFound(o, height, hash, tx, i);
      }
    }
  }

  /** The record at position k of amount a is one of the transaction's outputs, at the position
      collected for it. */
  predicate OwnedBy(o: OutputTables, a: nat, k: nat, hash: Hash, tx: Transaction, indices: seq<nat>) {
    && OwnerAt(o, a, k).Some?
    && var owner := OwnerAt(o, a, k).value;
       && owner.txHash == hash
       && owner.localIndex < |tx.vout| && owner.localIndex < |indices|
       && StoredAmount(tx, owner.localIndex) == a
       && indices[owner.localIndex] == k
  }

  /** A record that already had an owner keeps it, and a new one belongs to the transaction. */
  lemma {:induction false} AddOutputsOwned(o: OutputTables, height: nat, hash: Hash, tx: Transaction, n: nat,
                                           a: nat, k: nat)
    requires n <= |tx.vout| && OrderedOutputs(o) && AddOutputs(o, height, hash, tx, n).Ok?
    ensures var (o', indices) := AddOutputs(o, height, hash, tx, n).value;
      && (OwnerAt(o, a, k).Some? ==> OwnerAt(o', a, k) == OwnerAt(o, a, k))
      && (RecordAt(o, a, k).None? && RecordAt(o', a, k).Some? ==> OwnedBy(o', a, k, hash, tx, indices))
  {
    if n > 0 {
      AddOutputsOrdered(o, height, hash, tx, n - 1);
      AddOutputsOwned(o, height, hash, tx, n - 1, a, k);
      var (o1, before) := AddOutputs(o, height, hash, tx, n - 1).value;
      AddOneOwned(o1, height, hash, tx, n - 1, before, a, k);
    }
  }

  lemma AddOneOwned(o: OutputTables, height: nat, hash: Hash, tx: Transaction, i: nat, before: seq<nat>,
                    a: nat, k: nat)
    requires i < |tx.vout| && OrderedOutputs(o) && AddOutput(o, height, hash, tx, i).Ok? && |before| == i
    ensures var (o', index) := AddOutput(o, height, hash, tx, i).value;
      && (OwnerAt(o, a, k).Some? ==> OwnerAt(o', a, k) == OwnerAt(o, a, k))
      && (OwnedBy(o, a, k, hash, tx, before) ==> OwnedBy(o', a, k, hash, tx, before + [index]))
      && (RecordAt(o, a, k).None? && RecordAt(o', a, k).Some? ==> OwnedBy(o', a, k, hash, tx, before + [index]))
  {
    var (o', index) := AddOutput(o, height, hash, tx, i).value;
    AddOutputRecords(o, height, hash, tx, i, a, k);
    AddOutputNames(o, height, hash, tx, i, if RecordAt(o, a, k).Some? then RecordAt(o, a, k).value.outputId else 0);
  }

  // ----- Removing an output

  /** Taking out the record at a position and the row its number names. */
  lemma RemoveOutputRecords(o: OutputTables, a: nat, k: nat, b: nat, l: nat)
    requires OrderedOutputs(o) && RemoveOutput(o, a, k).Ok?
    ensures var o' := RemoveOutput(o, a, k).value;
      && OrderedOutputs(o')
      && RecordAt(o', b, l) == if (b, l) == (a, k) then None else RecordAt(o, b, l)
  {
    var rows := OutputsOf(o.byAmount, a);
    OrderedRows(o, a);
    Deleted(rows, k);
    Deleted(o.byId, Get(rows, k).value.outputId);
    if l != k {
      GetOther(rows, k, l);
    }
  }

  /** An output other than the one removed keeps its record and its name. */
  lemma RemoveOutputKeeps(o: OutputTables, a: nat, k: nat, b: nat, l: nat)
    requires OrderedOutputs(o) && OwnerAt(o, a, k).Some? && OwnerAt(o, b, l).Some?
    requires OwnerAt(o, a, k) != OwnerAt(o, b, l)
    ensures RemoveOutput(o, a, k).Ok?
    ensures var o' := RemoveOutput(o, a, k).value;
      RecordAt(o', b, l) == RecordAt(o, b, l) && OwnerAt(o', b, l) == OwnerAt(o, b, l)
  {
    RemoveOutputRecords(o, a, k, b, l);
    GetOther(o.byId, RecordAt(o, a, k).value.outputId, RecordAt(o, b, l).value.outputId);
  }

  /** The first n outputs of tx are found at these positions. */
  predicate FirstFound(o: OutputTables, hash: Hash, tx: Transaction, height: nat, indices: seq<nat>, n: nat) {
    && n <= |tx.vout| && n <= |indices|
    && forall j :: 0 <= j < n ==> FoundAt(o, hash, tx, height, indices[j], j)
  }

  /** Position k of amount a is as it was or empty, and as it was if `hash` does not own it. */
  predicate Spared(o: OutputTables, o': OutputTables, hash: Hash, a: nat, k: nat) {
    && (RecordAt(o', a, k).Some? ==> RecordAt(o', a, k) == RecordAt(o, a, k))
    && (OwnerAt(o, a, k).Some? && OwnerAt(o, a, k).value.txHash != hash ==>
          RecordAt(o', a, k) == RecordAt(o, a, k) && OwnerAt(o', a, k) == OwnerAt(o, a, k))
  }

  lemma RemoveOneOrdered(o: OutputTables, hash: Hash, tx: Transaction, height: nat, indices: seq<nat>, n: nat)
    requires OrderedOutputs(o) && n > 0 && FirstFound(o, hash, tx, height, indices, n)
    ensures RemoveOutput(o, StoredAmount(tx, n - 1), indices[n - 1]).Ok?
    ensures var o' := RemoveOutput(o, StoredAmount(tx, n - 1), indices[n - 1]).value;
      OrderedOutputs(o') && FirstFound(o', hash, tx, height, indices, n - 1)
  {
    var amount, index := StoredAmount(tx, n - 1), indices[n - 1];
    assert FoundAt(o, hash, tx, height, index, n - 1);
    var o' := RemoveOutput(o, amount, index).value;
    RemoveOutputRecords(o, amount, index, 0, 0);
    forall j | 0 <= j < n - 1 ensures FoundAt(o', hash, tx, height, indices[j], j) {
      assert FoundAt(o, hash, tx, height, indices[j], j);
      RemoveOutputKeeps(o, amount, index, StoredAmount(tx, j), indices[j]);
    }
  }

  lemma RemoveOneSpares(o: OutputTables, hash: Hash, tx: Transaction, height: nat, index: nat, i: nat, a: nat, k: nat)
    requires OrderedOutputs(o) && i < |tx.vout| && FoundAt(o, hash, tx, height, index, i)
    ensures RemoveOutput(o, StoredAmount(tx, i), index).Ok?
    ensures Spared(o, RemoveOutput(o, StoredAmount(tx, i), index).value, hash, a, k)
  {
    var amount := StoredAmount(tx, i);
    RemoveOutputRecords(o, amount, index, a, k);
    if OwnerAt(o, a, k).Some? && OwnerAt(o, a, k).value.txHash != hash {
      RemoveOutputKeeps(o, amount, index, a, k);
    }
  }

  /** What each removal keeps true of the tables and the number of outputs left, all keep. */
  lemma {:induction false} RemoveOutputsInvariant(o: OutputTables, tx: Transaction, indices: seq<nat>, n: nat,
                                                  kept: (OutputTables, nat) -> bool)
    requires n <= |tx.vout| && n <= |indices| && kept(o, n)
    requires forall p: OutputTables, m: nat {:trigger kept(p, m)} :: 0 < m <= n && kept(p, m) ==>
      var r := RemoveOutput(p, StoredAmount(tx, m - 1), indices[m - 1]); r.Ok? && kept(r.value, m - 1)
    ensures RemoveOutputs(o, tx, indices, n).Ok? && kept(RemoveOutputs(o, tx, indices, n).value, 0)
    decreases n
  {
    if n > 0 {
      var o1 := RemoveOutput(o, StoredAmount(tx, n - 1), indices[n - 1]).value;
      RemoveOutputsInvariant(o1, tx, indices, n - 1, kept);
    }
  }

  /** While the first m outputs are still to be removed: they are found, position k of amount a
      is spared, and it is empty if it was the position of one removed. */
  predicate HalfRemoved(o: OutputTables, hash: Hash, tx: Transaction, height: nat, indices: seq<nat>,
                        a: nat, k: nat, p: OutputTables, m: nat)
  {
    && OrderedOutputs(p)
    && FirstFound(p, hash, tx, height, indices, m)
    && Spared(o, p, hash, a, k)
    && (forall j :: m <= j < |tx.vout| && j < |indices| && StoredAmount(tx, j) == a && indices[j] == k ==>
          RecordAt(p, a, k).None?)
  }

  lemma RemoveOneMore(o: OutputTables, hash: Hash, tx: Transaction, height: nat, indices: seq<nat>,
                      a: nat, k: nat, p: OutputTables, m: nat)
    requires m > 0 && HalfRemoved(o, hash, tx, height, indices, a, k, p, m)
    ensures RemoveOutput(p, StoredAmount(tx, m - 1), indices[m - 1]).Ok?
    ensures HalfRemoved(o, hash, tx, height, indices, a, k,
                        RemoveOutput(p, StoredAmount(tx, m - 1), indices[m - 1]).value, m - 1)
  {
    assert FoundAt(p, hash, tx, height, indices[m - 1], m - 1);
    RemoveOneOrdered(p, hash, tx, height, indices, m);
    RemoveOneSpares(p, hash, tx, height, indices[m - 1], m - 1, a, k);
    RemoveOutputRecords(p, StoredAmount(tx, m - 1), indices[m - 1], a, k);
  }

  /** Removing the outputs of a transaction succeeds, leaves those of others alone and empties
      every position of its own. */
  lemma {:induction false} RemoveOutputsSpare(o: OutputTables, hash: Hash, tx: Transaction, height: nat,
                                              indices: seq<nat>, a: nat, k: nat)
    requires OrderedOutputs(o) && |indices| == |tx.vout| && AllFound(o, hash, tx, height, indices)
    ensures RemoveOutputs(o, tx, indices, |tx.vout|).Ok?
    ensures HalfRemoved(o, hash, tx, height, indices, a, k, RemoveOutputs(o, tx, indices, |tx.vout|).value, 0)
  {
    var kept := (p: OutputTables, m: nat) => HalfRemoved(o, hash, tx, height, indices, a, k, p, m);
    forall p: OutputTables, m: nat {:trigger kept(p, m)} | 0 < m <= |tx.vout| && kept(p, m)
      ensures var r := RemoveOutput(p, StoredAmount(tx, m - 1), indices[m - 1]); r.Ok? && kept(r.value, m - 1)
    {
      RemoveOneMore(o, hash, tx, height, indices, a, k, p, m);
    }
    RemoveOutputsInvariant(o, tx, indices, |tx.vout|, kept);
  }

  // ----- The whole store

  /** Its rows are there, and every recorded position leads to its output. */
  predicate OutputsFound(db: Store, h: Hash)
    requires h in db.txIndices
  {
    var index := db.txIndices[h];
    var tx, indices := Get(db.txs, index.txId), Get(db.txOutputs, index.txId);
    && tx.Some? && indices.Some?
    && |indices.value| == |tx.value.vout|
    && AllFound(db.outputs, h, tx.value, index.blockId, indices.value)
  }

  /** The record at position k of amount a, if there is one, belongs to a stored transaction. */
  predicate Owned(db: Store, a: nat, k: nat) {
    RecordAt(db.outputs, a, k).Some? ==>
      && OwnerAt(db.outputs, a, k).Some?
      && var h := OwnerAt(db.outputs, a, k).value.txHash;
         && h in db.txIndices
         && var tx, indices := Get(db.txs, db.txIndices[h].txId), Get(db.txOutputs, db.txIndices[h].txId);
            tx.Some? && indices.Some? && OwnedBy(db.outputs, a, k, h, tx.value, indices.value)
  }

  predicate OrderedStore(db: Store) {
    && Ascending(db.txs)
    && Ascending(db.txOutputs)
    && OrderedOutputs(db.outputs)
  }

  predicate OwnIds(db: Store) {
    forall h, h' :: h in db.txIndices && h' in db.txIndices && db.txIndices[h].txId == db.txIndices[h'].txId ==> h == h'
  }

  ghost predicate Consistent(db: Store) {
    && OrderedStore(db)
    && OwnIds(db)
    && (forall h :: h in db.txIndices ==> OutputsFound(db, h))
    && (forall a: nat, k: nat :: Owned(db, a, k))
  }

  // ----- Adding a transaction

  /** The tables after a transaction was stored with these outputs. */
  predicate Added(db: Store, e: Entry, outputs: OutputTables, indices: seq<nat>, db': Store) {
    && CanAppend(db.txs, |db.txs|) && CanAppend(db.txOutputs, |db.txs|)
    && e.hash !in db.txIndices
    && AddOutputs(db.outputs, |db.blocks|, e.hash, e.tx, |e.tx.vout|) == Ok((outputs, indices))
    && db' == WithTransaction(db, e, db'.spent, outputs, indices)
  }

  lemma AddedOrdered(db: Store, e: Entry, outputs: OutputTables, indices: seq<nat>, db': Store)
    requires OrderedStore(db) && Added(db, e, outputs, indices, db')
    ensures OrderedStore(db')
  {
    Appended(db.txs, |db.txs|, e.tx);
    Appended(db.txOutputs, |db.txs|, indices);
    AddOutputsOrdered(db.outputs, |db.blocks|, e.hash, e.tx, |e.tx.vout|);
  }

  /** The rows of a transaction that was there before. */
  lemma AddedKeepsRows(db: Store, e: Entry, outputs: OutputTables, indices: seq<nat>, db': Store, id: nat)
    requires OrderedStore(db) && Added(db, e, outputs, indices, db')
    requires Get(db.txs, id).Some? && Get(db.txOutputs, id).Some?
    ensures id < |db.txs|
    ensures Get(db'.txs, id) == Get(db.txs, id) && Get(db'.txOutputs, id) == Get(db.txOutputs, id)
  {
    GetBelow(db.txs, id, |db.txs|);
    StillFound(db.txs, |db.txs|, e.tx, id);
    StillFound(db.txOutputs, |db.txs|, indices, id);
  }

  lemma AddedRows(db: Store, e: Entry, outputs: OutputTables, indices: seq<nat>, db': Store)
    requires Added(db, e, outputs, indices, db')
    ensures Get(db'.txs, |db.txs|) == Some(e.tx) && Get(db'.txOutputs, |db.txs|) == Some(indices)
  {
    GetAppended(db.txs, |db.txs|, e.tx, |db.txs|);
    GetAppended(db.txOutputs, |db.txs|, indices, |db.txs|);
  }

  lemma AddedOwnIds(db: Store, e: Entry, outputs: OutputTables, indices: seq<nat>, db': Store)
    requires Consistent(db) && Added(db, e, outputs, indices, db')
    ensures OwnIds(db')
  {
    forall h | h in db.txIndices ensures db.txIndices[h].txId < |db.txs| {
      assert OutputsFound(db, h);
      AddedKeepsRows(db, e, outputs, indices, db', db.txIndices[h].txId);
    }
  }

  lemma AddedFound(db: Store, e: Entry, outputs: OutputTables, indices: seq<nat>, db': Store, h: Hash)
    requires Consistent(db) && Added(db, e, outputs, indices, db') && h in db'.txIndices
    ensures OutputsFound(db', h)
  {
    if h == e.hash {
      AddedRows(db, e, outputs, indices, db');
      AddOutputsFound(db.outputs, |db.blocks|, e.hash, e.tx, |e.tx.vout|);
    } else {
      assert OutputsFound(db, h);
      var index := db.txIndices[h];
      AddedKeepsRows(db, e, outputs, indices, db', index.txId);
      AddedKeepsFound(db, e, outputs, indices, db', h, index.blockId,
                      Get(db.txs, index.txId).value, Get(db.txOutputs, index.txId).value);
    }
  }

  lemma AddedKeepsFound(db: Store, e: Entry, outputs: OutputTables, indices: seq<nat>, db': Store,
                        h: Hash, height: nat, tx: Transaction, at: seq<nat>)
    requires OrderedStore(db) && Added(db, e, outputs, indices, db')
    requires AllFound(db.outputs, h, tx, height, at)
    ensures AllFound(db'.outputs, h, tx, height, at)
  {
    forall j | 0 <= j < |at| ensures FoundAt(db'.outputs, h, tx, height, at[j], j) {
      AddOutputsKeep(db.outputs, |db.blocks|, e.hash, e.tx, |e.tx.vout|, h, tx, height, at[j], j);
    }
  }

  lemma AddedOwned(db: Store, e: Entry, outputs: OutputTables, indices: seq<nat>, db': Store, a: nat, k: nat)
    requires Consistent(db) && Added(db, e, outputs, indices, db')
    ensures Owned(db', a, k)
  {
    AddOutputsOwned(db.outputs, |db.blocks|, e.hash, e.tx, |e.tx.vout|, a, k);
    if RecordAt(db.outputs, a, k).Some? {
      assert Owned(db, a, k);
      var h := OwnerAt(db.outputs, a, k).value.txHash;
      AddedKeepsRows(db, e, outputs, indices, db', db.txIndices[h].txId);
    } else {
      AddedRows(db, e, outputs, indices, db');
    }
  }

  lemma AddTransactionConsistent(db: Store, e: Entry)
    requires Consistent(db) && AddTransaction(db, e).Ok?
    ensures Consistent(AddTransaction(db, e).value)
  {
    var db' := AddTransaction(db, e).value;
    if SpendTransaction(db.spent, e.tx).Spent? {
      var (outputs, indices) := AddOutputs(db.outputs, |db.blocks|, e.hash, e.tx, |e.tx.vout|).value;
      assert Added(db, e, outputs, indices, db');
      AddedOrdered(db, e, outputs, indices, db');
      AddedOwnIds(db, e, outputs, indices, db');
      forall h | h in db'.txIndices ensures OutputsFound(db', h) {
        AddedFound(db, e, outputs, indices, db', h);
      }
      forall a: nat, k: nat ensures Owned(db', a, k) {
        AddedOwned(db, e, outputs, indices, db', a, k);
      }
    } else {
      SameTables(db, db');
    }
  }

  /** Key images and blocks do not matter. */
  lemma SameTables(db: Store, db': Store)
    requires Consistent(db)
    requires db' == db.(spent := db'.spent, blocks := db'.blocks, blockHeights := db'.blockHeights)
    ensures Consistent(db')
  {
    forall h | h in db'.txIndices ensures OutputsFound(db', h) {
      assert OutputsFound(db, h);
    }
    forall a: nat, k: nat ensures Owned(db', a, k) {
      assert Owned(db, a, k);
    }
  }

  lemma {:induction false} AddTransactionsConsistent(db: Store, entries: seq<Entry>)
    requires Consistent(db) && AddTransactions(db, entries).Ok?
    ensures Consistent(AddTransactions(db, entries).value)
    decreases |entries|
  {
    if entries != [] {
      AddTransactionsConsistent(db, entries[..|entries| - 1]);
      AddTransactionConsistent(AddTransactions(db, entries[..|entries| - 1]).value, entries[|entries| - 1]);
    }
  }

  // ----- Removing a transaction

  /** The tables after the transaction with these rows was removed. */
  predicate Removed(db: Store, h: Hash, tx: Transaction, indices: seq<nat>, outputs: OutputTables, db': Store) {
    && h in db.txIndices
    && Get(db.txs, db.txIndices[h].txId) == Some(tx) && Get(db.txOutputs, db.txIndices[h].txId) == Some(indices)
    && |indices| == |tx.vout|
    && RemoveOutputs(db.outputs, tx, indices, |tx.vout|) == Ok(outputs)
    && db'.txIndices == db.txIndices - {h}
    && db'.txs == Delete(db.txs, db.txIndices[h].txId)
    && db'.txOutputs == Delete(db.txOutputs, db.txIndices[h].txId)
    && db'.outputs == outputs
  }

  lemma RemovedOrdered(db: Store, h: Hash, tx: Transaction, indices: seq<nat>, outputs: OutputTables, db': Store)
    requires Consistent(db) && Removed(db, h, tx, indices, outputs, db')
    ensures OrderedStore(db') && OwnIds(db')
  {
    var id := db.txIndices[h].txId;
    assert OutputsFound(db, h);
    Deleted(db.txs, id);
    Deleted(db.txOutputs, id);
    RemoveOutputsSpare(db.outputs, h, tx, db.txIndices[h].blockId, indices, 0, 0);
  }

  lemma RemovedKeepsRows(db: Store, h: Hash, tx: Transaction, indices: seq<nat>, outputs: OutputTables, db': Store,
                         other: Hash)
    requires Consistent(db) && Removed(db, h, tx, indices, outputs, db')
    requires other in db.txIndices && other != h
    ensures var id := db.txIndices[other].txId;
      Get(db'.txs, id) == Get(db.txs, id) && Get(db'.txOutputs, id) == Get(db.txOutputs, id)
  {
    var id := db.txIndices[other].txId;
    GetOther(db.txs, db.txIndices[h].txId, id);
    GetOther(db.txOutputs, db.txIndices[h].txId, id);
  }

  lemma RemovedFound(db: Store, h: Hash, tx: Transaction, indices: seq<nat>, outputs: OutputTables, db': Store,
                     other: Hash)
    requires Consistent(db) && Removed(db, h, tx, indices, outputs, db')
    requires other in db'.txIndices
    ensures OutputsFound(db', other)
  {
    var index := db.txIndices[other];
    assert OutputsFound(db, other) && OutputsFound(db, h);
    RemovedKeepsRows(db, h, tx, indices, outputs, db', other);
    var tx2, at := Get(db.txs, index.txId).value, Get(db.txOutputs, index.txId).value;
    forall j | 0 <= j < |at| ensures FoundAt(db'.outputs, other, tx2, index.blockId, at[j], j) {
      assert FoundAt(db.outputs, other, tx2, index.blockId, at[j], j);
      RemoveOutputsSpare(db.outputs, h, tx, db.txIndices[h].blockId, indices, StoredAmount(tx2, j), at[j]);
    }
  }

  lemma RemovedOwned(db: Store, h: Hash, tx: Transaction, indices: seq<nat>, outputs: OutputTables, db': Store,
                     a: nat, k: nat)
    requires Consistent(db) && Removed(db, h, tx, indices, outputs, db')
    ensures Owned(db', a, k)
  {
    assert OutputsFound(db, h) && Owned(db, a, k);
    RemoveOutputsSpare(db.outputs, h, tx, db.txIndices[h].blockId, indices, a, k);
    if RecordAt(db'.outputs, a, k).Some? {
      var owner := OwnerAt(db.outputs, a, k).value;
      assert owner.txHash != h;
      RemovedKeepsRows(db, h, tx, indices, outputs, db', owner.txHash);
    }
  }

  lemma RemovedConsistent(db: Store, h: Hash, tx: Transaction, indices: seq<nat>, outputs: OutputTables, db': Store)
    requires Consistent(db) && Removed(db, h, tx, indices, outputs, db')
    ensures Consistent(db')
  {
    RemovedOrdered(db, h, tx, indices, outputs, db');
    forall other | other in db'.txIndices ensures OutputsFound(db', other) {
      RemovedFound(db, h, tx, indices, outputs, db', other);
    }
    forall a: nat, k: nat ensures Owned(db', a, k) {
      RemovedOwned(db, h, tx, indices, outputs, db', a, k);
    }
  }

  /** Exactly the stored transactions can be removed. */
  lemma RemoveTransactionSucceedsIff(db: Store, h: Hash)
    requires Consistent(db)
    ensures RemoveTransaction(db, h).Ok? <==> h in db.txIndices
    ensures RemoveTransaction(db, h).Ok? ==>
      var db' := RemoveTransaction(db, h).value;
      && Consistent(db')
      && db'.txIndices == db.txIndices - {h}
      && db'.blocks == db.blocks && db'.blockHeights == db.blockHeights
  {
    if h in db.txIndices {
      assert OutputsFound(db, h);
      var index := db.txIndices[h];
      var tx, indices := Get(db.txs, index.txId).value, Get(db.txOutputs, index.txId).value;
      RemoveOutputsSpare(db.outputs, h, tx, index.blockId, indices, 0, 0);
      var outputs := RemoveOutputs(db.outputs, tx, indices, |tx.vout|).value;
      RemovedConsistent(db, h, tx, indices, outputs, RemoveTransaction(db, h).value);
    }
  }
}
