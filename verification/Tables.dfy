/**
 * A database table whose keys are integers: its rows in ascending key order, as a cursor
 * walks them.  Rows are put at the end (the database's "append" mode refuses a key that is
 * not above the last one) and deleted by key.
 */
module Tables {
  import opened Wrappers

  datatype Row<+V> = Row(key: nat, value: V)

  /** Row number i has key i: nothing was ever deleted from the middle. */
  predicate Dense<V>(t: seq<Row<V>>) {
    forall i :: 0 <= i < |t| ==> t[i].key == i
  }

  predicate CanAppend<V>(t: seq<Row<V>>, key: nat) {
    t == [] || t[|t| - 1].key < key
  }

  function Get<V>(t: seq<Row<V>>, key: nat): (r: Option<V>) {
    if t == [] then None
    else if t[|t| - 1].key == key then Some(t[|t| - 1].value)
    else Get(t[..|t| - 1], key)
  }

  function Delete<V>(t: seq<Row<V>>, key: nat): (r: seq<Row<V>>) {
    if t == [] then []
    else if t[|t| - 1].key == key then t[..|t| - 1]
    else Delete(t[..|t| - 1], key) + [t[|t| - 1]]
  }

  /** Deleting the row just appended gives back the table it was appended to. */
  lemma AppendedRow<V>(t: seq<Row<V>>, key: nat, value: V)
    ensures Get(t + [Row(key, value)], key) == Some(value)
    ensures Delete(t + [Row(key, value)], key) == t
  {
    assert (t + [Row(key, value)])[..|t|] == t;
  }

  // ----- Tables with gaps

  /** Keys go up from row to row; rows may have been deleted anywhere. */
  predicate Ascending<V>(t: seq<Row<V>>) {
    t == [] || (Ascending(t[..|t| - 1]) && CanAppend(t[..|t| - 1], t[|t| - 1].key))
  }

  /** A key that may be appended is above every key in the table. */
  lemma {:induction false} GetBelow<V>(t: seq<Row<V>>, key: nat, bound: nat)
    requires Ascending(t) && CanAppend(t, bound) && Get(t, key).Some?
    ensures key < bound
  {
    if t[|t| - 1].key != key {
      GetBelow(t[..|t| - 1], key, t[|t| - 1].key);
    }
  }

  lemma Appended<V>(t: seq<Row<V>>, key: nat, value: V)
    requires Ascending(t) && CanAppend(t, key)
    ensures Ascending(t + [Row(key, value)])
  {
    assert (t + [Row(key, value)])[..|t|] == t;
  }

  lemma GetAppended<V>(t: seq<Row<V>>, key: nat, value: V, j: nat)
    ensures Get(t + [Row(key, value)], j) == if j == key then Some(value) else Get(t, j)
  {
    assert (t + [Row(key, value)])[..|t|] == t;
  }

  /** What is found in a table is still found when a row with a permitted key is appended. */
  lemma StillFound<V>(t: seq<Row<V>>, key: nat, value: V, j: nat)
    requires Ascending(t) && CanAppend(t, key) && Get(t, j).Some?
    ensures Get(t + [Row(key, value)], j) == Get(t, j)
  {
    GetBelow(t, j, key);
    GetAppended(t, key, value, j);
  }

  lemma {:induction false} GetOther<V>(t: seq<Row<V>>, key: nat, j: nat)
    requires j != key
    ensures Get(Delete(t, key), j) == Get(t, j)
  {
    if t != [] && t[|t| - 1].key != key {
      var rest, last := Delete(t[..|t| - 1], key), t[|t| - 1];
      assert (rest + [last])[..|rest|] == rest;
      GetOther(t[..|t| - 1], key, j);
    }
  }

  lemma {:induction false} DeleteBelow<V>(t: seq<Row<V>>, key: nat, bound: nat)
    requires Ascending(t) && CanAppend(t, bound)
    ensures CanAppend(Delete(t, key), bound)
  {
  }

  lemma {:induction false} Deleted<V>(t: seq<Row<V>>, key: nat)
    requires Ascending(t)
    ensures Ascending(Delete(t, key)) && Get(Delete(t, key), key).None?
  {
    if t != [] {
      var init, last := t[..|t| - 1], t[|t| - 1];
      if last.key == key {
        if Get(init, key).Some? {
          GetBelow(init, key, key);
        }
      } else {
        Deleted(init, key);
        DeleteBelow(init, key, last.key);
        Appended(Delete(init, key), last.key, last.value);
        GetAppended(Delete(init, key), last.key, last.value, key);
      }
    }
  }
}
