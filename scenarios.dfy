/** The behaviours the store's own tests check, as runs of the model whose
    results the contracts of the store and its transactions determine. */
module Scenarios {
  import opened Values
  import opened Storage
  import opened Operations
  import opened Chain
  import opened System

  /** A transaction reads back what it set. */
  method ReadOwnWrite() returns (seen: Result<Val>)
    ensures seen == Ok(Str("value"))
  {
    var system := new KeyValueStoreSystem();
    var t := system.Begin();
    t.Set("key", "value");
    seen := t.Get("key", None);
  }

  /** A missing key raises KeyError. */
  method MissingKeyRaises() returns (seen: Result<Val>)
    ensures seen == Err(KeyError)
  {
    var system := new KeyValueStoreSystem();
    var t := system.Begin();
    seen := t.Get("do not exists", None);
  }

  /** An uncommitted set is invisible to another transaction. */
  method UncommittedSetIsInvisible() returns (seen: Result<Val>)
    ensures seen == Err(KeyError)
  {
    var system := new KeyValueStoreSystem();
    var t1 := system.Begin();
    var t2 := system.Begin();
    t1.Set("key", "value");
    seen := t2.Get("key", None);
  }

  /** A transaction begun earlier sees another's later commit. */
  method LaterCommitIsVisible() returns (committed: Outcome, seen: Result<Val>)
    ensures committed == Done && seen == Ok(Str("value"))
  {
    var system := new KeyValueStoreSystem();
    var t1 := system.Begin();
    var t2 := system.Begin();
    t1.Set("key", "value");
    committed := t1.Commit();
    seen := t2.Get("key", None);
  }

  /** A rolled-back transaction commits nothing. */
  method RollbackDiscards() returns (committed: Outcome, seen: Result<Val>)
    ensures committed == Done && seen == Err(KeyError)
  {
    var system := new KeyValueStoreSystem();
    var t1 := system.Begin();
    var t2 := system.Begin();
    t1.Set("key", "value");
    t1.Rollback();
    committed := t1.Commit();
    seen := t2.Get("key", None);
  }

  /** Of two transactions that set the same new key, the second to commit
      conflicts and the first one's value stays. */
  method StaleWriteIsRejected() returns (first: Outcome, second: Outcome, seen: Result<Val>)
    ensures first == Done && second == Failed(TransactionConflict)
    ensures seen == Ok(Str("value"))
  {
    var system := new KeyValueStoreSystem();
    var t1 := system.Begin();
    var t2 := system.Begin();
    var t3 := system.Begin();
    t1.Set("key", "value");
    t2.Set("key", "another value");
    first := t1.Commit();
    second := t2.Commit();
    seen := t3.Get("key", None);
  }

  /** An unset hides the transaction's own earlier set. */
  method UnsetHidesOwnSet() returns (seen: Result<Val>)
    ensures seen == Err(KeyError)
  {
    var system := new KeyValueStoreSystem();
    var t := system.Begin();
    t.Set("key", "value");
    t.Unset("key");
    seen := t.Get("key", None);
  }

  /** A transaction deletes a key another one committed. */
  method UnsetCommittedKey() returns (first: Outcome, second: Outcome, seen: Result<Val>)
    ensures first == Done && second == Done && seen == Err(KeyError)
  {
    var system := new KeyValueStoreSystem();
    var t1 := system.Begin();
    var t2 := system.Begin();
    var t3 := system.Begin();
    t1.Set("key", "value");
    first := t1.Commit();
    t2.Unset("key");
    second := t2.Commit();
    seen := t3.Get("key", None);
  }

  /** Two keys set to one value in a transaction count two. */
  method CountOwnSets() returns (n: int)
    ensures n == 2
  {
    var system := new KeyValueStoreSystem();
    var t := system.Begin();
    t.Set("key", "value");
    t.Set("another key", "value");
    var ops := t.operations;
    assert ops[..1][..0] == [] && |ops| == 2;
    CountEmpty("value");
    assert ChainCount(system.storage, ops[..1], "value") == 1;
    n := t.NumberOfKeysWithValue("value");
  }

  /** The count adds a committed key and the transaction's own set. */
  method CountCommittedAndOwnSets() returns (committed: Outcome, n: int)
    ensures committed == Done && n == 2
  {
    var system := new KeyValueStoreSystem();
    var t1 := system.Begin();
    var t2 := system.Begin();
    t1.Set("key", "value");
    committed := t1.Commit();
    t2.Set("another key", "value");
    assert t2.operations[..0] == [];
    CountEmpty("value");
    CountUpdate(map[], "key", "value", "value");
    assert system.storage == map[]["key" := "value"];
    assert Count(system.storage, "value") == 1;
    assert t2.operations == [Op.SetKey("another key", NewKey, "value")];
    assert ChainCount(system.storage, t2.operations, "value") == 2;
    n := t2.NumberOfKeysWithValue("value");
  }

  /** Unsetting a key nobody has passes the guard at commit, and then the
      delete raises KeyError; the transaction keeps its record. */
  method UnsetOfMissingKeyFailsCommit() returns (committed: Outcome, kept: nat)
    ensures committed == Failed(KeyError) && kept == 1
  {
    var system := new KeyValueStoreSystem();
    var t := system.Begin();
    t.Unset("key");
    committed := t.Commit();
    kept := |t.operations|;
  }

  /** A conflict in the middle of a commit: the record before it stays
      applied, the one after it is not, and the transaction keeps its
      records. */
  method ConflictMidCommit() returns (other: Outcome, committed: Outcome, a: Result<Val>, b: Result<Val>, c: Result<Val>, kept: nat)
    ensures other == Done && committed == Failed(TransactionConflict)
    ensures a == Ok(Str("1")) && b == Ok(Str("theirs")) && c == Err(KeyError)
    ensures kept == 3
  {
    var system := new KeyValueStoreSystem();
    var t1 := system.Begin();
    var t2 := system.Begin();
    t1.Set("a", "1");
    t1.Set("b", "2");
    t1.Set("c", "3");
    t2.Set("b", "theirs");
    other := t2.Commit();
    var ops := t1.operations;
    assert ops[1..][1..] == [ops[2]];
    committed := t1.Commit();
    kept := |t1.operations|;
    var reader := system.Begin();
    a := reader.Get("a", None);
    b := reader.Get("b", None);
    c := reader.Get("c", None);
  }
}
