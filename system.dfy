/** The transaction engine: the committed store, the guarded writes that edit
    records replay on it, and the transactions that issue those records. */
module System {
  import opened Values
  import opened Storage
  import opened Operations
  import opened Chain

  /** The committed store, shared by every transaction begun on it. */
  class KeyValueStoreSystem {
    var storage: Dict

    constructor ()
      ensures storage == map[]
    {
      storage := map[];
    }

    /** A new transaction on this store, with no records yet. */
    method Begin() returns (t: Transaction)
      ensures fresh(t) && t.system == this && t.operations == []
    {
      t := new Transaction(this);
    }

    /** `get`: a read of the committed dictionary. */
    function Get(key: string, default: Option<Val>): (r: Result<Val>)
      reads this
    {
      Lookup(storage, key, default)
    }

    /** The guard of both writes: it raises TransactionConflict exactly when
        the current value (NewKey for an absent key) is not `oldValue`. */
    method AssertNoConflict(key: string, oldValue: Val) returns (r: Outcome)
      ensures r.Done? <==> Current(storage, key) == oldValue
      ensures r.Failed? ==> r.error == TransactionConflict
    {
      var current := Get(key, Some(NewKey));
      if current.value != oldValue {
        r := Failed(TransactionConflict);
      } else {
        r := Done;
      }
    }

    /** `set_key`: past the guard, map the key to the new value. */
    method SetKey(key: string, oldValue: Val, newValue: string) returns (r: Outcome)
      modifies this
      ensures r.Done? <==> Current(old(storage), key) == oldValue
      ensures r.Failed? ==> r.error == TransactionConflict
      ensures storage == if r.Done? then old(storage)[key := newValue] else old(storage)
    {
      r := AssertNoConflict(key, oldValue);
      if r.Done? {
        storage := storage[key := newValue];
      }
    }

    /** `unset_key`: past the guard, delete the key; deleting an absent key
        (which passes the guard only with NewKey) raises KeyError. */
    method UnsetKey(key: string, oldValue: Val) returns (r: Outcome)
      modifies this
      ensures r.Done? <==> Current(old(storage), key) == oldValue && key in old(storage)
      ensures r.Failed? ==> r.error == (if Current(old(storage), key) != oldValue then TransactionConflict else KeyError)
      ensures storage == if r.Done? then old(storage) - {key} else old(storage)
    {
      r := AssertNoConflict(key, oldValue);
      if r.Done? {
        if key in storage {
          storage := storage - {key};
        } else {
          r := Failed(KeyError);
        }
      }
    }

    /** `commit(operations)`: apply each record in order. The first failure
        stops the loop and is raised; the records before it stay applied. */
    method Commit(ops: seq<Op>) returns (r: Outcome)
      modifies this
      ensures Replayed(storage, r) == Replay(old(storage), ops)
    {
      r := Done;
      var i := 0;
      while i < |ops|
        invariant 0 <= i <= |ops|
        invariant Replay(old(storage), ops) == Replay(storage, ops[i..])
        invariant r == Done
      {
        assert ops[i..][0] == ops[i] && ops[i..][1..] == ops[i + 1..];
        r := ApplyOn(ops[i], this);
        if r.Failed? {
          return;
        }
        i := i + 1;
      }
    }

    /** `number_of_keys_with_value`: the number of stored values equal to v. */
    method NumberOfKeysWithValue(v: string) returns (n: nat)
      ensures n == Count(storage, v)
    {
      n := 0;
      var rest := storage.Keys;
      while rest != {}
        invariant rest <= storage.Keys
        invariant n == |set k | k in storage && k !in rest && storage[k] == v|
        decreases |rest|
      {
        var k :| k in rest;
        var counted := set x | x in storage && x !in rest && storage[x] == v;
        if storage[k] == v {
          assert (set x | x in storage && x !in rest - {k} && storage[x] == v) == counted + {k};
          n := n + 1;
        } else {
          assert (set x | x in storage && x !in rest - {k} && storage[x] == v) == counted;
        }
        rest := rest - {k};
      }
      assert (set k | k in storage && k !in rest && storage[k] == v) == (set k | k in storage && storage[k] == v);
    }
  }

  /** `apply_on` of an edit record: a SetKey calls `set_key` with its key,
      old value and new value, an Unset calls `unset_key` with its key and
      old value. The store then holds what Apply computes, and a failure
      leaves it as it was. */
  method ApplyOn(op: Op, system: KeyValueStoreSystem) returns (r: Outcome)
    modifies system
    ensures Apply(old(system.storage), op) == (if r.Done? then Ok(system.storage) else Err(r.error))
    ensures r.Failed? ==> system.storage == old(system.storage)
  {
    match op
    case SetKey(k, o, v) =>
      r := system.SetKey(k, o, v);
    case Unset(k, o) =>
      r := system.UnsetKey(k, o);
  }

  /** A transaction: the list of records it issued, in order, on the store it
      was begun on. Its reads go through its records down to the live store. */
  class Transaction {
    const system: KeyValueStoreSystem
    var operations: seq<Op>

    constructor (system: KeyValueStoreSystem)
      ensures this.system == system && operations == []
    {
      this.system := system;
      operations := [];
    }

    /** `get`: the transaction reads its own view, that is, the live store
        with its records' edits made in order. */
    function Get(key: string, default: Option<Val>): (r: Result<Val>)
      reads this, system
      ensures r == Lookup(View(system.storage, operations), key, default)
    {
      ChainReadsView(system.storage, operations, key, default);
      ChainGet(system.storage, operations, key, default)
    }

    /** `set`: append a SetKey that captured what the transaction sees for
        the key. The store is not touched. */
    method Set(key: string, value: string)
      modifies this
      ensures operations == old(operations) + [Op.SetKey(key, ChainCurrent(system.storage, old(operations), key), value)]
      ensures unchanged(system)
      ensures old(IssuedOn(system.storage, operations)) ==> IssuedOn(system.storage, operations)
    {
      var observed := Get(key, Some(NewKey));
      var op := Op.SetKey(key, observed.value, value);
      IssuedOnAppend(system.storage, operations, op);
      operations := operations + [op];
    }

    /** `unset`: append an Unset that captured what the transaction sees for
        the key. The store is not touched. */
    method Unset(key: string)
      modifies this
      ensures operations == old(operations) + [Op.Unset(key, ChainCurrent(system.storage, old(operations), key))]
      ensures unchanged(system)
      ensures old(IssuedOn(system.storage, operations)) ==> IssuedOn(system.storage, operations)
    {
      var observed := Get(key, Some(NewKey));
      var op := Op.Unset(key, observed.value);
      IssuedOnAppend(system.storage, operations, op);
      operations := operations + [op];
    }

    /** `commit`: replay the records on the store. On success the list is
        emptied; a raised error skips that, so the records are kept. */
    method Commit() returns (r: Outcome)
      modifies this, system
      ensures Replayed(system.storage, r) == Replay(old(system.storage), old(operations))
      ensures operations == if r.Done? then [] else old(operations)
    {
      r := system.Commit(operations);
      if r.Done? {
        operations := [];
      }
    }

    /** `rollback`: forget the records; the store is not touched. */
    method Rollback()
      modifies this
      ensures operations == [] && unchanged(system)
    {
      operations := [];
    }

    /** `number_of_keys_with_value`, counted per record on the live store. */
    function NumberOfKeysWithValue(v: string): (n: int)
      reads this, system
      ensures n == Count(system.storage, v) + |SetsOf(operations, v)| - |UnsetsOf(operations, v)|
    {
      CountFormula(system.storage, operations, v);
      ChainCount(system.storage, operations, v)
    }
  }

}
