# Key-value store transaction engine, modelled in Dafny

This project models the transaction engine of a small in-memory key-value
store (`keyvaluestore/system.py` and `keyvaluestore/operations.py`).

- `KeyValueStoreSystem` holds the committed dictionary. It offers a read with
  an optional default and a count of the stored values equal to a given one.
  It also offers two guarded writes, `set_key` and `unset_key`. Each compares
  the caller's expected old value with the current one. The `NEW_KEY`
  sentinel stands for an absent key. On a mismatch the write raises
  `TransactionConflict` and changes nothing.
- `commit` on the store replays a list of edit records in order. The first
  exception ends the replay, and the records before it stay applied.
- A `Transaction` only ever appends edit records (`SetKey`, `Unset`) to its
  own list. Each record captures the value the transaction saw for its key.
  Reads and counts walk that list from its end down to the live store.
  `commit` pushes the list to the store and, if no record raised, empties
  it. `rollback` empties it.

The model, module by module:

- `Values`: the `NEW_KEY`-or-string value `Val`, the two exceptions, and
  `Option`, `Result` and `Outcome` wrappers. A read's default is an
  `Option<Val>`: `None` is the source's "raise `KeyError`" marker.
- `Storage`: the committed dictionary as a `map<string, string>`, its
  lookup (`Lookup`), the guard's view of a key (`Current`) and the count
  (`Count`).
- `Operations`: the edit records as one immutable datatype `Op`. `Apply`
  is what applying one record does to a dictionary. `Replay` is the
  in-order replay that stops at the first failure.
- `Chain`: the `get` and `number_of_keys_with_value` of the linked records,
  as recursive functions over the transaction's list of records and the live
  dictionary (`ChainGet`, `ChainCount`). It also defines the dictionary a
  transaction sees (`View`) and the condition `IssuedOn`: the list was built
  by `set`/`unset` on a given dictionary.
- `System`: the two classes of `system.py`.
  `KeyValueStoreSystem` has a `storage` field that its `SetKey`, `UnsetKey`
  and `Commit` methods update in place. `Transaction` has an `operations`
  field that `Set`, `Unset`, `Commit` and `Rollback` reassign. `ApplyOn`
  is the `apply_on` of both record kinds. `operations.py` and the records
  in `system.py` (lines 88-89 and 108-109) hold the same `apply_on`, so
  one method models both.
  `KeyValueStoreSystem.Get` is `Lookup` on the current `storage`.
- `Scenarios`: the runs of `tests/test_system.py`, and two commit failures,
  as methods. Their results follow from the contracts above.

A transaction keeps no map of pending writes. Its reads walk its chain of
records down to the live store, and its count is kept per record (see
"## Findings").

## Model

| member | source | states |
|---|---|---|
| `Storage.Lookup` | keyvaluestore/system.py:23-26 | a present key reads its stored value; an absent key reads the default, or raises KeyError when no default is given |
| `Storage.Current` | keyvaluestore/system.py:36-37 | the guard reads NewKey exactly for an absent key, and the stored string otherwise |
| `Storage.Count` | keyvaluestore/system.py:41-42 | the definition: the number of stored keys whose value is v; `Storage.CountInsert`, `Storage.CountUpdate` and `Storage.CountRemove` state how writes change it |
| `Storage.CountUpdate` | keyvaluestore/system.py:41-42 | mapping k to w removes k's old value from the count of that value and adds one to the count of w |
| `Storage.CountInsert` | keyvaluestore/system.py:41-42 | adding a new key k with value w adds one to the count of w and changes no other count |
| `Storage.CountRemove` | keyvaluestore/system.py:41-42 | deleting k removes k's value from the count of that value and changes no other count |
| `Operations.Apply` | keyvaluestore/system.py:28-39 | a record applies exactly when the current value equals its old value, unless it is an Unset of an absent key; a mismatch raises TransactionConflict, the Unset of an absent key raises KeyError; afterwards a SetKey's key reads its new value and an Unset's key is absent |
| `Operations.ApplyChangesOnlyItsKey` | keyvaluestore/system.py:28-34 | a record that applies leaves every other key's value as it was |
| `Operations.Replay` | keyvaluestore/system.py:19-21 | the definition: the records applied in order, stopping at the first one that raises; `Operations.ReplayAppend`, `Operations.ReplayStopsAt` and `Operations.ReplayFailedAt` state its properties |
| `Operations.ReplayAppend` | keyvaluestore/system.py:19-21 | replaying a + b is replaying a and then, only if a succeeded, replaying b on the result |
| `Operations.ReplayStopsAt` | keyvaluestore/system.py:19-21 | when the records before i all apply and record i fails, the commit raises record i's error, keeps the records before i applied and never applies the rest |
| `Operations.ReplayFailedAt` | keyvaluestore/system.py:19-21 | a failed commit failed at some record i: the records before i applied cleanly and left exactly the final dictionary, and record i raised the reported error on it |
| `Chain.Resolve` | keyvaluestore/system.py:92-115 | the definition: a record's answer for its own key (lines 92-93 and 112-115): a SetKey's new value, or for an Unset the default or KeyError; `Chain.ReadResolution` states when it decides a read |
| `Chain.ChainGet` | keyvaluestore/system.py:57-62 | a transaction's read with a default never raises |
| `Chain.ReadResolution` | keyvaluestore/system.py:91-116 | the most recent record on the key answers (a SetKey with its new value, an Unset with the default or KeyError); a key no record touches is read from the live store |
| `Chain.ChainCurrent` | keyvaluestore/system.py:52 | the definition: the value a transaction captures as a record's old value (here and at line 73), its read with NewKey as the default; `Chain.ChainReadsView` and `Storage.Current` make it NewKey exactly for a key absent from the transaction's view |
| `Chain.ChainCount` | keyvaluestore/system.py:96-121 | the definition: the per-record count as written (lines 96-99 and 118-121); `Chain.CountFormula` gives it in closed form and `Chain.CountPerRecordMiscounts` shows where it differs from the keys the transaction sees |
| `Chain.CountFormula` | keyvaluestore/system.py:96-121 | the count is the live store's count, plus the SetKey records writing v, minus the Unset records whose captured old value is v |
| `Chain.ChainReadsView` | keyvaluestore/system.py:91-116 | reading through the chain equals a lookup in the transaction's view: the live store with the records' edits made in order |
| `Chain.IssuedOnAppend` | keyvaluestore/system.py:50-55 | the recursive definition of `IssuedOn` unfolded once: a record that captured what the chain shows for its key extends a chain issued on a dictionary exactly when the chain was issued on it; a helper for `Transaction.Set` and `Transaction.Unset` |
| `Chain.ReplayOnIssuingStore` | keyvaluestore/system.py:64-66 | committing on the dictionary the records were issued on never conflicts; it succeeds exactly when no Unset deleted a key its transaction could not see, and then the store becomes the transaction's view; otherwise it raises KeyError |
| `Chain.ChainCountIsViewCount` | keyvaluestore/system.py:96-121 | when the store has not changed since the records were issued (`IssuedOn`) and every SetKey creates a key its transaction could not see, the per-record count equals the count of values in the transaction's view |
| `Chain.ChainCountIsVisibleForNewKeys` | keyvaluestore/system.py:76-78 | when the store has not changed since the records were issued (`IssuedOn`) and every SetKey creates a key its transaction could not see, the count agrees with the number of keys the transaction sees with that value |
| `Chain.VisibleCount` | keyvaluestore/system.py:76-78 | (corrected count) the number of keys for which the transaction's get returns v |
| `Chain.CountPerRecordMiscounts` | keyvaluestore/system.py:96-121 | on three concrete inputs the per-record count differs from the number of keys the transaction sees with the value, and one of them is -1 |
| `System.KeyValueStoreSystem.constructor` | keyvaluestore/system.py:10-11 | a new store is empty |
| `System.KeyValueStoreSystem.Begin` | keyvaluestore/system.py:13-14 | a new transaction bound to this store, with no records |
| `System.KeyValueStoreSystem.Get` | keyvaluestore/system.py:23-26 | the definition: `Storage.Lookup` on the current storage, whose contract states the present-key, default and KeyError cases |
| `System.KeyValueStoreSystem.AssertNoConflict` | keyvaluestore/system.py:36-39 | the guard passes exactly when the current value (NewKey for an absent key) is the expected old value, and otherwise raises TransactionConflict |
| `System.KeyValueStoreSystem.SetKey` | keyvaluestore/system.py:28-30 | past the guard the key maps to the new value and nothing else changes; on a conflict the store is unchanged |
| `System.KeyValueStoreSystem.UnsetKey` | keyvaluestore/system.py:32-34 | past the guard the key is deleted and nothing else changes; a conflict raises TransactionConflict, the delete of an absent key raises KeyError, and in both cases the store is unchanged |
| `System.KeyValueStoreSystem.Commit` | keyvaluestore/system.py:19-21 | the store and the raised error are those of the in-order replay that stops at the first failure |
| `System.KeyValueStoreSystem.NumberOfKeysWithValue` | keyvaluestore/system.py:41-42 | the number of stored keys whose value is v |
| `System.ApplyOn` | keyvaluestore/operations.py:7-17 | a SetKey asks set_key with its own key, old value and new value, an Unset asks unset_key with its key and old value; the store then holds what Apply computes, and a failure leaves it unchanged |
| `System.Transaction.constructor` | keyvaluestore/system.py:46-48 | a transaction starts bound to its store with no records |
| `System.Transaction.Get` | keyvaluestore/system.py:57-62 | a transaction's read is a lookup in its view of the live store |
| `System.Transaction.Set` | keyvaluestore/system.py:50-55 | appends one SetKey that captured what the transaction saw for the key; the store is untouched; a chain issued on the store stays issued on it |
| `System.Transaction.Unset` | keyvaluestore/system.py:71-74 | appends one Unset that captured what the transaction saw for the key; the store is untouched; a chain issued on the store stays issued on it |
| `System.Transaction.Commit` | keyvaluestore/system.py:64-66 | the store is replayed with the records; the list is emptied on success and kept when the replay raised |
| `System.Transaction.Rollback` | keyvaluestore/system.py:68-69 | the list is emptied and the store is untouched |
| `System.Transaction.NumberOfKeysWithValue` | keyvaluestore/system.py:76-78 | the live store's count plus the SetKey records writing v minus the Unset records that saw v |
| `Scenarios.ReadOwnWrite` | tests/test_system.py:20-27 | a transaction reads back what it set |
| `Scenarios.MissingKeyRaises` | tests/test_system.py:29-33 | a read of a missing key without a default raises KeyError |
| `Scenarios.UncommittedSetIsInvisible` | tests/test_system.py:35-42 | another transaction does not see an uncommitted set |
| `Scenarios.LaterCommitIsVisible` | tests/test_system.py:44-53 | a transaction begun earlier sees a later commit of another |
| `Scenarios.RollbackDiscards` | tests/test_system.py:55-64 | commit after rollback writes nothing |
| `Scenarios.StaleWriteIsRejected` | tests/test_system.py:66-80 | the second of two commits setting the same new key raises TransactionConflict and the first value stays |
| `Scenarios.UnsetHidesOwnSet` | tests/test_system.py:82-89 | an unset hides the transaction's own earlier set |
| `Scenarios.UnsetCommittedKey` | tests/test_system.py:91-103 | a transaction can delete a key another one committed |
| `Scenarios.CountOwnSets` | tests/test_system.py:105-112 | two keys set to one value count two |
| `Scenarios.CountCommittedAndOwnSets` | tests/test_system.py:114-125 | a committed key and an own uncommitted set of the same value count two |
| `Scenarios.UnsetOfMissingKeyFailsCommit` | keyvaluestore/system.py:32-34 | unsetting a key nobody has makes the commit raise KeyError, and the record is kept |
| `Scenarios.ConflictMidCommit` | keyvaluestore/system.py:19-21 | a conflict on the second of three records keeps the first applied, skips the third and keeps the transaction's records |

## Findings

| source | as written | input that shows it | evidently intended | confidence | as-written member | corrected member |
|---|---|---|---|---|---|---|
| keyvaluestore/system.py:96-121 | `SetKey.number_of_keys_with_value` adds one when the new value matches and never subtracts the value it overwrote; `Unset` subtracts its captured old value even if the live store has lost the key since | store `{k: v}`, transaction sets `k` to `w`: the count of `v` is 1 though no key reads `v`; setting `a` to `v` twice counts 2. Third: a transaction unsets `k` while the store holds `k: v`; another transaction then commits the delete of `k`; the first one's count of `v` is -1 | the number of keys the transaction's `get` returns `v` for (the tests only exercise newly created keys, where the two agree) | high, not executed | `Chain.CountPerRecordMiscounts` | `Chain.VisibleCount` |

`System.Transaction.NumberOfKeysWithValue` keeps the per-record count of
the code, as written. `Chain.ChainCountIsVisibleForNewKeys` proves that
it agrees with `Chain.VisibleCount` when the store has not changed since
the records were issued (`IssuedOn`) and every set creates a key the
transaction could not see. This covers every count in the tests.

## Left out

- `keyvaluestore/cli.py` and its tests: a line-reading loop that dispatches on the first word and prints replies; it is I/O with no state of its own.
- `KeyValueStoreSystem.end`: it does nothing.
- Locking and concurrency: the code has none. Several transactions on one store are interleaved sequential calls on the same object, as in `Scenarios`.
- Python specifics: the object identity of `NEW_KEY` becomes the `NewKey` variant; `KeyError` as the default marker becomes `None`; `Any`-typed values become strings.
- `number_of_keys_with_value` of the store sums a generator over the values; the model counts in a loop over the keys, which gives the same number.
- `Operations.Apply`: its own contract says what happens at the record's key. The fact that no other key changes is the separate lemma `Operations.ApplyChangesOnlyItsKey`.
