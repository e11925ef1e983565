/** The edit records a transaction issues and what applying them does to the
    committed dictionary. */
module Operations {
  import opened Values
  import opened Storage

  /** An edit record. `oldValue` is the value the issuing transaction saw for
      `key` (NewKey when it saw none); the store checks it before writing.
      Records are values: nothing reassigns their fields once built. */
  datatype Op =
    | SetKey(key: string, oldValue: Val, newValue: string)
    | Unset(key: string, oldValue: Val)

  /** `apply_on`: the guarded write the record asks of the store.
      It passes the guard exactly when the store's current value for the key
      is the record's old value; a passing SetKey maps the key to the new
      value, a passing Unset deletes the key, which raises KeyError when the
      key is absent. A failure reports no dictionary at all; ApplyOn keeps
      the store as it was. */
  function Apply(d: Dict, op: Op): (r: Result<Dict>)
    ensures Current(d, op.key) != op.oldValue ==> r == Err(TransactionConflict)
    ensures Current(d, op.key) == op.oldValue && op.Unset? && op.oldValue == NewKey ==> r == Err(KeyError)
    ensures r.Ok? <==> Current(d, op.key) == op.oldValue && !(op.Unset? && op.oldValue == NewKey)
    ensures r.Ok? ==> Current(r.value, op.key) == (if op.SetKey? then Str(op.newValue) else NewKey)
  {
    if Current(d, op.key) != op.oldValue then Err(TransactionConflict)
    else
      match op
      case SetKey(k, _, v) => Ok(d[k := v])
      case Unset(k, _) => if k in d then Ok(d - {k}) else Err(KeyError)
  }

  /** A record that applies changes no key but its own. */
  lemma ApplyChangesOnlyItsKey(d: Dict, op: Op, k: string)
    requires Apply(d, op).Ok? && k != op.key
    ensures Current(Apply(d, op).value, k) == Current(d, k)
  {
  }

  /** The dictionary after a replay and how the replay ended. */
  datatype Replayed = Replayed(storage: Dict, outcome: Outcome)

  /** `commit(operations)`: apply the records in order; the first failure
      ends the replay, and the records before it stay applied. */
  function Replay(d: Dict, ops: seq<Op>): (r: Replayed)
    decreases |ops|
  {
    if ops == [] then Replayed(d, Done)
    else
      match Apply(d, ops[0])
      case Err(e) => Replayed(d, Failed(e))
      case Ok(d') => Replay(d', ops[1..])
  }

  /** Replaying a + b is replaying a, then, if that succeeded, b. */
  lemma {:induction false} ReplayAppend(d: Dict, a: seq<Op>, b: seq<Op>)
    ensures Replay(d, a + b)
         == (var ra := Replay(d, a); if ra.outcome.Failed? then ra else Replay(ra.storage, b))
    decreases |a|
  {
    if a == [] {
      assert a + b == b;
    } else {
      assert (a + b)[0] == a[0];
      assert (a + b)[1..] == a[1..] + b;
      if Apply(d, a[0]).Ok? {
        ReplayAppend(Apply(d, a[0]).value, a[1..], b);
      }
    }
  }

  /** A failure at record i decides the replay: the dictionary is the one the
      records before i left, the error is record i's, and the records after
      it are never applied. */
  lemma ReplayStopsAt(d: Dict, ops: seq<Op>, i: nat)
    requires i < |ops|
    requires Replay(d, ops[..i]).outcome == Done
    requires Apply(Replay(d, ops[..i]).storage, ops[i]).Err?
    ensures Replay(d, ops)
         == Replayed(Replay(d, ops[..i]).storage, Failed(Apply(Replay(d, ops[..i]).storage, ops[i]).error))
  {
    assert ops == ops[..i] + ops[i..];
    ReplayAppend(d, ops[..i], ops[i..]);
    assert ops[i..][0] == ops[i];
  }

  /** A failed replay failed at some record: every record before it was
      applied, and the dictionary is what they left. */
  lemma {:induction false} ReplayFailedAt(d: Dict, ops: seq<Op>)
    requires Replay(d, ops).outcome.Failed?
    decreases |ops|
    ensures exists i | 0 <= i < |ops| ::
              && Replay(d, ops[..i]) == Replayed(Replay(d, ops).storage, Done)
              && Apply(Replay(d, ops).storage, ops[i]) == Err(Replay(d, ops).outcome.error)
  {
    var r := Replay(d, ops);
    match Apply(d, ops[0])
    case Err(e) =>
      assert ops[..0] == [];
      assert Replay(d, ops[..0]) == Replayed(r.storage, Done);
    case Ok(d') =>
      var rest := ops[1..];
      ReplayFailedAt(d', rest);
      var j :| 0 <= j < |rest|
                && Replay(d', rest[..j]) == Replayed(r.storage, Done)
                && Apply(r.storage, rest[j]) == Err(r.outcome.error);
      assert ops[..j + 1][0] == ops[0];
      assert ops[..j + 1][1..] == rest[..j];
      assert ops[j + 1] == rest[j];
      assert Replay(d, ops[..j + 1]) == Replay(d', rest[..j]);
  }
}
