/** Reads through a transaction's chain of records. Each record links to the
    one issued before it and the first links to the live store, so the chain
    is the transaction's list of records read from the end, standing on the
    store's dictionary as it is at the time of the read. */
module Chain {
  import opened Values
  import opened Storage
  import opened Operations

  /** What a record answers for its own key: a SetKey its new value, an Unset
      the default, or KeyError when there is none. */
  function Resolve(op: Op, default: Option<Val>): (r: Result<Val>)
  {
    match op
    case SetKey(_, _, v) => Ok(Str(v))
    case Unset(_, _) => if default.None? then Err(KeyError) else Ok(default.value)
  }

  /** `get` on the top record of `ops`, or on the store when there is none:
      a record answers for its own key and asks the record below it for any
      other. A read with a default never raises. */
  function ChainGet(d: Dict, ops: seq<Op>, key: string, default: Option<Val>): (r: Result<Val>)
    ensures default.Some? ==> r.Ok?
    decreases |ops|
  {
    if ops == [] then Lookup(d, key, default)
    else if ops[|ops| - 1].key == key then Resolve(ops[|ops| - 1], default)
    else ChainGet(d, ops[..|ops| - 1], key, default)
  }

  /** No record of `ops` is on `key`. */
  predicate Untouched(ops: seq<Op>, key: string)
  {
    forall i | 0 <= i < |ops| :: ops[i].key != key
  }

  /** Record i is the most recent record of `ops` on `key`. */
  predicate LastOn(ops: seq<Op>, key: string, i: int)
  {
    0 <= i < |ops| && ops[i].key == key && forall j | i < j < |ops| :: ops[j].key != key
  }

  /** Read resolution: the most recent record on the key answers; a key no
      record touches is read from the live store. */
  lemma {:induction false} ReadResolution(d: Dict, ops: seq<Op>, key: string, default: Option<Val>)
    ensures Untouched(ops, key) ==> ChainGet(d, ops, key, default) == Lookup(d, key, default)
    ensures forall i | LastOn(ops, key, i) :: ChainGet(d, ops, key, default) == Resolve(ops[i], default)
    decreases |ops|
  {
    if ops != [] {
      var n := |ops|;
      var below := ops[..n - 1];
      if ops[n - 1].key == key {
        assert !Untouched(ops, key) by {
          assert ops[n - 1].key == key;
        }
        forall i | 0 <= i < n - 1 ensures !LastOn(ops, key, i) {
          assert i < n - 1 && ops[n - 1].key == key;
        }
      } else {
        ReadResolution(d, below, key, default);
        forall i | 0 <= i < n - 1 ensures below[i] == ops[i] {
        }
        assert Untouched(ops, key) ==> Untouched(below, key);
        forall i | LastOn(ops, key, i) ensures LastOn(below, key, i) {
        }
      }
    }
  }

  /** The value a transaction captures as a new record's old value:
      `get(key, NEW_KEY)` on its chain. */
  function ChainCurrent(d: Dict, ops: seq<Op>, key: string): (v: Val)
  {
    ChainGet(d, ops, key, Some(NewKey)).value
  }

  /** `number_of_keys_with_value` on the top record: each SetKey whose new
      value is v adds one and each Unset whose old value is v takes one
      away, on top of the live store's count. */
  function ChainCount(d: Dict, ops: seq<Op>, v: string): (n: int)
    decreases |ops|
  {
    if ops == [] then Count(d, v)
    else
      var below := ChainCount(d, ops[..|ops| - 1], v);
      match ops[|ops| - 1]
      case SetKey(_, _, w) => if w == v then 1 + below else below
      case Unset(_, o) => if o == Str(v) then -1 + below else below
  }

  /** The positions of SetKey records that write v. */
  function SetsOf(ops: seq<Op>, v: string): (s: set<int>)
  {
    set i | 0 <= i < |ops| && ops[i].SetKey? && ops[i].newValue == v
  }

  /** The positions of Unset records whose captured old value is v. */
  function UnsetsOf(ops: seq<Op>, v: string): (s: set<int>)
  {
    set i | 0 <= i < |ops| && ops[i].Unset? && ops[i].oldValue == Str(v)
  }

  /** One more record adds its own position to the SetKey positions when it
      writes v. */
  lemma SetsOfAppend(ops: seq<Op>, v: string)
    requires ops != []
    ensures |SetsOf(ops, v)|
         == |SetsOf(ops[..|ops| - 1], v)| + (if ops[|ops| - 1].SetKey? && ops[|ops| - 1].newValue == v then 1 else 0)
  {
    var n := |ops|;
    var below := ops[..n - 1];
    var before := SetsOf(below, v);
    var top: set<int> := if ops[n - 1].SetKey? && ops[n - 1].newValue == v then {n - 1} else {};
    forall i | i in SetsOf(ops, v) ensures i in before + top {
      if i < n - 1 { assert below[i] == ops[i]; }
    }
    forall i | i in before ensures i in SetsOf(ops, v) && i != n - 1 {
      assert below[i] == ops[i];
    }
    assert SetsOf(ops, v) == before + top;
    DisjointUnionSize(before, top);
  }

  /** One more record adds its own position to the Unset positions when it
      saw v. */
  lemma UnsetsOfAppend(ops: seq<Op>, v: string)
    requires ops != []
    ensures |UnsetsOf(ops, v)|
         == |UnsetsOf(ops[..|ops| - 1], v)| + (if ops[|ops| - 1].Unset? && ops[|ops| - 1].oldValue == Str(v) then 1 else 0)
  {
    var n := |ops|;
    var below := ops[..n - 1];
    var before := UnsetsOf(below, v);
    var top: set<int> := if ops[n - 1].Unset? && ops[n - 1].oldValue == Str(v) then {n - 1} else {};
    forall i | i in UnsetsOf(ops, v) ensures i in before + top {
      if i < n - 1 { assert below[i] == ops[i]; }
    }
    forall i | i in before ensures i in UnsetsOf(ops, v) && i != n - 1 {
      assert below[i] == ops[i];
    }
    assert UnsetsOf(ops, v) == before + top;
    DisjointUnionSize(before, top);
  }

  /** The count on a chain is counted per record, not per key: the store's
      count, plus the SetKeys writing v, minus the Unsets that saw v. */
  lemma {:induction false} CountFormula(d: Dict, ops: seq<Op>, v: string)
    ensures ChainCount(d, ops, v) == Count(d, v) + |SetsOf(ops, v)| - |UnsetsOf(ops, v)|
    decreases |ops|
  {
    if ops != [] {
      CountFormula(d, ops[..|ops| - 1], v);
      SetsOfAppend(ops, v);
      UnsetsOfAppend(ops, v);
    }
  }

  /** A record's edit without its guard. */
  function Edit(w: Dict, op: Op): (r: Dict)
  {
    match op
    case SetKey(k, _, v) => w[k := v]
    case Unset(k, _) => w - {k}
  }

  /** The dictionary a transaction sees: the live store with its records'
      edits made in order, without their guards. */
  function View(d: Dict, ops: seq<Op>): (r: Dict)
    decreases |ops|
  {
    if ops == [] then d else Edit(View(d, ops[..|ops| - 1]), ops[|ops| - 1])
  }

  /** Applying a record whose guard holds makes its edit, except that an
      Unset of an absent key raises KeyError. */
  lemma ReplayGuarded(w: Dict, op: Op)
    requires op.oldValue == Current(w, op.key)
    ensures Replay(w, [op])
         == if op.Unset? && op.oldValue == NewKey then Replayed(w, Failed(KeyError))
            else Replayed(Edit(w, op), Done)
  {
    assert [op][0] == op && [op][1..] == [];
  }

  /** Reading through the chain is reading the transaction's view. */
  lemma {:induction false} ChainReadsView(d: Dict, ops: seq<Op>, key: string, default: Option<Val>)
    ensures ChainGet(d, ops, key, default) == Lookup(View(d, ops), key, default)
    decreases |ops|
  {
    if ops != [] {
      ChainReadsView(d, ops[..|ops| - 1], key, default);
    }
  }

  /** Every record captured as its old value what the records below it and
      the dictionary d showed for its key. Transaction.set and unset build
      records this way when d is the store at the time they are called. */
  ghost predicate IssuedOn(d: Dict, ops: seq<Op>)
    decreases |ops|
  {
    ops == [] ||
    var below := ops[..|ops| - 1];
    IssuedOn(d, below) && ops[|ops| - 1].oldValue == ChainCurrent(d, below, ops[|ops| - 1].key)
  }

  /** Appending a record that captured what the chain shows keeps the chain
      issued on d, and only such a chain extends to one issued on d. */
  lemma IssuedOnAppend(d: Dict, ops: seq<Op>, op: Op)
    requires op.oldValue == ChainCurrent(d, ops, op.key)
    ensures IssuedOn(d, ops + [op]) <==> IssuedOn(d, ops)
  {
    assert (ops + [op])[..|ops|] == ops;
  }

  /** Below the top record a chain issued on d is still issued on d, and the
      top record captured what the view below it holds for its key. */
  lemma IssuedOnBelow(d: Dict, ops: seq<Op>)
    requires IssuedOn(d, ops) && ops != []
    ensures IssuedOn(d, ops[..|ops| - 1])
    ensures ops[|ops| - 1].oldValue == Current(View(d, ops[..|ops| - 1]), ops[|ops| - 1].key)
  {
    ChainReadsView(d, ops[..|ops| - 1], ops[|ops| - 1].key, Some(NewKey));
  }

  /** No Unset captured NewKey, that is, none deletes a key its transaction
      could not see. */
  predicate NoMissingUnset(ops: seq<Op>)
  {
    forall i | 0 <= i < |ops| :: ops[i].Unset? ==> ops[i].oldValue != NewKey
  }

  /** Replaying one more record: it runs only if the records below it all
      applied, and then it makes its edit when its guard holds on the view. */
  lemma ReplayTop(d: Dict, below: seq<Op>, top: Op)
    requires Replay(d, below).outcome.Done? ==> Replay(d, below).storage == View(d, below)
    requires top.oldValue == Current(View(d, below), top.key)
    ensures Replay(d, below + [top])
         == if Replay(d, below).outcome.Failed? then Replay(d, below)
            else if top.Unset? && top.oldValue == NewKey then Replayed(View(d, below), Failed(KeyError))
            else Replayed(Edit(View(d, below), top), Done)
  {
    ReplayAppend(d, below, [top]);
    if Replay(d, below).outcome.Done? {
      ReplayGuarded(View(d, below), top);
    }
  }

  /** A list has no Unset of an unseen key exactly when its prefix has none
      and its last record is not one. */
  lemma NoMissingUnsetBelow(ops: seq<Op>)
    requires ops != []
    ensures NoMissingUnset(ops)
        <==> NoMissingUnset(ops[..|ops| - 1]) && !(ops[|ops| - 1].Unset? && ops[|ops| - 1].oldValue == NewKey)
  {
    assert forall i | 0 <= i < |ops| - 1 :: ops[..|ops| - 1][i] == ops[i];
  }

  /** Committing on the very dictionary the records were issued on never
      conflicts. It succeeds, leaving the transaction's view as the store,
      exactly when no Unset deleted a key it could not see; otherwise the
      first such Unset raises KeyError. */
  lemma {:induction false} ReplayOnIssuingStore(d: Dict, ops: seq<Op>)
    requires IssuedOn(d, ops)
    ensures Replay(d, ops).outcome.Done? <==> NoMissingUnset(ops)
    ensures Replay(d, ops).outcome.Done? ==> Replay(d, ops).storage == View(d, ops)
    ensures Replay(d, ops).outcome.Failed? ==> Replay(d, ops).outcome.error == KeyError
    decreases |ops|
  {
    if ops != [] {
      var below := ops[..|ops| - 1];
      var top := ops[|ops| - 1];
      IssuedOnBelow(d, ops);
      ReplayOnIssuingStore(d, below);
      ReplayTop(d, below, top);
      NoMissingUnsetBelow(ops);
      assert ops == below + [top];
    }
  }

  /** The number of keys a transaction sees with value v. */
  function VisibleCount(d: Dict, ops: seq<Op>, v: string): (n: nat)
    ensures n == |set k | k in View(d, ops) && ChainGet(d, ops, k, None) == Ok(Str(v))|
  {
    VisibleKeys(d, ops, v);
    Count(View(d, ops), v)
  }

  /** The keys the view maps to v are the keys the chain reads as v. */
  lemma VisibleKeys(d: Dict, ops: seq<Op>, v: string)
    ensures (set k | k in View(d, ops) && View(d, ops)[k] == v)
         == (set k | k in View(d, ops) && ChainGet(d, ops, k, None) == Ok(Str(v)))
  {
    var w := View(d, ops);
    forall k | k in w
      ensures (w[k] == v) == (ChainGet(d, ops, k, None) == Ok(Str(v)))
    {
      ChainReadsView(d, ops, k, None);
    }
  }

  /** Where the store has not changed since the records were issued
      (`IssuedOn`) and every SetKey creates a key its transaction could not
      see, the count per record is the count of the transaction's view. */
  lemma {:induction false} ChainCountIsViewCount(d: Dict, ops: seq<Op>, v: string)
    requires IssuedOn(d, ops)
    requires forall i | 0 <= i < |ops| :: ops[i].SetKey? ==> ops[i].oldValue == NewKey
    ensures ChainCount(d, ops, v) == Count(View(d, ops), v)
    decreases |ops|
  {
    if ops != [] {
      var below := ops[..|ops| - 1];
      var top := ops[|ops| - 1];
      IssuedOnBelow(d, ops);
      assert forall i | 0 <= i < |below| :: below[i] == ops[i];
      ChainCountIsViewCount(d, below, v);
      var seen := View(d, below);
      match top
      case SetKey(k, _, w) =>
        CountUpdate(seen, k, w, v);
      case Unset(k, _) =>
        CountRemove(seen, k, v);
    }
  }

  /** Where the store has not changed since the records were issued
      (`IssuedOn`) and every SetKey creates a key its transaction could not
      see, the count per record is the number of keys the transaction sees
      with v. */
  lemma ChainCountIsVisibleForNewKeys(d: Dict, ops: seq<Op>, v: string)
    requires IssuedOn(d, ops)
    requires forall i | 0 <= i < |ops| :: ops[i].SetKey? ==> ops[i].oldValue == NewKey
    ensures ChainCount(d, ops, v) == VisibleCount(d, ops, v)
  {
    ChainCountIsViewCount(d, ops, v);
  }

  /** The count per record disagrees with the keys a transaction sees:
      overwriting a stored v with w still counts the v; setting one key to v
      twice counts it twice; and since the chain stands on the live store,
      an Unset that saw v subtracts it even after another transaction has
      deleted the key, which drives the count below zero. */
  lemma CountPerRecordMiscounts()
    ensures var d := map["k" := "v"];
            var ops := [SetKey("k", Str("v"), "w")];
            && IssuedOn(d, ops)
            && ChainGet(d, ops, "k", None) == Ok(Str("w"))
            && ChainCount(d, ops, "v") == 1
            && VisibleCount(d, ops, "v") == 0
    ensures var d: Dict := map[];
            var ops := [SetKey("a", NewKey, "v"), SetKey("a", Str("v"), "v")];
            && IssuedOn(d, ops)
            && ChainCount(d, ops, "v") == 2
            && VisibleCount(d, ops, "v") == 1
    ensures var d: Dict := map[];
            var ops := [Unset("k", Str("v"))];
            && IssuedOn(map["k" := "v"], ops)
            && ChainCount(d, ops, "v") == -1
            && VisibleCount(d, ops, "v") == 0
  {
    var empty: Dict := map[];
    CountEmpty("v");
    CountUpdate(empty, "k", "v", "v");
    CountUpdate(empty, "k", "w", "v");
    CountUpdate(empty, "a", "v", "v");
    var ops1 := [SetKey("k", Str("v"), "w")];
    assert ops1[..0] == [];
    assert View(map["k" := "v"], ops1) == map["k" := "w"];
    var ops2 := [SetKey("a", NewKey, "v"), SetKey("a", Str("v"), "v")];
    assert ops2[..0] == [] && ops2[..1] == [ops2[0]];
    assert View(empty, ops2) == map["a" := "v"];
    var ops3 := [Unset("k", Str("v"))];
    assert ops3[..0] == [];
    assert View(empty, ops3) == empty;
  }
}
