/** The committed dictionary of KeyValueStoreSystem, as a value. */
module Storage {
  import opened Values

  type Dict = map<string, string>

  /** `get(key, default)`: the stored value; for an absent key the default,
      or KeyError when no default is given. */
  function Lookup(d: Dict, key: string, default: Option<Val>): (r: Result<Val>)
    ensures key in d ==> r == Ok(Str(d[key]))
    ensures key !in d ==> r == (if default.Some? then Ok(default.value) else Err(KeyError))
  {
    if default.None? then
      if key in d then Ok(Str(d[key])) else Err(KeyError)
    else if key in d then Ok(Str(d[key])) else Ok(default.value)
  }

  /** The value the conflict guard reads: `get(key, NEW_KEY)`. */
  function Current(d: Dict, key: string): (v: Val)
    ensures v == NewKey <==> key !in d
    ensures key in d ==> v == Str(d[key])
  {
    Lookup(d, key, Some(NewKey)).value
  }

  /** The number of keys whose value is v. */
  function Count(d: Dict, v: string): (n: nat)
  {
    |set k | k in d && d[k] == v|
  }

  /** An empty store counts no key for any value. */
  lemma CountEmpty(v: string)
    ensures Count(map[], v) == 0
  {
    var empty: Dict := map[];
    assert (set k | k in empty && empty[k] == v) == {};
  }

  /** The size of a disjoint union. Dafny knows this fact; calling the lemma
      at the point of use makes the count proofs below find it quickly. */
  lemma DisjointUnionSize<T>(a: set<T>, b: set<T>)
    requires a !! b
    ensures |a + b| == |a| + |b|
  {
  }

  /** Mapping a new key k to w adds one to w's count and changes no other. */
  lemma CountInsert(d: Dict, k: string, w: string, v: string)
    requires k !in d
    ensures Count(d[k := w], v) == Count(d, v) + (if w == v then 1 else 0)
  {
    var e := d[k := w];
    var before := set x | x in d && d[x] == v;
    var new1: set<string> := if w == v then {k} else {};
    forall x | x in e && e[x] == v ensures x in before + new1 {
      if x != k {
        assert x in d && d[x] == v;
      }
    }
    assert (set x | x in e && e[x] == v) == before + new1;
    DisjointUnionSize(before, new1);
  }

  /** Mapping k to w loses k's old value from its count and adds one to w's. */
  lemma CountUpdate(d: Dict, k: string, w: string, v: string)
    ensures Count(d[k := w], v)
         == Count(d, v) - (if k in d && d[k] == v then 1 else 0) + (if w == v then 1 else 0)
  {
    CountRemove(d, k, v);
    CountInsert(d - {k}, k, w, v);
    assert (d - {k})[k := w] == d[k := w];
  }

  /** Removing k loses k's value from its count and changes no other count. */
  lemma CountRemove(d: Dict, k: string, v: string)
    ensures Count(d - {k}, v) == Count(d, v) - (if k in d && d[k] == v then 1 else 0)
  {
    var e := d - {k};
    var others := set x | x in e && e[x] == v;
    var old1: set<string> := if k in d && d[k] == v then {k} else {};
    forall x | x in d && d[x] == v ensures x in others + old1 {
    }
    assert (set x | x in d && d[x] == v) == others + old1;
    DisjointUnionSize(others, old1);
  }
}
