/** `SerializableDictionary<TKey, TValue>`: a dictionary Unity can
    serialise, by mirroring its entries into a key list and a value list
    before serialisation and rebuilding them after deserialisation. */
module Serialization {
  import opened Wrappers

  /** A dictionary's entries in enumeration order; its keys are distinct. */
  type Entries<K, V> = seq<(K, V)>

  predicate Distinct<K(==,!new), V>(es: Entries<K, V>) {
    forall i, j :: 0 <= i < j < |es| ==> es[i].0 != es[j].0
  }

  predicate Contains<K(==,!new), V>(es: Entries<K, V>, k: K) {
    exists i :: 0 <= i < |es| && es[i].0 == k
  }

  /** `dict.TryGetValue(k, out v)`. */
  function Get<K(==,!new), V>(es: Entries<K, V>, k: K): (r: Option<V>)
    ensures r.Some? <==> Contains(es, k)
  {
    if es == [] then None
    else if es[0].0 == k then Some(es[0].1)
    else
      var r := Get(es[1..], k);
      assert Contains(es, k) <==> Contains(es[1..], k) by {
        if Contains(es, k) {
          var i :| 0 <= i < |es| && es[i].0 == k;
          assert es[1..][i - 1].0 == k;
        }
        if Contains(es[1..], k) {
          var i :| 0 <= i < |es[1..]| && es[1..][i].0 == k;
          assert es[i + 1].0 == k;
        }
      }
      r
  }

  /** `this[k] = v`: an existing key keeps its place and takes the new value,
      a new key is added at the end. */
  function Assign<K(==,!new), V>(es: Entries<K, V>, k: K, v: V): (r: Entries<K, V>)
    ensures Get(r, k) == Some(v)
    ensures forall k' :: k' != k ==> Get(r, k') == Get(es, k')
  {
    if es == [] then [(k, v)]
    else if es[0].0 == k then [(k, v)] + es[1..]
    else [es[0]] + Assign(es[1..], k, v)
  }

  /** A new key is appended. */
  lemma {:induction false} AssignFresh<K(!new), V>(es: Entries<K, V>, k: K, v: V)
    requires !Contains(es, k)
    ensures Assign(es, k, v) == es + [(k, v)]
  {
    if es != [] {
      var tail := es[1..];
      assert es[0].0 != k;
      assert !Contains(tail, k) by {
        forall i | 0 <= i < |tail| ensures tail[i].0 != k {
          assert tail[i] == es[i + 1];
        }
      }
      AssignFresh(tail, k, v);
      assert [es[0]] + (tail + [(k, v)]) == es + [(k, v)];
    }
  }

  /** Prepending an entry whose key the rest lacks keeps the keys distinct. */
  lemma ConsDistinct<K(!new), V>(e: (K, V), rest: Entries<K, V>)
    requires Distinct(rest) && !Contains(rest, e.0)
    ensures Distinct([e] + rest)
  {
    var r := [e] + rest;
    forall i, j | 0 <= i < j < |r| ensures r[i].0 != r[j].0 {
      if i == 0 {
        assert r[j] == rest[j - 1];
      } else {
        assert r[i] == rest[i - 1] && r[j] == rest[j - 1];
      }
    }
  }

  /** Assigning keeps the keys distinct. */
  lemma {:induction false} AssignDistinct<K(!new), V>(es: Entries<K, V>, k: K, v: V)
    requires Distinct(es)
    ensures Distinct(Assign(es, k, v))
  {
    if es != [] {
      var tail := es[1..];
      assert Distinct(tail) by {
        forall i, j | 0 <= i < j < |tail| ensures tail[i].0 != tail[j].0 {
          assert tail[i] == es[i + 1] && tail[j] == es[j + 1];
        }
      }
      assert !Contains(tail, es[0].0) by {
        forall i | 0 <= i < |tail| ensures tail[i].0 != es[0].0 {
          assert tail[i] == es[i + 1];
        }
      }
      if es[0].0 == k {
        ConsDistinct((k, v), tail);
      } else {
        AssignDistinct(tail, k, v);
        assert Get(Assign(tail, k, v), es[0].0) == Get(tail, es[0].0);
        ConsDistinct(es[0], Assign(tail, k, v));
      }
    }
  }

  /** The serialised form and the live dictionary. */
  datatype State<K, V> = State(dict: Entries<K, V>, keys: seq<K>, values: seq<V>)

  /** `OnBeforeSerialize`: both lists cleared and refilled pairwise from the
      entries. */
  function OnBeforeSerialize<K(==,!new), V>(s: State<K, V>): (r: State<K, V>)
    ensures r.dict == s.dict
    ensures |r.keys| == |r.values| == |s.dict|
    ensures forall i :: 0 <= i < |s.dict| ==> r.keys[i] == s.dict[i].0 && r.values[i] == s.dict[i].1
  {
    State(s.dict, seq(|s.dict|, i requires 0 <= i < |s.dict| => s.dict[i].0),
                  seq(|s.dict|, i requires 0 <= i < |s.dict| => s.dict[i].1))
  }

  /** Serialising twice leaves no stale entries behind: the second call
      changes nothing. */
  lemma BeforeSerializeIdempotent<K(!new), V>(s: State<K, V>)
    ensures OnBeforeSerialize(OnBeforeSerialize(s)) == OnBeforeSerialize(s)
  {
  }

  /** The dictionary after the first `n` assignments `this[keys[i]] = values[i]`. */
  function Load<K(==,!new), V>(keys: seq<K>, values: seq<V>, n: nat): Entries<K, V>
    requires n <= |keys| && n <= |values|
  {
    if n == 0 then [] else Assign(Load(keys, values, n - 1), keys[n - 1], values[n - 1])
  }

  /** The value of the last of the first `n` positions holding `k`. */
  function LastFor<K(==,!new), V>(keys: seq<K>, values: seq<V>, n: nat, k: K): Option<V>
    requires n <= |keys| && n <= |values|
  {
    if n == 0 then None
    else if keys[n - 1] == k then Some(values[n - 1])
    else LastFor(keys, values, n - 1, k)
  }

  /** The outcome of `OnAfterDeserialize`: the new state and whether it threw. */
  datatype Outcome<K, V> = Outcome(state: State<K, V>, threw: bool)

  /** `OnAfterDeserialize`: the dictionary is cleared, then a length mismatch
      throws, else the pairs are assigned in list order. */
  function OnAfterDeserialize<K(==,!new), V>(s: State<K, V>): (r: Outcome<K, V>)
    ensures r.threw <==> |s.keys| != |s.values|
    ensures r.threw ==> r.state.dict == []
    ensures r.state.keys == s.keys && r.state.values == s.values
  {
    if |s.keys| != |s.values| then Outcome(State([], s.keys, s.values), true)
    else Outcome(State(Load(s.keys, s.values, |s.keys|), s.keys, s.values), false)
  }

  /** Every key is bound to the value at its last position in the lists:
      a later duplicate overwrites an earlier one. */
  lemma {:induction false} LoadLaterWins<K(!new), V>(keys: seq<K>, values: seq<V>, n: nat, k: K)
    requires n <= |keys| && n <= |values|
    ensures Get(Load(keys, values, n), k) == LastFor(keys, values, n, k)
  {
    if n > 0 {
      LoadLaterWins(keys, values, n - 1, k);
    }
  }

  /** The rebuilt dictionary never holds the same key twice. */
  lemma {:induction false} LoadDistinct<K(!new), V>(keys: seq<K>, values: seq<V>, n: nat)
    requires n <= |keys| && n <= |values|
    ensures Distinct(Load(keys, values, n))
  {
    if n > 0 {
      LoadDistinct(keys, values, n - 1);
      AssignDistinct(Load(keys, values, n - 1), keys[n - 1], values[n - 1]);
    }
  }

  lemma DeserializedLookups<K(!new), V>(s: State<K, V>, k: K)
    requires |s.keys| == |s.values|
    ensures !OnAfterDeserialize(s).threw
    ensures Get(OnAfterDeserialize(s).state.dict, k) == LastFor(s.keys, s.values, |s.keys|, k)
    ensures Distinct(OnAfterDeserialize(s).state.dict)
  {
    LoadLaterWins(s.keys, s.values, |s.keys|, k);
    LoadDistinct(s.keys, s.values, |s.keys|);
  }

  /** Assigning the entries of a dictionary in their order rebuilds it. */
  lemma LoadEntries<K(!new), V>(es: Entries<K, V>, n: nat)
    requires Distinct(es) && n <= |es|
    ensures var s := OnBeforeSerialize(State(es, [], []));
      Load(s.keys, s.values, n) == es[..n]
  {
    var s := OnBeforeSerialize(State(es, [], []));
    LoadPairs(s.keys, s.values, es, n);
  }

  /** Loading the first `n` of lists that hold the keys and values of
      distinct entries pairwise rebuilds the first `n` entries. */
  lemma {:induction false} LoadPairs<K(!new), V>(keys: seq<K>, values: seq<V>, es: Entries<K, V>, n: nat)
    requires |keys| == |es| && |values| == |es| && Distinct(es) && n <= |es|
    requires forall i :: 0 <= i < |es| ==> keys[i] == es[i].0 && values[i] == es[i].1
    ensures Load(keys, values, n) == es[..n]
  {
    if n > 0 {
      LoadPairs(keys, values, es, n - 1);
      var prev := es[..n - 1];
      var e := es[n - 1];
      PrefixLacksNext(es, n);
      assert keys[n - 1] == e.0 && values[n - 1] == e.1;
      assert Load(keys, values, n) == Assign(prev, e.0, e.1);
      AssignFresh(prev, e.0, e.1);
      assert es[..n] == prev + [e];
    }
  }

  /** In distinct entries, no entry before position `n - 1` has its key. */
  lemma PrefixLacksNext<K(!new), V>(es: Entries<K, V>, n: nat)
    requires Distinct(es) && 0 < n <= |es|
    ensures !Contains(es[..n - 1], es[n - 1].0)
  {
    var prev := es[..n - 1];
    forall i | 0 <= i < |prev| ensures prev[i].0 != es[n - 1].0 {
      assert prev[i] == es[i];
    }
  }

  /** Serialising and then deserialising restores the dictionary. */
  lemma RoundTrip<K(!new), V>(s: State<K, V>)
    requires Distinct(s.dict)
    ensures !OnAfterDeserialize(OnBeforeSerialize(s)).threw
    ensures OnAfterDeserialize(OnBeforeSerialize(s)).state.dict == s.dict
  {
    LoadEntries(s.dict, |s.dict|);
    assert s.dict[..|s.dict|] == s.dict;
    assert OnBeforeSerialize(s) == OnBeforeSerialize(State(s.dict, [], []));
  }
}
