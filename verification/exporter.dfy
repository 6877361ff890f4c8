/** `MetricsExporter._flatten_dict`: a nested result structure becomes one
    flat dict from dotted key paths to leaf values. */
module Exporter {
  import opened Wrappers
  import opened Values
  import Strings

  /** A flat dict, in insertion order. */
  type Flat = seq<(string, Value)>

  /** No key is bound twice. */
  predicate DistinctKeys(es: Flat) {
    es == [] || (!HasKey(es[1..], es[0].0) && DistinctKeys(es[1..]))
  }

  /** `f"{parent_key}.{seg}" if parent_key else seg`. */
  function KeyFor(parent: string, seg: string): string {
    if parent == [] then seg else parent + "." + seg
  }

  lemma {:induction false} PutKeepsDistinct(es: Flat, k: string, v: Value)
    requires DistinctKeys(es)
    ensures DistinctKeys(Put(es, k, v))
    ensures !HasKey(es, k) ==> Put(es, k, v) == es + [(k, v)]
  {
    if es != [] {
      if es[0].0 == k {
        PutAtHead(es, k, v);
      } else {
        var tail := es[1..];
        PutKeepsDistinct(tail, k, v);
        PutBehindHead(es, k, v);
      }
    }
  }

  /** Putting the first key replaces it in place. */
  lemma PutAtHead(es: Flat, k: string, v: Value)
    requires es != [] && es[0].0 == k && DistinctKeys(es)
    ensures DistinctKeys(Put(es, k, v)) && HasKey(es, k)
  {
    var p := Put(es, k, v);
    assert p == [(k, v)] + es[1..];
    assert p[1..] == es[1..];
  }

  /** Putting another key goes past the first entry. */
  lemma PutBehindHead(es: Flat, k: string, v: Value)
    requires es != [] && es[0].0 != k && DistinctKeys(es)
    requires DistinctKeys(Put(es[1..], k, v))
    requires !HasKey(es[1..], k) ==> Put(es[1..], k, v) == es[1..] + [(k, v)]
    ensures DistinctKeys(Put(es, k, v))
    ensures !HasKey(es, k) ==> Put(es, k, v) == es + [(k, v)]
  {
    var pt := Put(es[1..], k, v);
    PutPastHead(es, k, v);
    ConsDistinct(es[0], pt);
    if !HasKey(es, k) {
      TailLacks(es, k);
      AppendBehind(es, (k, v));
    }
  }

  lemma TailLacks(es: Flat, k: string)
    requires es != [] && !HasKey(es, k)
    ensures !HasKey(es[1..], k)
  {
    var tail := es[1..];
    forall i | 0 <= i < |tail| ensures tail[i].0 != k {
      assert tail[i] == es[i + 1];
    }
  }

  lemma AppendBehind(es: Flat, e: (string, Value))
    requires es != []
    ensures [es[0]] + (es[1..] + [e]) == es + [e]
  {
  }

  lemma PutPastHead(es: Flat, k: string, v: Value)
    requires es != [] && es[0].0 != k
    ensures Put(es, k, v) == [es[0]] + Put(es[1..], k, v)
  {
  }

  /** An entry whose key the distinct rest lacks keeps the keys distinct. */
  lemma ConsDistinct(e: (string, Value), rest: Flat)
    requires DistinctKeys(rest) && !HasKey(rest, e.0)
    ensures DistinctKeys([e] + rest)
  {
    assert ([e] + rest)[1..] == rest;
  }

  /** `items.update(sub)`. */
  function Update(items: Flat, sub: Flat): (r: Flat)
    ensures forall k :: HasKey(r, k) <==> HasKey(items, k) || HasKey(sub, k)
    ensures forall k :: !HasKey(sub, k) ==> Lookup(r, k) == Lookup(items, k)
    decreases sub
  {
    if sub == [] then items
    else
      var r := Update(Put(items, sub[0].0, sub[0].1), sub[1..]);
      forall k ensures HasKey(sub, k) <==> sub[0].0 == k || HasKey(sub[1..], k) {
        HasKeyCons(sub[0], sub[1..], k);
        assert [sub[0]] + sub[1..] == sub;
      }
      r
  }

  lemma {:induction false} UpdateDistinct(items: Flat, sub: Flat)
    requires DistinctKeys(items)
    ensures DistinctKeys(Update(items, sub))
    decreases sub
  {
    if sub != [] {
      PutKeepsDistinct(items, sub[0].0, sub[0].1);
      UpdateDistinct(Put(items, sub[0].0, sub[0].1), sub[1..]);
    }
  }

  /** On a key collision the entry of `sub`, the later one, wins. */
  lemma {:induction false} UpdateLaterWins(items: Flat, sub: Flat, k: string)
    requires DistinctKeys(sub) && HasKey(sub, k)
    ensures Lookup(Update(items, sub), k) == Lookup(sub, k)
    decreases sub
  {
    var rest := sub[1..];
    assert [sub[0]] + rest == sub;
    HasKeyCons(sub[0], rest, k);
    if HasKey(rest, k) {
      UpdateLaterWins(Put(items, sub[0].0, sub[0].1), rest, k);
    }
  }

  /** `_flatten_dict(d, parent_key)`. */
  function Flatten(d: Value, parent: string): (r: Flat)
    ensures IsScalar(d) ==> r == [("value", d)]
    ensures d.Null? || d.Stamp? ==> r == [(parent, d)]
    decreases d, 1
  {
    match d
    case Bool(_) => [("value", d)]
    case Num(_) => [("value", d)]
    case Str(_) => [("value", d)]
    case List(items) => FlattenList(items, parent)
    case Dict(es) => FlattenDict(es, parent)
    case _ => [(parent, d)]
  }

  /** `k` is bound by the flattening of some element of the list, under that
      element's index. */
  ghost predicate ListKey(items: seq<Value>, parent: string, k: string) {
    exists i :: 0 <= i < |items| && ElementKey(items[i], parent, i, k)
  }

  /** `k` is bound by the flattening of `v` as the list element at index `i`. */
  ghost predicate ElementKey(v: Value, parent: string, i: nat, k: string)
    decreases v, 2
  {
    HasKey(Flatten(v, KeyFor(parent, Strings.NatToString(i))), k)
  }

  /** `k` is the dotted key of a non-container entry, or is bound by the
      flattening of a container entry under its dotted key. */
  ghost predicate DictKey(es: seq<(string, Value)>, parent: string, k: string) {
    exists i :: 0 <= i < |es| && EntryKey(es[i], parent, k)
  }

  ghost predicate EntryKey(e: (string, Value), parent: string, k: string)
    decreases e, 0
  {
    if e.1.Dict? || e.1.List? then HasKey(Flatten(e.1, KeyFor(parent, e.0)), k) else k == KeyFor(parent, e.0)
  }

  /** The list branch: each element flattened under its index, in order. The
      keys are exactly those the elements' flattenings bind. */
  function FlattenList(items: seq<Value>, parent: string): (r: Flat)
    ensures forall k :: HasKey(r, k) <==> ListKey(items, parent, k)
    decreases items
  {
    if items == [] then []
    else
      var n := |items| - 1;
      var prefix := items[..n];
      var r := Update(FlattenList(prefix, parent), Flatten(items[n], KeyFor(parent, Strings.NatToString(n))));
      ListKeyLast(items, parent);
      r
  }

  /** The keys of a list are those of all but its last element, and those of
      the last one. */
  lemma ListKeyLast(items: seq<Value>, parent: string)
    requires items != []
    ensures forall k :: ListKey(items, parent, k) <==>
      ListKey(items[..|items| - 1], parent, k) || ElementKey(items[|items| - 1], parent, |items| - 1, k)
  {
    var n := |items| - 1;
    var prefix := items[..n];
    forall k ensures ListKey(items, parent, k) ==> ListKey(prefix, parent, k) || ElementKey(items[n], parent, n, k)
    {
      if ListKey(items, parent, k) {
        var i :| 0 <= i < |items| && ElementKey(items[i], parent, i, k);
        if i < n {
          assert prefix[i] == items[i];
        }
      }
    }
    forall k | ListKey(prefix, parent, k) ensures ListKey(items, parent, k) {
      var i :| 0 <= i < |prefix| && ElementKey(prefix[i], parent, i, k);
      assert prefix[i] == items[i];
    }
  }

  /** The dict branch: containers are flattened under the dotted key, any
      other value is stored there as it is. The keys are exactly those the
      entries contribute. */
  function FlattenDict(es: seq<(string, Value)>, parent: string): (r: Flat)
    ensures forall k :: HasKey(r, k) <==> DictKey(es, parent, k)
    decreases es
  {
    if es == [] then []
    else
      var e := es[|es| - 1];
      assert e.1 < e;
      var prefix := es[..|es| - 1];
      var rest := FlattenDict(prefix, parent);
      var k := KeyFor(parent, e.0);
      assert forall i :: 0 <= i < |prefix| ==> prefix[i] == es[i];
      if e.1.Dict? || e.1.List? then Update(rest, Flatten(e.1, k))
      else Put(rest, k, e.1)
  }

  /** The result is a dict: no key appears twice. */
  lemma {:induction false} FlattenDistinct(d: Value, parent: string)
    ensures DistinctKeys(Flatten(d, parent))
    decreases d
  {
    match d
    case List(items) => FlattenListDistinct(items, parent);
    case Dict(es) => FlattenDictDistinct(es, parent);
    case _ =>
  }

  lemma {:induction false} FlattenListDistinct(items: seq<Value>, parent: string)
    ensures DistinctKeys(FlattenList(items, parent))
    decreases items
  {
    if items != [] {
      var n := |items| - 1;
      FlattenListDistinct(items[..n], parent);
      UpdateDistinct(FlattenList(items[..n], parent), Flatten(items[n], KeyFor(parent, Strings.NatToString(n))));
    }
  }

  lemma {:induction false} FlattenDictDistinct(es: seq<(string, Value)>, parent: string)
    ensures DistinctKeys(FlattenDict(es, parent))
    decreases es
  {
    if es != [] {
      var e := es[|es| - 1];
      assert e.1 < e;
      var rest := FlattenDict(es[..|es| - 1], parent);
      var k := KeyFor(parent, e.0);
      FlattenDictDistinct(es[..|es| - 1], parent);
      if e.1.Dict? || e.1.List? {
        UpdateDistinct(rest, Flatten(e.1, k));
      } else {
        PutKeepsDistinct(rest, k, e.1);
      }
    }
  }

  /** A list of scalars keeps only its last element, under `"value"`. */
  lemma {:induction false} ScalarListKeepsLast(items: seq<Value>, parent: string)
    requires items != []
    requires forall i :: 0 <= i < |items| ==> IsScalar(items[i])
    ensures Flatten(List(items), parent) == [("value", items[|items| - 1])]
  {
    var n := |items| - 1;
    var last := items[n];
    var prefix := FlattenList(items[..n], parent);
    if n > 0 {
      ScalarListKeepsLast(items[..n], parent);
      assert prefix == [("value", items[n - 1])];
    }
    assert Update(prefix, [("value", last)]) == Put(prefix, "value", last);
  }

  /** Empty containers contribute nothing. */
  lemma EmptyContainersVanish(es: seq<(string, Value)>, k: string, parent: string)
    ensures FlattenDict(es + [(k, Dict([]))], parent) == FlattenDict(es, parent)
    ensures FlattenDict(es + [(k, List([]))], parent) == FlattenDict(es, parent)
    ensures Flatten(Dict([]), parent) == [] && Flatten(List([]), parent) == []
  {
    assert (es + [(k, Dict([]))])[..|es|] == es;
    assert (es + [(k, List([]))])[..|es|] == es;
  }

  /** A non-container value is stored unchanged under its dotted key, and it
      wins over whatever an earlier entry put there. */
  lemma LeafStored(es: seq<(string, Value)>, k: string, v: Value, parent: string)
    requires !v.Dict? && !v.List?
    ensures Lookup(FlattenDict(es + [(k, v)], parent), KeyFor(parent, k)) == Some(v)
  {
    assert (es + [(k, v)])[..|es|] == es;
  }

  /** A nested container is flattened under the dotted key of its entry:
      the two flat dicts bind the same keys to the same values. */
  lemma NestedUnderKey(k: string, inner: Value, parent: string)
    requires inner.Dict? || inner.List?
    ensures forall key :: Lookup(Flatten(Dict([(k, inner)]), parent), key) == Lookup(Flatten(inner, KeyFor(parent, k)), key)
  {
    var sub := Flatten(inner, KeyFor(parent, k));
    var es := [(k, inner)];
    assert es[..|es| - 1] == [] && es[|es| - 1] == (k, inner);
    assert FlattenDict(es[..|es| - 1], parent) == [];
    assert FlattenDict(es, parent) == Update([], sub);
    FlattenDistinct(inner, KeyFor(parent, k));
    forall key ensures Lookup(Update([], sub), key) == Lookup(sub, key) {
      if HasKey(sub, key) {
        UpdateLaterWins([], sub, key);
      }
    }
  }

  /** Below a non-empty parent key, every key is the parent itself, a dotted
      extension of it, or the literal `"value"` of a scalar list element. */
  predicate UnderParent(k: string, parent: string) {
    k == "value" || k == parent || Strings.StartsWith(k, parent + ".")
  }

  lemma DottedUnder(k: string, parent: string, seg: string)
    requires parent != []
    requires UnderParent(k, KeyFor(parent, seg))
    ensures UnderParent(k, parent)
  {
    var child := parent + "." + seg;
    assert child[..|parent + "."|] == parent + ".";
    if k != "value" && k != child {
      assert k[..|child + "."|] == child + ".";
      assert k[..|parent + "."|] == child[..|parent + "."|];
    }
  }

  lemma {:induction false} FlattenUnderParent(d: Value, parent: string)
    requires parent != []
    ensures forall k :: HasKey(Flatten(d, parent), k) ==> UnderParent(k, parent)
    decreases d
  {
    match d
    case List(items) => ListUnderParent(items, parent);
    case Dict(es) => DictUnderParent(es, parent);
    case _ =>
  }

  lemma {:induction false} ListUnderParent(items: seq<Value>, parent: string)
    requires parent != []
    ensures forall k :: HasKey(FlattenList(items, parent), k) ==> UnderParent(k, parent)
    decreases items
  {
    if items != [] {
      var n := |items| - 1;
      var seg := Strings.NatToString(n);
      ListUnderParent(items[..n], parent);
      FlattenUnderParent(items[n], KeyFor(parent, seg));
      forall k | HasKey(Flatten(items[n], KeyFor(parent, seg)), k) ensures UnderParent(k, parent) {
        DottedUnder(k, parent, seg);
      }
    }
  }

  lemma {:induction false} DictUnderParent(es: seq<(string, Value)>, parent: string)
    requires parent != []
    ensures forall k :: HasKey(FlattenDict(es, parent), k) ==> UnderParent(k, parent)
    decreases es
  {
    if es != [] {
      var e := es[|es| - 1];
      assert e.1 < e;
      var key := KeyFor(parent, e.0);
      DictUnderParent(es[..|es| - 1], parent);
      assert UnderParent(key, parent) by {
        assert key[..|parent + "."|] == parent + ".";
      }
      if e.1.Dict? || e.1.List? {
        FlattenUnderParent(e.1, key);
        forall k | HasKey(Flatten(e.1, key), k) ensures UnderParent(k, parent) {
          DottedUnder(k, parent, e.0);
        }
      }
    }
  }
}
