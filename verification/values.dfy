/** The dynamically typed values the Python side handles: JSON documents,
    DataFrame cells and configuration blocks. A Python `dict` is an
    insertion-ordered association list; its keys are distinct in Python,
    and lookups here take the first binding, which is the only one then. */
module Values {
  import opened Wrappers

  datatype Value =
    | Null                                 // None
    | Bool(b: bool)
    | Num(x: real)                         // int or float
    | Str(s: string)
    | Stamp(ms: int)                       // a pandas Timestamp, in milliseconds
    | List(items: seq<Value>)
    | Dict(entries: seq<(string, Value)>)

  /** `isinstance(v, (int, float, str))`; a Python bool is an int. */
  predicate IsScalar(v: Value) {
    v.Bool? || v.Num? || v.Str?
  }

  /** Python truthiness. */
  predicate Truthy(v: Value) {
    match v
    case Null => false
    case Bool(b) => b
    case Num(x) => x != 0.0
    case Str(s) => s != []
    case Stamp(_) => true
    case List(xs) => xs != []
    case Dict(es) => es != []
  }

  predicate HasKey(es: seq<(string, Value)>, k: string) {
    exists i :: 0 <= i < |es| && es[i].0 == k
  }

  /** `d.get(k)`: the value bound to `k`, or `None`. */
  function Lookup(es: seq<(string, Value)>, k: string): (r: Option<Value>)
    ensures r.Some? <==> HasKey(es, k)
    ensures r.Some? ==> exists i :: 0 <= i < |es| && es[i] == (k, r.value)
  {
    if es == [] then None
    else if es[0].0 == k then Some(es[0].1)
    else
      var r := Lookup(es[1..], k);
      assert r.Some? ==> exists i :: 1 <= i < |es| && es[i] == (k, r.value) by {
        if r.Some? {
          var j :| 0 <= j < |es[1..]| && es[1..][j] == (k, r.value);
          assert es[j + 1] == (k, r.value);
        }
      }
      assert HasKey(es, k) ==> HasKey(es[1..], k) by {
        if HasKey(es, k) {
          var j :| 0 <= j < |es| && es[j].0 == k;
          assert j > 0 && es[1..][j - 1].0 == k;
        }
      }
      r
  }

  /** `d.get(k, default)`. */
  function LookupOr(es: seq<(string, Value)>, k: string, default: Value): (r: Value)
    ensures HasKey(es, k) ==> Some(r) == Lookup(es, k)
    ensures !HasKey(es, k) ==> r == default
  {
    Lookup(es, k).GetOr(default)
  }

  lemma HasKeyCons(e: (string, Value), es: seq<(string, Value)>, k: string)
    ensures HasKey([e] + es, k) <==> e.0 == k || HasKey(es, k)
  {
    var c := [e] + es;
    assert c[0].0 == e.0;
    if HasKey(es, k) {
      var j :| 0 <= j < |es| && es[j].0 == k;
      assert c[j + 1].0 == k;
    }
    if HasKey(c, k) && e.0 != k {
      var j :| 0 <= j < |c| && c[j].0 == k;
      assert es[j - 1].0 == k;
    }
  }

  /** `d[k] = v` on a dict: an existing binding is replaced in place,
      a new key is appended at the end. */
  function Put(es: seq<(string, Value)>, k: string, v: Value): (r: seq<(string, Value)>)
    ensures Lookup(r, k) == Some(v)
    ensures forall k' :: k' != k ==> Lookup(r, k') == Lookup(es, k')
    ensures forall k' :: HasKey(r, k') <==> HasKey(es, k') || k' == k
  {
    if es == [] then [(k, v)]
    else
      assert es == [es[0]] + es[1..];
      var rest := if es[0].0 == k then es[1..] else Put(es[1..], k, v);
      var r := [if es[0].0 == k then (k, v) else es[0]] + rest;
      forall k' ensures HasKey(r, k') <==> HasKey(es, k') || k' == k {
        HasKeyCons(r[0], rest, k');
        HasKeyCons(es[0], es[1..], k');
      }
      r
  }

  /** `v[k]` when `v` is a dict holding `k`, else `None`. */
  function Field(v: Value, k: string): (r: Option<Value>)
    ensures r.Some? <==> v.Dict? && HasKey(v.entries, k)
  {
    if v.Dict? then Lookup(v.entries, k) else None
  }
}
