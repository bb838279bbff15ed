/** Python values as a decoded JSON request body presents them to the
    validators, with the pieces of Python semantics the validators rely on:
    truthiness, `isinstance(v, int)` (which admits `bool`), and dictionaries
    that keep insertion order. */
module Json {

  /** A decoded JSON value. An object is the ordered list of its key/value
      assignments: a key assigned twice keeps its first position and takes
      its last value, exactly like a Python `dict` built from those pairs. */
  datatype JValue =
    | JNull
    | JBool(b: bool)
    | JInt(i: int)
    | JFloat(f: real)
    | JStr(s: string)
    | JList(items: seq<JValue>)
    | JObj(entries: seq<(string, JValue)>)

  type Dict = seq<(string, JValue)>

  /** Python's `bool(v)`. */
  predicate Truthy(v: JValue) {
    match v
    case JNull => false
    case JBool(b) => b
    case JInt(i) => i != 0
    case JFloat(f) => f != 0.0
    case JStr(s) => s != ""
    case JList(items) => items != []
    case JObj(entries) => entries != []
  }

  /** `isinstance(v, int)`: Python's `bool` is a subclass of `int`. */
  predicate IsInt(v: JValue) {
    v.JInt? || v.JBool?
  }

  /** The integer an int-like value compares equal to (`True == 1`). */
  function IntValue(v: JValue): int
    requires IsInt(v)
  {
    if v.JBool? then (if v.b then 1 else 0) else v.i
  }

  /** `k in d`. */
  predicate Has(d: Dict, k: string) {
    exists i :: 0 <= i < |d| && d[i].0 == k
  }

  /** `d.get(k)`: the value last assigned to `k`, or `None` when `k` is absent. */
  function Get(d: Dict, k: string): (v: JValue)
    ensures !Has(d, k) ==> v == JNull
  {
    if |d| == 0 then JNull
    else if d[|d| - 1].0 == k then d[|d| - 1].1
    else Get(d[..|d| - 1], k)
  }

  /** `list(d.keys())`: every key once, in order of first insertion. */
  function Keys(d: Dict): (ks: seq<string>)
    ensures forall k :: k in ks <==> Has(d, k)
    ensures forall i, j :: 0 <= i < j < |ks| ==> ks[i] != ks[j]
  {
    if |d| == 0 then []
    else
      var ks := Keys(d[..|d| - 1]);
      var k := d[|d| - 1].0;
      assert forall k' :: Has(d, k') <==> Has(d[..|d| - 1], k') || k' == k by {
        forall k' | Has(d, k')
          ensures Has(d[..|d| - 1], k') || k' == k
        {
          var i :| 0 <= i < |d| && d[i].0 == k';
          if i < |d| - 1 {
            assert d[..|d| - 1][i].0 == k';
          }
        }
        forall k' | Has(d[..|d| - 1], k')
          ensures Has(d, k')
        {
          var i :| 0 <= i < |d| - 1 && d[..|d| - 1][i].0 == k';
          assert d[i].0 == k';
        }
      }
      if k in ks then ks else ks + [k]
  }

  /** `d[k] = v`. */
  function Put(d: Dict, k: string, v: JValue): (r: Dict)
    ensures Get(r, k) == v
    ensures forall k' :: k' != k ==> Get(r, k') == Get(d, k')
    ensures forall k' :: Has(r, k') <==> Has(d, k') || k' == k
  {
    var r := d + [(k, v)];
    assert r[..|r| - 1] == d;
    assert r[|d|].0 == k;
    assert forall k' :: Has(d, k') ==> Has(r, k') by {
      forall k' | Has(d, k')
        ensures Has(r, k')
      {
        var i :| 0 <= i < |d| && d[i].0 == k';
        assert r[i].0 == k';
      }
    }
    r
  }

  /** Assigning an existing key keeps its position; a new key goes last. */
  lemma PutKeys(d: Dict, k: string, v: JValue)
    ensures Keys(Put(d, k, v)) == if Has(d, k) then Keys(d) else Keys(d) + [k]
  {
    assert Put(d, k, v)[..|d|] == d;
  }

  /** The keys of `d` as a Python list of strings. */
  function KeyList(d: Dict): (l: JValue)
    ensures l.JList? && |l.items| == |Keys(d)|
    ensures forall i :: 0 <= i < |l.items| ==> l.items[i] == JStr(Keys(d)[i])
  {
    var ks := Keys(d);
    JList(seq(|ks|, i requires 0 <= i < |ks| => JStr(ks[i])))
  }
}
