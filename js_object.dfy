/** Plain JavaScript objects as the report's script uses them: properties in
    insertion order, looked up by their exact name. */
module JsObjects {
  import opened Wrappers
  import opened Text
  import opened Agents

  /** The position of the property named exactly `k`, or `|obj|`. */
  function IndexOf(obj: seq<Entry>, k: string): (i: nat)
    ensures i <= |obj|
    ensures i < |obj| ==> obj[i].key == k
    ensures forall j :: 0 <= j < i ==> obj[j].key != k
    decreases |obj|
  {
    if obj == [] then 0
    else if obj[0].key == k then 0
    else 1 + IndexOf(obj[1..], k)
  }

  /** `obj[k]`, with `undefined` as `None`. */
  function Get(obj: seq<Entry>, k: string): Option<string> {
    var i := IndexOf(obj, k);
    if i < |obj| then Some(obj[i].value) else None
  }

  /** `obj[k] = v`: an existing property gets the new value in place, a new
      one is added at the end. */
  function Put(obj: seq<Entry>, k: string, v: string): seq<Entry> {
    var i := IndexOf(obj, k);
    if i < |obj| then obj[i := Entry(k, v)] else obj + [Entry(k, v)]
  }

  /** After `obj[k] = v`, reading `k` gives `v` and every other property is
      as before. */
  lemma GetPut(obj: seq<Entry>, k: string, v: string, q: string)
    ensures Get(Put(obj, k, v), q) == if q == k then Some(v) else Get(obj, q)
  {
    var i := IndexOf(obj, k);
    var o := Put(obj, k, v);
    if q != k {
      var j := IndexOf(obj, q);
      var j' := IndexOf(o, q);
      if j < |obj| {
        assert o[j].key == q;
        assert j' == j;
      } else {
        assert forall m :: 0 <= m < |o| ==> o[m].key != q;
        assert j' == |o|;
      }
    } else {
      assert o[i].key == k;
      assert IndexOf(o, q) == i;
    }
  }

  /** In a dictionary whose keys are distinct ignoring case, a key present
      under its exact spelling reads the same exactly as ignoring case. */
  lemma GetAgreesWithTryGetValue(m: CapabilityMap, k: string)
    requires m.Valid()
    requires Get(m.entries, k).Some?
    ensures m.TryGetValue(k) == Get(m.entries, k)
  {
    var i := IndexOf(m.entries, k);
    var j := m.Find(k);
    assert EqualsIgnoreCase(m.entries[i].key, k);
    assert j <= i;
  }

  /** In a dictionary whose keys are distinct ignoring case, reading a stored
      key by its exact spelling finds that entry. */
  lemma GetStoredKey(m: CapabilityMap, j: nat)
    requires m.Valid() && j < |m.entries|
    ensures Get(m.entries, m.entries[j].key) == Some(m.entries[j].value)
  {
    var i := IndexOf(m.entries, m.entries[j].key);
    assert i <= j;
    assert EqualsIgnoreCase(m.entries[i].key, m.entries[j].key);
  }
}
