/**
 * System.Collections.Generic.Dictionary with string keys, as the merge engine uses it:
 * `d[key] = value` adds a new key at the end of the enumeration order or overwrites the
 * value of an existing key in place, and `foreach` enumerates keys in first-insertion
 * order (the engine never removes a key, so that order is never disturbed).
 */
module Dictionaries {
  datatype Dictionary<V> = Dictionary(keys: seq<string>, values: map<string, V>)

  /** Enumeration order lists every key exactly once. */
  ghost predicate Valid<V>(d: Dictionary<V>) {
    && (forall i, j :: 0 <= i < j < |d.keys| ==> d.keys[i] != d.keys[j])
    && (forall k :: k in d.values <==> k in d.keys)
  }

  function Empty<V>(): (d: Dictionary<V>)
    ensures Valid(d) && d.keys == []
  {
    Dictionary([], map[])
  }

  /** `d[key] = value`. */
  function Put<V>(d: Dictionary<V>, key: string, value: V): (r: Dictionary<V>)
    requires Valid(d)
    ensures Valid(r)
    ensures key in r.values && r.values[key] == value
    ensures forall k :: k != key ==> (k in r.values <==> k in d.values)
    ensures forall k :: k != key && k in d.values ==> r.values[k] == d.values[k]
    ensures key in d.values ==> r.keys == d.keys
    ensures key !in d.values ==> r.keys == d.keys + [key]
  {
    Dictionary(if key in d.values then d.keys else d.keys + [key], d.values[key := value])
  }

  /** The dictionary left by `d[k] = v` for each pair in order, starting empty. */
  function FromPairs<V>(ps: seq<(string, V)>): (d: Dictionary<V>)
    ensures Valid(d)
  {
    if ps == [] then Empty() else Put(FromPairs(ps[..|ps| - 1]), ps[|ps| - 1].0, ps[|ps| - 1].1)
  }

  /** One more assignment. */
  lemma FromPairsStep<V>(ps: seq<(string, V)>, i: nat)
    requires i < |ps|
    ensures FromPairs(ps[..i + 1]) == Put(FromPairs(ps[..i]), ps[i].0, ps[i].1)
  {
    assert ps[..i + 1][..i] == ps[..i];
  }

  /** The keys are exactly the keys assigned. */
  lemma {:induction false} FromPairsKeys<V>(ps: seq<(string, V)>, k: string)
    ensures k in FromPairs(ps).values <==> exists i :: 0 <= i < |ps| && ps[i].0 == k
    decreases |ps|
  {
    if ps != [] {
      var init := ps[..|ps| - 1];
      FromPairsKeys(init, k);
      if exists i :: 0 <= i < |init| && init[i].0 == k {
        var i :| 0 <= i < |init| && init[i].0 == k;
        assert ps[i].0 == k;
      }
      if exists i :: 0 <= i < |ps| && ps[i].0 == k {
        var i :| 0 <= i < |ps| && ps[i].0 == k;
        if i < |init| {
          assert init[i].0 == k;
        }
      }
    }
  }

  /** Assigning only non-empty keys leaves only non-empty keys. */
  lemma FromPairsKeysNonEmpty<V>(ps: seq<(string, V)>)
    requires forall i :: 0 <= i < |ps| ==> ps[i].0 != []
    ensures forall i :: 0 <= i < |FromPairs(ps).keys| ==> FromPairs(ps).keys[i] != []
  {
    var keys := FromPairs(ps).keys;
    forall i | 0 <= i < |keys| ensures keys[i] != [] {
      assert keys[i] in FromPairs(ps).values;
      FromPairsKeys(ps, keys[i]);
    }
  }

  /** The last assignment to a key wins. */
  lemma {:induction false} FromPairsLastWins<V>(ps: seq<(string, V)>, i: nat)
    requires i < |ps|
    requires forall j :: i < j < |ps| ==> ps[j].0 != ps[i].0
    ensures ps[i].0 in FromPairs(ps).values && FromPairs(ps).values[ps[i].0] == ps[i].1
    decreases |ps|
  {
    var init := ps[..|ps| - 1];
    if i < |ps| - 1 {
      assert init[i] == ps[i];
      FromPairsLastWins(init, i);
    }
  }

  /** Enumeration follows first assignment: an earlier key was assigned before the
      first assignment of any later key. */
  lemma {:induction false} FromPairsOrder<V>(ps: seq<(string, V)>, a: nat, b: nat)
    requires a < b < |FromPairs(ps).keys|
    ensures exists i :: 0 <= i < |ps| && ps[i].0 == FromPairs(ps).keys[a] && NotBefore(ps, i, FromPairs(ps).keys[b])
    decreases |ps|
  {
    assert ps != [];
    var init := ps[..|ps| - 1];
    var d := FromPairs(init);
    var k := ps[|ps| - 1].0;
    var keys := FromPairs(ps).keys;
    if b < |d.keys| {
      assert keys[a] == d.keys[a] && keys[b] == d.keys[b];
      FromPairsOrder(init, a, b);
      var i :| 0 <= i < |init| && init[i].0 == d.keys[a] && NotBefore(init, i, d.keys[b]);
      PrefixNotBefore(ps, init, i, keys[b]);
      assert ps[i] == init[i];
      assert ps[i].0 == keys[a] && NotBefore(ps, i, keys[b]);
    } else {
      assert k !in d.values && keys[b] == k && keys[a] == d.keys[a];
      FromPairsKeys(init, keys[a]);
      FromPairsKeys(init, k);
      var i :| 0 <= i < |init| && init[i].0 == keys[a];
      assert NotBefore(init, i, k);
      PrefixNotBefore(ps, init, i, k);
      assert ps[i] == init[i];
      assert ps[i].0 == keys[a] && NotBefore(ps, i, keys[b]);
    }
  }

  /** No pair up to and including position i assigns key k. */
  ghost predicate NotBefore<V>(ps: seq<(string, V)>, i: int, k: string) {
    forall j :: 0 <= j <= i && j < |ps| ==> ps[j].0 != k
  }

  lemma PrefixNotBefore<V>(ps: seq<(string, V)>, init: seq<(string, V)>, i: int, k: string)
    requires init <= ps && i < |init| && NotBefore(init, i, k)
    ensures NotBefore(ps, i, k)
  {
    forall j | 0 <= j <= i && j < |ps| ensures ps[j].0 != k {
      assert ps[j] == init[j];
    }
  }
}
