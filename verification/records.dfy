/** A JavaScript object with string keys, kept as its entries in insertion order
    (the order `Object.entries` and `Object.values` report). */
module Records {
  import opened Wrappers

  type Entries<V> = seq<(string, V)>

  function Keys<V>(e: Entries<V>): (r: seq<string>)
    ensures |r| == |e|
    ensures forall i :: 0 <= i < |e| ==> r[i] == e[i].0
  {
    seq(|e|, i requires 0 <= i < |e| => e[i].0)
  }

  /** No key appears twice, as in every JavaScript object. */
  predicate UniqueKeys<V>(e: Entries<V>) {
    forall i, j :: 0 <= i < j < |e| ==> e[i].0 != e[j].0
  }

  /** Position of the first occurrence of `key` in `keys`. */
  function IndexOf(keys: seq<string>, key: string): (r: Option<nat>)
    ensures r.Some? ==> r.value < |keys| && keys[r.value] == key
    ensures r.Some? ==> forall j :: 0 <= j < r.value ==> keys[j] != key
    ensures r.None? <==> key !in keys
  {
    if |keys| == 0 then None
    else if keys[0] == key then Some(0)
    else
      match IndexOf(keys[1..], key)
      case None => None
      case Some(i) => Some(i + 1)
  }

  /** `obj[key]`: the value stored under `key`, or `undefined`. */
  function Lookup<V>(e: Entries<V>, key: string): (r: Option<V>)
    ensures r.None? <==> key !in Keys(e)
    ensures r.Some? ==> exists i :: 0 <= i < |e| && e[i] == (key, r.value)
  {
    match IndexOf(Keys(e), key)
    case None => None
    case Some(i) => Some(e[i].1)
  }

  /** Appending a different key does not move the first occurrence of `key`. */
  lemma IndexOfAppend(keys: seq<string>, other: string, key: string)
    requires other != key
    ensures IndexOf(keys + [other], key) == IndexOf(keys, key)
  {
    var a := IndexOf(keys + [other], key);
    var b := IndexOf(keys, key);
    if a.Some? {
      assert a.value < |keys| && keys[a.value] == key;
      assert b.Some? && b.value <= a.value;
      assert (keys + [other])[b.value] == key;
    } else {
      assert key !in keys + [other];
    }
  }

  /** `obj[key] = value`: an existing key keeps its position and takes the new
      value; a new key is appended. */
  function Put<V>(e: Entries<V>, key: string, value: V): (r: Entries<V>)
    ensures Lookup(r, key) == Some(value)
    ensures forall k :: k != key ==> Lookup(r, k) == Lookup(e, k)
    ensures key in Keys(e) ==> Keys(r) == Keys(e)
    ensures key !in Keys(e) ==> Keys(r) == Keys(e) + [key]
    ensures UniqueKeys(e) ==> UniqueKeys(r)
    ensures forall p :: p in r ==> p in e || p == (key, value)
  {
    match IndexOf(Keys(e), key)
    case Some(i) =>
      var r := e[i := (key, value)];
      assert Keys(r) == Keys(e);
      r
    case None =>
      var r := e + [(key, value)];
      assert Keys(r) == Keys(e) + [key];
      assert forall k :: k != key ==> Lookup(r, k) == Lookup(e, k) by {
        forall k | k != key ensures Lookup(r, k) == Lookup(e, k) {
          IndexOfAppend(Keys(e), key, k);
        }
      }
      r
  }
}
