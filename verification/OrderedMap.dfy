/** A JavaScript `Map` keyed by strings: entries keep the order in which their keys were first set. */
module OrderedMap {
  import opened Common

  datatype Entry<V> = Entry(key: string, value: V)

  function Get<V>(m: seq<Entry<V>>, key: string): Option<V> {
    if m == [] then None
    else if m[0].key == key then Some(m[0].value)
    else Get(m[1..], key)
  }

  function Set<V>(m: seq<Entry<V>>, key: string, value: V): seq<Entry<V>> {
    if m == [] then [Entry(key, value)]
    else if m[0].key == key then [Entry(key, value)] + m[1..]
    else [m[0]] + Set(m[1..], key, value)
  }

  function Delete<V>(m: seq<Entry<V>>, key: string): seq<Entry<V>> {
    if m == [] then []
    else if m[0].key == key then m[1..]
    else [m[0]] + Delete(m[1..], key)
  }

  /** No key twice. */
  predicate Unique<V>(m: seq<Entry<V>>) {
    m == [] || (Get(m[1..], m[0].key).None? && Unique(m[1..]))
  }

  lemma {:induction false} SetGet<V>(m: seq<Entry<V>>, key: string, value: V, other: string)
    ensures Get(Set(m, key, value), other) == if other == key then Some(value) else Get(m, other)
  {
    if m == [] {
    } else {
      SetGet(m[1..], key, value, other);
    }
  }

  lemma {:induction false} SetKeepsUnique<V>(m: seq<Entry<V>>, key: string, value: V)
    requires Unique(m)
    ensures Unique(Set(m, key, value))
  {
    if m == [] {
    } else {
      SetKeepsUnique(m[1..], key, value);
      SetGet(m[1..], key, value, m[0].key);
    }
  }

  lemma {:induction false} DeleteGet<V>(m: seq<Entry<V>>, key: string, other: string)
    requires Unique(m)
    ensures Get(Delete(m, key), other) == if other == key then None else Get(m, other)
  {
    if m == [] {
    } else {
      DeleteGet(m[1..], key, other);
    }
  }

  lemma {:induction false} DeleteKeepsUnique<V>(m: seq<Entry<V>>, key: string)
    requires Unique(m)
    ensures Unique(Delete(m, key))
  {
    if m == [] {
    } else {
      DeleteKeepsUnique(m[1..], key);
      DeleteGet(m[1..], key, m[0].key);
    }
  }

  /** Looking a key up finds exactly the entry listed under it. */
  lemma {:induction false} GetIsListed<V>(m: seq<Entry<V>>, key: string, value: V)
    requires Unique(m)
    ensures Get(m, key) == Some(value) <==> Entry(key, value) in m
  {
    if m == [] {
    } else {
      GetIsListed(m[1..], key, value);
      GetIsListed(m[1..], m[0].key, value);
      assert m == [m[0]] + m[1..];
    }
  }
}
