/**
 * A Python `dict` with string keys: a sequence of entries in insertion order.
 * Assigning `d[k] = v` replaces the value of an existing key in place and
 * appends a new key at the end.
 */
module OrderedDict {
  import opened Wrappers

  datatype Entry<V> = Entry(key: string, value: V)

  type Dict<V> = seq<Entry<V>>

  function Keys<V>(d: Dict<V>): (ks: seq<string>)
    ensures |ks| == |d|
    ensures forall i :: 0 <= i < |d| ==> ks[i] == d[i].key
  {
    if d == [] then [] else [d[0].key] + Keys(d[1..])
  }

  lemma KeysCons<V>(e: Entry<V>, d: Dict<V>)
    ensures Keys([e] + d) == [e.key] + Keys(d)
  {
    assert ([e] + d)[1..] == d;
  }

  predicate Distinct(xs: seq<string>) {
    forall i, j :: 0 <= i < j < |xs| ==> xs[i] != xs[j]
  }

  predicate DistinctKeys<V>(d: Dict<V>) {
    Distinct(Keys(d))
  }

  /** `d.get(k)`: the value of the first entry with key `k`. */
  function Get<V>(d: Dict<V>, k: string): (r: Option<V>)
    ensures r.Some? <==> k in Keys(d)
  {
    if d == [] then None
    else if d[0].key == k then Some(d[0].value)
    else Get(d[1..], k)
  }

  /** `d[k] = v`. */
  function Put<V>(d: Dict<V>, k: string, v: V): (r: Dict<V>)
    ensures Get(r, k) == Some(v)
  {
    if d == [] then [Entry(k, v)]
    else if d[0].key == k then [Entry(k, v)] + d[1..]
    else
      var rest := Put(d[1..], k, v);
      var r := [d[0]] + rest;
      assert r[1..] == rest;
      r
  }

  /** An existing key keeps its position; a new key goes to the end. */
  lemma PutKeys<V>(d: Dict<V>, k: string, v: V)
    ensures Keys(Put(d, k, v)) == if k in Keys(d) then Keys(d) else Keys(d) + [k]
  {
    if k in Keys(d) {
      PutExistingKeys(d, k, v);
    } else {
      PutNewKeys(d, k, v);
    }
  }

  lemma {:induction false} PutExistingKeys<V>(d: Dict<V>, k: string, v: V)
    requires k in Keys(d)
    ensures Keys(Put(d, k, v)) == Keys(d)
  {
    KeysCons(d[0], d[1..]);
    assert d == [d[0]] + d[1..];
    if d[0].key == k {
      KeysCons(Entry(k, v), d[1..]);
    } else {
      var rest := Put(d[1..], k, v);
      PutExistingKeys(d[1..], k, v);
      KeysCons(d[0], rest);
      assert Put(d, k, v) == [d[0]] + rest;
    }
  }

  lemma {:induction false} PutNewKeys<V>(d: Dict<V>, k: string, v: V)
    requires k !in Keys(d)
    ensures Keys(Put(d, k, v)) == Keys(d) + [k]
  {
    if d != [] {
      var rest := Put(d[1..], k, v);
      KeysCons(d[0], d[1..]);
      assert d == [d[0]] + d[1..];
      PutNewKeys(d[1..], k, v);
      KeysCons(d[0], rest);
      assert Put(d, k, v) == [d[0]] + rest;
      assert [d[0].key] + (Keys(d[1..]) + [k]) == ([d[0].key] + Keys(d[1..])) + [k];
    }
  }

  /** Assigning `d[k]` leaves every other key's value as it was. */
  lemma {:induction false} PutOther<V>(d: Dict<V>, k: string, v: V, k': string)
    requires k' != k
    ensures Get(Put(d, k, v), k') == Get(d, k')
  {
    if d != [] && d[0].key != k {
      PutOther(d[1..], k, v, k');
      assert Put(d, k, v)[1..] == Put(d[1..], k, v);
    }
  }

  /** Assigning keeps a dict free of repeated keys. */
  lemma PutKeepsDistinct<V>(d: Dict<V>, k: string, v: V)
    requires DistinctKeys(d)
    ensures DistinctKeys(Put(d, k, v))
  {
    if k in Keys(d) {
      PutExistingKeys(d, k, v);
    } else {
      PutNewKeys(d, k, v);
      var ks := Keys(d) + [k];
      forall i, j | 0 <= i < j < |ks| ensures ks[i] != ks[j] {
        if j == |ks| - 1 {
          assert ks[i] == Keys(d)[i];
        }
      }
    }
  }

  /** The first occurrences of `xs`, in order: the key order of a dict assigned keys `xs` in turn. */
  function Dedup(xs: seq<string>): (r: seq<string>)
    ensures Distinct(r)
    ensures forall x :: x in r <==> x in xs
  {
    if xs == [] then []
    else
      var init := Dedup(xs[..|xs| - 1]);
      if xs[|xs| - 1] in xs[..|xs| - 1] then
        assert xs == xs[..|xs| - 1] + [xs[|xs| - 1]];
        init
      else
        assert xs == xs[..|xs| - 1] + [xs[|xs| - 1]];
        init + [xs[|xs| - 1]]
  }

  /** The dict made by assigning `value(e)` to `e.key` for every entry `e` of `d`, in order. */
  function Assign<U, V>(d: Dict<U>, value: Entry<U> -> V): Dict<V> {
    if d == [] then [] else Put(Assign(d[..|d| - 1], value), d[|d| - 1].key, value(d[|d| - 1]))
  }

  /** A prefix of a dict with distinct keys has distinct keys, none of them the next entry's. */
  lemma PrefixKeys<V>(d: Dict<V>, n: nat)
    requires DistinctKeys(d) && n < |d|
    ensures DistinctKeys(d[..n]) && d[n].key !in Keys(d[..n])
    ensures Keys(d[..n + 1]) == Keys(d[..n]) + [d[n].key]
  {
    assert forall i :: 0 <= i < n ==> Keys(d[..n])[i] == Keys(d)[i];
    assert Keys(d)[n] == d[n].key;
  }

  /** Assigning over a dict with distinct keys yields the same keys in the same order. */
  lemma {:induction false} AssignKeys<U, V>(d: Dict<U>, value: Entry<U> -> V)
    requires DistinctKeys(d)
    ensures Keys(Assign(d, value)) == Keys(d)
  {
    if d != [] {
      var n := |d| - 1;
      PrefixKeys(d, n);
      assert d[..n + 1] == d;
      AssignKeys(d[..n], value);
      PutKeys(Assign(d[..n], value), d[n].key, value(d[n]));
    }
  }

  /** Over distinct keys, every key is assigned the value computed from its own entry. */
  lemma {:induction false} AssignGet<U, V>(d: Dict<U>, value: Entry<U> -> V, i: nat)
    requires DistinctKeys(d) && i < |d|
    ensures Get(Assign(d, value), d[i].key) == Some(value(d[i]))
  {
    var n := |d| - 1;
    var init := Assign(d[..n], value);
    assert Assign(d, value) == Put(init, d[n].key, value(d[n]));
    if i < n {
      PrefixKeys(d, n);
      AssignGet(d[..n], value, i);
      assert d[..n][i] == d[i];
      assert d[i].key in Keys(d[..n]) by {
        assert Keys(d[..n])[i] == d[i].key;
      }
      PutOther(init, d[n].key, value(d[n]), d[i].key);
    }
  }
}
