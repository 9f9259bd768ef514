/** Ordered dictionaries: the shape shared by a JavaScript object (string keys in
    insertion order) and a PHP array (keys in insertion order). */
module Dicts {

  datatype Option<+T> = None | Some(value: T)

  /** The key at position `i`. */
  function KeyAt<K, V>(s: seq<(K, V)>, i: nat): K
    requires i < |s|
  {
    s[i].0
  }

  /** No key occurs twice. The quantifier fires only on `KeyAt` terms, so a proof
      that uses uniqueness names the two positions it compares. */
  predicate UniqueKeys<K(==), V>(s: seq<(K, V)>)
  {
    forall i, j :: 0 <= i < j < |s| ==> KeyAt(s, i) != KeyAt(s, j)
  }

  /** An ordered dictionary: pairs in insertion order, each key at most once. */
  type Dict<K(==), V> = s: seq<(K, V)> | UniqueKeys(s) witness []

  /** The keys in insertion order (`Object.keys`, `array_keys`). */
  function Keys<K, V>(d: seq<(K, V)>): (ks: seq<K>)
    ensures |ks| == |d|
    ensures forall i :: 0 <= i < |d| ==> ks[i] == d[i].0
  {
    seq(|d|, i requires 0 <= i < |d| => d[i].0)
  }

  /** The values in insertion order. */
  function Values<K, V>(d: seq<(K, V)>): (vs: seq<V>)
    ensures |vs| == |d|
    ensures forall i :: 0 <= i < |d| ==> vs[i] == d[i].1
  {
    seq(|d|, i requires 0 <= i < |d| => d[i].1)
  }

  /** The keys of a pair followed by a sequence. */
  lemma KeysCons<K, V>(x: (K, V), s: seq<(K, V)>)
    ensures Keys([x] + s) == [x.0] + Keys(s)
  {
    var l, r := Keys([x] + s), [x.0] + Keys(s);
    forall i | 0 <= i < |l| ensures l[i] == r[i] {
      if i > 0 {
        assert ([x] + s)[i] == s[i - 1];
      }
    }
  }

  /** Dropping the first entry keeps the keys distinct, and the first key is not among the rest. */
  lemma TailUnique<K, V>(d: Dict<K, V>)
    requires d != []
    ensures UniqueKeys(d[1..]) && d[0].0 !in Keys(d[1..])
  {
    var tail := d[1..];
    forall i, j | 0 <= i < j < |tail| ensures KeyAt(tail, i) != KeyAt(tail, j) {
      assert KeyAt(d, i + 1) != KeyAt(d, j + 1);
    }
    forall m | 0 <= m < |tail| ensures Keys(tail)[m] != d[0].0 {
      assert KeyAt(d, 0) != KeyAt(d, m + 1);
    }
  }

  /** A prefix keeps the keys distinct, and the key right after it is not in it. */
  lemma PrefixUnique<K, V>(s: seq<(K, V)>, n: nat)
    requires UniqueKeys(s) && n < |s|
    ensures UniqueKeys(s[..n]) && s[n].0 !in Keys(s[..n])
  {
    var prefix := s[..n];
    forall i, j | 0 <= i < j < n ensures KeyAt(prefix, i) != KeyAt(prefix, j) {
      assert KeyAt(s, i) != KeyAt(s, j);
    }
    forall m | 0 <= m < n ensures Keys(prefix)[m] != s[n].0 {
      assert KeyAt(s, m) != KeyAt(s, n);
    }
  }

  /** Prepending an entry with a fresh key keeps the keys distinct. */
  lemma ConsUnique<K, V>(x: (K, V), s: seq<(K, V)>)
    requires UniqueKeys(s) && x.0 !in Keys(s)
    ensures UniqueKeys([x] + s)
  {
    var r := [x] + s;
    forall i, j | 0 <= i < j < |r| ensures KeyAt(r, i) != KeyAt(r, j) {
      if i == 0 {
        assert Keys(s)[j - 1] == r[j].0;
      } else {
        assert KeyAt(s, i - 1) != KeyAt(s, j - 1);
      }
    }
  }

  /** Property lookup; `None` stands for a missing key (`undefined`, an unset index). */
  function Get<K(==), V>(d: seq<(K, V)>, k: K): (r: Option<V>)
    ensures r.Some? <==> k in Keys(d)
    ensures r.Some? ==> exists i :: 0 <= i < |d| && d[i] == (k, r.value)
    decreases |d|
  {
    if d == [] then None
    else if d[0].0 == k then Some(d[0].1)
    else
      assert Keys(d) == [d[0].0] + Keys(d[1..]);
      var r := Get(d[1..], k);
      assert r.Some? ==> exists i :: 0 <= i < |d| - 1 && d[1..][i] == (k, r.value);
      r
  }

  /** In a dictionary the entry at each position is what lookup finds. */
  lemma {:induction false} GetAt<K, V>(d: Dict<K, V>, i: nat)
    requires i < |d|
    ensures Get(d, d[i].0) == Some(d[i].1)
    decreases i
  {
    if i > 0 {
      assert KeyAt(d, 0) != KeyAt(d, i);
      TailUnique(d);
      var tail: Dict<K, V> := d[1..];
      GetAt(tail, i - 1);
    }
  }

  /** Property assignment `d[k] = v` on the pairs: an existing key keeps its
      position and takes the new value, a new key is appended. */
  function Assign<K(==), V>(s: seq<(K, V)>, k: K, v: V): seq<(K, V)>
    decreases |s|
  {
    if s == [] then [(k, v)]
    else if s[0].0 == k then [(k, v)] + s[1..]
    else [s[0]] + Assign(s[1..], k, v)
  }

  /** Assignment keeps the keys, or appends the new one. */
  lemma {:induction false} AssignKeys<K, V>(s: seq<(K, V)>, k: K, v: V)
    ensures Keys(Assign(s, k, v)) == if k in Keys(s) then Keys(s) else Keys(s) + [k]
    decreases |s|
  {
    if s != [] {
      var tail := s[1..];
      assert s == [s[0]] + tail;
      KeysCons(s[0], tail);
      if s[0].0 == k {
        KeysCons((k, v), tail);
      } else {
        AssignKeys(tail, k, v);
        KeysCons(s[0], Assign(tail, k, v));
        assert k in Keys(s) <==> k in Keys(tail);
        assert [s[0].0] + (Keys(tail) + [k]) == Keys(s) + [k];
      }
    }
  }

  /** Assignment keeps the keys distinct. */
  lemma {:induction false} AssignUnique<K, V>(s: seq<(K, V)>, k: K, v: V)
    requires UniqueKeys(s)
    ensures UniqueKeys(Assign(s, k, v))
    decreases |s|
  {
    if s != [] {
      TailUnique(s);
      var tail := s[1..];
      if s[0].0 == k {
        ConsUnique((k, v), tail);
      } else {
        AssignUnique(tail, k, v);
        AssignKeys(tail, k, v);
        ConsUnique(s[0], Assign(tail, k, v));
      }
    }
  }

  /** Property assignment `d[k] = v` on a dictionary. */
  function Put<K(==), V>(d: Dict<K, V>, k: K, v: V): (r: Dict<K, V>)
    ensures Keys(r) == if k in Keys(d) then Keys(d) else Keys(d) + [k]
  {
    AssignKeys(d, k, v);
    AssignUnique(d, k, v);
    Assign(d, k, v)
  }

  /** After `d[k] = v`, `k` holds `v` and every other key holds what it held. */
  lemma {:induction false} PutGet<K, V>(d: Dict<K, V>, k: K, v: V, k': K)
    ensures Get(Put(d, k, v), k') == if k' == k then Some(v) else Get(d, k')
    decreases |d|
  {
    if d != [] && d[0].0 != k {
      TailUnique(d);
      var tail: Dict<K, V> := d[1..];
      PutGet(tail, k, v, k');
    }
  }

  /** Assigning to a key that is already at position `i` replaces that entry only. */
  lemma {:induction false} PutExisting<K, V>(d: Dict<K, V>, i: nat, v: V)
    requires i < |d|
    ensures Put(d, d[i].0, v) == d[i := (d[i].0, v)]
    decreases i
  {
    if i > 0 {
      assert KeyAt(d, 0) != KeyAt(d, i);
      TailUnique(d);
      var tail: Dict<K, V> := d[1..];
      var k := d[i].0;
      assert tail[i - 1] == d[i];
      PutExisting(tail, i - 1, v);
      assert Put(d, k, v) == [d[0]] + Put(tail, k, v);
      UpdateCons(d, i, (k, v));
    }
  }

  /** Updating position `i > 0` leaves the first entry in front of the updated tail. */
  lemma UpdateCons<T>(s: seq<T>, i: nat, x: T)
    requires 0 < i < |s|
    ensures [s[0]] + s[1..][i - 1 := x] == s[i := x]
  {
    var l, r := [s[0]] + s[1..][i - 1 := x], s[i := x];
    forall m | 0 <= m < |l| ensures l[m] == r[m] {
      if m > 0 {
        assert l[m] == s[1..][i - 1 := x][m - 1];
      }
    }
  }

  /** Assigning a key that is not yet present appends it. */
  lemma {:induction false} PutFresh<K, V>(d: Dict<K, V>, k: K, v: V)
    requires k !in Keys(d)
    ensures Put(d, k, v) == d + [(k, v)]
    decreases |d|
  {
    if d != [] {
      TailUnique(d);
      var tail: Dict<K, V> := d[1..];
      KeysCons(d[0], tail);
      assert d[0].0 != k && k !in Keys(tail);
      assert Put(d, k, v) == [d[0]] + Put(tail, k, v);
      PutFresh(tail, k, v);
      assert d + [(k, v)] == [d[0]] + (tail + [(k, v)]);
    }
  }
}
