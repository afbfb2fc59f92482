/**
 * Assoc: an insertion-ordered dictionary, as a Python dict behaves when it
 * is built by `d[key] = value` assignments.  Assigning to a present key
 * keeps that key's position and replaces its value; a new key goes to the
 * end.  Iteration follows that order, which is what fixes the order of the
 * header lines a response is serialised with.
 */
module Assoc {
  import opened Text

  type Entries<K, V> = seq<(K, V)>

  function Keys<K(==), V>(e: Entries<K, V>): (ks: seq<K>)
    ensures |ks| == |e| && forall i :: 0 <= i < |e| ==> ks[i] == e[i].0
  {
    seq(|e|, i requires 0 <= i < |e| => e[i].0)
  }

  /** No key is listed twice: true of every dict. */
  predicate UniqueKeys<K(==), V>(e: Entries<K, V>) {
    forall i, j :: 0 <= i < j < |e| ==> e[i].0 != e[j].0
  }

  /** d.get(k): the value stored under k, looked up by exact key. */
  function Get<K(==), V>(e: Entries<K, V>, k: K): (r: Option<V>)
    ensures r.None? <==> k !in Keys(e)
  {
    if e == [] then None
    else if e[0].0 == k then Some(e[0].1)
    else
      assert Keys(e) == [e[0].0] + Keys(e[1..]);
      Get(e[1..], k)
  }

  /** d.get(k, default) */
  function GetOr<K(==), V>(e: Entries<K, V>, k: K, default: V): V {
    match Get(e, k)
    case Some(v) => v
    case None => default
  }

  /** d[k] = v */
  function Put<K(==), V>(e: Entries<K, V>, k: K, v: V): Entries<K, V> {
    if e == [] then [(k, v)]
    else if e[0].0 == k then [(k, v)] + e[1..]
    else [e[0]] + Put(e[1..], k, v)
  }

  /** for key, value in ups.items(): d[key] = value */
  function PutAll<K(==), V>(e: Entries<K, V>, ups: Entries<K, V>): Entries<K, V> {
    if ups == [] then e
    else Put(PutAll(e, ups[..|ups| - 1]), ups[|ups| - 1].0, ups[|ups| - 1].1)
  }

  /** The value the last listing of k in ups gives it. */
  function Latest<K(==), V>(ups: Entries<K, V>, k: K): V
    requires k in Keys(ups)
  {
    var n := |ups| - 1;
    if ups[n].0 == k then ups[n].1
    else
      assert Keys(ups) == Keys(ups[..n]) + [ups[n].0];
      Latest(ups[..n], k)
  }

  /** After d[k] = v, d[k] is v and every other key reads as before. */
  lemma {:induction false} PutGet<K, V>(e: Entries<K, V>, k: K, v: V, k': K)
    ensures Get(Put(e, k, v), k') == if k' == k then Some(v) else Get(e, k')
    decreases |e|
  {
    if e != [] && e[0].0 != k {
      PutGet(e[1..], k, v, k');
      assert Put(e, k, v)[1..] == Put(e[1..], k, v);
    }
  }

  /** d[k] = v keeps the order of the keys present and appends a new key at the end. */
  lemma {:induction false} PutKeys<K, V>(e: Entries<K, V>, k: K, v: V)
    ensures Keys(Put(e, k, v)) == if k in Keys(e) then Keys(e) else Keys(e) + [k]
    decreases |e|
  {
    if e == [] {
    } else if e[0].0 == k {
      assert Keys(Put(e, k, v)) == [k] + Keys(e[1..]);
      assert Keys(e) == [k] + Keys(e[1..]);
    } else {
      PutKeys(e[1..], k, v);
      assert Keys(Put(e, k, v)) == [e[0].0] + Keys(Put(e[1..], k, v));
      assert Keys(e) == [e[0].0] + Keys(e[1..]);
    }
  }

  /** Assignments keep the keys of a dict distinct. */
  lemma PutUnique<K, V>(e: Entries<K, V>, k: K, v: V)
    requires UniqueKeys(e)
    ensures UniqueKeys(Put(e, k, v))
  {
    PutKeys(e, k, v);
    var r := Put(e, k, v);
    forall i, j | 0 <= i < j < |r| ensures r[i].0 != r[j].0 {
      assert Keys(r)[i] == r[i].0 && Keys(r)[j] == r[j].0;
    }
  }

  /**
   * Merging ups into e: a key listed in ups ends with the value its last
   * listing gives, and every other key keeps its value from e.
   */
  lemma {:induction false} PutAllGet<K, V>(e: Entries<K, V>, ups: Entries<K, V>, k: K)
    ensures Get(PutAll(e, ups), k) == if k in Keys(ups) then Some(Latest(ups, k)) else Get(e, k)
    decreases |ups|
  {
    if ups != [] {
      var n := |ups| - 1;
      assert Keys(ups) == Keys(ups[..n]) + [ups[n].0];
      PutAllGet(e, ups[..n], k);
      PutGet(PutAll(e, ups[..n]), ups[n].0, ups[n].1, k);
    }
  }

  /** Merging one, or three, entries is assigning them in turn. */
  lemma PutAllOne<K, V>(e: Entries<K, V>, a: (K, V))
    ensures PutAll(e, [a]) == Put(e, a.0, a.1)
  {
    assert [a][..0] == [];
  }

  lemma PutAllThree<K, V>(e: Entries<K, V>, a: (K, V), b: (K, V), c: (K, V))
    ensures PutAll(e, [a, b, c]) == Put(Put(Put(e, a.0, a.1), b.0, b.1), c.0, c.1)
  {
    assert [a, b, c][..2] == [a, b];
    assert [a, b][..1] == [a];
    PutAllOne(e, a);
  }

  /** In a dict, whose keys are distinct, the last listing of a key is its only one. */
  lemma {:induction false} LatestUnique<K, V>(e: Entries<K, V>, k: K)
    requires UniqueKeys(e) && k in Keys(e)
    ensures Get(e, k) == Some(Latest(e, k))
    decreases |e|
  {
    var n := |e| - 1;
    if e[n].0 == k {
      GetFirst(e, n);
    } else {
      assert Keys(e) == Keys(e[..n]) + [e[n].0];
      LatestUnique(e[..n], k);
      GetPrefix(e, n, k);
    }
  }

  /** The value stored under the key of entry i, when keys are distinct. */
  lemma {:induction false} GetFirst<K, V>(e: Entries<K, V>, i: nat)
    requires UniqueKeys(e) && i < |e|
    ensures Get(e, e[i].0) == Some(e[i].1)
    decreases i
  {
    if i > 0 {
      assert e[0].0 != e[i].0;
      GetFirst(e[1..], i - 1);
    }
  }

  /** A key found in a prefix is found with the same value in the whole. */
  lemma {:induction false} GetPrefix<K, V>(e: Entries<K, V>, n: nat, k: K)
    requires n <= |e| && k in Keys(e[..n])
    ensures Get(e, k) == Get(e[..n], k)
    decreases n
  {
    if e[0].0 != k {
      assert Keys(e[..n]) == [e[0].0] + Keys(e[..n][1..]);
      assert e[..n][1..] == e[1..][..n - 1];
      GetPrefix(e[1..], n - 1, k);
    }
  }

  /** Merging never moves a key of e: the keys of e come first, in their order. */
  lemma {:induction false} PutAllKeepsOrder<K, V>(e: Entries<K, V>, ups: Entries<K, V>)
    ensures |Keys(e)| <= |Keys(PutAll(e, ups))| && Keys(PutAll(e, ups))[..|e|] == Keys(e)
    decreases |ups|
  {
    if ups != [] {
      var n := |ups| - 1;
      PutAllKeepsOrder(e, ups[..n]);
      PutKeys(PutAll(e, ups[..n]), ups[n].0, ups[n].1);
    }
  }

  /** Merging keeps the keys distinct. */
  lemma {:induction false} PutAllUnique<K, V>(e: Entries<K, V>, ups: Entries<K, V>)
    requires UniqueKeys(e)
    ensures UniqueKeys(PutAll(e, ups))
    decreases |ups|
  {
    if ups != [] {
      var n := |ups| - 1;
      PutAllUnique(e, ups[..n]);
      PutUnique(PutAll(e, ups[..n]), ups[n].0, ups[n].1);
    }
  }

  // ---------------------------------------------------------------------
  // Dicts built by assignment, read only by lookup

  /** A dict built by assigning each present pair in turn, first to last:
   * `for item in items: if item: d[k] = v`.  Only lookups matter here, so
   * the result is a map; a later pair overwrites an earlier one. */
  function Assign(items: seq<Option<(string, string)>>): map<string, string> {
    if items == [] then map[]
    else
      var m := Assign(items[..|items| - 1]);
      match items[|items| - 1]
      case None => m
      case Some((k, v)) => m[k := v]
  }

  /** One more pair: its key, if it has one, is (re)assigned. */
  lemma AssignSnoc(items: seq<Option<(string, string)>>, x: Option<(string, string)>)
    ensures Assign(items + [x]) == match x case None => Assign(items) case Some((k, v)) => Assign(items)[k := v]
  {
    assert (items + [x])[..|items|] == items;
  }

  /** A key ends bound to the value of its last pair. */
  lemma {:induction false} AssignLatest(items: seq<Option<(string, string)>>, j: nat)
    requires j < |items| && items[j].Some?
    requires forall i :: j < i < |items| ==> items[i].None? || items[i].value.0 != items[j].value.0
    ensures items[j].value.0 in Assign(items) && Assign(items)[items[j].value.0] == items[j].value.1
    decreases |items|
  {
    var n := |items| - 1;
    if j < n {
      AssignLatest(items[..n], j);
    }
  }

  /** AssignLatest for the pair (k, v). */
  lemma AssignLatestPair(items: seq<Option<(string, string)>>, j: nat, k: string, v: string)
    requires j < |items| && items[j] == Some((k, v))
    requires forall i :: j < i < |items| ==> items[i].None? || items[i].value.0 != k
    ensures k in Assign(items) && Assign(items)[k] == v
  {
    AssignLatest(items, j);
  }

  /** A key no pair names is absent. */
  lemma {:induction false} AssignAbsent(items: seq<Option<(string, string)>>, k: string)
    requires forall i :: 0 <= i < |items| ==> items[i].None? || items[i].value.0 != k
    ensures k !in Assign(items)
    decreases |items|
  {
    if items != [] {
      AssignAbsent(items[..|items| - 1], k);
    }
  }

  /** Every binding comes from some pair. */
  lemma {:induction false} AssignFrom(items: seq<Option<(string, string)>>, k: string)
    requires k in Assign(items)
    ensures exists i :: 0 <= i < |items| && items[i] == Some((k, Assign(items)[k]))
    decreases |items|
  {
    var n := |items| - 1;
    if items[n].None? || items[n].value.0 != k {
      AssignFrom(items[..n], k);
      var i :| 0 <= i < n && items[..n][i] == Some((k, Assign(items[..n])[k]));
      assert items[i] == items[..n][i];
    }
  }
}
