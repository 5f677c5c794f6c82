/** Entries in order of use. */
module LruOrder {

  datatype Entry<K, V> = Entry(key: K, value: V)

  datatype Result<V> = Found(value: V) | NoSuchKey

  function Without<K(==), V>(es: seq<Entry<K, V>>, k: K): (r: seq<Entry<K, V>>) {
    if es == [] then [] else (if es[0].key == k then [] else [es[0]]) + Without(es[1..], k)
  }

  function Take<T>(s: seq<T>, n: nat): (r: seq<T>) {
    if |s| <= n then s else s[..n]
  }

  ghost function Keys<K, V>(es: seq<Entry<K, V>>): (ks: set<K>) {
    set i: nat | i < |es| :: es[i].key
  }

  ghost predicate Distinct<K, V>(es: seq<Entry<K, V>>) {
    forall i, j :: 0 <= i < j < |es| ==> es[i].key != es[j].key
  }

  /** The value stored under a key. */
  function Lookup<K(==), V>(es: seq<Entry<K, V>>, k: K): (r: Result<V>) {
    if es == [] then NoSuchKey else if es[0].key == k then Found(es[0].value) else Lookup(es[1..], k)
  }

  /** A new entry in front, the last one falling out beyond max. */
  function Put<K(==), V>(es: seq<Entry<K, V>>, k: K, v: V, max: nat): (r: seq<Entry<K, V>>) {
    Take([Entry(k, v)] + Without(es, k), max)
  }

  /** The entry of a key moved to the front. */
  function Touch<K(==), V>(es: seq<Entry<K, V>>, k: K): (r: seq<Entry<K, V>>) {
    match Lookup(es, k)
    case Found(v) => [Entry(k, v)] + Without(es, k)
    case NoSuchKey => es
  }

  // ---------- Positions and keys ----------

  lemma InKeys<K, V>(es: seq<Entry<K, V>>, i: nat)
    requires i < |es|
    ensures es[i].key in Keys(es)
  {
  }

  lemma KeysFront<K, V>(e: Entry<K, V>, es: seq<Entry<K, V>>)
    ensures Keys([e] + es) == {e.key} + Keys(es)
  {
    var all := [e] + es;
    forall k ensures k in Keys(all) <==> k in {e.key} + Keys(es) {
      if k in Keys(all) {
        var i: nat :| i < |all| && all[i].key == k;
        if i > 0 {
          InKeys(es, i - 1);
        }
      }
      if k in Keys(es) {
        var i: nat :| i < |es| && es[i].key == k;
        InKeys(all, i + 1);
      }
      InKeys(all, 0);
    }
  }

  lemma {:induction false} DistinctSize<K, V>(es: seq<Entry<K, V>>)
    requires Distinct(es)
    ensures |Keys(es)| == |es|
  {
    if es == [] {
      assert Keys(es) == {};
    } else {
      DistinctSize(es[1..]);
      assert es == [es[0]] + es[1..];
      KeysFront(es[0], es[1..]);
    }
  }

  lemma {:induction false} WithoutNone<K, V>(es: seq<Entry<K, V>>, k: K)
    requires k !in Keys(es)
    ensures Without(es, k) == es
  {
    if es != [] {
      InKeys(es, 0);
      assert es == [es[0]] + es[1..];
      KeysFront(es[0], es[1..]);
      WithoutNone(es[1..], k);
    }
  }

  lemma {:induction false} LookupNone<K, V>(es: seq<Entry<K, V>>, k: K)
    requires k !in Keys(es)
    ensures Lookup(es, k) == NoSuchKey
  {
    if es != [] {
      InKeys(es, 0);
      assert es == [es[0]] + es[1..];
      KeysFront(es[0], es[1..]);
      LookupNone(es[1..], k);
    }
  }

  lemma TailDistinct<K, V>(es: seq<Entry<K, V>>)
    requires es != [] && Distinct(es)
    ensures Distinct(es[1..]) && es[0].key !in Keys(es[1..])
  {
  }

  lemma {:induction false} WithoutAt<K, V>(es: seq<Entry<K, V>>, k: K, p: nat)
    requires Distinct(es) && p < |es| && es[p].key == k
    ensures Without(es, k) == es[..p] + es[p + 1..]
  {
    TailDistinct(es);
    if p == 0 {
      WithoutNone(es[1..], k);
    } else {
      WithoutAt(es[1..], k, p - 1);
      assert es[..p] == [es[0]] + es[1..][..p - 1];
      assert es[p + 1..] == es[1..][p..];
    }
  }

  lemma {:induction false} LookupAt<K, V>(es: seq<Entry<K, V>>, k: K, p: nat)
    requires Distinct(es) && p < |es| && es[p].key == k
    ensures Lookup(es, k) == Found(es[p].value)
  {
    if p > 0 {
      TailDistinct(es);
      LookupAt(es[1..], k, p - 1);
    }
  }

  lemma {:induction false} KeysWithout<K, V>(es: seq<Entry<K, V>>, k: K)
    ensures Keys(Without(es, k)) == Keys(es) - {k}
  {
    if es == [] {
      assert Keys(es) == {};
    } else {
      KeysWithout(es[1..], k);
      assert es == [es[0]] + es[1..];
      KeysFront(es[0], es[1..]);
      if es[0].key != k {
        KeysFront(es[0], Without(es[1..], k));
      } else {
        assert Without(es, k) == Without(es[1..], k);
      }
    }
  }

  lemma KeysBack<K, V>(es: seq<Entry<K, V>>)
    requires es != [] && Distinct(es)
    ensures var n := |es| - 1; Keys(es[..n]) == Keys(es) - {es[n].key}
  {
    var n := |es| - 1;
    WithoutAt(es, es[n].key, n);
    KeysWithout(es, es[n].key);
    assert es[..n] + es[n + 1..] == es[..n];
  }

  lemma KeysMoved<K, V>(es: seq<Entry<K, V>>, p: nat)
    requires p < |es| && Distinct(es)
    ensures Keys([es[p]] + (es[..p] + es[p + 1..])) == Keys(es)
  {
    WithoutAt(es, es[p].key, p);
    KeysWithout(es, es[p].key);
    KeysFront(es[p], es[..p] + es[p + 1..]);
    InKeys(es, p);
  }

  // ---------- Erasing by value ----------

  /** The entries whose values f does not want gone. */
  function Kept<K, V>(es: seq<Entry<K, V>>, f: V -> bool): (r: seq<Entry<K, V>>) {
    if es == [] then [] else (if f(es[0].value) then [] else [es[0]]) + Kept(es[1..], f)
  }

  /** The same when only the keys in done have been looked at. */
  ghost function Spared<K, V>(es: seq<Entry<K, V>>, f: V -> bool, done: set<K>): (r: seq<Entry<K, V>>) {
    if es == [] then [] else (if es[0].key in done && f(es[0].value) then [] else [es[0]]) + Spared(es[1..], f, done)
  }

  lemma {:induction false} SparedNone<K, V>(es: seq<Entry<K, V>>, f: V -> bool)
    ensures Spared(es, f, {}) == es
  {
    if es != [] {
      SparedNone(es[1..], f);
    }
  }

  lemma {:induction false} SparedAll<K, V>(es: seq<Entry<K, V>>, f: V -> bool, done: set<K>)
    requires Keys(es) <= done
    ensures Spared(es, f, done) == Kept(es, f)
  {
    if es != [] {
      assert es == [es[0]] + es[1..];
      KeysFront(es[0], es[1..]);
      SparedAll(es[1..], f, done);
    }
  }

  lemma {:induction false} SparedIn<K, V>(es: seq<Entry<K, V>>, f: V -> bool, done: set<K>, e: Entry<K, V>)
    requires e in Spared(es, f, done)
    ensures e in es
  {
    if e != es[0] {
      SparedIn(es[1..], f, done, e);
    }
  }

  /** Looking at one more key, whose value is v wherever it is: its entry goes if f wants that. */
  lemma {:induction false} SparedMore<K, V>(es: seq<Entry<K, V>>, f: V -> bool, done: set<K>, k: K, v: V)
    requires forall i :: 0 <= i < |es| && es[i].key == k ==> es[i].value == v
    ensures Spared(es, f, done + {k}) == if f(v) then Without(Spared(es, f, done), k) else Spared(es, f, done)
  {
    if es != [] {
      SparedMore(es[1..], f, done, k, v);
      var head, rest := if es[0].key in done && f(es[0].value) then [] else [es[0]], Spared(es[1..], f, done);
      WithoutConcat(head, rest, k);
    }
  }

  lemma WithoutConcat<K, V>(head: seq<Entry<K, V>>, rest: seq<Entry<K, V>>, k: K)
    requires |head| <= 1
    ensures Without(head + rest, k) == (if |head| == 1 && head[0].key == k then [] else head) + Without(rest, k)
  {
    if head == [] {
      assert head + rest == rest;
    } else {
      assert (head + rest)[1..] == rest;
    }
  }

  lemma SparedStep<K, V>(es: seq<Entry<K, V>>, f: V -> bool, done: set<K>, e: Entry<K, V>)
    requires Distinct(es) && e in Spared(es, f, done)
    ensures Spared(es, f, done + {e.key})
         == if f(e.value) then Without(Spared(es, f, done), e.key) else Spared(es, f, done)
  {
    SparedIn(es, f, done, e);
    SparedMore(es, f, done, e.key, e.value);
  }
}
