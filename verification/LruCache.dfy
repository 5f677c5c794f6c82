/** The cache that keeps the most recently used entries: a list in order of use and a map into it. */
module LruCache {
  import opened LruOrder

  /** A list node; its id stands for the iterator that the map holds. */
  datatype Node<K, V> = Node(id: nat, entry: Entry<K, V>)

  function Entries<K, V>(ns: seq<Node<K, V>>): (es: seq<Entry<K, V>>)
    ensures |es| == |ns|
  {
    seq(|ns|, i requires 0 <= i < |ns| => ns[i].entry)
  }

  /** The node an iterator stands for. */
  function Position<K, V>(ns: seq<Node<K, V>>, id: nat): (p: nat)
    ensures p <= |ns| && (p < |ns| ==> ns[p].id == id) && forall i :: 0 <= i < p ==> ns[i].id != id
  {
    if ns == [] || ns[0].id == id then 0 else 1 + Position(ns[1..], id)
  }

  /** The ids of the nodes are what the map has for their keys, and no two are the same. */
  ghost predicate Ids<K, V>(ns: seq<Node<K, V>>, index: map<K, nat>, next: nat) {
    (forall i :: 0 <= i < |ns| ==> ns[i].entry.key in index && index[ns[i].entry.key] == ns[i].id < next) &&
    forall i, j :: 0 <= i < j < |ns| ==> ns[i].id != ns[j].id
  }

  /** The map and the list are in one-to-one correspondence. */
  ghost predicate Linked<K, V>(ns: seq<Node<K, V>>, index: map<K, nat>, next: nat) {
    index.Keys == Keys(Entries(ns)) && Ids(ns, index, next)
  }

  lemma KeysDistinct<K, V>(ns: seq<Node<K, V>>, index: map<K, nat>, next: nat)
    requires Linked(ns, index, next)
    ensures Distinct(Entries(ns)) && |index| == |ns|
  {
    forall i, j | 0 <= i < j < |ns| ensures Entries(ns)[i].key != Entries(ns)[j].key {
      assert ns[i].id != ns[j].id;
    }
    DistinctSize(Entries(ns));
  }

  /** Where the node of a key of the map is. */
  lemma NodeOf<K, V>(ns: seq<Node<K, V>>, index: map<K, nat>, next: nat, k: K)
    requires Linked(ns, index, next) && k in index
    ensures var p := Position(ns, index[k]); p < |ns| && ns[p].entry.key == k
  {
    var i: nat :| i < |ns| && Entries(ns)[i].key == k;
    assert ns[i].entry.key == k && ns[i].id == index[k];
  }

  // ---------- What the list operations keep ----------

  lemma EntriesErased<K, V>(ns: seq<Node<K, V>>, p: nat)
    requires p < |ns|
    ensures Entries(ns[..p] + ns[p + 1..]) == Entries(ns)[..p] + Entries(ns)[p + 1..]
  {
  }

  lemma EntriesFront<K, V>(n: Node<K, V>, ns: seq<Node<K, V>>)
    ensures Entries([n] + ns) == [n.entry] + Entries(ns)
  {
  }

  lemma ErasedIds<K, V>(ns: seq<Node<K, V>>, index: map<K, nat>, next: nat, p: nat)
    requires p < |ns| && Ids(ns, index, next)
    ensures Ids(ns[..p] + ns[p + 1..], index - {ns[p].entry.key}, next)
  {
    var r, k := ns[..p] + ns[p + 1..], ns[p].entry.key;
    forall i | 0 <= i < |r| ensures r[i].entry.key != k && r[i].entry.key in index {
      var j := if i < p then i else i + 1;
      assert r[i] == ns[j] && ns[j].id != ns[p].id;
    }
  }

  lemma FrontIds<K, V>(n: Node<K, V>, ns: seq<Node<K, V>>, index: map<K, nat>, next: nat)
    requires Ids(ns, index, next) && n.entry.key !in index && next <= n.id
    ensures Ids([n] + ns, index[n.entry.key := n.id], n.id + 1)
  {
  }

  lemma MovedIds<K, V>(ns: seq<Node<K, V>>, index: map<K, nat>, next: nat, p: nat)
    requires p < |ns| && Ids(ns, index, next)
    ensures Ids([ns[p]] + (ns[..p] + ns[p + 1..]), index, next)
  {
    var rest := ns[..p] + ns[p + 1..];
    ErasedIds(ns, index, next, p);
    forall i | 0 <= i < |rest| ensures rest[i].id != ns[p].id {
      var j := if i < p then i else i + 1;
      assert rest[i] == ns[j];
    }
  }

  lemma Erased<K, V>(ns: seq<Node<K, V>>, index: map<K, nat>, next: nat, k: K, p: nat)
    requires Linked(ns, index, next) && p < |ns| && ns[p].entry.key == k
    ensures Linked(ns[..p] + ns[p + 1..], index - {k}, next)
    ensures Entries(ns[..p] + ns[p + 1..]) == Without(Entries(ns), k)
  {
    KeysDistinct(ns, index, next);
    WithoutAt(Entries(ns), k, p);
    KeysWithout(Entries(ns), k);
    EntriesErased(ns, p);
    ErasedIds(ns, index, next, p);
  }

  lemma Pushed<K, V>(ns: seq<Node<K, V>>, index: map<K, nat>, next: nat, e: Entry<K, V>)
    requires Linked(ns, index, next) && e.key !in index
    ensures Linked([Node(next, e)] + ns, index[e.key := next], next + 1)
    ensures Entries([Node(next, e)] + ns) == [e] + Entries(ns)
  {
    EntriesFront(Node(next, e), ns);
    KeysFront(e, Entries(ns));
    FrontIds(Node(next, e), ns, index, next);
  }

  lemma Moved<K, V>(ns: seq<Node<K, V>>, index: map<K, nat>, next: nat, k: K, p: nat)
    requires Linked(ns, index, next) && p < |ns| && ns[p].entry.key == k
    ensures Linked([ns[p]] + (ns[..p] + ns[p + 1..]), index, next)
    ensures Entries([ns[p]] + (ns[..p] + ns[p + 1..])) == Touch(Entries(ns), k)
    ensures Lookup(Entries(ns), k) == Found(ns[p].entry.value)
  {
    var es, rest := Entries(ns), ns[..p] + ns[p + 1..];
    KeysDistinct(ns, index, next);
    WithoutAt(es, k, p);
    LookupAt(es, k, p);
    KeysMoved(es, p);
    EntriesErased(ns, p);
    EntriesFront(ns[p], rest);
    MovedIds(ns, index, next, p);
  }

  class LruCache<K(==), V> {
    const maxSize: nat
    var items: seq<Node<K, V>>
    var index: map<K, nat>
    var nextId: nat

    ghost predicate Valid()
      reads this
    {
      Linked(items, index, nextId) && |items| <= maxSize
    }

    /** The entries, the most recently used first. */
    ghost function Contents(): (es: seq<Entry<K, V>>)
      reads this
    {
      Entries(items)
    }

    constructor (maxSize: nat)
      ensures Valid() && Contents() == [] && this.maxSize == maxSize
    {
      this.maxSize := maxSize;
      items := [];
      index := map[];
      nextId := 0;
    }

    /** Erase the node that the map has for a key, and the map's entry. */
    method Remove(k: K)
      requires Linked(items, index, nextId) && k in index
      modifies this`items, this`index
      ensures Linked(items, index, nextId) && Contents() == Without(old(Contents()), k)
      ensures |items| == old(|items|) - 1 && k !in index
    {
      var p := Position(items, index[k]);
      NodeOf(items, index, nextId, k);
      Erased(items, index, nextId, k, p);
      items := items[..p] + items[p + 1..];
      index := index - {k};
    }

    method PushFront(k: K, v: V)
      requires Linked(items, index, nextId) && k !in index
      modifies this
      ensures Linked(items, index, nextId) && Contents() == [Entry(k, v)] + old(Contents())
    {
      Pushed(items, index, nextId, Entry(k, v));
      items := [Node(nextId, Entry(k, v))] + items;
      index := index[k := nextId];
      nextId := nextId + 1;
    }

    method PopBack()
      requires Linked(items, index, nextId) && items != []
      modifies this`items, this`index
      ensures Linked(items, index, nextId) && Contents() == old(Contents())[..old(|items|) - 1]
    {
      var n := |items| - 1;
      KeysDistinct(items, index, nextId);
      KeysBack(Contents());
      index := index - {items[n].entry.key};
      items := items[..n];
      assert Contents() == old(Contents())[..n];
    }

    method EraseIfExists(k: K)
      requires Valid()
      modifies this`items, this`index
      ensures Valid() && Contents() == Without(old(Contents()), k) && k !in index
    {
      if k in index {
        Remove(k);
      } else {
        WithoutNone(Contents(), k);
      }
    }

    method Insert(k: K, v: V)
      requires Valid()
      modifies this
      ensures Valid() && Contents() == Put(old(Contents()), k, v, maxSize)
    {
      EraseIfExists(k);
      PushFront(k, v);
      KeysDistinct(items, index, nextId);
      if |index| > maxSize {
        PopBack();
      }
    }

    /** Move the node of a key to the front. */
    method Splice(k: K) returns (v: V)
      requires Valid() && k in index
      modifies this`items
      ensures Valid() && Lookup(old(Contents()), k) == Found(v) && Contents() == Touch(old(Contents()), k)
    {
      var p := Position(items, index[k]);
      NodeOf(items, index, nextId, k);
      Moved(items, index, nextId, k, p);
      v := items[p].entry.value;
      items := [items[p]] + (items[..p] + items[p + 1..]);
    }

    /** The value under a key, which becomes the most recently used; the source throws where there is none. */
    method Get(k: K) returns (r: Result<V>)
      requires Valid()
      modifies this`items
      ensures Valid() && r == Lookup(old(Contents()), k) && Contents() == Touch(old(Contents()), k)
    {
      if k in index {
        var v := Splice(k);
        r := Found(v);
      } else {
        LookupNone(Contents(), k);
        r := NoSuchKey;
      }
    }

    /** One turn of the loop that erases by value. */
    method EraseOneIf(k: K, f: V -> bool, ghost es: seq<Entry<K, V>>, ghost done: set<K>)
      requires Valid() && k in index && Distinct(es) && Contents() == Spared(es, f, done)
      modifies this`items, this`index
      ensures Valid() && Contents() == Spared(es, f, done + {k}) && old(index.Keys) - {k} <= index.Keys
    {
      var p := Position(items, index[k]);
      NodeOf(items, index, nextId, k);
      assert Contents()[p] in Contents();
      SparedStep(es, f, done, Contents()[p]);
      if f(items[p].entry.value) {
        KeysWithout(Contents(), k);
        Remove(k);
      }
    }

    /** Every entry whose value f wants gone, in whatever order the map gives them. */
    method EraseIf(f: V -> bool)
      requires Valid()
      modifies this`items, this`index
      ensures Valid() && Contents() == Kept(old(Contents()), f)
    {
      var todo := index.Keys;
      ghost var es, done: set<K> := Contents(), {};
      SparedNone(es, f);
      KeysDistinct(items, index, nextId);
      while todo != {}
        invariant Valid() && todo <= index.Keys && Keys(es) <= done + todo && Contents() == Spared(es, f, done)
        decreases |todo|
      {
        var k :| k in todo;
        EraseOneIf(k, f, es, done);
        todo, done := todo - {k}, done + {k};
      }
      SparedAll(es, f, done);
    }

    method Clear()
      modifies this`items, this`index
      ensures Valid() && Contents() == []
    {
      index := map[];
      items := [];
    }
  }
}
