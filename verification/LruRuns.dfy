/** What the cache holds after any run of operations. */
module LruRuns {
  import opened LruOrder
  import opened LruCache

  datatype Op<!K, !V> =
    | PutOp(key: K, value: V)
    | GetOp(key: K)
    | EraseOp(key: K)
    | EraseIfOp(f: V -> bool)
    | ClearOp

  function Apply<K(==), V>(es: seq<Entry<K, V>>, op: Op<K, V>, max: nat): (r: seq<Entry<K, V>>) {
    match op
    case PutOp(k, v) => Put(es, k, v, max)
    case GetOp(k) => Touch(es, k)
    case EraseOp(k) => Without(es, k)
    case EraseIfOp(f) => Kept(es, f)
    case ClearOp => []
  }

  function After<K(==), V>(ops: seq<Op<K, V>>, max: nat): (es: seq<Entry<K, V>>) {
    if ops == [] then [] else Apply(After(ops[..|ops| - 1], max), ops[|ops| - 1], max)
  }

  method Do<K(==), V>(cache: LruCache<K, V>, op: Op<K, V>)
    requires cache.Valid()
    modifies cache
    ensures cache.Valid() && cache.Contents() == Apply(old(cache.Contents()), op, cache.maxSize)
  {
    match op
    case PutOp(k, v) => cache.Insert(k, v);
    case GetOp(k) => var _ := cache.Get(k);
    case EraseOp(k) => cache.EraseIfExists(k);
    case EraseIfOp(f) => cache.EraseIf(f);
    case ClearOp => cache.Clear();
  }

  method Run<K(==), V>(ops: seq<Op<K, V>>, max: nat) returns (cache: LruCache<K, V>)
    ensures fresh(cache) && cache.Valid() && cache.maxSize == max && cache.Contents() == After(ops, max)
  {
    cache := new LruCache(max);
    for n := 0 to |ops|
      invariant cache.Valid() && cache.maxSize == max && cache.Contents() == After(ops[..n], max)
    {
      assert ops[..n + 1][..n] == ops[..n];
      Do(cache, ops[n]);
    }
    assert ops[..|ops|] == ops;
  }

  // ---------- Runs of puts and successful gets ----------

  /** The run has only puts, and gets of keys that the cache then has. */
  ghost predicate Successful<K, V>(ops: seq<Op<K, V>>, max: nat) {
    ops == [] ||
    (var n := |ops| - 1;
     Successful(ops[..n], max) &&
     match ops[n]
     case PutOp(_, _) => true
     case GetOp(k) => k in Keys(After(ops[..n], max))
     case _ => false)
  }

  /** Every key ever put, the most recently used first, with the value put last: no limit, nothing forgotten. */
  function History<K(==), V>(ops: seq<Op<K, V>>): (es: seq<Entry<K, V>>) {
    if ops == [] then []
    else
      var n := |ops| - 1;
      var es := History(ops[..n]);
      match ops[n]
      case PutOp(k, v) => [Entry(k, v)] + Without(es, k)
      case GetOp(k) => Touch(es, k)
      case _ => es
  }

  lemma SameFirst<T>(a: seq<T>, b: seq<T>, n: nat)
    requires n <= |a| && n <= |b| && forall i :: 0 <= i < n ==> a[i] == b[i]
    ensures Take(a, n) == Take(b, n)
  {
  }

  lemma EraseWithin<T>(e: T, s: seq<T>, p: nat, n: nat)
    requires p < n < |s|
    ensures Take([e] + (s[..n][..p] + s[..n][p + 1..]), n) == Take([e] + (s[..p] + s[p + 1..]), n)
  {
    SameFirst([e] + (s[..n][..p] + s[..n][p + 1..]), [e] + (s[..p] + s[p + 1..]), n);
  }

  lemma EraseBeyond<T>(e: T, s: seq<T>, p: nat, n: nat)
    requires n <= p < |s|
    ensures Take([e] + s[..n], n) == Take([e] + (s[..p] + s[p + 1..]), n)
  {
    SameFirst([e] + s[..n], [e] + (s[..p] + s[p + 1..]), n);
  }

  lemma FirstOf<T>(e: T, s: seq<T>, n: nat)
    requires n < |s|
    ensures Take([e] + s[..n], n) == Take([e] + s, n)
  {
    SameFirst([e] + s[..n], [e] + s, n);
  }

  lemma PrefixDistinct<K, V>(es: seq<Entry<K, V>>, n: nat)
    requires Distinct(es) && n <= |es|
    ensures Distinct(es[..n])
  {
  }

  /** Putting an entry into the first max of a list, or into the whole list, gives the same first max. */
  lemma PutTake<K, V>(es: seq<Entry<K, V>>, k: K, v: V, max: nat)
    requires Distinct(es)
    ensures Put(Take(es, max), k, v, max) == Take([Entry(k, v)] + Without(es, k), max)
  {
    if |es| > max {
      if k in Keys(es) {
        var p: nat :| p < |es| && es[p].key == k;
        PutTakeAt(es, p, v, max);
      } else {
        NotInPrefix(es, k, max);
        WithoutNone(es, k);
        WithoutNone(es[..max], k);
        FirstOf(Entry(k, v), es, max);
      }
    }
  }

  lemma PutTakeAt<K, V>(es: seq<Entry<K, V>>, p: nat, v: V, max: nat)
    requires Distinct(es) && max < |es| && p < |es|
    ensures Put(es[..max], es[p].key, v, max) == Take([Entry(es[p].key, v)] + Without(es, es[p].key), max)
  {
    var e := Entry(es[p].key, v);
    WithoutAt(es, e.key, p);
    if p < max {
      PrefixDistinct(es, max);
      WithoutAt(es[..max], e.key, p);
      EraseWithin(e, es, p, max);
    } else {
      NotBefore(es, p, max);
      WithoutNone(es[..max], e.key);
      EraseBeyond(e, es, p, max);
    }
  }

  lemma NotBefore<K, V>(es: seq<Entry<K, V>>, p: nat, n: nat)
    requires Distinct(es) && n <= p < |es|
    ensures es[p].key !in Keys(es[..n])
  {
  }

  lemma NotInPrefix<K, V>(es: seq<Entry<K, V>>, k: K, n: nat)
    requires k !in Keys(es) && n <= |es|
    ensures k !in Keys(es[..n])
  {
  }

  /** Using an entry among the first max gives the same there and in the whole list. */
  lemma TouchTake<K, V>(es: seq<Entry<K, V>>, k: K, max: nat)
    requires Distinct(es) && k in Keys(Take(es, max))
    ensures Touch(Take(es, max), k) == Take(Touch(es, k), max)
  {
    var first := Take(es, max);
    var p: nat :| p < |first| && first[p].key == k;
    TouchAt(es, p);
    if |es| > max {
      PrefixDistinct(es, max);
      TouchAt(es[..max], p);
      MoveWithin(es, p, max);
    }
  }

  lemma TouchAt<K, V>(es: seq<Entry<K, V>>, p: nat)
    requires Distinct(es) && p < |es|
    ensures Touch(es, es[p].key) == [es[p]] + (es[..p] + es[p + 1..])
  {
    LookupAt(es, es[p].key, p);
    WithoutAt(es, es[p].key, p);
  }

  lemma MoveWithin<T>(s: seq<T>, p: nat, n: nat)
    requires p < n < |s|
    ensures [s[..n][p]] + (s[..n][..p] + s[..n][p + 1..]) == Take([s[p]] + (s[..p] + s[p + 1..]), n)
  {
  }

  // ---------- What the history says ----------

  ghost function PutKeys<K, V>(ops: seq<Op<K, V>>): (ks: set<K>) {
    set i: nat | i < |ops| && ops[i].PutOp? :: ops[i].key
  }

  /** The value put last under a key. */
  function LastPut<K(==), V>(ops: seq<Op<K, V>>, k: K): (r: Result<V>) {
    if ops == [] then NoSuchKey
    else
      var last := ops[|ops| - 1];
      if last.PutOp? && last.key == k then Found(last.value) else LastPut(ops[..|ops| - 1], k)
  }

  /** One more than the place of the last put or get of a key; zero for a key never used. */
  function LastUse<K(==), V>(ops: seq<Op<K, V>>, k: K): (n: nat)
    ensures n <= |ops|
  {
    if ops == [] then 0
    else
      var last := ops[|ops| - 1];
      if (last.PutOp? || last.GetOp?) && last.key == k then |ops| else LastUse(ops[..|ops| - 1], k)
  }

  /** Each key once, with the value put last, in the order of last use. */
  ghost predicate Remembers<K, V>(es: seq<Entry<K, V>>, ops: seq<Op<K, V>>) {
    Distinct(es) &&
    (forall i :: 0 <= i < |es| ==> LastPut(ops, es[i].key) == Found(es[i].value)) &&
    (forall i, j :: 0 <= i < j < |es| ==> LastUse(ops, es[i].key) > LastUse(ops, es[j].key))
  }

  lemma RememberErased<K, V>(es: seq<Entry<K, V>>, ops: seq<Op<K, V>>, p: nat)
    requires Remembers(es, ops) && p < |es|
    ensures var rest := es[..p] + es[p + 1..];
            Remembers(rest, ops) && forall i :: 0 <= i < |rest| ==> rest[i].key != es[p].key
  {
    var rest := es[..p] + es[p + 1..];
    forall i | 0 <= i < |rest| ensures rest[i].key != es[p].key {
      assert rest[i] == es[if i < p then i else i + 1];
    }
  }

  /** A key used last goes to the front; the others keep their values, and their order. */
  lemma RememberFront<K, V>(es: seq<Entry<K, V>>, ops: seq<Op<K, V>>, op: Op<K, V>, v: V)
    requires Remembers(es, ops) && (op.PutOp? || op.GetOp?) && LastPut(ops + [op], op.key) == Found(v)
    ensures Remembers([Entry(op.key, v)] + Without(es, op.key), ops + [op])
  {
    var k, now := op.key, ops + [op];
    assert now[..|ops|] == ops;
    if k in Keys(es) {
      var p: nat :| p < |es| && es[p].key == k;
      WithoutAt(es, k, p);
      RememberErased(es, ops, p);
      Fronted(es[..p] + es[p + 1..], ops, op, v);
    } else {
      WithoutNone(es, k);
      forall i: nat | i < |es| ensures es[i].key != k {
        InKeys(es, i);
      }
      Fronted(es, ops, op, v);
    }
  }

  lemma Fronted<K, V>(rest: seq<Entry<K, V>>, ops: seq<Op<K, V>>, op: Op<K, V>, v: V)
    requires Remembers(rest, ops) && (op.PutOp? || op.GetOp?) && LastPut(ops + [op], op.key) == Found(v)
    requires forall i :: 0 <= i < |rest| ==> rest[i].key != op.key
    ensures Remembers([Entry(op.key, v)] + rest, ops + [op])
  {
    var now := ops + [op];
    assert now[..|ops|] == ops;
    forall i | 0 <= i < |rest|
      ensures LastPut(now, rest[i].key) == LastPut(ops, rest[i].key) &&
              LastUse(now, rest[i].key) == LastUse(ops, rest[i].key)
    {
    }
  }

  lemma PutKeysSnoc<K, V>(ops: seq<Op<K, V>>, op: Op<K, V>)
    ensures PutKeys(ops + [op]) == PutKeys(ops) + if op.PutOp? then {op.key} else {}
  {
    var now := ops + [op];
    forall k ensures k in PutKeys(now) <==> k in PutKeys(ops) + if op.PutOp? then {op.key} else {} {
      if k in PutKeys(ops) {
        var i: nat :| i < |ops| && ops[i].PutOp? && ops[i].key == k;
        assert now[i] == ops[i];
      }
      if op.PutOp? {
        assert now[|ops|] == op;
      }
    }
  }

  /** The history remembers every key ever put. */
  ghost predicate Complete<K, V>(ops: seq<Op<K, V>>) {
    Remembers(History(ops), ops) && Keys(History(ops)) == PutKeys(ops)
  }

  lemma CompletePut<K, V>(ops: seq<Op<K, V>>, k: K, v: V)
    requires Complete(ops)
    ensures Complete(ops + [PutOp(k, v)])
  {
    var op := PutOp(k, v);
    assert (ops + [op])[..|ops|] == ops;
    RememberFront(History(ops), ops, op, v);
    PutKeysSnoc(ops, op);
    KeysFront(Entry(k, v), Without(History(ops), k));
    KeysWithout(History(ops), k);
  }

  lemma CompleteGet<K, V>(ops: seq<Op<K, V>>, k: K)
    requires Complete(ops) && k in Keys(History(ops))
    ensures Complete(ops + [GetOp(k)])
  {
    var op, es := GetOp(k), History(ops);
    assert (ops + [op])[..|ops|] == ops;
    var p: nat :| p < |es| && es[p].key == k;
    LookupAt(es, k, p);
    RememberFront(es, ops, op, es[p].value);
    PutKeysSnoc(ops, op);
    KeysFront(Entry(k, es[p].value), Without(es, k));
    KeysWithout(es, k);
  }

  /** After puts and successful gets the cache is the first max of the history. */
  lemma {:induction false} FirstOfHistory<K, V>(ops: seq<Op<K, V>>, max: nat)
    requires Successful(ops, max)
    ensures Complete(ops) && After(ops, max) == Take(History(ops), max)
  {
    if ops == [] {
      assert PutKeys(ops) == {};
    } else {
      var n := |ops| - 1;
      var before, op := ops[..n], ops[n];
      FirstOfHistory(before, max);
      assert ops == before + [op];
      if op.PutOp? {
        CompletePut(before, op.key, op.value);
        PutTake(History(before), op.key, op.value, max);
      } else {
        TakeKeys(History(before), max);
        CompleteGet(before, op.key);
        TouchTake(History(before), op.key, max);
      }
    }
  }

  lemma TakeKeys<K, V>(es: seq<Entry<K, V>>, max: nat)
    ensures Keys(Take(es, max)) <= Keys(es)
  {
    var first := Take(es, max);
    forall k | k in Keys(first) ensures k in Keys(es) {
      var i: nat :| i < |first| && first[i].key == k;
      InKeys(es, i);
    }
  }

  /**
   * After any run of puts and successful gets, the cache holds as many of the keys put as it has room for,
   * each with the value put last, in the order of last use; and any other key put was used before all of them.
   */
  lemma SuccessfulRecent<K, V>(ops: seq<Op<K, V>>, max: nat)
    requires Successful(ops, max)
    ensures Remembers(After(ops, max), ops)
    ensures Keys(After(ops, max)) <= PutKeys(ops)
    ensures |After(ops, max)| == if |PutKeys(ops)| <= max then |PutKeys(ops)| else max
    ensures forall k, i :: k in PutKeys(ops) && k !in Keys(After(ops, max)) && 0 <= i < |After(ops, max)| ==>
                             LastUse(ops, k) < LastUse(ops, After(ops, max)[i].key)
  {
    var es, all := After(ops, max), History(ops);
    FirstOfHistory(ops, max);
    TakeKeys(all, max);
    DistinctSize(all);
    forall k, i | k in PutKeys(ops) && k !in Keys(es) && 0 <= i < |es|
      ensures LastUse(ops, k) < LastUse(ops, es[i].key)
    {
      var j: nat :| j < |all| && all[j].key == k;
      if j < |es| {
        InKeys(es, j);
      }
    }
  }

  // ---------- Every run ----------

  /** The run without the gets that find nothing. */
  ghost function Effective<K, V>(ops: seq<Op<K, V>>, max: nat): (r: seq<Op<K, V>>) {
    if ops == [] then []
    else
      var n := |ops| - 1;
      if ops[n].GetOp? && ops[n].key !in Keys(After(ops[..n], max)) then Effective(ops[..n], max)
      else Effective(ops[..n], max) + [ops[n]]
  }

  /** Gets that find nothing leave no trace. */
  lemma {:induction false} EffectiveAfter<K, V>(ops: seq<Op<K, V>>, max: nat)
    ensures After(Effective(ops, max), max) == After(ops, max)
  {
    if ops != [] {
      var n := |ops| - 1;
      EffectiveAfter(ops[..n], max);
      if ops[n].GetOp? && ops[n].key !in Keys(After(ops[..n], max)) {
        LookupNone(After(ops[..n], max), ops[n].key);
      } else {
        var before := Effective(ops[..n], max);
        assert (before + [ops[n]])[..|before|] == before;
      }
    }
  }

  ghost predicate PutsAndGets<K, V>(ops: seq<Op<K, V>>) {
    forall i :: 0 <= i < |ops| ==> ops[i].PutOp? || ops[i].GetOp?
  }

  lemma {:induction false} EffectiveSuccessful<K, V>(ops: seq<Op<K, V>>, max: nat)
    requires PutsAndGets(ops)
    ensures Successful(Effective(ops, max), max) && PutKeys(Effective(ops, max)) == PutKeys(ops)
  {
    if ops != [] {
      var n := |ops| - 1;
      var before, op := ops[..n], ops[n];
      assert ops == before + [op] && op == ops[n];
      EffectiveSuccessful(before, max);
      EffectiveAfter(before, max);
      PutKeysSnoc(before, op);
      PutKeysSnoc(Effective(before, max), op);
      var now := Effective(before, max) + [op];
      assert now[..|now| - 1] == Effective(before, max);
    }
  }

  /**
   * After any run of puts and gets, the cache holds as many of the keys put as it has room for,
   * each with the value put last, in the order of last use; and any other key put was used before all of them.
   * A get is a use if it finds its key.
   */
  lemma MostRecentlyUsed<K, V>(ops: seq<Op<K, V>>, max: nat)
    requires PutsAndGets(ops)
    ensures Remembers(After(ops, max), Effective(ops, max))
    ensures Keys(After(ops, max)) <= PutKeys(ops)
    ensures |After(ops, max)| == if |PutKeys(ops)| <= max then |PutKeys(ops)| else max
    ensures forall k, i :: k in PutKeys(ops) && k !in Keys(After(ops, max)) && 0 <= i < |After(ops, max)| ==>
                             LastUse(Effective(ops, max), k) < LastUse(Effective(ops, max), After(ops, max)[i].key)
  {
    EffectiveAfter(ops, max);
    EffectiveSuccessful(ops, max);
    SuccessfulRecent(Effective(ops, max), max);
  }

  // ---------- Erasing ----------

  lemma RememberTake<K, V>(es: seq<Entry<K, V>>, ops: seq<Op<K, V>>, max: nat)
    requires Remembers(es, ops)
    ensures Remembers(Take(es, max), ops)
  {
  }

  /** Operations that put nothing and get nothing change no last value and no last use. */
  lemma RememberLater<K, V>(es: seq<Entry<K, V>>, ops: seq<Op<K, V>>, op: Op<K, V>)
    requires Remembers(es, ops) && !op.PutOp? && !op.GetOp?
    ensures Remembers(es, ops + [op])
  {
    assert (ops + [op])[..|ops|] == ops;
  }

  lemma {:induction false} KeptIn<K, V>(es: seq<Entry<K, V>>, f: V -> bool, i: nat) returns (j: nat)
    requires i < |Kept(es, f)|
    ensures j < |es| && es[j] == Kept(es, f)[i]
  {
    if f(es[0].value) {
      j := KeptIn(es[1..], f, i);
      j := j + 1;
    } else if i == 0 {
      j := 0;
    } else {
      j := KeptIn(es[1..], f, i - 1);
      j := j + 1;
    }
  }

  lemma {:induction false} RememberKept<K, V>(es: seq<Entry<K, V>>, ops: seq<Op<K, V>>, f: V -> bool)
    requires Remembers(es, ops)
    ensures Remembers(Kept(es, f), ops)
  {
    if es != [] {
      var e, rest := es[0], es[1..];
      RememberKept(rest, ops, f);
      forall i: nat | i < |Kept(rest, f)|
        ensures Kept(rest, f)[i].key != e.key && LastUse(ops, e.key) > LastUse(ops, Kept(rest, f)[i].key)
      {
        var j := KeptIn(rest, f, i);
        assert es[j + 1] == rest[j];
      }
    }
  }

  /** In every run, with erasing and clearing, the entries are in order of last use and have the values put last. */
  lemma {:induction false} AlwaysInOrder<K, V>(ops: seq<Op<K, V>>, max: nat)
    ensures Remembers(After(ops, max), Effective(ops, max))
  {
    if ops != [] {
      var n := |ops| - 1;
      var op, es, before := ops[n], After(ops[..n], max), Effective(ops[..n], max);
      AlwaysInOrder(ops[..n], max);
      match op
      case PutOp(k, v) =>
        RememberFront(es, before, op, v);
        RememberTake([Entry(k, v)] + Without(es, k), before + [op], max);
      case GetOp(k) =>
        if k in Keys(es) {
          var p: nat :| p < |es| && es[p].key == k;
          LookupAt(es, k, p);
          assert (before + [op])[..|before|] == before;
          RememberFront(es, before, op, es[p].value);
        } else {
          LookupNone(es, k);
        }
      case EraseOp(k) =>
        RememberWithout(es, before, k);
        RememberLater(Without(es, k), before, op);
      case EraseIfOp(f) =>
        RememberKept(es, before, f);
        RememberLater(Kept(es, f), before, op);
      case ClearOp =>
    }
  }

  lemma RememberWithout<K, V>(es: seq<Entry<K, V>>, ops: seq<Op<K, V>>, k: K)
    requires Remembers(es, ops)
    ensures Remembers(Without(es, k), ops)
  {
    if k in Keys(es) {
      var p: nat :| p < |es| && es[p].key == k;
      WithoutAt(es, k, p);
      RememberErased(es, ops, p);
    } else {
      WithoutNone(es, k);
    }
  }
}
