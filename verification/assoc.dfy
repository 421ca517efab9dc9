/** Insertion-ordered dictionaries, as Python's `dict` (and the
    ParameterResolver built from one) behaves: a key occurs at most once,
    updating a key keeps its position, a new key is appended. */
module AssocList {
  import opened Wrappers

  type Dict<K, V> = seq<(K, V)>

  predicate NoDupKeys<K(==), V>(d: Dict<K, V>) {
    forall i, j :: 0 <= i < j < |d| ==> d[i].0 != d[j].0
  }

  function Keys<K(==), V>(d: Dict<K, V>): (ks: seq<K>)
    ensures |ks| == |d|
    ensures forall i :: 0 <= i < |d| ==> ks[i] == d[i].0
  {
    if |d| == 0 then [] else [d[0].0] + Keys(d[1..])
  }

  predicate HasKey<K(==), V>(d: Dict<K, V>, k: K) {
    exists i :: 0 <= i < |d| && d[i].0 == k
  }

  /** Position of `k` in `d` (the first one, the only one in a dict). */
  function IndexOf<K(==), V>(d: Dict<K, V>, k: K): (r: Option<nat>)
    ensures r.Some? ==> r.value < |d| && d[r.value].0 == k
    ensures r.Some? ==> forall j :: 0 <= j < r.value ==> d[j].0 != k
    ensures r.None? <==> !HasKey(d, k)
  {
    if |d| == 0 then None
    else if d[0].0 == k then Some(0)
    else match IndexOf(d[1..], k)
      case None => None
      case Some(i) => Some(i + 1)
  }

  /** `d.get(k)`. */
  function Get<K(==), V>(d: Dict<K, V>, k: K): (r: Option<V>)
    ensures r.None? <==> !HasKey(d, k)
    ensures NoDupKeys(d) ==> forall i :: 0 <= i < |d| && d[i].0 == k ==> r == Some(d[i].1)
  {
    match IndexOf(d, k)
    case None => None
    case Some(i) => Some(d[i].1)
  }

  /** `IndexOf` looks at keys only. */
  lemma {:induction false} IndexOfSameKeys<K, V, W>(a: Dict<K, V>, b: Dict<K, W>, k: K)
    requires |a| == |b|
    requires forall i :: 0 <= i < |a| ==> a[i].0 == b[i].0
    ensures IndexOf(a, k) == IndexOf(b, k)
  {
    if |a| > 0 && a[0].0 != k {
      IndexOfSameKeys(a[1..], b[1..], k);
    }
  }

  /** Appending an entry for another key leaves every lookup in place. */
  lemma {:induction false} IndexOfAppend<K, V>(d: Dict<K, V>, k: K, v: V, k': K)
    requires k' != k
    ensures IndexOf(d + [(k, v)], k') == IndexOf(d, k')
  {
    if |d| > 0 && d[0].0 != k' {
      assert (d + [(k, v)])[1..] == d[1..] + [(k, v)];
      IndexOfAppend(d[1..], k, v, k');
    }
  }

  /** `d[k] = v`: update in place when present, append otherwise. */
  function Put<K(==,!new), V>(d: Dict<K, V>, k: K, v: V): (r: Dict<K, V>)
    ensures HasKey(d, k) ==> |r| == |d| && Keys(r) == Keys(d)
    ensures !HasKey(d, k) ==> r == d + [(k, v)]
    ensures Get(r, k) == Some(v)
    ensures forall k' :: k' != k ==> Get(r, k') == Get(d, k')
    ensures NoDupKeys(d) ==> NoDupKeys(r)
  {
    match IndexOf(d, k)
    case None =>
      AppendFresh(d, k, v);
      d + [(k, v)]
    case Some(i) =>
      UpdateInPlace(d, k, v, i);
      d[i := (k, v)]
  }

  /** Appending a new key: it maps to its value, other lookups are kept. */
  lemma AppendFresh<K(!new), V>(d: Dict<K, V>, k: K, v: V)
    requires !HasKey(d, k)
    ensures Get(d + [(k, v)], k) == Some(v)
    ensures forall k' :: k' != k ==> Get(d + [(k, v)], k') == Get(d, k')
    ensures NoDupKeys(d) ==> NoDupKeys(d + [(k, v)])
  {
    var r := d + [(k, v)];
    forall k' | k' != k
      ensures Get(r, k') == Get(d, k')
    {
      IndexOfAppend(d, k, v, k');
    }
    assert r[|d|].0 == k;
  }

  /** Overwriting the entry of a present key keeps the keys and every
      other lookup. */
  lemma UpdateInPlace<K(!new), V>(d: Dict<K, V>, k: K, v: V, i: nat)
    requires IndexOf(d, k) == Some(i)
    ensures Keys(d[i := (k, v)]) == Keys(d)
    ensures Get(d[i := (k, v)], k) == Some(v)
    ensures forall k' :: k' != k ==> Get(d[i := (k, v)], k') == Get(d, k')
    ensures NoDupKeys(d) ==> NoDupKeys(d[i := (k, v)])
  {
    var r := d[i := (k, v)];
    forall k'
      ensures IndexOf(r, k') == IndexOf(d, k')
    {
      IndexOfSameKeys(r, d, k');
    }
    assert Keys(r) == Keys(d);
  }

  /** Python dict equality: same keys with the same values, in any order. */
  predicate SameMapping<K(==), V(==)>(a: Dict<K, V>, b: Dict<K, V>) {
    && (forall i :: 0 <= i < |a| ==> Get(b, a[i].0) == Get(a, a[i].0))
    && (forall i :: 0 <= i < |b| ==> Get(a, b[i].0) == Get(b, b[i].0))
  }

  /** `SameMapping` is exactly agreement of `Get` on every key. */
  lemma SameMappingMeansSameGet<K(!new), V>(a: Dict<K, V>, b: Dict<K, V>)
    ensures SameMapping(a, b) <==> forall k :: Get(a, k) == Get(b, k)
  {
    if SameMapping(a, b) {
      forall k
        ensures Get(a, k) == Get(b, k)
      {
        if HasKey(a, k) {
          var i := IndexOf(a, k).value;
        } else if HasKey(b, k) {
          var i := IndexOf(b, k).value;
        }
      }
    }
  }

  /** Applies `f` to every value, keeping keys and order. */
  function MapValues<K(==), V, W>(d: Dict<K, V>, f: V -> W): (r: Dict<K, W>)
    ensures |r| == |d|
    ensures forall i :: 0 <= i < |d| ==> r[i] == (d[i].0, f(d[i].1))
  {
    seq(|d|, i requires 0 <= i < |d| => (d[i].0, f(d[i].1)))
  }

  lemma MapValuesKeys<K, V, W>(d: Dict<K, V>, f: V -> W)
    ensures Keys(MapValues(d, f)) == Keys(d)
    ensures NoDupKeys(d) ==> NoDupKeys(MapValues(d, f))
  {
  }

  lemma MapValuesGet<K, V, W>(d: Dict<K, V>, f: V -> W, k: K)
    ensures Get(MapValues(d, f), k) == match Get(d, k) case None => None case Some(v) => Some(f(v))
  {
    IndexOfSameKeys(MapValues(d, f), d, k);
  }

  /** `Get` on a non-empty dict looks at the first entry, then the rest. */
  lemma GetCons<K, V>(d: Dict<K, V>, k: K)
    requires |d| > 0
    ensures Get(d, k) == if d[0].0 == k then Some(d[0].1) else Get(d[1..], k)
  {
  }

  /** Stores `v` under `k`, combining it with the value already there. */
  function PutWith<K(==,!new), V>(d: Dict<K, V>, k: K, v: V, combine: (V, V) -> V): (r: Dict<K, V>)
    ensures Get(r, k) == Some(match Get(d, k) case None => v case Some(x) => combine(x, v))
    ensures forall k' :: k' != k ==> Get(r, k') == Get(d, k')
    ensures NoDupKeys(d) ==> NoDupKeys(r)
    ensures !HasKey(d, k) ==> r == d + [(k, v)]
  {
    match Get(d, k)
    case None => Put(d, k, v)
    case Some(x) => Put(d, k, combine(x, v))
  }

  /** What a key maps to after merging: the combination when both sides
      have it, the one side's value when only one has it. */
  function Combined<V>(x: Option<V>, y: Option<V>, combine: (V, V) -> V): Option<V> {
    match (x, y)
    case (None, _) => y
    case (_, None) => x
    case (Some(u), Some(w)) => Some(combine(u, w))
  }

  /** Adds the entries of `b` into `a` one by one: a key already present has
      its value combined (old value first), a new key is appended. */
  function Merge<K(==,!new), V>(a: Dict<K, V>, b: Dict<K, V>, combine: (V, V) -> V): (r: Dict<K, V>)
    ensures NoDupKeys(a) ==> NoDupKeys(r)
    decreases |b|
  {
    if |b| == 0 then a else Merge(PutWith(a, b[0].0, b[0].1, combine), b[1..], combine)
  }

  /** Every lookup in a merge combines the lookups in the two sides. */
  lemma {:induction false} MergeGet<K(!new), V>(a: Dict<K, V>, b: Dict<K, V>, combine: (V, V) -> V, k: K)
    requires NoDupKeys(b)
    ensures Get(Merge(a, b, combine), k) == Combined(Get(a, k), Get(b, k), combine)
    decreases |b|
  {
    if |b| > 0 {
      assert NoDupKeys(b[1..]);
      MergeGet(PutWith(a, b[0].0, b[0].1, combine), b[1..], combine, k);
      MergeGetStep(a, b, combine, k);
    }
  }

  /** Putting the first entry of `b` and then merging the rest looks up
      like merging all of `b`. */
  lemma MergeGetStep<K(!new), V>(a: Dict<K, V>, b: Dict<K, V>, combine: (V, V) -> V, k: K)
    requires NoDupKeys(b) && |b| > 0
    ensures Combined(Get(PutWith(a, b[0].0, b[0].1, combine), k), Get(b[1..], k), combine)
         == Combined(Get(a, k), Get(b, k), combine)
  {
    GetCons(b, k);
    if k == b[0].0 {
      assert !HasKey(b[1..], k);
    }
  }

  /** Merging in entries whose keys are all new appends them in order. */
  lemma {:induction false} MergeFresh<K(!new), V>(a: Dict<K, V>, b: Dict<K, V>, combine: (V, V) -> V)
    requires forall j :: 0 <= j < |b| ==> !HasKey(a, b[j].0)
    requires NoDupKeys(b)
    ensures Merge(a, b, combine) == a + b
    decreases |b|
  {
    if |b| > 0 {
      MergeFreshStep(a, b, combine);
      FreshRest(a, b);
      MergeFresh(a + [b[0]], b[1..], combine);
      ShiftFirst(a, b);
    }
  }

  lemma ShiftFirst<T>(a: seq<T>, b: seq<T>)
    requires |b| > 0
    ensures (a + [b[0]]) + b[1..] == a + b
  {
  }

  /** Merging starts by appending a first entry whose key is new. */
  lemma MergeFreshStep<K(!new), V>(a: Dict<K, V>, b: Dict<K, V>, combine: (V, V) -> V)
    requires |b| > 0
    requires forall j :: 0 <= j < |b| ==> !HasKey(a, b[j].0)
    ensures Merge(a, b, combine) == Merge(a + [b[0]], b[1..], combine)
  {
    assert !HasKey(a, b[0].0);
    assert PutWith(a, b[0].0, b[0].1, combine) == a + [b[0]];
  }

  /** The rest of `b` is fresh for `a` extended by the first entry of `b`. */
  lemma FreshRest<K, V>(a: Dict<K, V>, b: Dict<K, V>)
    requires |b| > 0
    requires forall j :: 0 <= j < |b| ==> !HasKey(a, b[j].0)
    requires NoDupKeys(b)
    ensures NoDupKeys(b[1..])
    ensures forall j :: 0 <= j < |b[1..]| ==> !HasKey(a + [b[0]], b[1..][j].0)
  {
    forall j | 0 <= j < |b[1..]|
      ensures !HasKey(a + [b[0]], b[1..][j].0)
    {
      assert b[1..][j] == b[j + 1];
      FreshAfterAppend(a, b[0], b[j + 1].0);
    }
  }

  lemma FreshAfterAppend<K, V>(a: Dict<K, V>, e: (K, V), k: K)
    requires !HasKey(a, k) && e.0 != k
    ensures !HasKey(a + [e], k)
  {
  }

  /** Merging in one entry under a new key appends it. */
  lemma MergeFreshOne<K(!new), V>(a: Dict<K, V>, e: (K, V), combine: (V, V) -> V)
    requires !HasKey(a, e.0)
    ensures Merge(a, [e], combine) == a + [e]
  {
    assert [e][1..] == [];
  }

  /** In a dict, no entry's key occurs before it. */
  lemma PrefixLacksKey<K, V>(d: Dict<K, V>, n: nat)
    requires NoDupKeys(d) && n < |d|
    ensures !HasKey(d[..n], d[n].0)
  {
  }

  /** Merging one entry into a one-entry dict under the same key combines
      the two values in place. */
  lemma MergeSameKey<K(!new), V>(k: K, x: V, y: V, combine: (V, V) -> V)
    ensures Merge([(k, x)], [(k, y)], combine) == [(k, combine(x, y))]
  {
    var d := [(k, x)];
    assert Get(d, k) == Some(x);
    assert HasKey(d, k);
    var r := Put(d, k, combine(x, y));
    assert Keys(r) == Keys(d);
    assert r == [(k, combine(x, y))] by {
      assert |r| == 1 && r[0].0 == k;
      assert Get(r, k) == Some(r[0].1);
    }
    assert [(k, y)][1..] == [];
  }

  /** Merging a one-entry dict under a new key appends it. */
  lemma MergeNewKey<K(!new), V>(k: K, x: V, j: K, y: V, combine: (V, V) -> V)
    requires k != j
    ensures Merge([(k, x)], [(j, y)], combine) == [(k, x), (j, y)]
  {
    assert !HasKey([(k, x)], j);
    assert [(j, y)][1..] == [];
  }

  lemma MapValuesSingle<K, V, W>(k: K, v: V, f: V -> W)
    ensures MapValues([(k, v)], f) == [(k, f(v))]
  {
  }
}
