/** The two-table hash dictionary of src/dict.c as values: what every operation
    does to the pair of tables, and what a pair of tables means as a finite map.

    A chain of entries is a sequence with the head first.  The hash function is
    a parameter everywhere, so every result holds for any hash function.
 */
module DictSpec {
  import opened Options
  import opened Words

  const INITIAL_SIZE: nat := 4
  const FORCE_RESIZE_RATIO: nat := 5

  datatype Entry<+K, +V> = Entry(key: K, val: V)
  type Chain<+K, +V> = seq<Entry<K, V>>
  datatype Table<+K, +V> = Table(buckets: seq<Chain<K, V>>, used: nat)
  datatype State<+K, +V> = State(h0: Table<K, V>, h1: Table<K, V>, rehashidx: int, iterators: nat)

  function EmptyTable<K, V>(): Table<K, V> { Table([], 0) }

  /** dictCreate */
  function Created<K, V>(): State<K, V> { State(EmptyTable(), EmptyTable(), -1, 0) }

  // ------------------------------------------------------------------- chains

  /** Position of the first entry with key k, or the length of the chain. */
  function PosOf<K(==), V>(c: Chain<K, V>, k: K): (p: nat)
    ensures p <= |c|
    ensures p < |c| ==> c[p].key == k
  {
    if c == [] then 0 else if c[0].key == k then 0 else 1 + PosOf(c[1..], k)
  }

  predicate Has<K(==), V>(c: Chain<K, V>, k: K) { PosOf(c, k) < |c| }

  function ValueIn<K(==), V>(c: Chain<K, V>, k: K): Option<V>
  {
    if Has(c, k) then Some(c[PosOf(c, k)].val) else None
  }

  function Without<K(==), V>(c: Chain<K, V>, k: K): Chain<K, V>
    requires Has(c, k)
  {
    c[..PosOf(c, k)] + c[PosOf(c, k) + 1..]
  }

  function WithVal<K(==), V>(c: Chain<K, V>, k: K, v: V): Chain<K, V>
    requires Has(c, k)
  {
    c[PosOf(c, k) := c[PosOf(c, k)].(val := v)]
  }

  ghost predicate Distinct<K, V>(c: Chain<K, V>)
  {
    forall i, j :: 0 <= i < j < |c| ==> c[i].key != c[j].key
  }

  lemma {:induction false} HasIff<K, V>(c: Chain<K, V>, k: K)
    ensures Has(c, k) <==> exists i :: 0 <= i < |c| && c[i].key == k
    ensures forall i :: 0 <= i < PosOf(c, k) ==> c[i].key != k
  {
    if c != [] && c[0].key != k {
      HasIff(c[1..], k);
      if Has(c[1..], k) { assert c[PosOf(c, k)].key == k; }
      forall i | 0 <= i < PosOf(c, k) ensures c[i].key != k {
        if i > 0 { assert c[i] == c[1..][i - 1]; }
      }
      if i :| 0 <= i < |c| && c[i].key == k { assert c[1..][i - 1].key == k; }
    }
  }

  /** In a chain without duplicates, an entry is found by its key. */
  lemma {:induction false} FindByKey<K, V>(c: Chain<K, V>, i: nat)
    requires Distinct(c) && i < |c|
    ensures Has(c, c[i].key) && PosOf(c, c[i].key) == i && ValueIn(c, c[i].key) == Some(c[i].val)
  {
    HasIff(c, c[i].key);
  }

  lemma {:induction false} WithoutValue<K, V>(c: Chain<K, V>, k: K, x: K)
    requires Distinct(c) && Has(c, k)
    ensures Distinct(Without(c, k))
    ensures ValueIn(Without(c, k), x) == if x == k then None else ValueIn(c, x)
  {
    var p := PosOf(c, k);
    var w := Without(c, k);
    HasIff(c, x);
    HasIff(w, x);
    if x != k && Has(c, x) {
      var j := PosOf(c, x);
      assert w[if j < p then j else j - 1] == c[j];
    }
    if Has(w, x) {
      var i := PosOf(w, x);
      var j := if i < p then i else i + 1;
      assert w[i] == c[j];
      FindByKey(c, j);
    }
  }

  lemma {:induction false} WithValValue<K, V>(c: Chain<K, V>, k: K, v: V, x: K)
    requires Distinct(c) && Has(c, k)
    ensures Distinct(WithVal(c, k, v))
    ensures ValueIn(WithVal(c, k, v), x) == if x == k then Some(v) else ValueIn(c, x)
  {
    var w := WithVal(c, k, v);
    HasIff(c, x);
    HasIff(w, x);
    if Has(c, x) {
      FindByKey(c, PosOf(c, x));
      assert w[PosOf(c, x)].key == x;
      FindByKey(w, PosOf(c, x));
    }
  }

  // ------------------------------------------------------------------- tables

  predicate IsPow2(n: nat)
  {
    n == 1 || (n > 1 && n % 2 == 0 && IsPow2(n / 2))
  }

  function Log2(n: nat): nat
  {
    if n <= 1 then 0 else 1 + Log2(n / 2)
  }

  lemma {:induction false} Pow2Log2(n: nat)
    requires IsPow2(n)
    ensures Pow2(Log2(n)) == n
  {
    if n > 1 { Pow2Log2(n / 2); }
  }

  /** _dictNextPower: the first power of two from 4 on that reaches size. */
  function NextPower(i: nat, size: nat): (r: nat)
    requires i > 0
    ensures r >= size && r >= i
    decreases if i >= size then 0 else size - i
  {
    if i >= size then i else NextPower(2 * i, size)
  }

  lemma {:induction false} DoublePow2(n: nat)
    requires IsPow2(n)
    ensures IsPow2(2 * n)
  {
    assert 2 * n / 2 == n;
  }

  lemma {:induction false} Pow2IsPow2(k: nat)
    ensures IsPow2(Pow2(k))
  {
    if k > 0 {
      Pow2IsPow2(k - 1);
      DoublePow2(Pow2(k - 1));
    }
  }

  lemma {:induction false} NextPowerExponent(k: nat, size: nat) returns (j: nat)
    ensures NextPower(Pow2(k), size) == Pow2(j)
    decreases if Pow2(k) >= size then 0 else size - Pow2(k)
  {
    j := k;
    if Pow2(k) < size {
      assert Pow2(k + 1) == 2 * Pow2(k);
      j := NextPowerExponent(k + 1, size);
    }
  }

  lemma {:induction false} NextPowerIsPow2(i: nat, size: nat)
    requires IsPow2(i)
    ensures IsPow2(NextPower(i, size))
  {
    Pow2Log2(i);
    var j := NextPowerExponent(Log2(i), size);
    Pow2IsPow2(j);
  }

  /** No smaller power of two from i on reaches size. */
  lemma {:induction false} NextPowerLeast(i: nat, size: nat)
    requires i > 0
    ensures NextPower(i, size) > i ==> NextPower(i, size) < 2 * size
    decreases if i >= size then 0 else size - i
  {
    if i < size { NextPowerLeast(2 * i, size); }
  }

  /** dictHashKey(key) & sizemask, for a table of a power-of-two size. */
  function Index<K>(h: K -> Word, k: K, size: nat): (i: nat)
    requires size > 0
    ensures i < size
  {
    Val(h(k)) % size
  }

  function Lookup<K(==), V>(h: K -> Word, t: Table<K, V>, k: K): Option<V>
  {
    if |t.buckets| == 0 then None else ValueIn(t.buckets[Index(h, k, |t.buckets|)], k)
  }

  function Total<K, V>(b: seq<Chain<K, V>>): nat
  {
    if b == [] then 0 else |b[0]| + Total(b[1..])
  }

  lemma {:induction false} TotalUpdate<K, V>(b: seq<Chain<K, V>>, i: nat, c: Chain<K, V>)
    requires i < |b|
    ensures Total(b[i := c]) == Total(b) - |b[i]| + |c|
  {
    if i > 0 {
      TotalUpdate(b[1..], i - 1, c);
      assert b[i := c][1..] == b[1..][i - 1 := c];
    } else {
      assert b[i := c][1..] == b[1..];
    }
  }

  lemma {:induction false} TotalSlice<K, V>(b: seq<Chain<K, V>>, i: nat)
    requires i < |b|
    ensures Total(b) >= |b[i]|
  {
    if i > 0 { TotalSlice(b[1..], i - 1); }
  }

  lemma {:induction false} TotalZero<K, V>(b: seq<Chain<K, V>>)
    ensures Total(b) == 0 <==> forall i :: 0 <= i < |b| ==> b[i] == []
  {
    if b != [] {
      TotalZero(b[1..]);
      assert forall i :: 0 < i < |b| ==> b[i] == b[1..][i - 1];
      if Total(b) == 0 {
        forall i | 0 <= i < |b| ensures b[i] == [] {
          if i > 0 { assert b[1..][i - 1] == []; }
        }
      }
      if forall i :: 0 <= i < |b| ==> b[i] == [] {
        assert b[0] == [];
        forall i | 0 <= i < |b[1..]| ensures b[1..][i] == [] { assert b[i + 1] == []; }
      }
    }
  }

  /** Every entry sits in its hash bucket, once, and the count is exact. */
  ghost predicate TableOk<K, V>(h: K -> Word, t: Table<K, V>)
  {
    && (t.buckets == [] || IsPow2(|t.buckets|))
    && t.used == Total(t.buckets)
    && (forall i, j :: 0 <= i < |t.buckets| && 0 <= j < |t.buckets[i]| ==>
          Index(h, t.buckets[i][j].key, |t.buckets|) == i)
    && (forall i :: 0 <= i < |t.buckets| ==> Distinct(t.buckets[i]))
  }

  function WithBucket<K, V>(t: Table<K, V>, i: nat, c: Chain<K, V>, used: nat): Table<K, V>
    requires i < |t.buckets|
  {
    Table(t.buckets[i := c], used)
  }

  lemma {:induction false} WithBucketOk<K, V>(h: K -> Word, t: Table<K, V>, i: nat, c: Chain<K, V>, used: nat)
    requires TableOk(h, t) && i < |t.buckets|
    requires Distinct(c) && forall j :: 0 <= j < |c| ==> Index(h, c[j].key, |t.buckets|) == i
    requires used == t.used - |t.buckets[i]| + |c|
    ensures TableOk(h, WithBucket(t, i, c, used))
  {
    TotalUpdate(t.buckets, i, c);
  }

  lemma {:induction false} WithBucketLookup<K, V>(h: K -> Word, t: Table<K, V>, i: nat, c: Chain<K, V>, used: nat, x: K)
    requires i < |t.buckets|
    ensures Lookup(h, WithBucket(t, i, c, used), x) ==
            if Index(h, x, |t.buckets|) == i then ValueIn(c, x) else Lookup(h, t, x)
  {
  }

  /** Link an entry at the head of its bucket. */
  function Push<K, V>(h: K -> Word, t: Table<K, V>, e: Entry<K, V>): (r: Table<K, V>)
    requires t.buckets != []
    ensures |r.buckets| == |t.buckets|
  {
    var i := Index(h, e.key, |t.buckets|);
    WithBucket(t, i, [e] + t.buckets[i], t.used + 1)
  }

  lemma {:induction false} PushOk<K, V>(h: K -> Word, t: Table<K, V>, e: Entry<K, V>)
    requires TableOk(h, t) && t.buckets != [] && Lookup(h, t, e.key) == None
    ensures TableOk(h, Push(h, t, e))
  {
    var i := Index(h, e.key, |t.buckets|);
    HasIff(t.buckets[i], e.key);
    WithBucketOk(h, t, i, [e] + t.buckets[i], t.used + 1);
  }

  lemma {:induction false} PushLookup<K, V>(h: K -> Word, t: Table<K, V>, e: Entry<K, V>, x: K)
    requires t.buckets != []
    ensures Lookup(h, Push(h, t, e), x) == if x == e.key then Some(e.val) else Lookup(h, t, x)
  {
    var i := Index(h, e.key, |t.buckets|);
    var c := [e] + t.buckets[i];
    WithBucketLookup(h, t, i, c, t.used + 1, x);
    assert c[1..] == t.buckets[i];
  }

  // -------------------------------------------------------------- whole state

  predicate Rehashing<K, V>(s: State<K, V>) { s.rehashidx != -1 }

  function Size<K, V>(s: State<K, V>): nat { s.h0.used + s.h1.used }

  function Get<K(==), V>(h: K -> Word, s: State<K, V>, k: K): Option<V>
  {
    var a := Lookup(h, s.h0, k);
    if a.Some? then a else Lookup(h, s.h1, k)
  }

  /** What every operation keeps. */
  ghost predicate Valid<K(!new), V>(h: K -> Word, s: State<K, V>)
  {
    && TableOk(h, s.h0) && TableOk(h, s.h1)
    && (forall k :: !(Lookup(h, s.h0, k).Some? && Lookup(h, s.h1, k).Some?))
    && if Rehashing(s) then
         && 0 <= s.rehashidx <= |s.h0.buckets|
         && s.h0.buckets != [] && s.h1.buckets != []
         && |s.h0.buckets| != |s.h1.buckets|
         && (forall i :: 0 <= i < s.rehashidx ==> s.h0.buckets[i] == [])
       else
         s.h1 == EmptyTable()
  }

  /** dictExpand */
  function Expand<K, V>(s: State<K, V>, size: nat): (State<K, V>, bool)
  {
    var realsize := NextPower(INITIAL_SIZE, size);
    if Rehashing(s) || s.h0.used > size then (s, false)
    else if realsize == |s.h0.buckets| then (s, false)
    else
      var n := Table(seq(realsize, i => []), 0);
      if s.h0.buckets == [] then (s.(h0 := n), true)
      else (s.(h1 := n, rehashidx := 0), true)
  }

  /** Move the entries of a chain, head first, into another table. */
  function MoveChain<K, V>(h: K -> Word, c: Chain<K, V>, t: Table<K, V>): (r: Table<K, V>)
    requires t.buckets != []
    ensures |r.buckets| == |t.buckets|
    decreases |c|
  {
    if c == [] then t else MoveChain(h, c[1..], Push(h, t, c[0]))
  }

  /** The first bucket from i on that is not empty, or where the budget of
      empty visits runs out. */
  function SkipEmpty<K, V>(b: seq<Chain<K, V>>, i: nat, visits: int): (r: (nat, int))
    requires i <= |b|
    ensures i <= r.0 <= |b|
    decreases |b| - i
  {
    if i == |b| || b[i] != [] then (i, visits)
    else if visits - 1 == 0 then (i + 1, 0)
    else SkipEmpty(b, i + 1, visits - 1)
  }

  /** Move bucket i of the old table. */
  function MoveBucket<K, V>(h: K -> Word, s: State<K, V>, i: nat): State<K, V>
    requires i < |s.h0.buckets| && s.h1.buckets != []
    requires s.h0.used >= |s.h0.buckets[i]|
  {
    var c := s.h0.buckets[i];
    State(WithBucket(s.h0, i, [], s.h0.used - |c|), MoveChain(h, c, s.h1), i + 1, s.iterators)
  }

  /** The old table is empty: the new one takes its place. */
  function Finish<K, V>(s: State<K, V>): (State<K, V>, bool)
  {
    if s.h0.used == 0 then (State(s.h1, EmptyTable(), -1, s.iterators), false) else (s, true)
  }

  function RehashLoop<K, V>(h: K -> Word, s: State<K, V>, n: nat, visits: int): (State<K, V>, bool)
    requires 0 <= s.rehashidx <= |s.h0.buckets| && s.h1.buckets != []
    decreases n
  {
    if n == 0 || s.h0.used == 0 then Finish(s)
    else
      var (i, left) := SkipEmpty(s.h0.buckets, s.rehashidx, visits);
      if left == 0 || i == |s.h0.buckets| || s.h0.used < |s.h0.buckets[i]| then (s.(rehashidx := i), true)
      else RehashLoop(h, MoveBucket(h, s, i), n - 1, left)
  }

  /** dictRehash: true when there is more to move. */
  function Rehash<K, V>(h: K -> Word, s: State<K, V>, n: nat): (State<K, V>, bool)
  {
    if !Rehashing(s) || !(0 <= s.rehashidx <= |s.h0.buckets|) || s.h1.buckets == [] then (s, false)
    else RehashLoop(h, s, n, 10 * n)
  }

  /** _dictRehashStep, called when a rehash is in progress. */
  function RehashStep<K, V>(h: K -> Word, s: State<K, V>): State<K, V>
  {
    if Rehashing(s) && s.iterators == 0 then Rehash(h, s, 1).0 else s
  }

  /** _dictExpandIfNeeded */
  function ExpandIfNeeded<K, V>(s: State<K, V>, canResize: bool): (State<K, V>, bool)
  {
    if Rehashing(s) then (s, true)
    else if s.h0.buckets == [] then Expand(s, INITIAL_SIZE)
    else if s.h0.used >= |s.h0.buckets| && (canResize || s.h0.used / |s.h0.buckets| > FORCE_RESIZE_RATIO)
    then Expand(s, s.h0.used * 2)
    else (s, true)
  }

  /** dictAdd */
  function Add<K(==), V>(h: K -> Word, s: State<K, V>, k: K, v: V, canResize: bool): (State<K, V>, bool)
  {
    var (s, ok) := ExpandIfNeeded(RehashStep(h, s), canResize);
    if !ok || Get(h, s, k).Some? then (s, false)
    else if Rehashing(s) then (if s.h1.buckets == [] then (s, false) else (s.(h1 := Push(h, s.h1, Entry(k, v))), true))
    else (if s.h0.buckets == [] then (s, false) else (s.(h0 := Push(h, s.h0, Entry(k, v))), true))
  }

  /** dictFind, which may move a bucket on the way. */
  function Find<K(==), V>(h: K -> Word, s: State<K, V>, k: K): (State<K, V>, Option<V>)
  {
    if s.h0.buckets == [] then (s, None)
    else var s := RehashStep(h, s); (s, Get(h, s, k))
  }

  function SetIn<K(==), V>(h: K -> Word, t: Table<K, V>, k: K, v: V): Table<K, V>
    requires Lookup(h, t, k).Some?
  {
    var i := Index(h, k, |t.buckets|);
    WithBucket(t, i, WithVal(t.buckets[i], k, v), t.used)
  }

  function Overwrite<K(==), V>(h: K -> Word, s: State<K, V>, k: K, v: V): State<K, V>
  {
    if Lookup(h, s.h0, k).Some? then s.(h0 := SetIn(h, s.h0, k, v))
    else if Lookup(h, s.h1, k).Some? then s.(h1 := SetIn(h, s.h1, k, v))
    else s
  }

  /** dictReplace: true when the key was added from scratch. */
  function Replace<K(==), V>(h: K -> Word, s: State<K, V>, k: K, v: V, canResize: bool): (State<K, V>, bool)
  {
    var (s, added) := Add(h, s, k, v, canResize);
    if added then (s, true)
    else
      (Overwrite(h, Find(h, s, k).0, k, v), false)
  }

  function DeleteIn<K(==), V>(h: K -> Word, t: Table<K, V>, k: K): Table<K, V>
    requires Lookup(h, t, k).Some? && t.used > 0
  {
    var i := Index(h, k, |t.buckets|);
    WithBucket(t, i, Without(t.buckets[i], k), t.used - 1)
  }

  /** dictGenericDelete */
  function Delete<K(==), V>(h: K -> Word, s: State<K, V>, k: K): (State<K, V>, bool)
  {
    if s.h0.buckets == [] then (s, false)
    else
      var s := RehashStep(h, s);
      if Lookup(h, s.h0, k).Some? && s.h0.used > 0 then (s.(h0 := DeleteIn(h, s.h0, k)), true)
      else if Rehashing(s) && Lookup(h, s.h1, k).Some? && s.h1.used > 0 then (s.(h1 := DeleteIn(h, s.h1, k)), true)
      else (s, false)
  }

  /** dictResize */
  function Resize<K, V>(s: State<K, V>, canResize: bool): (State<K, V>, bool)
  {
    if !canResize || Rehashing(s) then (s, false)
    else Expand(s, if s.h0.used < INITIAL_SIZE then INITIAL_SIZE else s.h0.used)
  }
}
