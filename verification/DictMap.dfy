/** The dictionary of src/dict.c is a finite map: every operation keeps the
    representation valid, and over any run of operations the replies and the
    contents are those of a map.
 */
module DictMap {
  import opened Options
  import opened Words
  import opened DictSpec

  // ------------------------------------------------------------------- resize

  lemma {:induction false} EmptyTotal<K, V>(b: seq<Chain<K, V>>)
    requires forall i :: 0 <= i < |b| ==> b[i] == []
    ensures Total(b) == 0
  {
    TotalZero(b);
  }

  lemma {:induction false} ExpandKeeps<K(!new), V>(h: K -> Word, s: State<K, V>, size: nat)
    requires Valid(h, s)
    ensures Valid(h, Expand(s, size).0)
    ensures forall k :: Get(h, Expand(s, size).0, k) == Get(h, s, k)
    ensures Size(Expand(s, size).0) == Size(s)
  {
    var r := NextPower(INITIAL_SIZE, size);
    assert IsPow2(4) by { assert IsPow2(2); }
    NextPowerIsPow2(INITIAL_SIZE, size);
    var n: Table<K, V> := Table(seq(r, i => []), 0);
    EmptyTotal(n.buckets);
    var s' := Expand(s, size).0;
    assert forall k :: Lookup(h, n, k) == None;
    if s.h0.buckets == [] && s' != s {
      assert forall k :: Lookup(h, s.h0, k) == None;
    }
  }

  /** Adding never fails for lack of room: the table that must grow does. */
  lemma {:induction false} ExpandIfNeededWorks<K(!new), V>(h: K -> Word, s: State<K, V>, canResize: bool)
    requires Valid(h, s)
    ensures ExpandIfNeeded(s, canResize).1
    ensures ExpandIfNeeded(s, canResize).0.h0.buckets != []
  {
    if !Rehashing(s) && s.h0.buckets != [] && s.h0.used >= |s.h0.buckets| {
      assert NextPower(INITIAL_SIZE, s.h0.used * 2) >= s.h0.used * 2 > |s.h0.buckets|;
    }
  }

  // ------------------------------------------------------------------- rehash

  ghost predicate Fresh<K, V>(h: K -> Word, c: Chain<K, V>, t: Table<K, V>)
  {
    forall i :: 0 <= i < |c| ==> Lookup(h, t, c[i].key) == None
  }

  lemma {:induction false} MoveChainOk<K, V>(h: K -> Word, c: Chain<K, V>, t: Table<K, V>)
    requires t.buckets != [] && TableOk(h, t) && Distinct(c) && Fresh(h, c, t)
    ensures TableOk(h, MoveChain(h, c, t))
    ensures MoveChain(h, c, t).used == t.used + |c|
    decreases |c|
  {
    if c != [] {
      PushOk(h, t, c[0]);
      var t' := Push(h, t, c[0]);
      forall i | 0 <= i < |c[1..]| ensures Lookup(h, t', c[1..][i].key) == None {
        PushLookup(h, t, c[0], c[i + 1].key);
      }
      MoveChainOk(h, c[1..], t');
    }
  }

  lemma {:induction false} MoveChainLookup<K, V>(h: K -> Word, c: Chain<K, V>, t: Table<K, V>, x: K)
    requires t.buckets != [] && Distinct(c)
    ensures Lookup(h, MoveChain(h, c, t), x) == if Has(c, x) then ValueIn(c, x) else Lookup(h, t, x)
    decreases |c|
  {
    if c != [] {
      MoveChainLookup(h, c[1..], Push(h, t, c[0]), x);
      PushLookup(h, t, c[0], x);
      HasIff(c[1..], x);
    }
  }

  lemma {:induction false} SkipEmptyFinds<K, V>(b: seq<Chain<K, V>>, i: nat, visits: int)
    requires i <= |b| && visits > 0
    ensures var (j, left) := SkipEmpty(b, i, visits);
            && (forall x :: i <= x < j ==> b[x] == [])
            && left >= 0
            && (left > 0 && j < |b| ==> b[j] != [])
            && left == visits - (j - i)
    decreases |b| - i
  {
    if i < |b| && b[i] == [] && visits > 1 {
      SkipEmptyFinds(b, i + 1, visits - 1);
    }
  }

  /** While the old table holds entries, they are ahead of the empty buckets. */
  lemma {:induction false} EmptyFrom<K(!new), V>(h: K -> Word, s: State<K, V>, i: nat)
    requires Valid(h, s) && Rehashing(s) && s.h0.used != 0 && s.rehashidx <= i <= |s.h0.buckets|
    requires forall x :: s.rehashidx <= x < i ==> s.h0.buckets[x] == []
    ensures i < |s.h0.buckets|
  {
    if i == |s.h0.buckets| { EmptyTotal(s.h0.buckets); }
  }

  /** Moving a bucket changes where its entries are, not what the map holds. */
  lemma {:induction false} MoveBucketKeeps<K(!new), V>(h: K -> Word, s: State<K, V>, i: nat)
    requires Valid(h, s) && Rehashing(s) && s.rehashidx <= i < |s.h0.buckets|
    requires forall x :: s.rehashidx <= x < i ==> s.h0.buckets[x] == []
    ensures s.h0.used >= |s.h0.buckets[i]|
    ensures Valid(h, MoveBucket(h, s, i))
    ensures forall k :: Get(h, MoveBucket(h, s, i), k) == Get(h, s, k)
    ensures Size(MoveBucket(h, s, i)) == Size(s)
  {
    TotalSlice(s.h0.buckets, i);
    var c := s.h0.buckets[i];
    var s' := MoveBucket(h, s, i);
    forall j | 0 <= j < |c| ensures Lookup(h, s.h1, c[j].key) == None {
      FindByKey(c, j);
      assert Lookup(h, s.h0, c[j].key).Some?;
    }
    WithBucketOk(h, s.h0, i, [], s.h0.used - |c|);
    MoveChainOk(h, c, s.h1);
    forall k
      ensures Get(h, s', k) == Get(h, s, k)
      ensures !(Lookup(h, s'.h0, k).Some? && Lookup(h, s'.h1, k).Some?)
    {
      WithBucketLookup(h, s.h0, i, [], s.h0.used - |c|, k);
      MoveChainLookup(h, c, s.h1, k);
      if Has(c, k) {
        assert c[PosOf(c, k)].key == k;
        assert Index(h, k, |s.h0.buckets|) == i;
      }
    }
  }

  lemma {:induction false} FinishKeeps<K(!new), V>(h: K -> Word, s: State<K, V>)
    requires Valid(h, s) && Rehashing(s)
    ensures Valid(h, Finish(s).0)
    ensures forall k :: Get(h, Finish(s).0, k) == Get(h, s, k)
    ensures Size(Finish(s).0) == Size(s)
    ensures Finish(s).1 <==> Rehashing(Finish(s).0)
  {
    if s.h0.used == 0 {
      TotalZero(s.h0.buckets);
      assert forall k :: Lookup(h, s.h0, k) == None;
    }
  }

  lemma {:induction false} SkipIdxKeeps<K(!new), V>(h: K -> Word, s: State<K, V>, i: nat)
    requires Valid(h, s) && Rehashing(s) && s.rehashidx <= i <= |s.h0.buckets|
    requires forall x :: s.rehashidx <= x < i ==> s.h0.buckets[x] == []
    ensures Valid(h, s.(rehashidx := i))
  {
  }

  /** The same map, in another state. */
  ghost predicate SameMap<K(!new), V>(h: K -> Word, s: State<K, V>, s': State<K, V>)
  {
    Valid(h, s') && (forall k :: Get(h, s', k) == Get(h, s, k)) && Size(s') == Size(s)
  }

  lemma {:induction false} SameMapThen<K(!new), V>(h: K -> Word, s: State<K, V>, s1: State<K, V>, s2: State<K, V>)
    requires SameMap(h, s, s1) && SameMap(h, s1, s2)
    ensures SameMap(h, s, s2)
  {
  }

  /** One round of the rehashing loop: it stops, or a bucket is moved and it goes on. */
  lemma {:induction false} RehashRound<K(!new), V>(h: K -> Word, s: State<K, V>, n: nat, visits: int)
      returns (on: bool, s1: State<K, V>, left: int)
    requires Valid(h, s) && Rehashing(s) && visits > 0
    ensures on ==> n > 0 && left > 0 && SameMap(h, s, s1) && Rehashing(s1)
    ensures on ==> RehashLoop(h, s, n, visits) == RehashLoop(h, s1, n - 1, left)
    ensures !on ==> RehashLoop(h, s, n, visits) == (s1, Rehashing(s1)) && SameMap(h, s, s1)
  {
    if n == 0 || s.h0.used == 0 {
      FinishKeeps(h, s);
      return false, Finish(s).0, 0;
    }
    var (i, more) := SkipEmpty(s.h0.buckets, s.rehashidx, visits);
    SkipEmptyFinds(s.h0.buckets, s.rehashidx, visits);
    if more == 0 {
      SkipIdxKeeps(h, s, i);
      return false, s.(rehashidx := i), 0;
    }
    EmptyFrom(h, s, i);
    MoveBucketKeeps(h, s, i);
    return true, MoveBucket(h, s, i), more;
  }

  lemma {:induction false} RehashLoopKeeps<K(!new), V>(h: K -> Word, s: State<K, V>, n: nat, visits: int)
    requires Valid(h, s) && Rehashing(s) && visits > 0
    ensures SameMap(h, s, RehashLoop(h, s, n, visits).0)
    ensures RehashLoop(h, s, n, visits).1 <==> Rehashing(RehashLoop(h, s, n, visits).0)
    decreases n
  {
    var on, s1, left := RehashRound(h, s, n, visits);
    if on {
      RehashLoopKeeps(h, s1, n - 1, left);
      SameMapThen(h, s, s1, RehashLoop(h, s1, n - 1, left).0);
    }
  }

  /** dictRehash keeps the map, and says truly whether there is more to do. */
  lemma {:induction false} RehashKeeps<K(!new), V>(h: K -> Word, s: State<K, V>, n: nat)
    requires Valid(h, s)
    ensures Valid(h, Rehash(h, s, n).0)
    ensures forall k :: Get(h, Rehash(h, s, n).0, k) == Get(h, s, k)
    ensures Size(Rehash(h, s, n).0) == Size(s)
    ensures Rehash(h, s, n).1 <==> Rehashing(Rehash(h, s, n).0)
  {
    if Rehashing(s) {
      if n == 0 { FinishKeeps(h, s); } else { RehashLoopKeeps(h, s, n, 10 * n); }
    }
  }

  lemma {:induction false} RehashLoopAdvances<K(!new), V>(h: K -> Word, s: State<K, V>, n: nat, visits: int)
    requires Valid(h, s) && Rehashing(s) && visits > 0
    ensures var (s', more) := RehashLoop(h, s, n, visits);
            more ==>
              && |s'.h0.buckets| == |s.h0.buckets| && s'.h0.used > 0
              && s'.rehashidx >= s.rehashidx + (if n < visits then n else visits)
    decreases n
  {
    if n > 0 && s.h0.used > 0 {
      var (i, left) := SkipEmpty(s.h0.buckets, s.rehashidx, visits);
      SkipEmptyFinds(s.h0.buckets, s.rehashidx, visits);
      if left > 0 {
        EmptyFrom(h, s, i);
        MoveBucketKeeps(h, s, i);
        RehashLoopAdvances(h, MoveBucket(h, s, i), n - 1, left);
      }
    }
  }

  /** n steps of rehashing go past n buckets of the old table, or end with it. */
  lemma {:induction false} RehashAdvances<K(!new), V>(h: K -> Word, s: State<K, V>, n: nat)
    requires Valid(h, s) && Rehashing(s) && n > 0
    ensures var (s', more) := Rehash(h, s, n);
            more ==> |s'.h0.buckets| == |s.h0.buckets| && s.rehashidx + n <= s'.rehashidx < |s'.h0.buckets|
  {
    RehashLoopAdvances(h, s, n, 10 * n);
    RehashKeeps(h, s, n);
    var (s', more) := Rehash(h, s, n);
    if more { EmptyFrom(h, s', s'.rehashidx); }
  }

  lemma {:induction false} RehashStepKeeps<K(!new), V>(h: K -> Word, s: State<K, V>)
    requires Valid(h, s)
    ensures Valid(h, RehashStep(h, s))
    ensures forall k :: Get(h, RehashStep(h, s), k) == Get(h, s, k)
    ensures Size(RehashStep(h, s)) == Size(s)
  {
    RehashKeeps(h, s, 1);
  }

  /** A dictionary that has a table goes on having one. */
  lemma {:induction false} TableRemains<K(!new), V>(h: K -> Word, s: State<K, V>)
    requires Valid(h, s) && s.h0.buckets != []
    ensures RehashStep(h, s).h0.buckets != []
  {
    RehashStepKeeps(h, s);
    if Rehashing(s) && s.iterators == 0 { RehashLoopTables(h, s, 1, 10); }
  }

  lemma {:induction false} RehashLoopTables<K, V>(h: K -> Word, s: State<K, V>, n: nat, visits: int)
    requires 0 <= s.rehashidx <= |s.h0.buckets| && s.h0.buckets != [] && s.h1.buckets != []
    ensures RehashLoop(h, s, n, visits).0.h0.buckets != []
    decreases n
  {
    if n > 0 && s.h0.used > 0 {
      var (i, left) := SkipEmpty(s.h0.buckets, s.rehashidx, visits);
      if left != 0 && i < |s.h0.buckets| && s.h0.used >= |s.h0.buckets[i]| {
        RehashLoopTables(h, MoveBucket(h, s, i), n - 1, left);
      }
    }
  }

  lemma {:induction false} LookupCounts<K, V>(h: K -> Word, t: Table<K, V>, k: K)
    requires TableOk(h, t) && Lookup(h, t, k).Some?
    ensures t.used > 0
  {
    TotalSlice(t.buckets, Index(h, k, |t.buckets|));
  }

  // --------------------------------------------------------- the map it stands for

  ghost predicate Represents<K(!new), V>(h: K -> Word, s: State<K, V>, m: map<K, V>)
  {
    && Valid(h, s)
    && (forall k :: Get(h, s, k) == if k in m then Some(m[k]) else None)
    && Size(s) == |m|
  }

  /** The table t' differs from t, as a map, at most at key k. */
  ghost predicate DiffersAt<K(!new), V>(h: K -> Word, t: Table<K, V>, t': Table<K, V>, k: K)
  {
    && TableOk(h, t')
    && |t'.buckets| == |t.buckets|
    && forall x :: x != k ==> Lookup(h, t', x) == Lookup(h, t, x)
  }

  ghost predicate MapDiffersAt<K(!new), V>(m: map<K, V>, m': map<K, V>, k: K)
  {
    forall x :: x != k ==> (x in m' <==> x in m) && (x in m ==> m'[x] == m[x])
  }

  lemma {:induction false} ChangeOld<K(!new), V>(h: K -> Word, s: State<K, V>, m: map<K, V>, t: Table<K, V>,
      m': map<K, V>, k: K)
    requires Represents(h, s, m) && DiffersAt(h, s.h0, t, k) && MapDiffersAt(m, m', k)
    requires Lookup(h, s.h1, k) == None
    requires Lookup(h, t, k) == if k in m' then Some(m'[k]) else None
    requires t.used - s.h0.used == |m'| - |m|
    requires forall i :: 0 <= i < s.rehashidx ==> t.buckets[i] == []
    ensures Represents(h, s.(h0 := t), m')
  {
    var s' := s.(h0 := t);
    forall x
      ensures Get(h, s', x) == if x in m' then Some(m'[x]) else None
      ensures !(Lookup(h, t, x).Some? && Lookup(h, s.h1, x).Some?)
    {
      if x != k { assert Get(h, s', x) == Get(h, s, x); }
    }
  }

  /** What is looked up once one key of the new table is changed. */
  lemma {:induction false} ChangeNewAt<K(!new), V>(h: K -> Word, s: State<K, V>, m: map<K, V>, t: Table<K, V>,
      m': map<K, V>, k: K, x: K)
    requires Represents(h, s, m) && Rehashing(s) && DiffersAt(h, s.h1, t, k) && MapDiffersAt(m, m', k)
    requires Lookup(h, s.h0, k) == None
    requires Lookup(h, t, k) == if k in m' then Some(m'[k]) else None
    ensures Get(h, s.(h1 := t), x) == if x in m' then Some(m'[x]) else None
    ensures !(Lookup(h, s.h0, x).Some? && Lookup(h, t, x).Some?)
  {
    if x != k {
      assert Lookup(h, t, x) == Lookup(h, s.h1, x);
      assert Get(h, s, x) == if x in m then Some(m[x]) else None;
    }
  }

  lemma {:induction false} NewTable<K(!new), V>(h: K -> Word, s: State<K, V>, t: Table<K, V>, s': State<K, V>,
      m': map<K, V>)
    requires Valid(h, s) && Rehashing(s) && TableOk(h, t) && |t.buckets| == |s.h1.buckets| && s' == s.(h1 := t)
    requires forall x :: Get(h, s', x) == if x in m' then Some(m'[x]) else None
    requires forall x :: !(Lookup(h, s.h0, x).Some? && Lookup(h, t, x).Some?)
    requires Size(s') == |m'|
    ensures Represents(h, s', m')
  {
  }

  lemma {:induction false} ChangeNew<K(!new), V>(h: K -> Word, s: State<K, V>, m: map<K, V>, t: Table<K, V>,
      m': map<K, V>, k: K)
    requires Represents(h, s, m) && Rehashing(s) && DiffersAt(h, s.h1, t, k) && MapDiffersAt(m, m', k)
    requires Lookup(h, s.h0, k) == None
    requires Lookup(h, t, k) == if k in m' then Some(m'[k]) else None
    requires t.used - s.h1.used == |m'| - |m|
    ensures Represents(h, s.(h1 := t), m')
  {
    var s' := s.(h1 := t);
    forall x
      ensures Get(h, s', x) == if x in m' then Some(m'[x]) else None
      ensures !(Lookup(h, s.h0, x).Some? && Lookup(h, t, x).Some?)
    {
      ChangeNewAt(h, s, m, t, m', k, x);
    }
    NewTable(h, s, t, s', m');
  }

  lemma {:induction false} PushDiffers<K(!new), V>(h: K -> Word, t: Table<K, V>, k: K, v: V)
    requires TableOk(h, t) && t.buckets != [] && Lookup(h, t, k) == None
    ensures DiffersAt(h, t, Push(h, t, Entry(k, v)), k)
    ensures Lookup(h, Push(h, t, Entry(k, v)), k) == Some(v)
  {
    PushOk(h, t, Entry(k, v));
    PushLookup(h, t, Entry(k, v), k);
    forall x | x != k ensures Lookup(h, Push(h, t, Entry(k, v)), x) == Lookup(h, t, x) {
      PushLookup(h, t, Entry(k, v), x);
    }
  }

  lemma {:induction false} PushKeeps<K(!new), V>(h: K -> Word, s: State<K, V>, m: map<K, V>, k: K, v: V)
    requires Represents(h, s, m) && k !in m && s.h0.buckets != []
    ensures Represents(h, if Rehashing(s) then s.(h1 := Push(h, s.h1, Entry(k, v)))
                          else s.(h0 := Push(h, s.h0, Entry(k, v))), m[k := v])
  {
    assert Get(h, s, k) == None;
    assert m[k := v].Keys == m.Keys + {k};
    if Rehashing(s) {
      PushDiffers(h, s.h1, k, v);
      ChangeNew(h, s, m, Push(h, s.h1, Entry(k, v)), m[k := v], k);
    } else {
      PushDiffers(h, s.h0, k, v);
      ChangeOld(h, s, m, Push(h, s.h0, Entry(k, v)), m[k := v], k);
    }
  }

  lemma {:induction false} GrowKeeps<K(!new), V>(h: K -> Word, s: State<K, V>, m: map<K, V>, canResize: bool)
    requires Represents(h, s, m)
    ensures Represents(h, ExpandIfNeeded(RehashStep(h, s), canResize).0, m)
  {
    RehashStepKeeps(h, s);
    var s1 := RehashStep(h, s);
    ExpandKeeps(h, s1, INITIAL_SIZE);
    ExpandKeeps(h, s1, s1.h0.used * 2);
  }

  /** The growth step of an insertion leaves a table to insert into. */
  ghost predicate Grows<K, V>(h: K -> Word, s: State<K, V>, canResize: bool)
  {
    var (s', ok) := ExpandIfNeeded(RehashStep(h, s), canResize);
    ok && s'.h0.buckets != [] && (Rehashing(s') ==> s'.h1.buckets != [])
  }

  lemma {:induction false} GrowWorks<K(!new), V>(h: K -> Word, s: State<K, V>, canResize: bool)
    requires Valid(h, s)
    ensures Grows(h, s, canResize)
  {
    RehashStepKeeps(h, s);
    ExpandIfNeededWorks(h, RehashStep(h, s), canResize);
  }

  lemma {:induction false} AddIsMapAdd<K(!new), V>(h: K -> Word, s: State<K, V>, m: map<K, V>, k: K, v: V,
      canResize: bool)
    requires Represents(h, s, m)
    ensures var (s', ok) := Add(h, s, k, v, canResize);
            && ok == (k !in m)
            && Represents(h, s', if ok then m[k := v] else m)
  {
    RehashStepKeeps(h, s);
    GrowKeeps(h, s, m, canResize);
    ExpandIfNeededWorks(h, RehashStep(h, s), canResize);
    if k !in m {
      PushKeeps(h, ExpandIfNeeded(RehashStep(h, s), canResize).0, m, k, v);
    }
  }

  /** What adding relies on, and what it leaves. */
  lemma {:induction false} AddWorks<K(!new), V>(h: K -> Word, s: State<K, V>, m: map<K, V>, k: K, v: V, canResize: bool)
      returns (m': map<K, V>)
    requires Represents(h, s, m)
    ensures Valid(h, s) && Grows(h, s, canResize)
    ensures m' == (if k in m then m else m[k := v]) && Represents(h, Add(h, s, k, v, canResize).0, m')
    ensures Add(h, s, k, v, canResize).1 == (k !in m)
  {
    GrowWorks(h, s, canResize);
    AddIsMapAdd(h, s, m, k, v, canResize);
    m' := if k in m then m else m[k := v];
  }

  lemma {:induction false} FindIsMapFind<K(!new), V>(h: K -> Word, s: State<K, V>, m: map<K, V>, k: K)
    requires Represents(h, s, m)
    ensures var (s', r) := Find(h, s, k);
            && r == (if k in m then Some(m[k]) else None)
            && Represents(h, s', m)
  {
    RehashStepKeeps(h, s);
    if s.h0.buckets == [] { assert Get(h, s, k) == None; }
  }

  lemma {:induction false} SetInDiffers<K(!new), V>(h: K -> Word, t: Table<K, V>, k: K, v: V)
    requires TableOk(h, t) && Lookup(h, t, k).Some?
    ensures DiffersAt(h, t, SetIn(h, t, k, v), k)
    ensures Lookup(h, SetIn(h, t, k, v), k) == Some(v)
  {
    var i := Index(h, k, |t.buckets|);
    var c := WithVal(t.buckets[i], k, v);
    WithValValue(t.buckets[i], k, v, k);
    WithBucketOk(h, t, i, c, t.used);
    forall x | x != k ensures Lookup(h, SetIn(h, t, k, v), x) == Lookup(h, t, x) {
      WithValValue(t.buckets[i], k, v, x);
      WithBucketLookup(h, t, i, c, t.used, x);
    }
  }

  lemma {:induction false} SetKeeps<K(!new), V>(h: K -> Word, s: State<K, V>, m: map<K, V>, k: K, v: V)
    requires Represents(h, s, m) && k in m
    ensures Represents(h, Overwrite(h, s, k, v), m[k := v])
  {
    assert Get(h, s, k).Some?;
    assert m[k := v].Keys == m.Keys;
    if Lookup(h, s.h0, k).Some? {
      SetInDiffers(h, s.h0, k, v);
      ChangeOld(h, s, m, SetIn(h, s.h0, k, v), m[k := v], k);
    } else {
      SetInDiffers(h, s.h1, k, v);
      ChangeNew(h, s, m, SetIn(h, s.h1, k, v), m[k := v], k);
    }
  }

  lemma {:induction false} ReplaceIsMapUpdate<K(!new), V>(h: K -> Word, s: State<K, V>, m: map<K, V>, k: K, v: V,
      canResize: bool)
    requires Represents(h, s, m)
    ensures var (s', fromScratch) := Replace(h, s, k, v, canResize);
            && fromScratch == (k !in m)
            && Represents(h, s', m[k := v])
  {
    AddIsMapAdd(h, s, m, k, v, canResize);
    if k in m {
      var s1 := Add(h, s, k, v, canResize).0;
      FindIsMapFind(h, s1, m, k);
      SetKeeps(h, Find(h, s1, k).0, m, k, v);
    }
  }

  /** What replacing relies on: there is a table to insert into, and the attempt to add
      leaves a valid dictionary. */
  lemma {:induction false} ReplaceWorks<K(!new), V>(h: K -> Word, s: State<K, V>, m: map<K, V>, k: K, v: V,
      canResize: bool)
    requires Represents(h, s, m)
    ensures Grows(h, s, canResize) && Valid(h, Add(h, s, k, v, canResize).0)
  {
    AddIsMapAdd(h, s, m, k, v, canResize);
    GrowWorks(h, s, canResize);
  }

  lemma {:induction false} DeleteInDiffers<K(!new), V>(h: K -> Word, t: Table<K, V>, k: K)
    requires TableOk(h, t) && Lookup(h, t, k).Some?
    ensures t.used > 0
    ensures DiffersAt(h, t, DeleteIn(h, t, k), k)
    ensures Lookup(h, DeleteIn(h, t, k), k) == None
    ensures forall i :: 0 <= i < |t.buckets| && t.buckets[i] == [] ==> DeleteIn(h, t, k).buckets[i] == []
  {
    var i := Index(h, k, |t.buckets|);
    var c := t.buckets[i];
    TotalSlice(t.buckets, i);
    WithoutValue(c, k, k);
    var w := Without(c, k);
    assert forall j :: 0 <= j < |w| ==> w[j] == c[if j < PosOf(c, k) then j else j + 1];
    WithBucketOk(h, t, i, w, t.used - 1);
    forall x | x != k ensures Lookup(h, DeleteIn(h, t, k), x) == Lookup(h, t, x) {
      WithoutValue(c, k, x);
      WithBucketLookup(h, t, i, w, t.used - 1, x);
    }
  }

  lemma {:induction false} MapRemove<K(!new), V>(m: map<K, V>, k: K)
    requires k in m
    ensures |m - {k}| == |m| - 1 && MapDiffersAt(m, m - {k}, k)
  {
    assert (m - {k}).Keys == m.Keys - {k};
  }

  lemma {:induction false} RemoveOld<K(!new), V>(h: K -> Word, s: State<K, V>, m: map<K, V>, k: K)
    requires Represents(h, s, m) && k in m && Lookup(h, s.h0, k).Some?
    ensures s.h0.used > 0 && Represents(h, s.(h0 := DeleteIn(h, s.h0, k)), m - {k})
  {
    MapRemove(m, k);
    DeleteInDiffers(h, s.h0, k);
    ChangeOld(h, s, m, DeleteIn(h, s.h0, k), m - {k}, k);
  }

  lemma {:induction false} RemoveNew<K(!new), V>(h: K -> Word, s: State<K, V>, m: map<K, V>, k: K)
    requires Represents(h, s, m) && k in m && Lookup(h, s.h0, k).None?
    ensures Rehashing(s) && Lookup(h, s.h1, k).Some? && s.h1.used > 0
    ensures Represents(h, s.(h1 := DeleteIn(h, s.h1, k)), m - {k})
  {
    assert Get(h, s, k).Some?;
    MapRemove(m, k);
    DeleteInDiffers(h, s.h1, k);
    ChangeNew(h, s, m, DeleteIn(h, s.h1, k), m - {k}, k);
  }

  lemma {:induction false} StepRepresents<K(!new), V>(h: K -> Word, s: State<K, V>, m: map<K, V>)
    requires Represents(h, s, m)
    ensures Represents(h, RehashStep(h, s), m)
  {
    RehashStepKeeps(h, s);
  }

  /** A key that is not there is not in either table. */
  lemma {:induction false} Absent<K(!new), V>(h: K -> Word, s: State<K, V>, m: map<K, V>, k: K)
    requires Represents(h, s, m)
    ensures s.h0.buckets == [] ==> k !in m
    ensures k !in m ==> Lookup(h, s.h0, k).None? && (Rehashing(s) ==> Lookup(h, s.h1, k).None?) && m - {k} == m
  {
    assert Get(h, s, k) == if k in m then Some(m[k]) else None;
  }

  lemma {:induction false} DeleteIsMapRemove<K(!new), V>(h: K -> Word, s: State<K, V>, m: map<K, V>, k: K)
    requires Represents(h, s, m)
    ensures var (s', ok) := Delete(h, s, k);
            && ok == (k in m)
            && Represents(h, s', m - {k})
  {
    var s1 := RehashStep(h, s);
    StepRepresents(h, s, m);
    Absent(h, s, m, k);
    Absent(h, s1, m, k);
    if k in m {
      if Lookup(h, s1.h0, k).Some? {
        RemoveOld(h, s1, m, k);
      } else {
        RemoveNew(h, s1, m, k);
      }
    }
  }

  // --------------------------------------------------------------- whole runs

  /** The public operations, with the global dict_can_resize flag they read. */
  datatype Op<K, V> =
    | DoAdd(key: K, val: V, canResize: bool)
    | DoReplace(key: K, val: V, canResize: bool)
    | DoDelete(key: K)
    | DoFind(key: K)
    | DoExpand(size: nat)
    | DoResize(canResize: bool)
    | DoRehash(n: nat)
    | DoIterators(count: nat)

  datatype Reply<V> = Code(ok: bool) | Found(value: Option<V>) | Nothing

  function Step<K(==), V>(h: K -> Word, s: State<K, V>, op: Op<K, V>): (State<K, V>, Reply<V>)
  {
    match op
    case DoAdd(k, v, cr) => var (s', ok) := Add(h, s, k, v, cr); (s', Code(ok))
    case DoReplace(k, v, cr) => var (s', ok) := Replace(h, s, k, v, cr); (s', Code(ok))
    case DoDelete(k) => var (s', ok) := Delete(h, s, k); (s', Code(ok))
    case DoFind(k) => var (s', r) := Find(h, s, k); (s', Found(r))
    case DoExpand(size) => (Expand(s, size).0, Nothing)
    case DoResize(cr) => (Resize(s, cr).0, Nothing)
    case DoRehash(n) => (Rehash(h, s, n).0, Nothing)
    case DoIterators(n) => (s.(iterators := n), Nothing)
  }

  /** The same operations on a map. */
  function MapStep<K(==), V>(m: map<K, V>, op: Op<K, V>): (map<K, V>, Reply<V>)
  {
    match op
    case DoAdd(k, v, _) => if k in m then (m, Code(false)) else (m[k := v], Code(true))
    case DoReplace(k, v, _) => (m[k := v], Code(k !in m))
    case DoDelete(k) => (m - {k}, Code(k in m))
    case DoFind(k) => (m, Found(if k in m then Some(m[k]) else None))
    case _ => (m, Nothing)
  }

  lemma {:induction false} ResizeKeeps<K(!new), V>(h: K -> Word, s: State<K, V>, m: map<K, V>, size: nat)
    requires Represents(h, s, m)
    ensures Represents(h, Expand(s, size).0, m)
  {
    ExpandKeeps(h, s, size);
  }

  lemma {:induction false} RehashRepresents<K(!new), V>(h: K -> Word, s: State<K, V>, m: map<K, V>, n: nat)
    requires Represents(h, s, m)
    ensures Represents(h, Rehash(h, s, n).0, m)
  {
    RehashKeeps(h, s, n);
  }

  lemma {:induction false} IteratorsKeep<K(!new), V>(h: K -> Word, s: State<K, V>, m: map<K, V>, n: nat)
    requires Represents(h, s, m)
    ensures Represents(h, s.(iterators := n), m)
  {
    assert forall k :: Get(h, s.(iterators := n), k) == Get(h, s, k);
  }

  /** What a step leaves and replies is what the same step of the map does. */
  ghost predicate Refines<K(!new), V>(h: K -> Word, s: State<K, V>, m: map<K, V>, op: Op<K, V>)
  {
    Represents(h, Step(h, s, op).0, MapStep(m, op).0) && Step(h, s, op).1 == MapStep(m, op).1
  }

  lemma {:induction false} RefinesBy<K(!new), V>(h: K -> Word, s: State<K, V>, m: map<K, V>, op: Op<K, V>,
      s': State<K, V>, m': map<K, V>, r: Reply<V>)
    requires Step(h, s, op) == (s', r) && MapStep(m, op) == (m', r) && Represents(h, s', m')
    ensures Refines(h, s, m, op)
  {
  }

  lemma {:induction false} AddRefines<K(!new), V>(h: K -> Word, s: State<K, V>, m: map<K, V>, op: Op<K, V>)
    requires Represents(h, s, m) && op.DoAdd?
    ensures Refines(h, s, m, op)
  {
    AddIsMapAdd(h, s, m, op.key, op.val, op.canResize);
  }

  lemma {:induction false} ReplaceRefines<K(!new), V>(h: K -> Word, s: State<K, V>, m: map<K, V>, op: Op<K, V>)
    requires Represents(h, s, m) && op.DoReplace?
    ensures Refines(h, s, m, op)
  {
    ReplaceIsMapUpdate(h, s, m, op.key, op.val, op.canResize);
  }

  lemma {:induction false} DeleteRefines<K(!new), V>(h: K -> Word, s: State<K, V>, m: map<K, V>, op: Op<K, V>)
    requires Represents(h, s, m) && op.DoDelete?
    ensures Refines(h, s, m, op)
  {
    DeleteIsMapRemove(h, s, m, op.key);
    var (s', ok) := Delete(h, s, op.key);
    RefinesBy(h, s, m, op, s', m - {op.key}, Code(ok));
  }

  lemma {:induction false} FindRefines<K(!new), V>(h: K -> Word, s: State<K, V>, m: map<K, V>, op: Op<K, V>)
    requires Represents(h, s, m) && op.DoFind?
    ensures Refines(h, s, m, op)
  {
    FindIsMapFind(h, s, m, op.key);
    var (s', r) := Find(h, s, op.key);
    RefinesBy(h, s, m, op, s', m, Found(r));
  }

  lemma {:induction false} ResizeRepresents<K(!new), V>(h: K -> Word, s: State<K, V>, m: map<K, V>, canResize: bool)
    requires Represents(h, s, m)
    ensures Represents(h, Resize(s, canResize).0, m)
  {
    ResizeKeeps(h, s, m, if s.h0.used < INITIAL_SIZE then INITIAL_SIZE else s.h0.used);
  }

  lemma {:induction false} ExpandRefines<K(!new), V>(h: K -> Word, s: State<K, V>, m: map<K, V>, op: Op<K, V>)
    requires Represents(h, s, m) && op.DoExpand?
    ensures Refines(h, s, m, op)
  {
    ResizeKeeps(h, s, m, op.size);
    RefinesBy(h, s, m, op, Expand(s, op.size).0, m, Nothing);
  }

  lemma {:induction false} ResizeRefines<K(!new), V>(h: K -> Word, s: State<K, V>, m: map<K, V>, op: Op<K, V>)
    requires Represents(h, s, m) && op.DoResize?
    ensures Refines(h, s, m, op)
  {
    ResizeRepresents(h, s, m, op.canResize);
    RefinesBy(h, s, m, op, Resize(s, op.canResize).0, m, Nothing);
  }

  lemma {:induction false} OtherRefines<K(!new), V>(h: K -> Word, s: State<K, V>, m: map<K, V>, op: Op<K, V>)
    requires Represents(h, s, m) && (op.DoRehash? || op.DoIterators?)
    ensures Refines(h, s, m, op)
  {
    match op
    case DoRehash(n) =>
      RehashRepresents(h, s, m, n);
      RefinesBy(h, s, m, op, Rehash(h, s, n).0, m, Nothing);
    case DoIterators(n) =>
      IteratorsKeep(h, s, m, n);
      RefinesBy(h, s, m, op, s.(iterators := n), m, Nothing);
  }

  lemma {:induction false} StepRefines<K(!new), V>(h: K -> Word, s: State<K, V>, m: map<K, V>, op: Op<K, V>)
    requires Represents(h, s, m)
    ensures Refines(h, s, m, op)
  {
    match op
    case DoAdd(_, _, _) => AddRefines(h, s, m, op);
    case DoReplace(_, _, _) => ReplaceRefines(h, s, m, op);
    case DoDelete(_) => DeleteRefines(h, s, m, op);
    case DoFind(_) => FindRefines(h, s, m, op);
    case DoExpand(_) => ExpandRefines(h, s, m, op);
    case DoResize(_) => ResizeRefines(h, s, m, op);
    case _ => OtherRefines(h, s, m, op);
  }

  function Run<K(==), V>(h: K -> Word, s: State<K, V>, ops: seq<Op<K, V>>): (State<K, V>, seq<Reply<V>>)
    decreases |ops|
  {
    if ops == [] then (s, [])
    else
      var (s1, r) := Step(h, s, ops[0]);
      var (s2, rs) := Run(h, s1, ops[1..]);
      (s2, [r] + rs)
  }

  function MapRun<K(==), V>(m: map<K, V>, ops: seq<Op<K, V>>): (map<K, V>, seq<Reply<V>>)
    decreases |ops|
  {
    if ops == [] then (m, [])
    else
      var (m1, r) := MapStep(m, ops[0]);
      var (m2, rs) := MapRun(m1, ops[1..]);
      (m2, [r] + rs)
  }

  lemma {:induction false} RunFromRefines<K(!new), V>(h: K -> Word, s: State<K, V>, m: map<K, V>, ops: seq<Op<K, V>>)
    requires Represents(h, s, m)
    ensures Represents(h, Run(h, s, ops).0, MapRun(m, ops).0)
    ensures Run(h, s, ops).1 == MapRun(m, ops).1
    decreases |ops|
  {
    if ops != [] {
      StepRefines(h, s, m, ops[0]);
      RunFromRefines(h, Step(h, s, ops[0]).0, MapStep(m, ops[0]).0, ops[1..]);
    }
  }

  /** Whatever the hash function and whatever the operations, a dictionary
      answers and holds what a map would, in a valid pair of tables. */
  lemma {:induction false} RunRefines<K(!new), V>(h: K -> Word, ops: seq<Op<K, V>>)
    ensures Represents(h, Run(h, Created(), ops).0, MapRun(map[], ops).0)
    ensures Run(h, Created(), ops).1 == MapRun(map[], ops).1
  {
    var s: State<K, V> := Created();
    assert forall k :: Get(h, s, k) == None;
    RunFromRefines(h, s, map[], ops);
  }
}
