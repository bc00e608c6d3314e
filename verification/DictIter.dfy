/** Safe iteration of src/dict.c: dictNext, while the caller deletes the entry it
    was just given and adds keys.

    A pointer to an entry is the key of the entry: no key is in a dictionary
    twice.  While a safe iterator is active no bucket is moved.
 */
module DictIter {
  import opened Options
  import opened Words
  import opened DictSpec
  import DictMap
  import Dict

  /** The iterator: which table, which bucket, the entry last returned, and the
      entry that followed it when it was returned. */
  datatype Iter<+K> = Iter(second: bool, index: int, entry: Option<K>, next: Option<K>)

  /** dictGetSafeIterator */
  function NewIter<K>(): Iter<K> { Iter(false, -1, None, None) }

  function TableOf<K, V>(s: State<K, V>, second: bool): Table<K, V> { if second then s.h1 else s.h0 }

  /** The key after position p of a chain. */
  function KeyAfter<K, V>(c: Chain<K, V>, p: nat): Option<K>
  {
    if p + 1 < |c| then Some(c[p + 1].key) else None
  }

  /** From the end of a bucket, or from before the first, to the next entry. */
  function Seek<K, V>(s: State<K, V>, second: bool, index: int): (r: (Iter<K>, Option<K>))
    requires index >= -1
    decreases !second, |TableOf(s, second).buckets| - index
  {
    var b := TableOf(s, second).buckets;
    var i := index + 1;
    if i < |b| then (if b[i] == [] then Seek(s, second, i) else Enter(b[i], second, i))
    else if Rehashing(s) && !second && s.h1.buckets != [] then
      if s.h1.buckets[0] == [] then Seek(s, true, 0) else Enter(s.h1.buckets[0], true, 0)
    else (Iter(second, i, None, None), None)
  }

  function Enter<K, V>(c: Chain<K, V>, second: bool, i: int): (Iter<K>, Option<K>)
    requires c != []
  {
    (Iter(second, i, Some(c[0].key), KeyAfter(c, 0)), Some(c[0].key))
  }

  /** The saved next entry is still in its bucket, and is not the last returned. */
  predicate InChain<K(==), V>(s: State<K, V>, it: Iter<K>)
  {
    && it.index >= (if it.entry.Some? then 0 else -1)
    && (it.entry.None? ==> it.next.None?)
    && (it.entry.Some? && it.next.Some? ==>
      && 0 <= it.index < |TableOf(s, it.second).buckets|
      && Has(TableOf(s, it.second).buckets[it.index], it.next.value)
      && it.entry != it.next)
  }

  /** dictNext, as to the iterator */
  function Next<K(==), V>(s: State<K, V>, it: Iter<K>): (r: (Iter<K>, Option<K>))
    requires InChain(s, it)
  {
    if it.entry.Some? && it.next.Some? then
      var c := TableOf(s, it.second).buckets[it.index];
      (it.(entry := it.next, next := KeyAfter(c, PosOf(c, it.next.value))), it.next)
    else Seek(s, it.second, it.index)
  }

  /** dictNext, as to the dictionary: the first call makes the iterator count. */
  function Start<K, V>(s: State<K, V>, it: Iter<K>): State<K, V>
  {
    if it.entry.None? && it.index == -1 && !it.second then s.(iterators := s.iterators + 1) else s
  }

  // ------------------------------------------------------- what is still ahead

  /** Key k, in its bucket of table t, is ahead of an iterator that is in t. */
  predicate AheadIn<K(==), V>(h: K -> Word, t: Table<K, V>, it: Iter<K>, k: K)
  {
    && Lookup(h, t, k).Some?
    && var b := Index(h, k, |t.buckets|);
       || b > it.index
       || (b == it.index && it.entry.Some? && it.next.Some?
         && PosOf(t.buckets[b], it.next.value) <= PosOf(t.buckets[b], k))
  }

  predicate Ahead<K(==), V>(h: K -> Word, s: State<K, V>, it: Iter<K>, k: K)
  {
    if it.second then AheadIn(h, s.h1, it, k) else AheadIn(h, s.h0, it, k) || Lookup(h, s.h1, k).Some?
  }

  /** An entry is in the bucket of its hash and in no other. */
  lemma {:induction false} InBucket<K, V>(h: K -> Word, t: Table<K, V>, i: nat, j: nat)
    requires TableOk(h, t) && i < |t.buckets| && j < |t.buckets[i]|
    ensures var k := t.buckets[i][j].key;
            Index(h, k, |t.buckets|) == i && Lookup(h, t, k).Some? && PosOf(t.buckets[i], k) == j
  {
    FindByKey(t.buckets[i], j);
  }

  /** Entering bucket i takes its first entry from ahead, and no other key. */
  lemma {:induction false} EnterTakes<K, V>(h: K -> Word, t: Table<K, V>, second: bool, i: nat, k: K)
    requires TableOk(h, t) && i < |t.buckets| && t.buckets[i] != []
    ensures var x := t.buckets[i][0].key;
            && Lookup(h, t, x).Some?
            && AheadIn(h, t, Iter(second, i - 1, None, None), x)
            && AheadIn(h, t, Enter(t.buckets[i], second, i).0, k)
              == (AheadIn(h, t, Iter(second, i - 1, None, None), k) && k != x)
  {
    var c := t.buckets[i];
    InBucket(h, t, i, 0);
    if |c| > 1 { InBucket(h, t, i, 1); }
    if Lookup(h, t, k).Some? && Index(h, k, |t.buckets|) == i {
      InBucket(h, t, i, PosOf(c, k));
    }
  }

  /** What a call of dictNext does to the keys ahead: it takes the one returned. */
  ghost predicate Takes<K, V>(h: K -> Word, s: State<K, V>, it: Iter<K>, r: (Iter<K>, Option<K>), k: K)
  {
    && (r.1.None? ==> !Ahead(h, s, it, k) && !Ahead(h, s, r.0, k))
    && (r.1.Some? ==> Ahead(h, s, it, r.1.value))
    && (r.1.Some? ==> Ahead(h, s, r.0, k) == (Ahead(h, s, it, k) && k != r.1.value))
  }

  lemma {:induction false} SkipBucket<K, V>(h: K -> Word, t: Table<K, V>, second: bool, i: int, k: K)
    requires i >= -1 && (i + 1 < |t.buckets| ==> t.buckets[i + 1] == [])
    ensures AheadIn(h, t, Iter(second, i, None, None), k) == AheadIn(h, t, Iter(second, i + 1, None, None), k)
  {
  }

  lemma {:induction false} SeekTakes<K(!new), V>(h: K -> Word, s: State<K, V>, second: bool, index: int, k: K)
    requires Valid(h, s) && index >= -1 && (second ==> Rehashing(s))
    ensures Takes(h, s, Iter(second, index, None, None), Seek(s, second, index), k)
    decreases !second, |TableOf(s, second).buckets| - index
  {
    var t := TableOf(s, second);
    var i := index + 1;
    if i < |t.buckets| {
      if t.buckets[i] == [] {
        SkipBucket(h, t, second, index, k);
        SeekTakes(h, s, second, i, k);
        var x := Seek(s, second, i).1;
        if x.Some? { SkipBucket(h, t, second, index, x.value); }
      } else {
        EnterTakes(h, t, second, i, k);
      }
    } else if Rehashing(s) && !second {
      SeekSecond(h, s, index, k);
    }
  }

  /** From the end of the first table to the start of the second. */
  lemma {:induction false} SeekSecond<K(!new), V>(h: K -> Word, s: State<K, V>, index: int, k: K)
    requires Valid(h, s) && Rehashing(s) && index + 1 >= |s.h0.buckets|
    ensures Takes(h, s, Iter(false, index, None, None), Seek(s, false, index), k)
    decreases false, |s.h1.buckets| + 1
  {
    if s.h1.buckets[0] == [] {
      SeekTakes(h, s, true, 0, k);
      SkipBucket(h, s.h1, true, -1, k);
      var x := Seek(s, true, 0).1;
      if x.Some? { SkipBucket(h, s.h1, true, -1, x.value); }
    } else {
      EnterTakes(h, s.h1, true, 0, k);
    }
  }

  /** Going on in a chain takes the saved entry from ahead, and no other key. */
  lemma {:induction false} SavedTakes<K, V>(h: K -> Word, t: Table<K, V>, it: Iter<K>, k: K)
    requires TableOk(h, t) && SavedIn(t, it) && it.entry.Some? && it.next.Some?
    ensures var c := t.buckets[it.index];
            var it' := it.(entry := it.next, next := KeyAfter(c, PosOf(c, it.next.value)));
            && AheadIn(h, t, it, it.next.value)
            && AheadIn(h, t, it', k) == (AheadIn(h, t, it, k) && k != it.next.value)
  {
    var c := t.buckets[it.index];
    var p := PosOf(c, it.next.value);
    InBucket(h, t, it.index, p);
    if p + 1 < |c| { InBucket(h, t, it.index, p + 1); }
    if Lookup(h, t, k).Some? && Index(h, k, |t.buckets|) == it.index { InBucket(h, t, it.index, PosOf(c, k)); }
  }

  /** dictNext returns the next key ahead, and takes no other; it returns nothing
      only when nothing is ahead. */
  lemma {:induction false} NextTakes<K(!new), V>(h: K -> Word, s: State<K, V>, it: Iter<K>, k: K)
    requires Valid(h, s) && InChain(s, it) && (it.second ==> Rehashing(s))
    ensures Takes(h, s, it, Next(s, it), k)
  {
    if it.entry.Some? && it.next.Some? {
      SavedTakes(h, TableOf(s, it.second), it, k);
      if !it.second { assert Lookup(h, s.h0, it.next.value).Some?; }
    } else {
      SeekTakes(h, s, it.second, it.index, k);
      SameAhead(h, s, it, k);
      var x := Seek(s, it.second, it.index).1;
      if x.Some? { SameAhead(h, s, it, x.value); }
    }
  }

  lemma {:induction false} SameAhead<K, V>(h: K -> Word, s: State<K, V>, it: Iter<K>, k: K)
    requires it.entry.None? || it.next.None?
    ensures Ahead(h, s, it, k) == Ahead(h, s, Iter(it.second, it.index, None, None), k)
  {
  }

  lemma {:induction false} EnterOk<K, V>(h: K -> Word, s: State<K, V>, second: bool, i: nat)
    requires TableOk(h, TableOf(s, second)) && i < |TableOf(s, second).buckets| && TableOf(s, second).buckets[i] != []
    ensures InChain(s, Enter(TableOf(s, second).buckets[i], second, i).0)
  {
    var c := TableOf(s, second).buckets[i];
    if |c| > 1 { FindByKey(c, 1); }
  }

  lemma {:induction false} SeekOk<K(!new), V>(h: K -> Word, s: State<K, V>, second: bool, index: int)
    requires Valid(h, s) && index >= -1
    ensures var (it, r) := Seek(s, second, index);
            && it.entry == r && InChain(s, it) && (it.second ==> second || Rehashing(s))
    decreases !second, |TableOf(s, second).buckets| - index
  {
    var b := TableOf(s, second).buckets;
    if index + 1 < |b| {
      if b[index + 1] == [] { SeekOk(h, s, second, index + 1); } else { EnterOk(h, s, second, index + 1); }
    } else if Rehashing(s) && !second {
      if s.h1.buckets[0] == [] { SeekOk(h, s, true, 0); } else { EnterOk(h, s, true, 0); }
    }
  }

  /** After dictNext, the entry returned is the last one, and its successor is saved. */
  lemma {:induction false} NextOk<K(!new), V>(h: K -> Word, s: State<K, V>, it: Iter<K>)
    requires Valid(h, s) && InChain(s, it) && (it.second ==> Rehashing(s))
    ensures var (it', r) := Next(s, it);
            it'.entry == r && InChain(s, it') && (it'.second ==> Rehashing(s))
  {
    if it.entry.Some? && it.next.Some? {
      var c := TableOf(s, it.second).buckets[it.index];
      var p := PosOf(c, it.next.value);
      if p + 1 < |c| { FindByKey(c, p + 1); }
    } else {
      SeekOk(h, s, it.second, it.index);
    }
  }

  // ------------------------------------------------ what the caller may do meanwhile

  lemma {:induction false} PushPos<K, V>(c: Chain<K, V>, e: Entry<K, V>, k: K)
    requires k != e.key
    ensures Has([e] + c, k) == Has(c, k)
    ensures Has(c, k) ==> PosOf([e] + c, k) == PosOf(c, k) + 1
  {
    assert ([e] + c)[1..] == c;
  }

  lemma {:induction false} WithoutPos<K, V>(c: Chain<K, V>, d: K, k: K)
    requires Distinct(c) && Has(c, d) && Has(c, k) && d != k
    ensures Has(Without(c, d), k)
    ensures PosOf(Without(c, d), k) == if PosOf(c, k) < PosOf(c, d) then PosOf(c, k) else PosOf(c, k) - 1
  {
    var w := Without(c, d);
    var p := PosOf(c, k);
    WithoutValue(c, d, k);
    assert w[if p < PosOf(c, d) then p else p - 1] == c[p];
    FindByKey(w, if p < PosOf(c, d) then p else p - 1);
  }

  /** The saved next entry is in its bucket of table t. */
  predicate SavedIn<K(==), V>(t: Table<K, V>, it: Iter<K>)
  {
    it.entry.Some? && it.next.Some? ==> 0 <= it.index < |t.buckets| && Has(t.buckets[it.index], it.next.value)
  }

  /** Adding a key at the head of a bucket moves no other key past the iterator. */
  lemma {:induction false} PushAhead<K, V>(h: K -> Word, t: Table<K, V>, it: Iter<K>, e: Entry<K, V>, k: K)
    requires TableOk(h, t) && t.buckets != [] && Lookup(h, t, e.key) == None && SavedIn(t, it) && k != e.key
    ensures SavedIn(Push(h, t, e), it)
    ensures AheadIn(h, Push(h, t, e), it, k) == AheadIn(h, t, it, k)
  {
    var i := Index(h, e.key, |t.buckets|);
    PushLookup(h, t, e, k);
    PushPos(t.buckets[i], e, k);
    if it.entry.Some? && it.next.Some? && it.index == i {
      PushPos(t.buckets[i], e, it.next.value);
    }
  }

  /** Nor does deleting another key than the saved one. */
  lemma {:induction false} DeleteAhead<K(!new), V>(h: K -> Word, t: Table<K, V>, it: Iter<K>, d: K, k: K)
    requires TableOk(h, t) && Lookup(h, t, d).Some? && t.used > 0 && SavedIn(t, it)
    requires it.entry.Some? && it.next.Some? ==> it.next.value != d
    ensures SavedIn(DeleteIn(h, t, d), it)
    ensures AheadIn(h, DeleteIn(h, t, d), it, k) == (AheadIn(h, t, it, k) && k != d)
  {
    var i := Index(h, d, |t.buckets|);
    var c := t.buckets[i];
    DictMap.DeleteInDiffers(h, t, d);
    if it.entry.Some? && it.next.Some? && it.index == i {
      WithoutPos(c, d, it.next.value);
    }
    if k != d && Lookup(h, t, k).Some? && Index(h, k, |t.buckets|) == i {
      WithoutPos(c, d, k);
      if it.entry.Some? && it.next.Some? && it.index == i {
        FindByKey(c, PosOf(c, it.next.value));
        FindByKey(c, PosOf(c, k));
      }
    }
  }

  /** What a safe iteration keeps. */
  ghost predicate IterOk<K(!new), V>(h: K -> Word, s: State<K, V>, m: map<K, V>, it: Iter<K>)
  {
    && DictMap.Represents(h, s, m)
    && InChain(s, it)
    && (it.second ==> Rehashing(s))
    && (s.iterators > 0 || it == NewIter())
  }

  lemma {:induction false} AddAhead<K(!new), V>(h: K -> Word, s: State<K, V>, m: map<K, V>, it: Iter<K>, k': K, v: V,
      canResize: bool, k: K)
    requires IterOk(h, s, m, it) && s.iterators > 0 && (k == k' ==> k in m)
    ensures var (s', ok) := Add(h, s, k', v, canResize);
            && IterOk(h, s', if ok then m[k' := v] else m, it)
            && s'.iterators == s.iterators
            && Ahead(h, s', it, k) == Ahead(h, s, it, k)
  {
    DictMap.AddIsMapAdd(h, s, m, k', v, canResize);
    GrowAhead(h, s, m, it, k, canResize);
    DictMap.GrowKeeps(h, s, m, canResize);
    DictMap.ExpandIfNeededWorks(h, s, canResize);
    var s1 := ExpandIfNeeded(s, canResize).0;
    if k' !in m {
      PushInAhead(h, s1, m, it, Entry(k', v), k);
    }
  }

  lemma {:induction false} PushInAhead<K(!new), V>(h: K -> Word, s: State<K, V>, m: map<K, V>, it: Iter<K>,
      e: Entry<K, V>, k: K)
    requires DictMap.Represents(h, s, m) && InChain(s, it) && (it.second ==> Rehashing(s)) && e.key !in m && k != e.key
             && s.h0.buckets != []
    ensures var s' := if Rehashing(s) then s.(h1 := Push(h, s.h1, e)) else s.(h0 := Push(h, s.h0, e));
            InChain(s', it) && Ahead(h, s', it, k) == Ahead(h, s, it, k)
  {
    assert Get(h, s, e.key) == None;
    if Rehashing(s) {
      PushLookup(h, s.h1, e, k);
      if it.second { PushAhead(h, s.h1, it, e, k); }
    } else {
      PushAhead(h, s.h0, it, e, k);
    }
  }

  /** Growing the table while iterating starts a rehash that moves nothing. */
  lemma {:induction false} GrowAhead<K(!new), V>(h: K -> Word, s: State<K, V>, m: map<K, V>, it: Iter<K>, k: K,
      canResize: bool)
    requires IterOk(h, s, m, it) && s.iterators > 0
    ensures var s' := ExpandIfNeeded(s, canResize).0;
            && InChain(s', it) && (it.second ==> Rehashing(s')) && s'.iterators == s.iterators
            && Ahead(h, s', it, k) == Ahead(h, s, it, k)
  {
    ExpandAhead(h, s, m, it, k, INITIAL_SIZE);
    ExpandAhead(h, s, m, it, k, s.h0.used * 2);
  }

  lemma {:induction false} ExpandAhead<K(!new), V>(h: K -> Word, s: State<K, V>, m: map<K, V>, it: Iter<K>, k: K,
      size: nat)
    requires IterOk(h, s, m, it)
    ensures var s' := Expand(s, size).0;
            && IterOk(h, s', m, it) && s'.iterators == s.iterators
            && Ahead(h, s', it, k) == Ahead(h, s, it, k)
  {
    DictMap.ExpandKeeps(h, s, size);
    var s' := Expand(s, size).0;
    if s' != s {
      assert s'.h1.buckets == [] || s'.h1.buckets == seq(|s'.h1.buckets|, i => []);
      assert Lookup(h, s'.h1, k) == None;
      if s.h0.buckets == [] { assert Lookup(h, s'.h0, k) == None; }
    }
  }

  lemma {:induction false} DeleteOldAhead<K(!new), V>(h: K -> Word, s: State<K, V>, m: map<K, V>, it: Iter<K>, d: K,
      k: K)
    requires IterOk(h, s, m, it) && s.iterators > 0 && it.entry == Some(d) && d in m && Lookup(h, s.h0, d).Some?
    ensures s.h0.used > 0
    ensures var s' := s.(h0 := DeleteIn(h, s.h0, d));
            IterOk(h, s', m - {d}, it) && Ahead(h, s', it, k) == (Ahead(h, s, it, k) && k != d)
  {
    DictMap.RemoveOld(h, s, m, d);
    if !it.second { DeleteAhead(h, s.h0, it, d, k); }
  }

  lemma {:induction false} DeleteNewAhead<K(!new), V>(h: K -> Word, s: State<K, V>, m: map<K, V>, it: Iter<K>, d: K,
      k: K)
    requires IterOk(h, s, m, it) && s.iterators > 0 && it.entry == Some(d) && d in m && Lookup(h, s.h0, d).None?
    ensures Rehashing(s) && Lookup(h, s.h1, d).Some? && s.h1.used > 0
    ensures var s' := s.(h1 := DeleteIn(h, s.h1, d));
            IterOk(h, s', m - {d}, it) && Ahead(h, s', it, k) == (Ahead(h, s, it, k) && k != d)
  {
    DictMap.RemoveNew(h, s, m, d);
    DictMap.DeleteInDiffers(h, s.h1, d);
    if it.second { DeleteAhead(h, s.h1, it, d, k); }
  }

  lemma {:induction false} DeleteLastAhead<K(!new), V>(h: K -> Word, s: State<K, V>, m: map<K, V>, it: Iter<K>, d: K,
      k: K)
    requires IterOk(h, s, m, it) && s.iterators > 0 && it.entry == Some(d)
    ensures var s' := Delete(h, s, d).0;
            && IterOk(h, s', m - {d}, it) && s'.iterators == s.iterators
            && Ahead(h, s', it, k) == (Ahead(h, s, it, k) && k != d)
  {
    DictMap.Absent(h, s, m, d);
    if d in m {
      if Lookup(h, s.h0, d).Some? { DeleteOldAhead(h, s, m, it, d, k); } else { DeleteNewAhead(h, s, m, it, d, k); }
    } else {
      assert Lookup(h, s.h0, d) == None && Lookup(h, s.h1, d) == None;
    }
  }

  // --------------------------------------------------------------- whole iterations

  /** What a caller does with a safe iterator. */
  datatype Event<K, V> = DoNext | DoDeleteLast | DoAdd(key: K, val: V, canResize: bool) | DoFind(wanted: K)
    | DoExpand(size: nat)

  /** One event: the dictionary and the iterator after it. */
  function Step<K(==), V>(h: K -> Word, s: State<K, V>, it: Iter<K>, e: Event<K, V>): (State<K, V>, Iter<K>)
    requires InChain(s, it)
  {
    match e
    case DoNext => (Start(s, it), Next(s, it).0)
    case DoDeleteLast => (if it.entry.Some? then Delete(h, s, it.entry.value).0 else s, it)
    case DoAdd(k, v, canResize) => (Add(h, s, k, v, canResize).0, it)
    case DoFind(k) => (Find(h, s, k).0, it)
    case DoExpand(size) => (Expand(s, size).0, it)
  }

  /** What the calls of dictNext in a run return. */
  function Returned<K(==), V>(h: K -> Word, s: State<K, V>, it: Iter<K>, evs: seq<Event<K, V>>): seq<Option<K>>
    decreases |evs|
  {
    if evs == [] || !InChain(s, it) then []
    else
      var (s', it') := Step(h, s, it, evs[0]);
      (if evs[0].DoNext? then [Next(s, it).1] else []) + Returned(h, s', it', evs[1..])
  }

  function Count<K(==)>(rs: seq<Option<K>>, k: K): nat
  {
    if rs == [] then 0 else (if rs[0] == Some(k) then 1 else 0) + Count(rs[1..], k)
  }

  function MapAfter<K(==), V>(h: K -> Word, s: State<K, V>, m: map<K, V>, it: Iter<K>, e: Event<K, V>): map<K, V>
  {
    match e
    case DoDeleteLast => if it.entry.Some? then m - {it.entry.value} else m
    case DoAdd(k, v, canResize) => if k in m then m else m[k := v]
    case _ => m
  }

  /** The run adds key k at a moment when it is not there. */
  predicate AddsNew<K(==), V>(
    h: K -> Word, s: State<K, V>, m: map<K, V>, it: Iter<K>, evs: seq<Event<K, V>>, k: K)
    decreases |evs|
  {
    && evs != [] && InChain(s, it)
    && (|| (evs[0].DoAdd? && evs[0].key == k && k !in m)
        || var (s', it') := Step(h, s, it, evs[0]); AddsNew(h, s', MapAfter(h, s, m, it, evs[0]), it', evs[1..], k))
  }

  /** Apart from dictNext, nothing the caller does brings a key ahead that it does
      not add, or takes a key from ahead that was not the last returned. */
  lemma {:induction false} StepAhead<K(!new), V>(h: K -> Word, s: State<K, V>, m: map<K, V>, it: Iter<K>,
      e: Event<K, V>, k: K)
    requires IterOk(h, s, m, it) && s.iterators > 0 && !e.DoNext? && (e.DoAdd? && e.key == k ==> k in m)
    ensures var (s', it') := Step(h, s, it, e);
            && it' == it && IterOk(h, s', MapAfter(h, s, m, it, e), it) && s'.iterators > 0
            && Ahead(h, s', it, k) == (Ahead(h, s, it, k) && !(e.DoDeleteLast? && it.entry == Some(k)))
  {
    match e
    case DoDeleteLast => if it.entry.Some? { DeleteLastAhead(h, s, m, it, it.entry.value, k); }
    case DoAdd(k', v, canResize) =>
      DictMap.AddIsMapAdd(h, s, m, k', v, canResize);
      AddAhead(h, s, m, it, k', v, canResize, k);
    case DoFind(k') =>
    case DoExpand(size) => ExpandAhead(h, s, m, it, k, size);
  }

  /** dictNext inside a run. */
  lemma {:induction false} NextKeeps<K(!new), V>(h: K -> Word, s: State<K, V>, m: map<K, V>, it: Iter<K>)
    requires IterOk(h, s, m, it)
    ensures IterOk(h, Start(s, it), m, Next(s, it).0) && Start(s, it).iterators > 0
    ensures Next(s, it).0.entry == Next(s, it).1
  {
    NextOk(h, s, it);
    DictMap.IteratorsKeep(h, s, m, s.iterators + 1);
  }

  /** From the middle of an iteration: a key ahead is returned once by the end, and
      a key not ahead never. */
  lemma {:induction false} RestOnce<K(!new), V>(h: K -> Word, s: State<K, V>, m: map<K, V>, it: Iter<K>,
      evs: seq<Event<K, V>>, k: K)
    requires IterOk(h, s, m, it) && s.iterators > 0 && !AddsNew(h, s, m, it, evs, k)
    requires Ahead(h, s, it, k) ==> it.entry != Some(k)
    ensures Count(Returned(h, s, it, evs), k) <= (if Ahead(h, s, it, k) then 1 else 0)
    ensures None in Returned(h, s, it, evs) && Ahead(h, s, it, k) ==> Count(Returned(h, s, it, evs), k) == 1
    decreases |evs|
  {
    if evs != [] {
      var e, rest := evs[0], evs[1..];
      var (s', it') := Step(h, s, it, e);
      if e.DoNext? {
        NextKeeps(h, s, m, it);
        NextTakes(h, s, it, k);
        var r := Next(s, it).1;
        RestOnce(h, s', m, it', rest, k);
        var tail := Returned(h, s', it', rest);
        assert ([r] + tail)[1..] == tail;
      } else {
        StepAhead(h, s, m, it, e, k);
        RestOnce(h, s', MapAfter(h, s, m, it, e), it', rest, k);
        assert [] + Returned(h, s', it', rest) == Returned(h, s', it', rest);
      }
    }
  }

  /** A safe iteration, started at any point of a rehash, returns every key present at
      its start exactly once, and no other, except for keys that the caller adds while
      they are not there. */
  lemma {:induction false} IterationExact<K(!new), V>(h: K -> Word, s: State<K, V>, m: map<K, V>, evs: seq<Event<K, V>>,
      k: K)
    requires DictMap.Represents(h, s, m) && !AddsNew(h, s, m, NewIter(), evs, k) && evs != [] && evs[0].DoNext?
    requires None in Returned(h, s, NewIter(), evs)
    ensures Count(Returned(h, s, NewIter(), evs), k) == if k in m then 1 else 0
  {
    var it: Iter<K> := NewIter();
    var rest := evs[1..];
    assert Get(h, s, k).Some? == (k in m);
    assert Ahead(h, s, it, k) == (k in m);
    NextKeeps(h, s, m, it);
    NextTakes(h, s, it, k);
    var (s', it') := Step(h, s, it, evs[0]);
    RestOnce(h, s', m, it', rest, k);
    var tail := Returned(h, s', it', rest);
    assert ([Next(s, it).1] + tail)[1..] == tail;
  }

  // ------------------------------------------------------------ the iterator object

  /** dictIterator, used as a safe iterator of one dictionary. */
  class Iterator<K(==, !new), V> {
    const d: Dict.Dict<K, V>
    var second: bool
    var index: int
    var entry: Option<K>
    var nextEntry: Option<K>

    ghost function Model(): Iter<K>
      reads this
    {
      Iter(second, index, entry, nextEntry)
    }

    constructor (d: Dict.Dict<K, V>)
      ensures this.d == d && Model() == NewIter()
    {
      this.d := d;
      second, index, entry, nextEntry := false, -1, None, None;
    }

    /** Position of a key that is in a chain. */
    static method Find(c: Chain<K, V>, k: K) returns (p: nat)
      requires Has(c, k)
      ensures p == PosOf(c, k)
    {
      p := Dict.Dict.Search(c, k);
    }

    /** The bucket the iterator is in. */
    method Bucket() returns (c: Chain<K, V>)
      requires 0 <= index < |TableOf(d.Model(), second).buckets|
      ensures c == TableOf(d.Model(), second).buckets[index]
    {
      c := if second then d.table1[index] else d.table0[index];
    }

    /** Go on to the next bucket; false when there is none. */
    method NextBucket(ghost s: State<K, V>) returns (more: bool)
      requires s == d.Model().(iterators := s.iterators)
      requires d.Shape() && entry.None? && nextEntry.None? && index >= -1
      modifies this`second, this`index, d`iterators
      ensures d.Model() == Start(old(d.Model()), old(Model()))
      ensures index >= 0
      ensures more ==> index < |TableOf(d.Model(), second).buckets|
      ensures more ==> (second && !old(second)) || (second == old(second) && index > old(index))
      ensures Seek(s, old(second), old(index)) ==
              if !more then (Model(), None)
              else var c := TableOf(s, second).buckets[index];
                   if c == [] then Seek(s, second, index) else Enter(c, second, index)
    {
      if index == -1 && !second { d.iterators := d.iterators + 1; }
      index := index + 1;
      if index >= (if second then d.table1.Length else d.table0.Length) {
        if d.rehashidx == -1 || second { return false; }
        second, index := true, 0;
      }
      return true;
    }

    /** Save what follows the current entry. */
    method SaveNext()
      requires 0 <= index < |TableOf(d.Model(), second).buckets| && entry.Some?
      requires Has(TableOf(d.Model(), second).buckets[index], entry.value)
      modifies this`nextEntry
      ensures var c := TableOf(d.Model(), second).buckets[index];
              nextEntry == KeyAfter(c, PosOf(c, entry.value))
    {
      var c := Bucket();
      var p := Find(c, entry.value);
      nextEntry := KeyAfter(c, p);
    }

    /** One round of the loop of dictNext: whether it must go on. */
    method Round(ghost s: State<K, V>) returns (more: bool)
      requires s == d.Model().(iterators := s.iterators) && d.Shape() && InChain(s, Model())
      modifies this, d`iterators
      ensures d.Model() == Start(old(d.Model()), old(Model()))
      ensures index >= 0
      ensures more ==> entry.None? && InChain(s, Model()) && Next(s, Model()) == Next(s, old(Model()))
      ensures more && old(entry).Some? ==> second == old(second) && index == old(index)
      ensures more && old(entry).None? ==>
                && index < |TableOf(s, second).buckets|
                && ((second && !old(second)) || (second == old(second) && index > old(index)))
      ensures !more ==> (Model(), entry) == Next(s, old(Model()))
    {
      if entry.None? {
        more := NextBucket(s);
        if !more { return; }
        var c := Bucket();
        entry := if c == [] then None else Some(c[0].key);
      } else {
        entry := nextEntry;
      }
      more := entry.None?;
      if entry.Some? { SaveNext(); }
    }

    method NextInTables() returns (r: Option<K>)
      requires d.Shape() && InChain(d.Model(), Model())
      modifies this, d`iterators
      ensures (Model(), r) == Next(old(d.Model()), old(Model()))
      ensures d.Model() == Start(old(d.Model()), old(Model()))
    {
      ghost var s, it := d.Model(), Model();
      var more := true;
      while more
        invariant Model() == it || index >= 0
        invariant more ==> InChain(s, Model()) && Next(s, Model()) == Next(s, it)
        invariant !more ==> index >= 0 && (Model(), entry) == Next(s, it)
        invariant d.Model() == if Model() == it then s else Start(s, it)
        decreases more, !second, |TableOf(s, second).buckets| - index, entry.Some?
      {
        more := Round(s);
      }
      r := entry;
    }

    /** dictNext */
    method NextEntry() returns (r: Option<K>)
      requires d.Ok() && IterOk(d.hash, d.Model(), d.contents, Model())
      modifies this, d`iterators
      ensures (Model(), r) == Next(old(d.Model()), old(Model()))
      ensures d.Model() == Start(old(d.Model()), old(Model()))
      ensures d.Ok() && IterOk(d.hash, d.Model(), d.contents, Model())
    {
      NextKeeps(d.hash, d.Model(), d.contents, Model());
      r := NextInTables();
    }
  }
}
