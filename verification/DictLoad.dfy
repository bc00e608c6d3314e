/** How full the tables of a dictionary get, and when the new one has taken the place of the
    old one (src/dict.c).
 */
module DictLoad {
  import opened Options
  import opened Words
  import opened DictSpec
  import opened DictMap
  import opened DictScanRuns

  // --------------------------------------------------------------------- new tables

  /** The size of the table that is made for a number of entries. */
  ghost predicate LeastPower(r: nat, size: nat)
  {
    && IsPow2(r) && r >= INITIAL_SIZE && r >= size
    && (r > INITIAL_SIZE ==> r < 2 * size)
  }

  lemma {:induction false} NewSize(size: nat)
    ensures LeastPower(NextPower(INITIAL_SIZE, size), size)
  {
    assert IsPow2(4) by { assert IsPow2(2); }
    NextPowerIsPow2(INITIAL_SIZE, size);
    NextPowerLeast(INITIAL_SIZE, size);
  }

  /** The new table that a dictionary gets beside its own, or as its first. */
  ghost predicate GetsTable<K, V>(s: State<K, V>, s': State<K, V>, size: nat)
  {
    if s.h0.buckets == [] then !Rehashing(s') && s'.h1 == s.h1 && LeastPower(|s'.h0.buckets|, size) && s'.h0.used == 0
    else s'.h0 == s.h0 && s'.rehashidx == 0 && LeastPower(|s'.h1.buckets|, size) && s'.h1.used == 0
  }

  /** dictExpand makes a table exactly if none is being filled, the entries fit, and the
      size changes. */
  lemma {:induction false} ExpandExact<K, V>(s: State<K, V>, size: nat, r: nat)
    requires r == NextPower(INITIAL_SIZE, size)
    ensures LeastPower(r, size)
    ensures var (s', ok) := Expand(s, size);
            && (ok <==> !Rehashing(s) && s.h0.used <= size && |s.h0.buckets| != r)
            && (if ok then GetsTable(s, s', size) else s' == s)
  {
    NewSize(size);
  }

  /** dictResize makes a table for the entries there are, or for 4, when resizing is on. */
  lemma {:induction false} ResizeExact<K, V>(s: State<K, V>, canResize: bool, size: nat, r: nat)
    requires size == (if s.h0.used < 4 then 4 else s.h0.used) && r == NextPower(INITIAL_SIZE, size)
    ensures LeastPower(r, size)
    ensures var (s', ok) := Resize(s, canResize);
            && (ok <==> canResize && !Rehashing(s) && |s.h0.buckets| != r)
            && (if ok then GetsTable(s, s', size) else s' == s)
  {
    ExpandExact(s, size, r);
  }

  lemma {:induction false} Times(size: nat, a: nat, b: nat)
    requires a <= b
    ensures size * a <= size * b
  {
  }

  lemma {:induction false} Ratio(used: nat, size: nat)
    requires size > 0
    ensures used / size > 5 <==> used >= 6 * size
  {
    var q := used / size;
    assert used == size * q + used % size;
    if q > 5 { Times(size, 6, q); } else { Times(size, q, 5); }
  }

  /** An insertion starts to move the entries to a table of at least twice their number exactly
      if there are as many entries as buckets and resizing is on, or six times as many. */
  lemma {:induction false} GrowsWhenFull<K(!new), V>(h: K -> Word, s: State<K, V>, k: K, v: V, canResize: bool)
    requires Valid(h, s) && !Rehashing(s) && s.h0.buckets != []
    ensures var (s', size, used) := (Add(h, s, k, v, canResize).0, |s.h0.buckets|, s.h0.used);
            && (Rehashing(s') <==> used >= size && (canResize || used >= 6 * size))
            && (Rehashing(s') ==> |s'.h1.buckets| >= 2 * used)
  {
    var (size, used) := (|s.h0.buckets|, s.h0.used);
    Ratio(used, size);
    if used >= size { NewSize(used * 2); }
  }

  // -------------------------------------------------------------------- load factor

  /** A table takes the place of the old one, or one more bucket of that is done. */
  predicate Advances<K, V>(s: State<K, V>, s': State<K, V>)
  {
    || |s'.h0.buckets| == |s.h1.buckets|
    || (&& Rehashing(s') && |s'.h0.buckets| == |s.h0.buckets| && |s'.h1.buckets| == |s.h1.buckets|
        && s.rehashidx < s'.rehashidx < |s'.h0.buckets|)
  }

  lemma {:induction false} IteratorsStay<K, V>(h: K -> Word, s: State<K, V>, n: nat, visits: int)
    requires 0 <= s.rehashidx <= |s.h0.buckets| && s.h1.buckets != []
    ensures RehashLoop(h, s, n, visits).0.iterators == s.iterators
    decreases n
  {
    if n > 0 && s.h0.used > 0 {
      var (i, left) := SkipEmpty(s.h0.buckets, s.rehashidx, visits);
      if left != 0 && i < |s.h0.buckets| && s.h0.used >= |s.h0.buckets[i]| {
        IteratorsStay(h, MoveBucket(h, s, i), n - 1, left);
      }
    }
  }

  /** A call of dictRehash: the old table is done and gone, or some of it is done. */
  lemma {:induction false} RehashMoves<K(!new), V>(h: K -> Word, s: State<K, V>, n: nat)
    requires Valid(h, s) && Rehashing(s) && n > 0
    ensures var s' := Rehash(h, s, n).0;
            && Valid(h, s') && Size(s') == Size(s) && s'.iterators == s.iterators
            && if Rehashing(s')
               then |s'.h0.buckets| == |s.h0.buckets| && |s'.h1.buckets| == |s.h1.buckets|
                    && s.rehashidx + n <= s'.rehashidx < |s.h0.buckets|
               else |s'.h0.buckets| == |s.h1.buckets| && s'.h1.used == 0
  {
    RehashKeeps(h, s, n);
    RehashAdvances(h, s, n);
    RehashLoopSizes(h, s, n, 10 * n);
    IteratorsStay(h, s, n, 10 * n);
  }

  /** The invariant of tables that only grow by insertions; most: how many entries to a bucket.
      While entries move, the buckets that are left pay for the insertions to come. */
  predicate Loaded<K, V>(s: State<K, V>, most: nat)
  {
    && s.iterators == 0
    && if Rehashing(s)
       then s.rehashidx < |s.h0.buckets| && Size(s) + (|s.h0.buckets| - s.rehashidx) <= |s.h1.buckets| + 1
       else s.h0.used <= most * |s.h0.buckets|
  }

  /** The same with room for one more entry while entries move. */
  predicate Roomy<K, V>(s: State<K, V>, most: nat)
  {
    Loaded(s, most) && (Rehashing(s) ==> Size(s) + (|s.h0.buckets| - s.rehashidx) <= |s.h1.buckets|)
  }

  lemma {:induction false} AtLeastOnce(most: nat, size: nat)
    requires most >= 1
    ensures size <= most * size
  {
  }

  lemma {:induction false} RehashRoomy<K(!new), V>(h: K -> Word, s: State<K, V>, n: nat, most: nat)
    requires Valid(h, s) && Loaded(s, most) && n > 0 && most >= 1
    ensures Valid(h, Rehash(h, s, n).0) && Roomy(Rehash(h, s, n).0, most) && Size(Rehash(h, s, n).0) == Size(s)
  {
    if Rehashing(s) {
      RehashMoves(h, s, n);
      AtLeastOnce(most, |s.h1.buckets|);
    }
  }

  /** Growing, if an insertion must, leaves room for it. */
  lemma {:induction false} ExpandRoomy<K(!new), V>(h: K -> Word, s: State<K, V>, canResize: bool, most: nat)
    requires Valid(h, s) && Roomy(s, most) && most >= 1 && (most >= 6 || canResize)
    ensures var s' := ExpandIfNeeded(s, canResize).0;
            Roomy(s', most) && (!Rehashing(s') ==> s'.h0.used < most * |s'.h0.buckets|)
  {
    var (size, used) := (|s.h0.buckets|, s.h0.used);
    if !Rehashing(s) {
      AtLeastOnce(most, size);
      if s.h0.buckets == [] {
        AtLeastOnce(most, NextPower(INITIAL_SIZE, INITIAL_SIZE));
      } else {
        Ratio(used, size);
        if most >= 6 { Times(size, 6, most); }
        NewSize(used * 2);
      }
    }
  }

  /** The operations that neither ask for a size nor start iterators. */
  predicate Ordinary<K, V>(op: Op<K, V>, most: nat)
  {
    match op
    case DoAdd(_, _, canResize) => most >= 6 || canResize
    case DoReplace(_, _, canResize) => most >= 6 || canResize
    case DoDelete(_) => true
    case DoFind(_) => true
    case DoRehash(n) => n > 0
    case _ => false
  }

  lemma {:induction false} AddLoaded<K(!new), V>(h: K -> Word, s: State<K, V>, k: K, v: V, canResize: bool, most: nat)
    requires Valid(h, s) && Loaded(s, most) && most >= 1 && (most >= 6 || canResize)
    ensures Loaded(Add(h, s, k, v, canResize).0, most)
  {
    RehashRoomy(h, s, 1, most);
    ExpandRoomy(h, RehashStep(h, s), canResize, most);
  }

  lemma {:induction false} FindLoaded<K(!new), V>(h: K -> Word, s: State<K, V>, k: K, most: nat)
    requires Valid(h, s) && Loaded(s, most) && most >= 1
    ensures Loaded(Find(h, s, k).0, most) && Loaded(Delete(h, s, k).0, most)
  {
    RehashRoomy(h, s, 1, most);
  }

  lemma {:induction false} OverwriteLoaded<K, V>(h: K -> Word, s: State<K, V>, k: K, v: V, most: nat)
    requires Loaded(s, most)
    ensures Loaded(Overwrite(h, s, k, v), most)
  {
  }

  lemma {:induction false} StepLoaded<K(!new), V>(h: K -> Word, s: State<K, V>, m: map<K, V>, op: Op<K, V>, most: nat)
    requires Represents(h, s, m) && Loaded(s, most) && Ordinary(op, most) && most >= 1
    ensures Loaded(Step(h, s, op).0, most)
  {
    match op
    case DoAdd(k, v, cr) => AddLoaded(h, s, k, v, cr, most);
    case DoReplace(k, v, cr) =>
      AddLoaded(h, s, k, v, cr, most);
      AddIsMapAdd(h, s, m, k, v, cr);
      var s1 := Add(h, s, k, v, cr).0;
      FindLoaded(h, s1, k, most);
      OverwriteLoaded(h, Find(h, s1, k).0, k, v, most);
    case DoDelete(k) => FindLoaded(h, s, k, most);
    case DoFind(k) => FindLoaded(h, s, k, most);
    case DoRehash(n) => RehashRoomy(h, s, n, most);
  }

  predicate AllOrdinary<K, V>(ops: seq<Op<K, V>>, most: nat) { forall i :: 0 <= i < |ops| ==> Ordinary(ops[i], most) }

  lemma {:induction false} RunLoaded<K(!new), V>(h: K -> Word, s: State<K, V>, m: map<K, V>, ops: seq<Op<K, V>>,
      most: nat)
    requires Represents(h, s, m) && Loaded(s, most) && AllOrdinary(ops, most) && most >= 1
    ensures Loaded(Run(h, s, ops).0, most)
    decreases |ops|
  {
    if ops != [] {
      StepLoaded(h, s, m, ops[0], most);
      StepRefines(h, s, m, ops[0]);
      RunLoaded(h, Step(h, s, ops[0]).0, MapStep(m, ops[0]).0, ops[1..], most);
    }
  }

  /** Whatever insertions, overwrites, deletions, searches and rehashing: with resizing on there
      are never more entries than the table they go to has buckets; with it off at times,
      never more than six to a bucket.  While entries move they always fit the new
      table, one to a bucket. */
  lemma {:induction false} LoadFactor<K(!new), V>(h: K -> Word, ops: seq<Op<K, V>>, most: nat)
    requires AllOrdinary(ops, most) && (most == 1 || most == 6)
    ensures var s := Run(h, Created(), ops).0;
            if Rehashing(s) then Size(s) <= |s.h1.buckets| else Size(s) <= most * |s.h0.buckets|
  {
    var s: State<K, V> := Created();
    assert forall k :: Get(h, s, k) == None;
    assert Represents(h, s, map[]);
    RunLoaded(h, s, map[], ops, most);
    RunFromRefines(h, s, map[], ops);
  }

  // --------------------------------------------------------------- the end of a move

  /** The operations that move a bucket on the way, once. */
  predicate Moves<K, V>(op: Op<K, V>) { op.DoAdd? || op.DoDelete? || op.DoFind? }

  /** The bucket that is moved first, and what is done then, leave what is left of the table. */
  lemma {:induction false} AddAdvances<K(!new), V>(h: K -> Word, s: State<K, V>, k: K, v: V, canResize: bool)
    requires Valid(h, s) && Rehashing(s) && s.iterators == 0
    ensures var s' := Add(h, s, k, v, canResize).0; Advances(s, s') && s'.iterators == 0
  {
    RehashMoves(h, s, 1);
    var s1 := RehashStep(h, s);
    assert Advances(s, s1) && s1.iterators == 0 && s1.h0.buckets != [];
    var s2 := ExpandIfNeeded(s1, canResize).0;
    assert Advances(s, s2) && s2.iterators == 0;
  }

  lemma {:induction false} StepAdvances<K(!new), V>(h: K -> Word, s: State<K, V>, op: Op<K, V>)
    requires Valid(h, s) && Rehashing(s) && s.iterators == 0 && Moves(op)
    ensures var s' := Step(h, s, op).0; Advances(s, s') && s'.iterators == 0
  {
    if op.DoAdd? { AddAdvances(h, s, op.key, op.val, op.canResize); } else { RehashMoves(h, s, 1); }
  }

  lemma {:induction false} RunNext<K, V>(h: K -> Word, s: State<K, V>, ops: seq<Op<K, V>>, n: nat)
    requires 0 < n <= |ops|
    ensures Run(h, s, ops[..n]).0 == Run(h, Step(h, s, ops[0]).0, ops[1..][..n - 1]).0
  {
    assert ops[..n][0] == ops[0] && ops[..n][1..] == ops[1..][..n - 1];
  }

  /** After as many operations as the old table has buckets left, at the latest, the new table
      has taken its place. */
  lemma {:induction false} MoveEnds<K(!new), V>(h: K -> Word, s: State<K, V>, m: map<K, V>, ops: seq<Op<K, V>>)
      returns (n: nat)
    requires Represents(h, s, m) && Rehashing(s) && s.iterators == 0
    requires (forall i :: 0 <= i < |ops| ==> Moves(ops[i])) && 0 < |ops| && |s.h0.buckets| - s.rehashidx <= |ops|
    ensures n <= |ops| && (n <= 1 || n <= |s.h0.buckets| - s.rehashidx)
    ensures |Run(h, s, ops[..n]).0.h0.buckets| == |s.h1.buckets|
    decreases |ops|
  {
    var s1 := Step(h, s, ops[0]).0;
    assert Advances(s, s1) && s1.iterators == 0 by { StepAdvances(h, s, ops[0]); }
    n := 1;
    if |s1.h0.buckets| != |s.h1.buckets| {
      StepRefines(h, s, m, ops[0]);
      n := MoveEnds(h, s1, MapStep(m, ops[0]).0, ops[1..]);
      n := n + 1;
    }
    RunNext(h, s, ops, n);
  }
}
