/** The hash dictionary of src/dict.c: two bucket arrays updated in place, with
    incremental rehashing.  Every method is proved to do what DictSpec says to
    the pair of tables, and to keep it valid; DictMap and DictScan say what that
    means for callers.
 */
module Dict {
  import opened Options
  import opened Words
  import opened DictSpec
  import DictMap
  import DictScan
  import Cursor = ScanCursor

  class Dict<K(==, !new), V> {
    const hash: K -> Word
    var table0: array<Chain<K, V>>
    var used0: nat
    var table1: array<Chain<K, V>>
    var used1: nat
    var rehashidx: int
    var iterators: nat
    ghost var contents: map<K, V>

    ghost function Model(): State<K, V>
      reads this, table0, table1
    {
      State(Table(table0[..], used0), Table(table1[..], used1), rehashidx, iterators)
    }

    ghost predicate Ok()
      reads this, table0, table1
    {
      table0 != table1 && DictMap.Represents(hash, Model(), contents)
    }

    lemma {:induction false} IsOk(s: State<K, V>, m: map<K, V>)
      requires table0 != table1 && Model() == s && contents == m && DictMap.Represents(hash, s, m)
      ensures Ok()
    {
    }

    constructor (hash: K -> Word)
      ensures Ok() && fresh(table0) && fresh(table1)
      ensures this.hash == hash && Model() == Created() && contents == map[]
    {
      this.hash := hash;
      table0, used0 := new Chain<K, V>[0], 0;
      table1, used1 := new Chain<K, V>[0], 0;
      rehashidx, iterators, contents := -1, 0, map[];
    }

    /** The shape of the two tables, whatever they hold. */
    ghost predicate Shape()
      reads this
    {
      && table0 != table1
      && if rehashidx == -1 then table1.Length == 0 && used1 == 0
         else 0 <= rehashidx <= table0.Length && table0.Length > 0 && table1.Length > 0
    }

    static method NextPowerOf(size: nat) returns (i: nat)
      ensures i == NextPower(INITIAL_SIZE, size)
    {
      i := INITIAL_SIZE;
      while i < size
        invariant i > 0 && NextPower(i, size) == NextPower(INITIAL_SIZE, size)
        decreases size - i
      {
        i := i * 2;
      }
    }

    method ExpandTables(size: nat) returns (ok: bool)
      requires Shape()
      modifies this`table0, this`table1, this`used0, this`used1, this`rehashidx
      ensures Shape() && fresh({table0, table1} - old({table0, table1}))
      ensures (Model(), ok) == DictSpec.Expand(old(Model()), size)
    {
      var realsize := NextPowerOf(size);
      if rehashidx != -1 || used0 > size { return false; }
      if realsize == table0.Length { return false; }
      var n := new Chain<K, V>[realsize](_ => []);
      assert n[..] == seq(realsize, i => []);
      if table0.Length == 0 {
        table0, used0 := n, 0;
        return true;
      }
      table1, used1 := n, 0;
      rehashidx := 0;
      return true;
    }

    method Expand(size: nat) returns (ok: bool)
      requires Ok()
      modifies this
      ensures Ok() && fresh({table0, table1} - old({table0, table1}))
      ensures (Model(), ok) == DictSpec.Expand(old(Model()), size) && contents == old(contents)
    {
      DictMap.ResizeKeeps(hash, Model(), contents, size);
      ok := ExpandTables(size);
    }

    method Resize(canResize: bool) returns (ok: bool)
      requires Ok()
      modifies this
      ensures Ok() && fresh({table0, table1} - old({table0, table1}))
      ensures (Model(), ok) == DictSpec.Resize(old(Model()), canResize) && contents == old(contents)
    {
      if !canResize || rehashidx != -1 { return false; }
      var minimal := used0;
      if minimal < INITIAL_SIZE { minimal := INITIAL_SIZE; }
      ok := Expand(minimal);
    }

    /** Step over empty buckets; true when the budget of visits ran out. */
    method SkipEmptyBuckets(budget: nat) returns (exhausted: bool, left: nat)
      requires Valid(hash, Model()) && rehashidx != -1 && used0 != 0 && budget > 0
      modifies this`rehashidx
      ensures var (i, l) := SkipEmpty(table0[..], old(rehashidx), budget);
              rehashidx == i && left == l && exhausted == (l == 0)
    {
      DictMap.SkipEmptyFinds(table0[..], rehashidx, budget);
      ghost var start := rehashidx;
      left := budget;
      assert rehashidx < table0.Length by { DictMap.EmptyFrom(hash, Model(), rehashidx); }
      while table0[rehashidx] == []
        invariant start <= rehashidx < table0.Length && left > 0
        invariant forall x :: start <= x < rehashidx ==> table0[x] == []
        invariant SkipEmpty(table0[..], rehashidx, left) == SkipEmpty(table0[..], start, budget)
        decreases table0.Length - rehashidx
      {
        rehashidx := rehashidx + 1;
        left := left - 1;
        if left == 0 { return true, 0; }
        assert rehashidx < table0.Length by {
          DictMap.EmptyFrom(hash, Model().(rehashidx := start), rehashidx);
        }
      }
      exhausted := false;
    }

    /** Link the entries of a chain, head first, into the new table. */
    method MoveEntries(chain: Chain<K, V>)
      requires table0 != table1 && table1.Length > 0 && used0 >= |chain|
      modifies this`used0, this`used1, table1
      ensures used0 == old(used0) - |chain|
      ensures Table(table1[..], used1) == MoveChain(hash, chain, old(Table(table1[..], used1)))
    {
      var de := chain;
      while de != []
        invariant |de| <= |chain| && used0 == old(used0) - |chain| + |de|
        invariant MoveChain(hash, de, Table(table1[..], used1)) == MoveChain(hash, chain, old(Table(table1[..], used1)))
        decreases |de|
      {
        ghost var before := Table(table1[..], used1);
        var h := Index(hash, de[0].key, table1.Length);
        table1[h] := [de[0]] + table1[h];
        used0 := used0 - 1;
        used1 := used1 + 1;
        assert Table(table1[..], used1) == Push(hash, before, de[0]);
        de := de[1..];
      }
    }

    /** Move the bucket at rehashidx to the new table. */
    method MoveThisBucket()
      requires table0 != table1 && 0 <= rehashidx < table0.Length && table1.Length > 0
      requires used0 >= |table0[rehashidx]|
      modifies this`used0, this`used1, this`rehashidx, table0, table1
      ensures Model() == MoveBucket(hash, old(Model()), old(rehashidx))
    {
      MoveEntries(table0[rehashidx]);
      table0[rehashidx] := [];
      rehashidx := rehashidx + 1;
      assert table0[..] == old(table0[..])[old(rehashidx) := []];
    }

    /** One round of dictRehash on a table that is not empty yet. */
    method RehashRound(visits: nat) returns (exhausted: bool, left: nat)
      requires table0 != table1 && Valid(hash, Model()) && rehashidx != -1 && used0 != 0 && visits > 0
      modifies this`used0, this`used1, this`rehashidx, table0, table1
      ensures Valid(hash, Model()) && rehashidx != -1
      ensures var s := old(Model());
              var (i, l) := SkipEmpty(s.h0.buckets, s.rehashidx, visits);
              && left == l && exhausted == (l == 0)
              && (exhausted ==> Model() == s.(rehashidx := i))
              && (!exhausted ==>
                i < |s.h0.buckets| && s.h0.used >= |s.h0.buckets[i]| && Model() == MoveBucket(hash, s, i))
    {
      ghost var s := Model();
      DictMap.SkipEmptyFinds(s.h0.buckets, s.rehashidx, visits);
      exhausted, left := SkipEmptyBuckets(visits);
      DictMap.SkipIdxKeeps(hash, s, rehashidx);
      if !exhausted {
        DictMap.EmptyFrom(hash, s, rehashidx);
        DictMap.MoveBucketKeeps(hash, s, rehashidx);
        assert MoveBucket(hash, Model(), rehashidx) == MoveBucket(hash, s, rehashidx);
        MoveThisBucket();
      }
    }

    /** When the old table is empty the new one takes its place. */
    method FinishRehash() returns (more: bool)
      requires Shape() && rehashidx != -1
      modifies this`used0, this`used1, this`rehashidx, this`table0, this`table1
      ensures Shape() && fresh({table0, table1} - old({table0, table1}))
      ensures (Model(), more) == Finish(old(Model()))
    {
      if used0 != 0 { return true; }
      var empty := new Chain<K, V>[0];
      table0, used0 := table1, used1;
      table1, used1 := empty, 0;
      rehashidx := -1;
      assert table1[..] == [];
      return false;
    }

    /** The outer loop of dictRehash; true when a round ran out of visits. */
    method RehashRounds(n: nat) returns (exhausted: bool, ghost rounds: nat, ghost visits: nat)
      requires table0 != table1 && Valid(hash, Model()) && rehashidx != -1
      modifies this`used0, this`used1, this`rehashidx, table0, table1
      ensures Shape() && rehashidx != -1
      ensures exhausted ==> RehashLoop(hash, old(Model()), n, 10 * n) == (Model(), true)
      ensures !exhausted ==>
              (rounds == 0 || used0 == 0)
              && RehashLoop(hash, old(Model()), n, 10 * n) == RehashLoop(hash, Model(), rounds, visits)
    {
      var left: nat, budget: nat := n, 10 * n;
      while left > 0 && used0 != 0
        invariant left >= 0 && Valid(hash, Model()) && rehashidx != -1 && (left > 0 ==> budget > 0)
        invariant RehashLoop(hash, Model(), left, budget) == RehashLoop(hash, old(Model()), n, 10 * n)
      {
        var stop, rest := RehashRound(budget);
        if stop { return true, 0, 0; }
        left, budget := left - 1, rest;
      }
      return false, left, budget;
    }

    method RehashTables(n: nat) returns (more: bool)
      requires table0 != table1 && Valid(hash, Model())
      modifies this`used0, this`used1, this`rehashidx, this`table0, this`table1, table0, table1
      ensures Shape() && fresh({table0, table1} - old({table0, table1}))
      ensures (Model(), more) == DictSpec.Rehash(hash, old(Model()), n)
    {
      if rehashidx == -1 { return false; }
      var exhausted, _, _ := RehashRounds(n);
      if exhausted { return true; }
      more := FinishRehash();
    }

    method Rehash(n: nat) returns (more: bool)
      requires Ok()
      modifies this, table0, table1
      ensures Ok() && fresh({table0, table1} - old({table0, table1}))
      ensures (Model(), more) == DictSpec.Rehash(hash, old(Model()), n) && contents == old(contents)
    {
      DictMap.RehashRepresents(hash, Model(), contents, n);
      more := RehashTables(n);
    }

    method RehashStep()
      requires table0 != table1 && Valid(hash, Model())
      modifies this`used0, this`used1, this`rehashidx, this`table0, this`table1, table0, table1
      ensures Shape() && fresh({table0, table1} - old({table0, table1}))
      ensures Model() == DictSpec.RehashStep(hash, old(Model()))
    {
      if rehashidx != -1 && iterators == 0 {
        var _ := RehashTables(1);
      }
    }

    /** Walk a chain for a key. */
    static method Search(c: Chain<K, V>, k: K) returns (p: nat)
      ensures p == PosOf(c, k)
    {
      p := 0;
      while p < |c| && c[p].key != k
        invariant p <= |c| && p + PosOf(c[p..], k) == PosOf(c, k)
      {
        assert c[p..][1..] == c[p + 1..];
        p := p + 1;
      }
    }

    /** Walk the bucket of a key in the old table, then in the new one. */
    method FindInTables(k: K) returns (r: Option<V>)
      requires Shape() && table0.Length > 0
      ensures r == Get(hash, Model(), k)
    {
      var c := table0[Index(hash, k, table0.Length)];
      var p := Search(c, k);
      if p < |c| { return Some(c[p].val); }
      if rehashidx == -1 { return None; }
      c := table1[Index(hash, k, table1.Length)];
      p := Search(c, k);
      if p < |c| { return Some(c[p].val); }
      return None;
    }

    method Find(k: K) returns (r: Option<V>)
      requires Ok()
      modifies this, table0, table1
      ensures Ok() && fresh({table0, table1} - old({table0, table1}))
      ensures (Model(), r) == DictSpec.Find(hash, old(Model()), k) && contents == old(contents)
      ensures r == if k in contents then Some(contents[k]) else None
    {
      DictMap.FindIsMapFind(hash, Model(), contents, k);
      if table0.Length == 0 { return None; }
      DictMap.TableRemains(hash, Model());
      RehashStep();
      r := FindInTables(k);
    }

    method ExpandIfNeeded(canResize: bool) returns (ok: bool)
      requires Shape()
      modifies this`table0, this`table1, this`used0, this`used1, this`rehashidx
      ensures Shape() && fresh({table0, table1} - old({table0, table1}))
      ensures (Model(), ok) == DictSpec.ExpandIfNeeded(old(Model()), canResize)
    {
      if rehashidx != -1 { return true; }
      if table0.Length == 0 { ok := ExpandTables(INITIAL_SIZE); return; }
      if used0 >= table0.Length && (canResize || used0 / table0.Length > FORCE_RESIZE_RATIO) {
        ok := ExpandTables(used0 * 2);
        return;
      }
      return true;
    }

    /** The bucket a new key goes to, or -1 when the key is there already. */
    method KeyIndex(k: K, canResize: bool) returns (index: int)
      requires Shape()
      requires DictSpec.ExpandIfNeeded(Model(), canResize).1
               && DictSpec.ExpandIfNeeded(Model(), canResize).0.h0.buckets != []
      modifies this`table0, this`table1, this`used0, this`used1, this`rehashidx
      ensures Shape() && fresh({table0, table1} - old({table0, table1}))
      ensures Model() == DictSpec.ExpandIfNeeded(old(Model()), canResize).0
      ensures if Get(hash, Model(), k).Some? then index == -1
              else index == Index(hash, k, if rehashidx == -1 then table0.Length else table1.Length)
    {
      var ok := ExpandIfNeeded(canResize);
      index := Index(hash, k, table0.Length);
      var p := Search(table0[index], k);
      if p < |table0[index]| { return -1; }
      if rehashidx == -1 { return; }
      index := Index(hash, k, table1.Length);
      p := Search(table1[index], k);
      if p < |table1[index]| { return -1; }
    }

    /** Link a new entry at the head of its bucket. */
    method Link(k: K, v: V, index: nat)
      requires table0 != table1
      requires var t := if rehashidx == -1 then table0 else table1;
               t.Length > 0 && index == Index(hash, k, t.Length)
      modifies this`used0, this`used1, table0, table1
      ensures Model() == if rehashidx == -1 then old(Model()).(h0 := Push(hash, old(Model()).h0, Entry(k, v)))
                         else old(Model()).(h1 := Push(hash, old(Model()).h1, Entry(k, v)))
    {
      if rehashidx != -1 {
        table1[index] := [Entry(k, v)] + table1[index];
        used1 := used1 + 1;
        assert table1[..] == old(table1[..])[index := [Entry(k, v)] + old(table1[index])];
      } else {
        table0[index] := [Entry(k, v)] + table0[index];
        used0 := used0 + 1;
        assert table0[..] == old(table0[..])[index := [Entry(k, v)] + old(table0[index])];
      }
    }

    method Add(k: K, v: V, canResize: bool) returns (ok: bool)
      requires Ok()
      modifies this, table0, table1
      ensures Ok() && fresh({table0, table1} - old({table0, table1}))
      ensures (Model(), ok) == DictSpec.Add(hash, old(Model()), k, v, canResize)
      ensures ok == (k !in old(contents))
      ensures contents == if ok then old(contents)[k := v] else old(contents)
    {
      ghost var s := DictSpec.Add(hash, Model(), k, v, canResize).0;
      ghost var m := DictMap.AddWorks(hash, Model(), contents, k, v, canResize);
      ok := AddToTables(k, v, canResize);
      contents := m;
      IsOk(s, m);
    }

    method AddToTables(k: K, v: V, canResize: bool) returns (ok: bool)
      requires table0 != table1 && Valid(hash, Model())
      requires DictMap.Grows(hash, Model(), canResize)
      modifies this`used0, this`used1, this`rehashidx, this`table0, this`table1, table0, table1
      ensures Shape() && fresh({table0, table1} - old({table0, table1}))
      ensures (Model(), ok) == DictSpec.Add(hash, old(Model()), k, v, canResize)
    {
      RehashStep();
      var index := KeyIndex(k, canResize);
      if index == -1 { return false; }
      Link(k, v, index);
      return true;
    }

    /** Set the value of the entry dictFind returned. */
    method SetEntry(k: K, v: V)
      requires Shape()
      modifies table0, table1
      ensures Model() == Overwrite(hash, old(Model()), k, v)
    {
      if table0.Length == 0 {
        assert Lookup(hash, Model().h1, k) == None;
        return;
      }
      var i := Index(hash, k, table0.Length);
      var p := Search(table0[i], k);
      if p < |table0[i]| {
        table0[i] := table0[i][p := table0[i][p].(val := v)];
        return;
      }
      if rehashidx == -1 { return; }
      i := Index(hash, k, table1.Length);
      p := Search(table1[i], k);
      if p < |table1[i]| {
        table1[i] := table1[i][p := table1[i][p].(val := v)];
      }
    }

    method ReplaceInTables(k: K, v: V, canResize: bool) returns (fromScratch: bool)
      requires table0 != table1 && Valid(hash, Model())
      requires DictMap.Grows(hash, Model(), canResize)
      requires Valid(hash, DictSpec.Add(hash, Model(), k, v, canResize).0)
      modifies this`used0, this`used1, this`rehashidx, this`table0, this`table1, table0, table1
      ensures Shape() && fresh({table0, table1} - old({table0, table1}))
      ensures (Model(), fromScratch) == DictSpec.Replace(hash, old(Model()), k, v, canResize)
    {
      fromScratch := AddToTables(k, v, canResize);
      if !fromScratch {
        OverwriteInTables(k, v);
      }
    }

    method Replace(k: K, v: V, canResize: bool) returns (fromScratch: bool)
      requires Ok()
      modifies this, table0, table1
      ensures Ok() && fresh({table0, table1} - old({table0, table1}))
      ensures (Model(), fromScratch) == DictSpec.Replace(hash, old(Model()), k, v, canResize)
      ensures fromScratch == (k !in old(contents)) && contents == old(contents)[k := v]
    {
      DictMap.ReplaceWorks(hash, Model(), contents, k, v, canResize);
      DictMap.ReplaceIsMapUpdate(hash, Model(), contents, k, v, canResize);
      ghost var s, m := DictSpec.Replace(hash, Model(), k, v, canResize).0, contents[k := v];
      fromScratch := ReplaceInTables(k, v, canResize);
      contents := contents[k := v];
      IsOk(s, m);
    }

    /** Look the entry up again, as dictFind does, and set its value. */
    method OverwriteInTables(k: K, v: V)
      requires table0 != table1 && Valid(hash, Model())
      modifies this`used0, this`used1, this`rehashidx, this`table0, this`table1, table0, table1
      ensures Shape() && fresh({table0, table1} - old({table0, table1}))
      ensures Model() == Overwrite(hash, DictSpec.Find(hash, old(Model()), k).0, k, v)
    {
      if table0.Length > 0 {
        RehashStep();
      }
      SetEntry(k, v);
    }

    /** Unlink the entry of a key from one of the two tables. */
    method Unlink(k: K) returns (ok: bool)
      requires Shape() && Valid(hash, Model()) && table0.Length > 0
      modifies this`used0, this`used1, table0, table1
      ensures Shape()
      ensures var s := old(Model());
              if Lookup(hash, s.h0, k).Some? then ok && s.h0.used > 0 && Model() == s.(h0 := DeleteIn(hash, s.h0, k))
              else if Rehashing(s) && Lookup(hash, s.h1, k).Some? then ok && s.h1.used > 0
                && Model() == s.(h1 := DeleteIn(hash, s.h1, k))
              else !ok && Model() == s
    {
      var i := Index(hash, k, table0.Length);
      var c := table0[i];
      var p := Search(c, k);
      if p < |c| {
        DictMap.LookupCounts(hash, Model().h0, k);
        table0[i] := c[..p] + c[p + 1..];
        used0 := used0 - 1;
        assert table0[..] == old(table0[..])[i := Without(c, k)];
        return true;
      }
      if rehashidx == -1 { return false; }
      i := Index(hash, k, table1.Length);
      c := table1[i];
      p := Search(c, k);
      if p < |c| {
        DictMap.LookupCounts(hash, Model().h1, k);
        table1[i] := c[..p] + c[p + 1..];
        used1 := used1 - 1;
        assert table1[..] == old(table1[..])[i := Without(c, k)];
        return true;
      }
      return false;
    }

    method DeleteFromTables(k: K) returns (ok: bool)
      requires table0 != table1 && Valid(hash, Model()) && table0.Length > 0
      modifies this`used0, this`used1, this`rehashidx, this`table0, this`table1, table0, table1
      ensures Shape() && fresh({table0, table1} - old({table0, table1}))
      ensures (Model(), ok) == DictSpec.Delete(hash, old(Model()), k)
    {
      DictMap.TableRemains(hash, Model());
      DictMap.RehashStepKeeps(hash, Model());
      RehashStep();
      ok := Unlink(k);
    }

    method Delete(k: K) returns (ok: bool)
      requires Ok()
      modifies this, table0, table1
      ensures Ok() && fresh({table0, table1} - old({table0, table1}))
      ensures (Model(), ok) == DictSpec.Delete(hash, old(Model()), k)
      ensures ok == (k in old(contents)) && contents == old(contents) - {k}
    {
      DictMap.DeleteIsMapRemove(hash, Model(), contents, k);
      if table0.Length == 0 {
        ok := false;
      } else {
        ok := DeleteFromTables(k);
      }
      contents := contents - {k};
    }

    /** table[v & sizemask] */
    static method BucketAt(t: array<Chain<K, V>>, ghost table: Table<K, V>, v: Word) returns (c: Chain<K, V>)
      requires t[..] == table.buckets && DictScan.Sized(table)
      ensures c == DictScan.At(table, v)
    {
      DictScan.BucketIndex(table, v);
      c := t[Val(And(v, Mask(Log2(t.Length))))];
    }

    /** The do-while loop of dictScan over the larger table. */
    method ScanLarge(t1: array<Chain<K, V>>, ghost large: Table<K, V>, v0: Word, k0: nat, k1: nat)
      returns (out: Chain<K, V>, v: Word)
      requires t1[..] == large.buckets && DictScan.Sized(large) && k0 <= k1 == DictScan.BitsOf(large)
      ensures out == DictScan.EmitLarge(large, v0, k0)
      ensures v[..k0] == v0[..k0]
    {
      out := BucketAt(t1, large, v0);
      Cursor.ExpandMiddle(v0, k0, k1);
      v := Cursor.Expand(v0, k0);
      while Cursor.MoreExpansions(v, k0, k1)
        invariant v[..k0] == v0[..k0]
        invariant DictScan.EmitLarge(large, v0, k0) ==
                  out + if Cursor.MoreExpansions(v, k0, k1) then DictScan.EmitLarge(large, v, k0) else []
        decreases if Cursor.MoreExpansions(v, k0, k1) then Cursor.Left(v, k0, k1) else 0
      {
        var bucket := BucketAt(t1, large, v);
        Cursor.ExpandMiddle(v, k0, k1);
        out := out + bucket;
        v := Cursor.Expand(v, k0);
      }
    }

    /** dictScan: the entries handed to the callback, and the next cursor. */
    method Scan(v0: Word) returns (out: Chain<K, V>, v: Word)
      requires DictScan.Scannable(Model())
      ensures (out, v) == DictScan.Scan(Model(), v0)
    {
      if used0 + used1 == 0 { return [], Zeros(WORD_BITS); }
      var k0: nat;
      v := v0;
      if rehashidx == -1 {
        k0 := Log2(table0.Length);
        out := BucketAt(table0, Model().h0, v);
      } else {
        var t0, t1 := table0, table1;
        if t0.Length > t1.Length { t0, t1 := table1, table0; }
        k0 := Log2(t0.Length);
        out := BucketAt(t0, DictScan.Small(Model()), v);
        var expanded;
        expanded, v := ScanLarge(t1, DictScan.Large(Model()), v, k0, Log2(t1.Length));
        out := out + expanded;
        Cursor.SameNextCursor(v, v0, k0);
      }
      v := NextOf(v, k0);
    }

    static method NextOf(v0: Word, k0: nat) returns (v: Word)
      requires k0 <= WORD_BITS
      ensures v == Cursor.NextCursor(v0, k0)
    {
      v := Or(v0, Not(Mask(k0)));
      v := Rev(v);
      v := Inc(v);
      v := Rev(v);
    }
  }
}
