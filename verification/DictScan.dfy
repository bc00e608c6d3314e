/** dictScan of src/dict.c over a dictionary that changes between calls: what a
    call emits, when it passes over nothing, and the coverage of whole scans.
 */
module DictScan {
  import opened Options
  import opened Words
  import opened DictSpec
  import opened DictMap
  import Cursor = ScanCursor

  // ---------------------------------------------------------------- one call

  /** The tables can be indexed with the bits of a word. */
  ghost predicate FitsWord<K, V>(s: State<K, V>)
  {
    |s.h0.buckets| <= Pow2(WORD_BITS) && |s.h1.buckets| <= Pow2(WORD_BITS)
  }

  predicate Sized<K, V>(t: Table<K, V>)
  {
    IsPow2(|t.buckets|) && Log2(|t.buckets|) <= WORD_BITS
  }

  lemma {:induction false} Pow2Increasing(a: nat, b: nat)
    requires a < b
    ensures Pow2(a) < Pow2(b)
    decreases b
  {
    if a < b - 1 { Pow2Increasing(a, b - 1); }
  }

  lemma {:induction false} SizedFits(n: nat)
    requires IsPow2(n) && n <= Pow2(WORD_BITS)
    ensures Log2(n) <= WORD_BITS
  {
    Pow2Log2(n);
    if Log2(n) > WORD_BITS { Pow2Increasing(WORD_BITS, Log2(n)); }
  }

  function BitsOf<K, V>(t: Table<K, V>): nat { Log2(|t.buckets|) }

  lemma {:induction false} BucketIndex<K, V>(t: Table<K, V>, v: Word)
    requires Sized(t)
    ensures Val(And(v, Mask(BitsOf(t)))) == Val(v[..BitsOf(t)]) == Val(v) % |t.buckets| < |t.buckets|
  {
    AndMask(v, BitsOf(t));
    Pow2Log2(|t.buckets|);
  }

  /** table[v & sizemask] */
  function At<K, V>(t: Table<K, V>, v: Word): Chain<K, V>
    requires Sized(t)
  {
    BucketIndex(t, v);
    t.buckets[Val(And(v, Mask(BitsOf(t))))]
  }

  /** The do-while loop over the larger table. */
  function EmitLarge<K, V>(t: Table<K, V>, v: Word, k0: nat): Chain<K, V>
    requires Sized(t) && k0 <= BitsOf(t)
    decreases Cursor.Left(v, k0, BitsOf(t))
  {
    Cursor.ExpandMiddle(v, k0, BitsOf(t));
    var next := Cursor.Expand(v, k0);
    At(t, v) + if Cursor.MoreExpansions(next, k0, BitsOf(t)) then EmitLarge(t, next, k0) else []
  }

  function Small<K, V>(s: State<K, V>): Table<K, V>
  {
    if |s.h0.buckets| > |s.h1.buckets| then s.h1 else s.h0
  }

  function Large<K, V>(s: State<K, V>): Table<K, V>
  {
    if |s.h0.buckets| > |s.h1.buckets| then s.h0 else s.h1
  }

  predicate Scannable<K, V>(s: State<K, V>)
  {
    Size(s) == 0
    || if Rehashing(s) then Sized(Small(s)) && Sized(Large(s)) && BitsOf(Small(s)) <= BitsOf(Large(s)) else Sized(s.h0)
  }

  /** dictScan: the entries handed to the callback and the next cursor. */
  function Scan<K, V>(s: State<K, V>, v: Word): (Chain<K, V>, Word)
    requires Scannable(s)
  {
    if Size(s) == 0 then ([], Zeros(WORD_BITS))
    else if !Rehashing(s) then (At(s.h0, v), Cursor.NextCursor(v, BitsOf(s.h0)))
    else
      var k0 := BitsOf(Small(s));
      (At(Small(s), v) + EmitLarge(Large(s), v, k0), Cursor.NextCursor(v, k0))
  }

  lemma {:induction false} Log2Monotone(a: nat, b: nat)
    requires a <= b
    ensures Log2(a) <= Log2(b)
    decreases b
  {
    if a > 1 { Log2Monotone(a / 2, b / 2); }
  }

  lemma {:induction false} ValidScannable<K(!new), V>(h: K -> Word, s: State<K, V>)
    requires Valid(h, s) && FitsWord(s)
    ensures Scannable(s)
  {
    if Size(s) != 0 {
      assert s.h0.buckets != [];
      SizedFits(|s.h0.buckets|);
      if Rehashing(s) {
        SizedFits(|s.h1.buckets|);
        Log2Monotone(|Small(s).buckets|, |Large(s).buckets|);
      }
    }
  }

  predicate Emits<K(==), V>(c: Chain<K, V>, k: K) { exists i :: 0 <= i < |c| && c[i].key == k }

  lemma {:induction false} EmitsConcat<K, V>(a: Chain<K, V>, b: Chain<K, V>, k: K)
    ensures Emits(a + b, k) <==> Emits(a, k) || Emits(b, k)
  {
    if i :| 0 <= i < |a| && a[i].key == k { assert (a + b)[i].key == k; }
    if i :| 0 <= i < |b| && b[i].key == k { assert (a + b)[|a| + i].key == k; }
  }

  /** A bucket holds key k exactly when the table does and the bits agree. */
  lemma {:induction false} AtEmits<K, V>(h: K -> Word, t: Table<K, V>, v: Word, k: K)
    requires TableOk(h, t) && Sized(t)
    ensures Emits(At(t, v), k) <==> Lookup(h, t, k).Some? && v[..BitsOf(t)] == h(k)[..BitsOf(t)]
  {
    var n := BitsOf(t);
    BucketIndex(t, v);
    BucketIndex(t, h(k));
    HasIff(At(t, v), k);
    HasIff(t.buckets[Index(h, k, |t.buckets|)], k);
    if Val(v[..n]) == Val(h(k)[..n]) { ValInjective(v[..n], h(k)[..n]); }
  }

  lemma {:induction false} EmitLargeEmits<K, V>(h: K -> Word, t: Table<K, V>, v: Word, k0: nat, k: K)
    requires TableOk(h, t) && Sized(t) && k0 <= BitsOf(t)
    ensures Emits(EmitLarge(t, v, k0), k) <==>
            Lookup(h, t, k).Some? && Cursor.Looks(v, k0, BitsOf(t), h(k)[..BitsOf(t)])
    decreases Cursor.Left(v, k0, BitsOf(t))
  {
    var n := BitsOf(t);
    var next := Cursor.Expand(v, k0);
    Cursor.ExpandMiddle(v, k0, n);
    AtEmits(h, t, v, k);
    if Cursor.MoreExpansions(next, k0, n) {
      EmitLargeEmits(h, t, next, k0, k);
      EmitsConcat(At(t, v), EmitLarge(t, next, k0), k);
    } else {
      assert EmitLarge(t, v, k0) == At(t, v);
    }
  }

  /** Exactly which keys a call made mid-rehash emits. */
  lemma {:induction false} RehashingEmits<K(!new), V>(h: K -> Word, s: State<K, V>, v: Word, k: K)
    requires Valid(h, s) && Scannable(s) && Rehashing(s) && Size(s) > 0
    ensures var (k0, k1) := (BitsOf(Small(s)), BitsOf(Large(s)));
            Emits(Scan(s, v).0, k) <==>
            || (Lookup(h, Small(s), k).Some? && v[..k0] == h(k)[..k0])
            || (Lookup(h, Large(s), k).Some? && Cursor.Looks(v, k0, k1, h(k)[..k1]))
  {
    var k0 := BitsOf(Small(s));
    AtEmits(h, Small(s), v, k);
    EmitLargeEmits(h, Large(s), v, k0, k);
    EmitsConcat(At(Small(s), v), EmitLarge(Large(s), v, k0), k);
  }

  /** What a caller can test before a call made mid-rehash: the cursor bits that
      only the larger mask covers are consecutive ones from the lowest up. */
  predicate Safe<K, V>(s: State<K, V>, v: Word)
    requires Scannable(s)
  {
    Size(s) > 0 && Rehashing(s) ==> Cursor.LowOnes(v[BitsOf(Small(s))..BitsOf(Large(s))])
  }

  /** A safe call emits every element it moves the cursor past. */
  lemma {:induction false} ScanCovers<K(!new), V>(h: K -> Word, s: State<K, V>, v: Word, k: K)
    requires Valid(h, s) && Scannable(s) && Safe(s, v) && Get(h, s, k).Some?
    requires var v' := Scan(s, v).1; v' == Zeros(WORD_BITS) || Cursor.Before(h(k), v')
    ensures Cursor.Before(h(k), v) || Emits(Scan(s, v).0, k)
  {
    GetCounts(h, s, k);
    if !Rehashing(s) {
      Cursor.Advance(v, BitsOf(s.h0), h(k));
      AtEmits(h, s.h0, v, k);
      assert Lookup(h, s.h1, k) == None;
    } else {
      var k0, k1 := BitsOf(Small(s)), BitsOf(Large(s));
      Cursor.Advance(v, k0, h(k));
      RehashingEmits(h, s, v, k);
      Cursor.SkipCondition(v, k0, k1);
    }
  }

  lemma {:induction false} GetCounts<K(!new), V>(h: K -> Word, s: State<K, V>, k: K)
    requires Valid(h, s) && Get(h, s, k).Some?
    ensures Size(s) > 0
  {
    LookupCounts(h, if Lookup(h, s.h0, k).Some? then s.h0 else s.h1, k);
  }

  // ------------------------------------------------- the condition is exact

  function Self(w: Word): Word { w }

  /** A dictionary caught mid-shrink: the larger old table holds one key. */
  function MidShrink(w: Word, k0: nat, k1: nat): State<Word, ()>
    requires k0 < k1 <= WORD_BITS
  {
    ValBound(w[..k1]);
    State(Table(seq(Pow2(k1), i requires 0 <= i < Pow2(k1) => if i == Val(w[..k1]) then [Entry(w, ())] else []), 1),
          Table(seq(Pow2(k0), i => []), 0), 0, 0)
  }

  lemma {:induction false} Log2Pow2(k: nat)
    ensures Log2(Pow2(k)) == k && IsPow2(Pow2(k))
  {
    if k > 0 {
      Log2Pow2(k - 1);
      assert (2 * Pow2(k - 1)) / 2 == Pow2(k - 1);
    }
  }

  lemma {:induction false} OneEntryOk(t: Table<Word, ()>, w: Word)
    requires IsPow2(|t.buckets|) && t.used == 1
    requires var i := Index(Self, w, |t.buckets|);
             forall j :: 0 <= j < |t.buckets| ==> t.buckets[j] == if j == i then [Entry(w, ())] else []
    ensures TableOk(Self, t) && Lookup(Self, t, w).Some?
  {
    var i := Index(Self, w, |t.buckets|);
    TotalUpdate(t.buckets, i, []);
    EmptyTotal(t.buckets[i := []]);
  }

  lemma {:induction false} NoEntryOk(t: Table<Word, ()>)
    requires IsPow2(|t.buckets|) && t.used == 0
    requires forall j :: 0 <= j < |t.buckets| ==> t.buckets[j] == []
    ensures TableOk(Self, t) && forall x :: Lookup(Self, t, x) == None
  {
    EmptyTotal(t.buckets);
  }

  lemma {:induction false} MidShrinkTables(w: Word, k0: nat, k1: nat)
    requires k0 < k1 <= WORD_BITS
    ensures var s := MidShrink(w, k0, k1);
            && TableOk(Self, s.h0) && Lookup(Self, s.h0, w).Some?
            && TableOk(Self, s.h1) && forall x :: Lookup(Self, s.h1, x) == None
  {
    var s := MidShrink(w, k0, k1);
    Log2Pow2(k0);
    Log2Pow2(k1);
    PrefixVal(w, k1);
    OneEntryOk(s.h0, w);
    NoEntryOk(s.h1);
  }

  /** A rehash that has moved nothing yet is valid. */
  lemma {:induction false} ShrinkStarted(s: State<Word, ()>, w: Word)
    requires TableOk(Self, s.h0) && Lookup(Self, s.h0, w).Some? && s.rehashidx == 0
    requires TableOk(Self, s.h1) && forall x :: Lookup(Self, s.h1, x) == None
    requires s.h0.buckets != [] && s.h1.buckets != [] && |s.h0.buckets| != |s.h1.buckets|
    ensures Valid(Self, s) && Get(Self, s, w).Some?
  {
  }

  lemma {:induction false} MidShrinkValid(w: Word, k0: nat, k1: nat)
    requires k0 < k1 <= WORD_BITS
    ensures Valid(Self, MidShrink(w, k0, k1)) && FitsWord(MidShrink(w, k0, k1))
    ensures Get(Self, MidShrink(w, k0, k1), w).Some?
    ensures Lookup(Self, MidShrink(w, k0, k1).h1, w) == None
  {
    Pow2Increasing(k0, k1);
    if k1 < WORD_BITS { Pow2Increasing(k1, WORD_BITS); }
    MidShrinkTables(w, k0, k1);
    ShrinkStarted(MidShrink(w, k0, k1), w);
  }

  /** A call on that dictionary emits the key exactly when it looks at its bucket. */
  lemma {:induction false} MidShrinkEmits(w: Word, k0: nat, k1: nat, v: Word)
    requires k0 < k1 <= WORD_BITS
    ensures var s := MidShrink(w, k0, k1);
            && Scannable(s) && Rehashing(s) && Size(s) > 0
            && BitsOf(Small(s)) == k0 && BitsOf(Large(s)) == k1
            && Scan(s, v).1 == Cursor.NextCursor(v, k0)
            && (Emits(Scan(s, v).0, w) <==> Cursor.Looks(v, k0, k1, w[..k1]))
  {
    var s := MidShrink(w, k0, k1);
    MidShrinkValid(w, k0, k1);
    ValidScannable(Self, s);
    Log2Pow2(k0);
    Log2Pow2(k1);
    Pow2Increasing(k0, k1);
    RehashingEmits(Self, s, v, w);
  }

  /** A call with two tables of these sizes covers the elements of any dictionary. */
  ghost predicate AlwaysCovers(v: Word, k0: nat, k1: nat)
    requires k0 < k1 <= WORD_BITS
  {
    forall s: State<Word, ()>, w: Word ::
      && Valid(Self, s) && Scannable(s) && Rehashing(s) && Get(Self, s, w).Some?
      && BitsOf(Small(s)) == k0 && BitsOf(Large(s)) == k1
      && (Scan(s, v).1 == Zeros(WORD_BITS) || Cursor.Before(w, Scan(s, v).1))
      ==> Cursor.Before(w, v) || Emits(Scan(s, v).0, w)
  }

  /** The bit test is exact: with tables of 2^k0 and 2^k1 buckets a call at v
      passes over nothing if and only if the test holds. */
  lemma {:induction false} SafetyIsExact(v: Word, k0: nat, k1: nat)
    requires k0 < k1 <= WORD_BITS
    ensures AlwaysCovers(v, k0, k1) <==> Cursor.LowOnes(v[k0..k1])
  {
    if Cursor.LowOnes(v[k0..k1]) {
      forall s: State<Word, ()>, w: Word |
        && Valid(Self, s) && Scannable(s) && Rehashing(s) && Get(Self, s, w).Some?
        && BitsOf(Small(s)) == k0 && BitsOf(Large(s)) == k1
        && (Scan(s, v).1 == Zeros(WORD_BITS) || Cursor.Before(w, Scan(s, v).1))
        ensures Cursor.Before(w, v) || Emits(Scan(s, v).0, w)
      {
        ScanCovers(Self, s, v, w);
      }
    } else {
      Cursor.SkipCondition(v, k0, k1);
      var w: Word :| w[..k0] == v[..k0] && !Cursor.Before(w, v) && !Cursor.Looks(v, k0, k1, w[..k1]);
      PassedOver(v, k0, k1, w);
    }
  }

  lemma {:induction false} PassedOver(v: Word, k0: nat, k1: nat, w: Word)
    requires k0 < k1 <= WORD_BITS
    requires w[..k0] == v[..k0] && !Cursor.Before(w, v) && !Cursor.Looks(v, k0, k1, w[..k1])
    ensures !AlwaysCovers(v, k0, k1)
  {
    MidShrinkValid(w, k0, k1);
    MidShrinkEmits(w, k0, k1, v);
    Cursor.SamePrefixBeforeNext(v, w, k0);
  }

  // -------------------------------------------------------------- whole scans

  /** What happens between and at the calls of one client's scan. */
  datatype Event<K, V> = Do(op: Op<K, V>) | Call

  function ScanRun<K(==), V>(h: K -> Word, s: State<K, V>, v: Word, evs: seq<Event<K, V>>): (Word, Chain<K, V>)
    decreases |evs|
  {
    if evs == [] then (v, [])
    else match evs[0]
      case Do(op) => ScanRun(h, Step(h, s, op).0, v, evs[1..])
      case Call =>
        if !Scannable(s) then (v, [])
        else
          var (out, v1) := Scan(s, v);
          var (v2, out2) := ScanRun(h, s, v1, evs[1..]);
          (v2, out + out2)
  }

  /** Key k is in the dictionary all along, every call is safe and the tables
      stay below the word size. */
  ghost predicate GoodRun<K(!new), V>(h: K -> Word, s: State<K, V>, v: Word, evs: seq<Event<K, V>>, k: K)
    decreases |evs|
  {
    && Get(h, s, k).Some?
    && FitsWord(s)
    && (evs != [] ==>
          match evs[0]
          case Do(op) => GoodRun(h, Step(h, s, op).0, v, evs[1..], k)
          case Call => Scannable(s) && Safe(s, v) && GoodRun(h, s, Scan(s, v).1, evs[1..], k))
  }

  predicate HasCall<K, V>(evs: seq<Event<K, V>>) { evs != [] && (evs[0].Call? || HasCall(evs[1..])) }

  lemma {:induction false} ScanRunCovers<K(!new), V>(h: K -> Word, s: State<K, V>, m: map<K, V>, v: Word,
      evs: seq<Event<K, V>>, k: K)
    requires Represents(h, s, m) && GoodRun(h, s, v, evs, k)
    requires var v' := ScanRun(h, s, v, evs).0;
             (HasCall(evs) && v' == Zeros(WORD_BITS)) || Cursor.Before(h(k), v')
    ensures Cursor.Before(h(k), v) || Emits(ScanRun(h, s, v, evs).1, k)
    decreases |evs|
  {
    if evs != [] {
      var rest := evs[1..];
      match evs[0]
      case Do(op) =>
        StepRefines(h, s, m, op);
        ScanRunCovers(h, Step(h, s, op).0, MapStep(m, op).0, v, rest, k);
      case Call =>
        var (out, v1) := Scan(s, v);
        var (v2, out2) := ScanRun(h, s, v1, rest);
        EmitsConcat(out, out2, k);
        if HasCall(rest) || Cursor.Before(h(k), v2) {
          ScanRunCovers(h, s, m, v1, rest, k);
        } else {
          NoCallNoMove(h, s, v1, rest);
        }
        if !Emits(out2, k) { ScanCovers(h, s, v, k); }
    }
  }

  lemma {:induction false} NoCallNoMove<K, V>(h: K -> Word, s: State<K, V>, v: Word, evs: seq<Event<K, V>>)
    requires !HasCall(evs)
    ensures ScanRun(h, s, v, evs) == (v, [])
    decreases |evs|
  {
    if evs != [] {
      NoCallNoMove(h, Step(h, s, evs[0].op).0, v, evs[1..]);
    }
  }

  /** A scan from cursor 0 back to cursor 0 emits every element present all
      along, however operations, rehash steps and resizes interleave with its
      calls, provided its calls are safe. */
  lemma {:induction false} FullScanCovers<K(!new), V>(h: K -> Word, s: State<K, V>, m: map<K, V>, evs: seq<Event<K, V>>,
      k: K)
    requires Represents(h, s, m) && GoodRun(h, s, Zeros(WORD_BITS), evs, k)
    requires HasCall(evs) && ScanRun(h, s, Zeros(WORD_BITS), evs).0 == Zeros(WORD_BITS)
    ensures Emits(ScanRun(h, s, Zeros(WORD_BITS), evs).1, k)
  {
    ScanRunCovers(h, s, m, Zeros(WORD_BITS), evs, k);
    Cursor.NothingBeforeZeros(h(k));
  }
}
