/** Consequences of the scan coverage theorem for particular kinds of runs:
    tables that never shrink, and a table that never changes.
 */
module DictScanRuns {
  import opened Words
  import opened DictSpec
  import opened DictMap
  import opened DictScan
  import Cursor = ScanCursor

  // ----------------------------------------------------- runs that never shrink

  /** The size of the smaller table in use. */
  function MinSize<K, V>(s: State<K, V>): nat
  {
    if Rehashing(s) then |Small(s).buckets| else |s.h0.buckets|
  }

  /** The operation starts a rehash into a smaller table. */
  predicate Shrinks<K, V>(s: State<K, V>, op: Op<K, V>)
  {
    && !Rehashing(s)
    && match op
       case DoExpand(size) => 0 < |Expand(s, size).0.h1.buckets| < |s.h0.buckets|
       case DoResize(cr) => 0 < |Resize(s, cr).0.h1.buckets| < |s.h0.buckets|
       case _ => false
  }

  lemma {:induction false} RehashLoopSizes<K, V>(h: K -> Word, s: State<K, V>, n: nat, visits: int)
    requires 0 <= s.rehashidx <= |s.h0.buckets| && s.h1.buckets != []
    ensures var r := RehashLoop(h, s, n, visits).0;
            || (Rehashing(r) && |r.h0.buckets| == |s.h0.buckets| && |r.h1.buckets| == |s.h1.buckets|)
            || (!Rehashing(r) && |r.h0.buckets| == |s.h1.buckets|)
    decreases n
  {
    if n > 0 && s.h0.used > 0 {
      var (i, left) := SkipEmpty(s.h0.buckets, s.rehashidx, visits);
      if left != 0 && i < |s.h0.buckets| && s.h0.used >= |s.h0.buckets[i]| {
        RehashLoopSizes(h, MoveBucket(h, s, i), n - 1, left);
      }
    }
  }

  lemma {:induction false} RehashMinSize<K(!new), V>(h: K -> Word, s: State<K, V>, n: nat)
    requires Valid(h, s)
    ensures MinSize(Rehash(h, s, n).0) >= MinSize(s)
  {
    if Rehashing(s) { RehashLoopSizes(h, s, n, 10 * n); }
  }

  lemma {:induction false} AddMinSize<K(!new), V>(h: K -> Word, s: State<K, V>, k: K, v: V, cr: bool)
    requires Valid(h, s)
    ensures MinSize(Add(h, s, k, v, cr).0) >= MinSize(s)
  {
    RehashMinSize(h, s, 1);
    RehashStepKeeps(h, s);
    var s1 := RehashStep(h, s);
    var s2 := ExpandIfNeeded(s1, cr).0;
    assert MinSize(s2) >= MinSize(s1);
    assert MinSize(Add(h, s, k, v, cr).0) == MinSize(s2);
  }

  lemma {:induction false} FindMinSize<K(!new), V>(h: K -> Word, s: State<K, V>, k: K)
    requires Valid(h, s)
    ensures MinSize(Find(h, s, k).0) >= MinSize(s)
  {
    RehashMinSize(h, s, 1);
  }

  lemma {:induction false} DeleteMinSize<K(!new), V>(h: K -> Word, s: State<K, V>, k: K)
    requires Valid(h, s)
    ensures MinSize(Delete(h, s, k).0) >= MinSize(s)
  {
    RehashMinSize(h, s, 1);
    var s1 := RehashStep(h, s);
    assert s.h0.buckets != [] ==> MinSize(Delete(h, s, k).0) == MinSize(s1);
  }

  lemma {:induction false} OverwriteMinSize<K(!new), V>(h: K -> Word, s: State<K, V>, k: K, v: V)
    ensures MinSize(Overwrite(h, s, k, v)) == MinSize(s)
  {
  }

  lemma {:induction false} ReplaceMinSize<K(!new), V>(h: K -> Word, s: State<K, V>, m: map<K, V>, k: K, v: V, cr: bool)
    requires Represents(h, s, m)
    ensures MinSize(Replace(h, s, k, v, cr).0) >= MinSize(s)
  {
    AddMinSize(h, s, k, v, cr);
    AddIsMapAdd(h, s, m, k, v, cr);
    if k in m {
      var s1 := Add(h, s, k, v, cr).0;
      FindMinSize(h, s1, k);
      OverwriteMinSize(h, Find(h, s1, k).0, k, v);
    }
  }

  lemma {:induction false} ResizeMinSize<K(!new), V>(h: K -> Word, s: State<K, V>, op: Op<K, V>)
    requires Valid(h, s) && (op.DoExpand? || op.DoResize?) && !Shrinks(s, op)
    ensures MinSize(Step(h, s, op).0) >= MinSize(s)
  {
  }

  lemma {:induction false} StepMinSize<K(!new), V>(h: K -> Word, s: State<K, V>, m: map<K, V>, op: Op<K, V>)
    requires Represents(h, s, m) && !Shrinks(s, op)
    ensures MinSize(Step(h, s, op).0) >= MinSize(s)
  {
    match op
    case DoAdd(k, v, cr) => AddMinSize(h, s, k, v, cr);
    case DoReplace(k, v, cr) => ReplaceMinSize(h, s, m, k, v, cr);
    case DoDelete(k) => DeleteMinSize(h, s, k);
    case DoFind(k) => FindMinSize(h, s, k);
    case DoExpand(_) => ResizeMinSize(h, s, op);
    case DoResize(_) => ResizeMinSize(h, s, op);
    case DoRehash(n) => RehashMinSize(h, s, n);
    case DoIterators(n) =>
  }

  /** Key k is there all along and no operation shrinks the dictionary. */
  ghost predicate GrowingRun<K(!new), V>(h: K -> Word, s: State<K, V>, evs: seq<Event<K, V>>, k: K)
    decreases |evs|
  {
    && Get(h, s, k).Some?
    && FitsWord(s)
    && (evs != [] ==>
          match evs[0]
          case Do(op) => !Shrinks(s, op) && GrowingRun(h, Step(h, s, op).0, evs[1..], k)
          case Call => GrowingRun(h, s, evs[1..], k))
  }

  lemma {:induction false} LowOnesZeros(c: Bits)
    requires c == Zeros(|c|)
    ensures Cursor.LowOnes(c)
  {
  }

  lemma {:induction false} PresentTables<K(!new), V>(h: K -> Word, s: State<K, V>, k: K)
    requires Valid(h, s) && FitsWord(s) && Get(h, s, k).Some?
    ensures Scannable(s) && Size(s) > 0 && IsPow2(MinSize(s)) && Log2(MinSize(s)) <= WORD_BITS
    ensures Rehashing(s) ==> BitsOf(Small(s)) == Log2(MinSize(s)) <= BitsOf(Large(s))
  {
    GetCounts(h, s, k);
    ValidScannable(h, s);
  }

  /** No cursor bit above the mask of the smaller table. */
  predicate LowCursor<K, V>(s: State<K, V>, v: Word)
  {
    var b := Log2(MinSize(s));
    b <= WORD_BITS && v[b..] == Zeros(WORD_BITS - b)
  }

  lemma {:induction false} LowCursorSafe<K(!new), V>(h: K -> Word, s: State<K, V>, v: Word, k: K)
    requires Valid(h, s) && FitsWord(s) && Get(h, s, k).Some? && LowCursor(s, v)
    ensures Scannable(s) && Safe(s, v) && LowCursor(s, Scan(s, v).1)
  {
    var b := Log2(MinSize(s));
    PresentTables(h, s, k);
    Cursor.CursorForward(v, b);
    if Rehashing(s) {
      SliceZeros(v, b, BitsOf(Large(s)));
      LowOnesZeros(v[b..BitsOf(Large(s))]);
    }
  }

  lemma {:induction false} LowCursorKept<K(!new), V>(h: K -> Word, s: State<K, V>, s': State<K, V>, v: Word, k: K)
    requires Valid(h, s') && FitsWord(s') && Get(h, s', k).Some? && LowCursor(s, v)
    requires MinSize(s') >= MinSize(s)
    ensures LowCursor(s', v)
  {
    Log2Monotone(MinSize(s), MinSize(s'));
    PresentTables(h, s', k);
    SuffixZeros(v, Log2(MinSize(s)), Log2(MinSize(s')));
  }

  lemma {:induction false} GrowingIsGood<K(!new), V>(h: K -> Word, s: State<K, V>, m: map<K, V>, v: Word,
      evs: seq<Event<K, V>>, k: K)
    requires Represents(h, s, m) && GrowingRun(h, s, evs, k) && LowCursor(s, v)
    ensures GoodRun(h, s, v, evs, k)
    decreases |evs|
  {
    if evs != [] {
      match evs[0]
      case Do(op) =>
        var s', m' := Step(h, s, op).0, MapStep(m, op).0;
        assert GrowingRun(h, s', evs[1..], k);
        StepRefines(h, s, m, op);
        StepMinSize(h, s, m, op);
        LowCursorKept(h, s, s', v, k);
        GrowingIsGood(h, s', m', v, evs[1..], k);
      case Call =>
        LowCursorSafe(h, s, v, k);
        GrowingIsGood(h, s, m, Scan(s, v).1, evs[1..], k);
    }
  }

  lemma {:induction false} SuffixZeros(v: Word, b: nat, c: nat)
    requires b <= c <= WORD_BITS && v[b..] == Zeros(WORD_BITS - b)
    ensures v[c..] == Zeros(WORD_BITS - c)
  {
    assert forall i :: b <= i < WORD_BITS ==> v[i] == v[b..][i - b];
  }

  lemma {:induction false} SliceZeros(v: Word, b: nat, c: nat)
    requires b <= c <= WORD_BITS && v[b..] == Zeros(WORD_BITS - b)
    ensures v[b..c] == Zeros(c - b)
  {
    assert forall i :: b <= i < WORD_BITS ==> v[i] == v[b..][i - b];
  }

  /** Without a shrink every scan covers, with no condition on its calls. */
  lemma {:induction false} GrowingScanCovers<K(!new), V>(h: K -> Word, s: State<K, V>, m: map<K, V>,
      evs: seq<Event<K, V>>, k: K)
    requires Represents(h, s, m) && GrowingRun(h, s, evs, k)
    requires HasCall(evs) && ScanRun(h, s, Zeros(WORD_BITS), evs).0 == Zeros(WORD_BITS)
    ensures Emits(ScanRun(h, s, Zeros(WORD_BITS), evs).1, k)
  {
    PresentTables(h, s, k);
    SuffixZeros(Zeros(WORD_BITS), 0, Log2(MinSize(s)));
    GrowingIsGood(h, s, m, Zeros(WORD_BITS), evs, k);
    FullScanCovers(h, s, m, evs, k);
  }

  // ----------------------------------------------------- a table left unchanged

  /** The cursor after i calls over an unchanged table of 2^k buckets. */
  function CursorAt(k: nat, i: nat): Word
    requires k <= WORD_BITS
  {
    if i == 0 then Zeros(WORD_BITS) else Cursor.NextCursor(CursorAt(k, i - 1), k)
  }

  lemma {:induction false} ReversedOnes(a: Bits)
    ensures Reversed(a) == Ones(|a|) <==> a == Ones(|a|)
  {
    Cursor.ReversedTwice(a);
    assert Reversed(Ones(|a|)) == Ones(|a|);
  }

  lemma {:induction false} RankOfOnes(a: Bits)
    ensures a == Ones(|a|) <==> Cursor.Rank(a) == Pow2(|a|) - 1
  {
    OnesVal(|a|);
    ReversedOnes(a);
    if Cursor.Rank(a) == Pow2(|a|) - 1 { ValInjective(Reversed(a), Ones(|a|)); }
  }

  lemma {:induction false} ReverseIncRank(a: Bits)
    requires Cursor.Rank(a) < Pow2(|a|) - 1
    ensures Cursor.Rank(Cursor.ReverseInc(a)) == Cursor.Rank(a) + 1
  {
    Cursor.ReverseIncReversed(a);
    Cursor.ReversedTwice(Inc(Reversed(a)));
    IncVal(Reversed(a));
    OnesVal(|a|);
  }

  lemma {:induction false} NextPrefix(v: Word, k: nat)
    requires k <= WORD_BITS
    ensures Cursor.NextCursor(v, k)[..k] == Cursor.ReverseInc(v[..k])
  {
    Cursor.NextCursorShape(v, k);
  }

  lemma {:induction false} ZeroPrefixRank(k: nat)
    requires k <= WORD_BITS
    ensures Cursor.Rank(Zeros(WORD_BITS)[..k]) == 0
  {
    assert Reversed(Zeros(WORD_BITS)[..k]) == Zeros(k);
    ZerosVal(k);
  }

  lemma {:induction false} CursorCounts(k: nat, i: nat)
    requires k <= WORD_BITS && i < Pow2(k)
    ensures Cursor.Rank(CursorAt(k, i)[..k]) == i
  {
    if i == 0 {
      ZeroPrefixRank(k);
    } else {
      CursorCounts(k, i - 1);
      NextPrefix(CursorAt(k, i - 1), k);
      ReverseIncRank(CursorAt(k, i - 1)[..k]);
    }
  }

  /** The cursor wraps to 0 from the bucket whose number is all ones. */
  lemma {:induction false} NextZero(v: Word, k: nat)
    requires k <= WORD_BITS
    ensures Cursor.NextCursor(v, k) == Zeros(WORD_BITS) <==> v[..k] == Ones(k)
  {
    Cursor.NextCursorShape(v, k);
    Cursor.ReverseIncSuccessor(v[..k], v[..k]);
    Cursor.PaddedZero(Cursor.ReverseInc(v[..k]));
  }

  lemma {:induction false} NextZeroRank(v: Word, k: nat, i: nat)
    requires k <= WORD_BITS && Cursor.Rank(v[..k]) == i
    ensures Cursor.NextCursor(v, k) == Zeros(WORD_BITS) <==> i == Pow2(k) - 1
  {
    NextZero(v, k);
    RankOfOnes(v[..k]);
  }

  lemma {:induction false} CursorNext(k: nat, i: nat)
    requires k <= WORD_BITS
    ensures CursorAt(k, i + 1) == Cursor.NextCursor(CursorAt(k, i), k)
  {
  }

  lemma {:induction false} LastCall(k: nat, i: nat)
    requires k <= WORD_BITS && i < Pow2(k)
    ensures Cursor.NextCursor(CursorAt(k, i), k) == Zeros(WORD_BITS) <==> i == Pow2(k) - 1
  {
    CursorCounts(k, i);
    NextZeroRank(CursorAt(k, i), k, i);
  }

  /** The scan ends after exactly as many calls as there are buckets. */
  lemma {:induction false} ScanLength(k: nat, i: nat)
    requires k <= WORD_BITS && 0 < i <= Pow2(k)
    ensures CursorAt(k, i) == Zeros(WORD_BITS) <==> i == Pow2(k)
  {
    CursorNext(k, i - 1);
    LastCall(k, i - 1);
  }

  function ToBits(k: nat, n: nat): (r: Bits)
    ensures |r| == k
  {
    if k == 0 then [] else [n % 2 == 1] + ToBits(k - 1, n / 2)
  }

  lemma {:induction false} ToBitsVal(k: nat, n: nat)
    requires n < Pow2(k)
    ensures Val(ToBits(k, n)) == n
  {
    if k > 0 { ToBitsVal(k - 1, n / 2); }
  }

  /** The call that looks at bucket b. */
  function CallOf(k: nat, b: nat): nat { Cursor.Rank(ToBits(k, b)) }

  /** Over an unchanged table each bucket is looked at by exactly one call. */
  lemma {:induction false} EachBucketOnce(k: nat, b: nat, i: nat)
    requires k <= WORD_BITS && b < Pow2(k) && i < Pow2(k)
    ensures CallOf(k, b) < Pow2(k)
    ensures Val(CursorAt(k, i)[..k]) == b <==> i == CallOf(k, b)
  {
    var c := CursorAt(k, i)[..k];
    CursorCounts(k, i);
    ToBitsVal(k, b);
    ValBound(Reversed(ToBits(k, b)));
    if Val(c) == b { ValInjective(c, ToBits(k, b)); }
    if i == CallOf(k, b) {
      ValInjective(Reversed(c), Reversed(ToBits(k, b)));
      assert c == Reversed(Reversed(c)) == Reversed(Reversed(ToBits(k, b))) == ToBits(k, b);
    }
  }

  /** How often a key is emitted. */
  function Times<K(==), V>(c: Chain<K, V>, k: K): nat
  {
    if c == [] then 0 else (if c[0].key == k then 1 else 0) + Times(c[1..], k)
  }

  lemma {:induction false} TimesConcat<K, V>(a: Chain<K, V>, b: Chain<K, V>, k: K)
    ensures Times(a + b, k) == Times(a, k) + Times(b, k)
    decreases |a|
  {
    if a == [] {
      assert a + b == b;
    } else {
      assert (a + b)[1..] == a[1..] + b;
      TimesConcat(a[1..], b, k);
    }
  }

  lemma {:induction false} TimesDistinct<K, V>(c: Chain<K, V>, k: K)
    requires Distinct(c)
    ensures Times(c, k) == if Emits(c, k) then 1 else 0
    decreases |c|
  {
    if c != [] {
      TimesDistinct(c[1..], k);
      if c[0].key == k {
        assert Emits(c, k);
        assert !Emits(c[1..], k);
      } else if Emits(c, k) {
        var i :| 0 <= i < |c| && c[i].key == k;
        assert c[1..][i - 1].key == k;
      }
    }
  }

  /** A table of a size, not being rehashed, that has key k. */
  ghost predicate Steady<K(!new), V>(h: K -> Word, s: State<K, V>, k: K, size: nat)
  {
    !Rehashing(s) && |s.h0.buckets| == size && Get(h, s, k).Some?
  }

  /** So it stays, whatever else is added, deleted and looked up between the calls. */
  ghost predicate SteadyRun<K(!new), V>(h: K -> Word, s: State<K, V>, evs: seq<Event<K, V>>, k: K, size: nat)
    decreases |evs|
  {
    && Steady(h, s, k, size)
    && (evs != [] ==>
          match evs[0]
          case Do(op) => SteadyRun(h, Step(h, s, op).0, evs[1..], k, size)
          case Call => SteadyRun(h, s, evs[1..], k, size))
  }

  function Calls<K, V>(evs: seq<Event<K, V>>): nat
  {
    if evs == [] then 0 else (if evs[0].Call? then 1 else 0) + Calls(evs[1..])
  }

  /** One call: the next cursor, and the key exactly if it is the call of its bucket. */
  lemma {:induction false} SteadyCall<K(!new), V>(h: K -> Word, s: State<K, V>, k: K, b: nat, i: nat)
    requires b <= WORD_BITS && Valid(h, s) && Steady(h, s, k, Pow2(b)) && i < Pow2(b)
    ensures Scannable(s) && Scan(s, CursorAt(b, i)).1 == CursorAt(b, i + 1)
    ensures Times(Scan(s, CursorAt(b, i)).0, k) == if i == CallOf(b, Val(h(k)[..b])) then 1 else 0
  {
    var v := CursorAt(b, i);
    Log2Pow2(b);
    GetCounts(h, s, k);
    AtEmits(h, s.h0, v, k);
    BucketIndex(s.h0, v);
    TimesDistinct(At(s.h0, v), k);
    ValBound(h(k)[..b]);
    EachBucketOnce(b, Val(h(k)[..b]), i);
    if Val(v[..b]) == Val(h(k)[..b]) { ValInjective(v[..b], h(k)[..b]); }
  }

  /** The dictionary at every call of a run. */
  function CallStates<K(==), V>(h: K -> Word, s: State<K, V>, evs: seq<Event<K, V>>): seq<State<K, V>>
    decreases |evs|
  {
    if evs == [] then []
    else match evs[0]
      case Do(op) => CallStates(h, Step(h, s, op).0, evs[1..])
      case Call => [s] + CallStates(h, s, evs[1..])
  }

  predicate AllScannable<K, V>(ss: seq<State<K, V>>) { forall j :: 0 <= j < |ss| ==> Scannable(ss[j]) }

  /** The calls alone. */
  function ScanAll<K, V>(ss: seq<State<K, V>>, v: Word): (Word, Chain<K, V>)
    requires AllScannable(ss)
  {
    if ss == [] then (v, [])
    else
      var (out, v1) := Scan(ss[0], v);
      var (v2, out2) := ScanAll(ss[1..], v1);
      (v2, out + out2)
  }

  lemma {:induction false} RunIsScanAll<K, V>(h: K -> Word, s: State<K, V>, v: Word, evs: seq<Event<K, V>>)
    requires AllScannable(CallStates(h, s, evs))
    ensures ScanRun(h, s, v, evs) == ScanAll(CallStates(h, s, evs), v)
    decreases |evs|
  {
    if evs != [] {
      if evs[0].Do? {
        RunIsScanAll(h, Step(h, s, evs[0].op).0, v, evs[1..]);
      } else {
        var ss := CallStates(h, s, evs);
        assert ss[0] == s && ss[1..] == CallStates(h, s, evs[1..]);
        RunIsScanAll(h, s, Scan(s, v).1, evs[1..]);
      }
    }
  }

  ghost predicate AllSteady<K(!new), V>(h: K -> Word, ss: seq<State<K, V>>, k: K, size: nat)
  {
    forall j :: 0 <= j < |ss| ==> Valid(h, ss[j]) && Steady(h, ss[j], k, size)
  }

  lemma {:induction false} SteadyStates<K(!new), V>(
    h: K -> Word, s: State<K, V>, m: map<K, V>, evs: seq<Event<K, V>>, k: K, size: nat)
    requires Represents(h, s, m) && SteadyRun(h, s, evs, k, size)
    ensures AllSteady(h, CallStates(h, s, evs), k, size) && |CallStates(h, s, evs)| == Calls(evs)
    decreases |evs|
  {
    if evs != [] {
      if evs[0].Do? {
        StepRefines(h, s, m, evs[0].op);
        SteadyStates(h, Step(h, s, evs[0].op).0, MapStep(m, evs[0].op).0, evs[1..], k, size);
      } else {
        SteadyStates(h, s, m, evs[1..], k, size);
      }
    }
  }

  lemma {:induction false} ScanAllStep<K, V>(ss: seq<State<K, V>>, k: K, v: Word)
    requires ss != [] && AllScannable(ss)
    ensures AllScannable(ss[1..])
    ensures var (out, v1) := Scan(ss[0], v);
            && ScanAll(ss, v).0 == ScanAll(ss[1..], v1).0
            && Times(ScanAll(ss, v).1, k) == Times(out, k) + Times(ScanAll(ss[1..], v1).1, k)
  {
    assert forall j :: 0 <= j < |ss[1..]| ==> ss[1..][j] == ss[j + 1];
    var (out, v1) := Scan(ss[0], v);
    TimesConcat(out, ScanAll(ss[1..], v1).1, k);
  }

  /** Calls that take the cursors one after the other, from the i-th on, and of which
      number `call` emits the key. */
  predicate Walks<K(==), V>(ss: seq<State<K, V>>, k: K, cs: seq<Word>, call: nat, i: nat)
  {
    i + |ss| < |cs| && forall j :: 0 <= j < |ss| ==> WalksAt(ss[j], k, cs, call, i + j)
  }

  predicate WalksAt<K(==), V>(s: State<K, V>, k: K, cs: seq<Word>, call: nat, c: nat)
    requires c + 1 < |cs|
  {
    Scannable(s) && Scan(s, cs[c]).1 == cs[c + 1] && Times(Scan(s, cs[c]).0, k) == if c == call then 1 else 0
  }

  lemma {:induction false} WalksTail<K, V>(ss: seq<State<K, V>>, k: K, cs: seq<Word>, call: nat, i: nat)
    requires ss != [] && Walks(ss, k, cs, call, i)
    ensures WalksAt(ss[0], k, cs, call, i) && Walks(ss[1..], k, cs, call, i + 1)
  {
    var t := ss[1..];
    forall j | 0 <= j < |t| ensures WalksAt(t[j], k, cs, call, i + 1 + j) {
      assert WalksAt(ss[j + 1], k, cs, call, i + (j + 1));
    }
    assert WalksAt(ss[0], k, cs, call, i + 0);
  }

  lemma {:induction false} WalksScannable<K, V>(ss: seq<State<K, V>>, k: K, cs: seq<Word>, call: nat, i: nat)
    requires Walks(ss, k, cs, call, i)
    ensures AllScannable(ss)
  {
    forall j | 0 <= j < |ss| ensures Scannable(ss[j]) { assert WalksAt(ss[j], k, cs, call, i + j); }
  }

  predicate WalksTo<K(==), V>(ss: seq<State<K, V>>, k: K, v: Word, u: Word, n: nat)
    requires AllScannable(ss)
  {
    ScanAll(ss, v).0 == u && Times(ScanAll(ss, v).1, k) == n
  }

  lemma {:induction false} WalksOn<K, V>(ss: seq<State<K, V>>, k: K, v: Word, v1: Word, n1: nat, u: Word, n: nat)
    requires ss != [] && AllScannable(ss) && Scan(ss[0], v).1 == v1 && Times(Scan(ss[0], v).0, k) == n1
    requires AllScannable(ss[1..]) && WalksTo(ss[1..], k, v1, u, n)
    ensures WalksTo(ss, k, v, u, n1 + n)
  {
    ScanAllStep(ss, k, v);
  }

  lemma {:induction false} WalkEnds<K, V>(ss: seq<State<K, V>>, k: K, cs: seq<Word>, call: nat, i: nat)
    requires Walks(ss, k, cs, call, i)
    ensures AllScannable(ss) && WalksTo(ss, k, cs[i], cs[i + |ss|], if i <= call < i + |ss| then 1 else 0)
    decreases |ss|
  {
    WalksScannable(ss, k, cs, call, i);
    if ss != [] {
      var n := if i + 1 <= call < i + |ss| then 1 else 0;
      WalksTail(ss, k, cs, call, i);
      WalkEnds(ss[1..], k, cs, call, i + 1);
      WalksOn(ss, k, cs[i], cs[i + 1], if i == call then 1 else 0, cs[i + |ss|], n);
    }
  }

  /** A scan of a dictionary that is not resized returns to cursor 0 after exactly as
      many calls as the table has buckets, and has then emitted every key present all
      along exactly once, whatever else happens to the dictionary between the calls. */
  lemma {:induction false} SteadyScanExact<K(!new), V>(
    h: K -> Word, s: State<K, V>, m: map<K, V>, evs: seq<Event<K, V>>, k: K)
    requires Represents(h, s, m) && FitsWord(s) && SteadyRun(h, s, evs, k, |s.h0.buckets|)
    requires 0 < Calls(evs) <= |s.h0.buckets|
    ensures ScanRun(h, s, Zeros(WORD_BITS), evs).0 == Zeros(WORD_BITS) <==> Calls(evs) == |s.h0.buckets|
    ensures Calls(evs) == |s.h0.buckets| ==> Times(ScanRun(h, s, Zeros(WORD_BITS), evs).1, k) == 1
  {
    SteadyStates(h, s, m, evs, k, |s.h0.buckets|);
    SizedFits(|s.h0.buckets|);
    Pow2Log2(|s.h0.buckets|);
    AllCalls(h, CallStates(h, s, evs), k, BitsOf(s.h0));
    RunIsScanAll(h, s, Zeros(WORD_BITS), evs);
  }

  /** The cursors of a whole scan. */
  lemma {:induction false} Cursors(b: nat, n: nat) returns (cs: seq<Word>)
    requires b <= WORD_BITS && 0 < n <= Pow2(b)
    ensures |cs| == Pow2(b) + 1 && forall i :: 0 <= i < |cs| ==> cs[i] == CursorAt(b, i)
    ensures cs[0] == Zeros(WORD_BITS) && (cs[n] == Zeros(WORD_BITS) <==> n == Pow2(b))
  {
    cs := seq(Pow2(b) + 1, i requires 0 <= i => CursorAt(b, i));
    ScanLength(b, n);
  }

  lemma {:induction false} SteadyWalks<K(!new), V>(h: K -> Word, ss: seq<State<K, V>>, k: K, b: nat)
      returns (cs: seq<Word>)
    requires b <= WORD_BITS && AllSteady(h, ss, k, Pow2(b)) && 0 < |ss| <= Pow2(b)
    ensures Walks(ss, k, cs, CallOf(b, Val(h(k)[..b])), 0)
    ensures cs[0] == Zeros(WORD_BITS) && (cs[|ss|] == Zeros(WORD_BITS) <==> |ss| == Pow2(b))
  {
    cs := Cursors(b, |ss|);
    forall j | 0 <= j < |ss| ensures WalksAt(ss[j], k, cs, CallOf(b, Val(h(k)[..b])), 0 + j) {
      SteadyCall(h, ss[j], k, b, j);
    }
  }

  lemma {:induction false} CallInTime(w: Word, b: nat)
    requires b <= WORD_BITS
    ensures CallOf(b, Val(w[..b])) < Pow2(b)
  {
    ValBound(w[..b]);
    EachBucketOnce(b, Val(w[..b]), 0);
  }

  lemma {:induction false} FromZero<K(!new), V>(h: K -> Word, ss: seq<State<K, V>>, k: K, b: nat) returns (u: Word)
    requires b <= WORD_BITS && AllSteady(h, ss, k, Pow2(b)) && 0 < |ss| <= Pow2(b)
    ensures AllScannable(ss)
    ensures WalksTo(ss, k, Zeros(WORD_BITS), u, if CallOf(b, Val(h(k)[..b])) < |ss| then 1 else 0)
    ensures u == Zeros(WORD_BITS) <==> |ss| == Pow2(b)
  {
    var cs := SteadyWalks(h, ss, k, b);
    WalkEnds(ss, k, cs, CallOf(b, Val(h(k)[..b])), 0);
    u := cs[|ss|];
  }

  lemma {:induction false} AllCalls<K(!new), V>(h: K -> Word, ss: seq<State<K, V>>, k: K, b: nat)
    requires b <= WORD_BITS && AllSteady(h, ss, k, Pow2(b)) && 0 < |ss| <= Pow2(b)
    ensures AllScannable(ss)
    ensures ScanAll(ss, Zeros(WORD_BITS)).0 == Zeros(WORD_BITS) <==> |ss| == Pow2(b)
    ensures |ss| == Pow2(b) ==> Times(ScanAll(ss, Zeros(WORD_BITS)).1, k) == 1
  {
    var u := FromZero(h, ss, k, b);
    CallInTime(h(k), b);
  }
}
