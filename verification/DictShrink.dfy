/** Scans of a table that is shrunk while they are under way: for every cursor a
    scan can have then, and every two sizes, whether the scan may miss an element
    that is in the dictionary all along.
 */
module DictShrink {
  import opened Options
  import opened Words
  import opened DictSpec
  import opened DictMap
  import opened DictScan
  import opened DictScanRuns
  import Cursor = ScanCursor

  // ------------------------------------------------------- a table with one key

  /** A table of 2^k buckets that holds one key. */
  function OneKey(w: Word, k: nat): State<Word, ()>
    requires 0 < k <= WORD_BITS
  {
    MidShrink(w, 0, k).(h1 := EmptyTable(), rehashidx := -1)
  }

  lemma {:induction false} OnlyKey(w: Word, k: nat, x: Word)
    requires 0 < k <= WORD_BITS
    ensures Lookup(Self, OneKey(w, k).h0, x) == if x == w then Some(()) else None
  {
    ValBound(w[..k]);
    PrefixVal(w, k);
    var c := OneKey(w, k).h0.buckets[Index(Self, x, Pow2(k))];
    HasIff(c, x);
  }

  lemma {:induction false} OneKeyRepresents(w: Word, k: nat)
    requires 0 < k <= WORD_BITS
    ensures Represents<Word, ()>(Self, OneKey(w, k), map[w := ()])
    ensures FitsWord(OneKey(w, k))
  {
    MidShrinkValid(w, 0, k);
    var s := OneKey(w, k);
    forall x ensures Get(Self, s, x) == if x == w then Some(()) else None {
      OnlyKey(w, k, x);
    }
  }

  lemma {:induction false} MidShrinkRepresents(w: Word, k0: nat, k1: nat)
    requires k0 < k1 <= WORD_BITS
    ensures Represents<Word, ()>(Self, MidShrink(w, k0, k1), map[w := ()])
  {
    MidShrinkValid(w, k0, k1);
    var s := MidShrink(w, k0, k1);
    assert s.h0 == OneKey(w, k1).h0;
    forall x ensures Get(Self, s, x) == if x == w then Some(()) else None {
      OnlyKey(w, k1, x);
    }
  }

  lemma {:induction false} NextPowerReached(a: nat, b: nat)
    requires a <= b
    ensures NextPower(Pow2(a), Pow2(b)) == Pow2(b)
    decreases b - a
  {
    if a < b {
      Pow2Increasing(a, b);
      assert Pow2(a + 1) == 2 * Pow2(a);
      NextPowerReached(a + 1, b);
    }
  }

  /** Asking for a smaller size starts the shrink. */
  lemma {:induction false} ShrinkStarts(w: Word, k0: nat, k1: nat)
    requires 2 <= k0 < k1 <= WORD_BITS
    ensures Expand(OneKey(w, k1), Pow2(k0)).0 == MidShrink(w, k0, k1)
  {
    var s, r := OneKey(w, k1), MidShrink(w, k0, k1);
    assert Pow2(2) == INITIAL_SIZE by { assert Pow2(1) == 2; }
    NextPowerReached(2, k0);
    Pow2Increasing(k0, k1);
    assert s.h0 == r.h0;
    assert Expand(s, Pow2(k0)).0.h1.buckets == r.h1.buckets;
  }

  // ------------------------------------------------------------- repeated calls

  function Repeat(n: nat): seq<Event<Word, ()>> { if n == 0 then [] else [Call] + Repeat(n - 1) }

  lemma {:induction false} RepeatNext(n: nat, rest: seq<Event<Word, ()>>)
    requires n > 0
    ensures Repeat(n) + rest == [Call] + (Repeat(n - 1) + rest)
  {
  }

  /** n calls on a dictionary that stays as it is take the cursor from v to u. */
  predicate LeadsTo(s: State<Word, ()>, v: Word, n: nat, u: Word)
    requires Scannable(s)
    decreases n
  {
    if n == 0 then v == u else LeadsTo(s, Scan(s, v).1, n - 1, u)
  }

  /** None of n calls emits the key. */
  predicate Quiet(s: State<Word, ()>, w: Word, v: Word, n: nat)
    requires Scannable(s)
    decreases n
  {
    n == 0 || (!Emits(Scan(s, v).0, w) && Quiet(s, w, Scan(s, v).1, n - 1))
  }

  predicate AllSafe(s: State<Word, ()>, v: Word, n: nat)
    requires Scannable(s)
    decreases n
  {
    n == 0 || (Safe(s, v) && AllSafe(s, Scan(s, v).1, n - 1))
  }

  /** The run of the events that follow one call. */
  lemma {:induction false} OneCall(s: State<Word, ()>, w: Word, v: Word, rest: seq<Event<Word, ()>>)
    requires Scannable(s)
    ensures var (v1, out1) := ScanRun(Self, s, Scan(s, v).1, rest);
            var (v2, out2) := ScanRun(Self, s, v, [Call] + rest);
            v2 == v1 && (Emits(out2, w) <==> Emits(Scan(s, v).0, w) || Emits(out1, w))
  {
    var evs := [Call] + rest;
    assert evs[1..] == rest;
    EmitsConcat(Scan(s, v).0, ScanRun(Self, s, Scan(s, v).1, rest).1, w);
  }

  lemma {:induction false} CallsRun(s: State<Word, ()>, w: Word, v: Word, n: nat, u: Word,
      rest: seq<Event<Word, ()>>)
    requires Scannable(s) && LeadsTo(s, v, n, u)
    ensures var (v1, out1) := ScanRun(Self, s, u, rest);
            var (v2, out2) := ScanRun(Self, s, v, Repeat(n) + rest);
            v2 == v1 && (Quiet(s, w, v, n) ==> (Emits(out2, w) <==> Emits(out1, w)))
    decreases n
  {
    if n == 0 {
      assert Repeat(n) + rest == rest;
    } else {
      RepeatNext(n, rest);
      CallsRun(s, w, Scan(s, v).1, n - 1, u, rest);
      OneCall(s, w, v, Repeat(n - 1) + rest);
    }
  }

  lemma {:induction false} GoodCall(s: State<Word, ()>, w: Word, v: Word, rest: seq<Event<Word, ()>>)
    requires Scannable(s) && Safe(s, v) && GoodRun(Self, s, Scan(s, v).1, rest, w)
    ensures GoodRun(Self, s, v, [Call] + rest, w)
  {
    var evs := [Call] + rest;
    assert evs[1..] == rest;
  }

  lemma {:induction false} GoodCalls(s: State<Word, ()>, w: Word, v: Word, n: nat, u: Word,
      rest: seq<Event<Word, ()>>)
    requires Scannable(s) && AllSafe(s, v, n) && LeadsTo(s, v, n, u) && GoodRun(Self, s, u, rest, w)
    ensures GoodRun(Self, s, v, Repeat(n) + rest, w)
    decreases n
  {
    if n == 0 {
      assert Repeat(n) + rest == rest;
    } else {
      RepeatNext(n, rest);
      GoodCalls(s, w, Scan(s, v).1, n - 1, u, rest);
      GoodCall(s, w, v, Repeat(n - 1) + rest);
    }
  }

  // -------------------------------------------------- the cursors of one table size

  lemma {:induction false} CursorSuffix(k: nat, i: nat)
    requires k <= WORD_BITS
    ensures CursorAt(k, i)[k..] == Zeros(WORD_BITS - k)
  {
    if i > 0 { Cursor.CursorForward(CursorAt(k, i - 1), k); }
  }

  lemma {:induction false} RankInjective(a: Bits, b: Bits)
    requires |a| == |b| && Cursor.Rank(a) == Cursor.Rank(b)
    ensures a == b
  {
    ValInjective(Reversed(a), Reversed(b));
    Cursor.ReversedTwice(a);
    Cursor.ReversedTwice(b);
  }

  lemma {:induction false} RankBound(a: Bits)
    ensures Cursor.Rank(a) < Pow2(|a|)
  {
    ValBound(Reversed(a));
  }

  /** Every cursor with no bit above the mask is reached, after as many calls as its
      bit-reversed value says. */
  lemma {:induction false} CursorReached(v: Word, k: nat)
    requires k <= WORD_BITS && v[k..] == Zeros(WORD_BITS - k)
    ensures Cursor.Rank(v[..k]) < Pow2(k) && CursorAt(k, Cursor.Rank(v[..k])) == v
  {
    var i := Cursor.Rank(v[..k]);
    RankBound(v[..k]);
    CursorCounts(k, i);
    CursorSuffix(k, i);
    RankInjective(CursorAt(k, i)[..k], v[..k]);
    assert v == v[..k] + v[k..] && CursorAt(k, i) == CursorAt(k, i)[..k] + CursorAt(k, i)[k..];
  }

  /** The cursor moves over 2^k buckets, and key w is emitted at no other than its own. */
  ghost predicate Sweeps(s: State<Word, ()>, w: Word, k: nat)
    requires k <= WORD_BITS
  {
    Scannable(s) && forall v: Word :: SweepsAt(s, w, k, v)
  }

  ghost predicate SweepsAt(s: State<Word, ()>, w: Word, k: nat, v: Word)
    requires k <= WORD_BITS && Scannable(s)
  {
    && Scan(s, v).1 == Cursor.NextCursor(v, k)
    && (Emits(Scan(s, v).0, w) ==> v[..k] == w[..k])
    && (v[k..] == Zeros(WORD_BITS - k) ==> Safe(s, v))
  }

  /** A call at the j-th cursor of a list gives the next one, and emits the key only when
      it is the given one. */
  ghost predicate PathAt(s: State<Word, ()>, w: Word, cs: seq<Word>, call: nat, j: nat)
    requires Scannable(s) && j + 1 < |cs|
  {
    Scan(s, cs[j]).1 == cs[j + 1] && Safe(s, cs[j]) && (Emits(Scan(s, cs[j]).0, w) ==> j == call)
  }

  ghost predicate Path(s: State<Word, ()>, w: Word, cs: seq<Word>, call: nat)
    requires Scannable(s)
  {
    forall j: nat {:trigger PathAt(s, w, cs, call, j)} :: j + 1 < |cs| ==> PathAt(s, w, cs, call, j)
  }

  lemma {:induction false} PathCalls(s: State<Word, ()>, w: Word, cs: seq<Word>, call: nat, i: nat, n: nat)
    requires Scannable(s) && Path(s, w, cs, call) && i + n < |cs|
    ensures LeadsTo(s, cs[i], n, cs[i + n]) && AllSafe(s, cs[i], n)
    ensures i + n <= call || call < i ==> Quiet(s, w, cs[i], n)
    decreases n
  {
    if n > 0 {
      assert PathAt(s, w, cs, call, i);
      PathCalls(s, w, cs, call, i + 1, n - 1);
    }
  }

  lemma {:induction false} SweepStep(s: State<Word, ()>, w: Word, k: nat, i: nat)
    requires k <= WORD_BITS && Sweeps(s, w, k) && i < Pow2(k)
    ensures Scan(s, CursorAt(k, i)).1 == CursorAt(k, i + 1) && Safe(s, CursorAt(k, i))
    ensures Emits(Scan(s, CursorAt(k, i)).0, w) ==> i == Cursor.Rank(w[..k])
  {
    CursorSuffix(k, i);
    assert SweepsAt(s, w, k, CursorAt(k, i));
    CursorCounts(k, i);
  }

  /** The cursors of a whole scan. */
  function CursorList(k: nat): (cs: seq<Word>)
    requires k <= WORD_BITS
    ensures |cs| == Pow2(k) + 1
  {
    seq(Pow2(k) + 1, i requires 0 <= i => CursorAt(k, i))
  }

  lemma {:induction false} SweepPath(s: State<Word, ()>, w: Word, k: nat, cs: seq<Word>)
    requires k <= WORD_BITS && Sweeps(s, w, k) && cs == CursorList(k)
    ensures Path(s, w, cs, Cursor.Rank(w[..k])) && cs[0] == Zeros(WORD_BITS) == cs[Pow2(k)]
  {
    forall j: nat | j + 1 < |cs| ensures PathAt(s, w, cs, Cursor.Rank(w[..k]), j) {
      assert cs[j] == CursorAt(k, j) && cs[j + 1] == CursorAt(k, j + 1);
      SweepStep(s, w, k, j);
    }
    ScanLength(k, Pow2(k));
  }

  /** From a cursor with bits above the mask the next one is as from one without. */
  lemma {:induction false} SweepFirst(s: State<Word, ()>, w: Word, k: nat, v: Word)
    requires k <= WORD_BITS && Sweeps(s, w, k)
    ensures Cursor.Rank(v[..k]) < Pow2(k) && Scan(s, v).1 == CursorList(k)[Cursor.Rank(v[..k]) + 1]
  {
    var r := Cursor.Rank(v[..k]);
    RankBound(v[..k]);
    CursorCounts(k, r);
    RankInjective(CursorAt(k, r)[..k], v[..k]);
    Cursor.SameNextCursor(v, CursorAt(k, r), k);
    assert SweepsAt(s, w, k, v);
  }

  /** The calls that are left over a table of 2^k buckets. */
  function CallsLeft(v: Word, k: nat): (n: nat)
    requires k <= WORD_BITS
    ensures n > 0
  {
    RankBound(v[..k]);
    Pow2(k) - Cursor.Rank(v[..k])
  }

  lemma {:induction false} PathRest(s: State<Word, ()>, w: Word, cs: seq<Word>, call: nat, i: nat, n: nat, u: Word,
      z: Word)
    requires Scannable(s) && Path(s, w, cs, call) && i + n + 1 == |cs| && u == cs[i] && z == cs[i + n]
    ensures LeadsTo(s, u, n, z) && AllSafe(s, u, n) && (call < i ==> Quiet(s, w, u, n))
  {
    PathCalls(s, w, cs, call, i, n);
  }

  /** The calls that are left after the next one. */
  lemma {:induction false} SweepRest(s: State<Word, ()>, w: Word, k: nat, v: Word) returns (u: Word, n: nat)
    requires k <= WORD_BITS && Sweeps(s, w, k)
    ensures CallsLeft(v, k) == n + 1 && Scan(s, v).1 == u
    ensures LeadsTo(s, u, n, Zeros(WORD_BITS)) && AllSafe(s, u, n)
    ensures v[..k] == w[..k] ==> Quiet(s, w, u, n)
  {
    var i, cs := Cursor.Rank(v[..k]) + 1, CursorList(k);
    SweepFirst(s, w, k, v);
    SweepPath(s, w, k, cs);
    u, n := Scan(s, v).1, Pow2(k) - i;
    PathRest(s, w, cs, Cursor.Rank(w[..k]), i, n, u, Zeros(WORD_BITS));
  }

  lemma {:induction false} SweepEnds(s: State<Word, ()>, w: Word, k: nat, v: Word)
    requires k <= WORD_BITS && Sweeps(s, w, k)
    ensures LeadsTo(s, v, CallsLeft(v, k), Zeros(WORD_BITS))
    ensures Safe(s, v) ==> AllSafe(s, v, CallsLeft(v, k))
    ensures !Emits(Scan(s, v).0, w) && v[..k] == w[..k] ==> Quiet(s, w, v, CallsLeft(v, k))
  {
    var u, n := SweepRest(s, w, k, v);
  }

  // ------------------------------------------------------------------ whole scans

  /** A scan of a table of 2^k1 buckets up to cursor v, one operation, and as many calls
      as are left over 2^k0 buckets. */
  function Broken(v: Word, op: Op<Word, ()>, k0: nat, k1: nat): seq<Event<Word, ()>>
    requires k0 < k1 <= WORD_BITS
  {
    Repeat(Cursor.Rank(v[..k1])) + ([Do(op)] + (Repeat(CallsLeft(v, k0)) + []))
  }

  lemma {:induction false} OneOp(s: State<Word, ()>, w: Word, v: Word, op: Op<Word, ()>, rest: seq<Event<Word, ()>>)
    ensures ScanRun(Self, s, v, [Do(op)] + rest) == ScanRun(Self, Step(Self, s, op).0, v, rest)
    ensures Get(Self, s, w).Some? && FitsWord(s) && GoodRun(Self, Step(Self, s, op).0, v, rest, w)
            ==> GoodRun(Self, s, v, [Do(op)] + rest, w)
  {
    var evs := [Do(op)] + rest;
    assert evs[1..] == rest;
  }

  /** The operation takes a dictionary of 2^k1 buckets to one that scans over 2^k0, and
      the key is in it all along. */
  ghost predicate Breaks(s: State<Word, ()>, op: Op<Word, ()>, s': State<Word, ()>, w: Word, k0: nat, k1: nat)
    requires k0 < k1 <= WORD_BITS
  {
    && Sweeps(s, w, k1) && Step(Self, s, op).0 == s' && Sweeps(s', w, k0)
    && Get(Self, s, w).Some? && FitsWord(s) && Get(Self, s', w).Some? && FitsWord(s')
  }

  lemma {:induction false} CallsBefore(s: State<Word, ()>, w: Word, v: Word, k: nat)
    requires k <= WORD_BITS && v[k..] == Zeros(WORD_BITS - k) && Sweeps(s, w, k)
    ensures var n := Cursor.Rank(v[..k]);
            && LeadsTo(s, Zeros(WORD_BITS), n, v) && AllSafe(s, Zeros(WORD_BITS), n)
            && (n <= Cursor.Rank(w[..k]) ==> Quiet(s, w, Zeros(WORD_BITS), n))
  {
    var n, cs := Cursor.Rank(v[..k]), CursorList(k);
    CursorReached(v, k);
    assert cs[n] == v;
    SweepPath(s, w, k, cs);
    PathCalls(s, w, cs, Cursor.Rank(w[..k]), 0, n);
  }

  /** Such a scan returns to cursor 0; and a key that comes after the cursor, and that the
      first call after the operation passes over, is not emitted at all. */
  lemma {:induction false} BrokenRun(s: State<Word, ()>, op: Op<Word, ()>, s': State<Word, ()>, w: Word, v: Word,
      k0: nat, k1: nat)
    requires k0 < k1 <= WORD_BITS && v[k1..] == Zeros(WORD_BITS - k1) && Breaks(s, op, s', w, k0, k1)
    ensures var (end, out) := ScanRun(Self, s, Zeros(WORD_BITS), Broken(v, op, k0, k1));
            && end == Zeros(WORD_BITS)
            && (Cursor.Rank(v[..k1]) <= Cursor.Rank(w[..k1]) && v[..k0] == w[..k0] && !Emits(Scan(s', v).0, w)
                ==> !Emits(out, w))
  {
    var last := Repeat(CallsLeft(v, k0)) + [];
    CallsBefore(s, w, v, k1);
    CallsRun(s, w, Zeros(WORD_BITS), Cursor.Rank(v[..k1]), v, [Do(op)] + last);
    OneOp(s, w, v, op, last);
    SweepEnds(s', w, k0, v);
    CallsRun(s', w, v, CallsLeft(v, k0), Zeros(WORD_BITS), []);
  }

  lemma {:induction false} BrokenGood(s: State<Word, ()>, op: Op<Word, ()>, s': State<Word, ()>, w: Word, v: Word,
      k0: nat, k1: nat)
    requires k0 < k1 <= WORD_BITS && v[k1..] == Zeros(WORD_BITS - k1) && Breaks(s, op, s', w, k0, k1)
    requires Safe(s', v)
    ensures GoodRun(Self, s, Zeros(WORD_BITS), Broken(v, op, k0, k1), w)
  {
    var last := Repeat(CallsLeft(v, k0)) + [];
    SweepEnds(s', w, k0, v);
    GoodCalls(s', w, v, CallsLeft(v, k0), Zeros(WORD_BITS), []);
    OneOp(s, w, v, op, last);
    CallsBefore(s, w, v, k1);
    GoodCalls(s, w, Zeros(WORD_BITS), Cursor.Rank(v[..k1]), v, [Do(op)] + last);
  }

  lemma {:induction false} HasCallAfter(n: nat, rest: seq<Event<Word, ()>>)
    requires HasCall(rest)
    ensures HasCall(Repeat(n) + rest)
  {
    if n == 0 { assert Repeat(n) + rest == rest; } else { RepeatNext(n, rest); }
  }

  lemma {:induction false} BrokenCalls(v: Word, op: Op<Word, ()>, k0: nat, k1: nat)
    requires k0 < k1 <= WORD_BITS
    ensures HasCall(Broken(v, op, k0, k1))
  {
    var last := Repeat(CallsLeft(v, k0)) + [];
    RepeatNext(CallsLeft(v, k0), []);
    var rest := [Do(op)] + last;
    assert rest[1..] == last;
    HasCallAfter(Cursor.Rank(v[..k1]), rest);
  }

  // -------------------------------------------------------------------- the shrink

  lemma {:induction false} OneKeySweeps(w: Word, k: nat)
    requires 0 < k <= WORD_BITS
    ensures Sweeps(OneKey(w, k), w, k)
  {
    var s := OneKey(w, k);
    OneKeyRepresents(w, k);
    ValidScannable(Self, s);
    Log2Pow2(k);
    OnlyKey(w, k, w);
    forall v: Word ensures SweepsAt(s, w, k, v) { AtEmits(Self, s.h0, v, w); }
  }

  lemma {:induction false} MidShrinkSweepsAt(w: Word, k0: nat, k1: nat, v: Word)
    requires k0 < k1 <= WORD_BITS
    ensures Scannable(MidShrink(w, k0, k1)) && SweepsAt(MidShrink(w, k0, k1), w, k0, v)
    ensures Safe(MidShrink(w, k0, k1), v) <==> Cursor.LowOnes(v[k0..k1])
    ensures Emits(Scan(MidShrink(w, k0, k1), v).0, w) <==> v[..k0] == w[..k0] && Val(w[k0..k1]) >= Val(v[k0..k1])
  {
    MidShrinkEmits(w, k0, k1, v);
    Cursor.LooksExactly(v, k0, k1, w[..k1]);
    assert w[..k1][..k0] == w[..k0] && w[..k1][k0..] == w[k0..k1];
    if v[k0..] == Zeros(WORD_BITS - k0) {
      SliceZeros(v, k0, k1);
      LowOnesZeros(v[k0..k1]);
    }
  }

  lemma {:induction false} MidShrinkSweeps(w: Word, k0: nat, k1: nat)
    requires k0 < k1 <= WORD_BITS
    ensures Sweeps(MidShrink(w, k0, k1), w, k0)
  {
    MidShrinkSweepsAt(w, k0, k1, w);
    forall v: Word ensures SweepsAt(MidShrink(w, k0, k1), w, k0, v) { MidShrinkSweepsAt(w, k0, k1, v); }
  }

  lemma {:induction false} ShrinkBreaks(w: Word, k0: nat, k1: nat)
    requires 2 <= k0 < k1 <= WORD_BITS
    ensures Breaks(OneKey(w, k1), DoExpand(Pow2(k0)), MidShrink(w, k0, k1), w, k0, k1)
  {
    OneKeySweeps(w, k1);
    MidShrinkSweeps(w, k0, k1);
    ShrinkStarts(w, k0, k1);
    OneKeyRepresents(w, k1);
    MidShrinkValid(w, k0, k1);
    assert Get(Self, OneKey(w, k1), w) == Some(());
  }

  /** A key that the scan has not come to, and passes over once the shrink starts. */
  function Missed(v: Word, k0: nat, k1: nat): Word
    requires k0 < k1 <= WORD_BITS && !Cursor.LowOnes(v[k0..k1])
  {
    v[..k0] + Cursor.Skipped(v[k0..k1]) + Zeros(WORD_BITS - k1)
  }

  lemma {:induction false} MissedParts(v: Word, k0: nat, k1: nat)
    requires k0 < k1 <= WORD_BITS && !Cursor.LowOnes(v[k0..k1])
    ensures var w := Missed(v, k0, k1);
            && w[..k0] == v[..k0] && Val(w[k0..k1]) < Val(v[k0..k1])
            && Cursor.Rank(v[..k1]) < Cursor.Rank(w[..k1])
  {
    var w := Missed(v, k0, k1);
    Cursor.SkippedOrder(v[k0..k1]);
    assert w[..k0] == v[..k0] && w[k0..k1] == Cursor.Skipped(v[k0..k1]);
    var a, b := v[..k1], w[..k1];
    assert a[..k0] == b[..k0] && a[k0..] == v[k0..k1] && b[k0..] == w[k0..k1];
    Cursor.BeforePrefix(a, b, k0);
    Cursor.BeforeIsReversedLess(a, b);
  }

  /** A table of 2^k1 buckets that holds w alone is scanned up to cursor v, then shrunk to
      2^k0 buckets and scanned to the end: where the scan ends, and what it emits. */
  function ShrinkScan(w: Word, v: Word, k0: nat, k1: nat): (Word, Chain<Word, ()>)
    requires k0 < k1 <= WORD_BITS
  {
    ScanRun(Self, OneKey(w, k1), Zeros(WORD_BITS), Broken(v, DoExpand(Pow2(k0)), k0, k1))
  }

  /** The table holds w alone, before and after the shrink, and the scan returns to 0. */
  lemma {:induction false} ShrinkScanEnds(w: Word, v: Word, k0: nat, k1: nat)
    requires 2 <= k0 < k1 <= WORD_BITS && v[k1..] == Zeros(WORD_BITS - k1)
    ensures Represents<Word, ()>(Self, OneKey(w, k1), map[w := ()])
    ensures Represents<Word, ()>(Self, Expand(OneKey(w, k1), Pow2(k0)).0, map[w := ()])
    ensures ShrinkScan(w, v, k0, k1).0 == Zeros(WORD_BITS)
  {
    ShrinkBreaks(w, k0, k1);
    BrokenRun(OneKey(w, k1), DoExpand(Pow2(k0)), MidShrink(w, k0, k1), w, v, k0, k1);
    OneKeyRepresents(w, k1);
    ShrinkStarts(w, k0, k1);
    MidShrinkRepresents(w, k0, k1);
  }

  lemma {:induction false} ShrinkScanMisses(v: Word, k0: nat, k1: nat)
    requires 2 <= k0 < k1 <= WORD_BITS && v[k1..] == Zeros(WORD_BITS - k1) && !Cursor.LowOnes(v[k0..k1])
    ensures !Emits(ShrinkScan(Missed(v, k0, k1), v, k0, k1).1, Missed(v, k0, k1))
  {
    var w := Missed(v, k0, k1);
    MissedParts(v, k0, k1);
    ShrinkBreaks(w, k0, k1);
    MidShrinkSweepsAt(w, k0, k1, v);
    BrokenRun(OneKey(w, k1), DoExpand(Pow2(k0)), MidShrink(w, k0, k1), w, v, k0, k1);
  }

  lemma {:induction false} ShrinkScanEmits(w: Word, v: Word, k0: nat, k1: nat)
    requires 2 <= k0 < k1 <= WORD_BITS && v[k1..] == Zeros(WORD_BITS - k1) && Cursor.LowOnes(v[k0..k1])
    ensures Emits(ShrinkScan(w, v, k0, k1).1, w)
  {
    var op := DoExpand(Pow2(k0));
    ShrinkBreaks(w, k0, k1);
    MidShrinkSweepsAt(w, k0, k1, v);
    BrokenGood(OneKey(w, k1), op, MidShrink(w, k0, k1), w, v, k0, k1);
    BrokenCalls(v, op, k0, k1);
    ShrinkScanEnds(w, v, k0, k1);
    FullScanCovers(Self, OneKey(w, k1), map[w := ()], Broken(v, op, k0, k1), w);
  }

  /** Exactly when a scan survives a shrink: for every cursor v a scan can have and every
      two sizes, the scan emits whatever key the table holds if and only if the bits of v
      between the two masks are ones from the low end. */
  lemma {:induction false} ShrinkIsExact(v: Word, k0: nat, k1: nat)
    requires 2 <= k0 < k1 <= WORD_BITS && v[k1..] == Zeros(WORD_BITS - k1)
    ensures (forall w: Word :: Emits(ShrinkScan(w, v, k0, k1).1, w)) <==> Cursor.LowOnes(v[k0..k1])
  {
    if Cursor.LowOnes(v[k0..k1]) {
      forall w: Word ensures Emits(ShrinkScan(w, v, k0, k1).1, w) { ShrinkScanEmits(w, v, k0, k1); }
    } else {
      ShrinkScanMisses(v, k0, k1);
    }
  }
}
