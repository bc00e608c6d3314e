/** The cursor arithmetic of dictScan (src/dict.c): incrementing a cursor from
    its high bits down, and walking the buckets of the larger table that a
    bucket of the smaller one expands to.
 */
module ScanCursor {
  import opened Words

  /** Scan order: the bit-reversed value of a is below that of b, so the lowest
      bit decides first. */
  predicate Before(a: Bits, b: Bits)
    requires |a| == |b|
  {
    a != [] && if a[0] == b[0] then Before(a[1..], b[1..]) else b[0]
  }

  /** The bit-reversed value. */
  function Rank(a: Bits): nat
  {
    Val(Reversed(a))
  }

  lemma {:induction false} SnocVal(a: Bits, c: bool)
    ensures Val(a + [c]) == Val(a) + if c then Pow2(|a|) else 0
  {
    if a == [] {
      assert a + [c] == [c];
    } else {
      SnocVal(a[1..], c);
      assert (a + [c])[1..] == a[1..] + [c];
    }
  }

  lemma {:induction false} ReversedSnoc(t: Bits, c: bool)
    ensures Reversed([c] + t) == Reversed(t) + [c]
    ensures Reversed(t + [c]) == [c] + Reversed(t)
  {
  }

  lemma {:induction false} FirstBitRank(a: Bits)
    requires a != []
    ensures Rank(a) == Rank(a[1..]) + if a[0] then Pow2(|a| - 1) else 0
  {
    assert a == [a[0]] + a[1..];
    ReversedSnoc(a[1..], a[0]);
    SnocVal(Reversed(a[1..]), a[0]);
  }

  lemma {:induction false} BeforeIsReversedLess(a: Bits, b: Bits)
    requires |a| == |b|
    ensures Before(a, b) <==> Rank(a) < Rank(b)
  {
    if a != [] {
      FirstBitRank(a);
      FirstBitRank(b);
      BeforeIsReversedLess(a[1..], b[1..]);
      ValBound(Reversed(a[1..]));
      ValBound(Reversed(b[1..]));
    }
  }

  lemma {:induction false} BeforeTotal(a: Bits, b: Bits)
    requires |a| == |b|
    ensures Before(a, b) || a == b || Before(b, a)
    ensures Before(a, b) ==> a != b && !Before(b, a)
  {
    if a != [] {
      BeforeTotal(a[1..], b[1..]);
    }
  }

  /** A prefix decides before everything that follows it. */
  lemma {:induction false} BeforePrefix(a: Bits, b: Bits, k: nat)
    requires k <= |a| == |b|
    ensures Before(a, b) <==> Before(a[..k], b[..k]) || (a[..k] == b[..k] && Before(a[k..], b[k..]))
  {
    if k > 0 {
      BeforePrefix(a[1..], b[1..], k - 1);
      assert a[1..][..k - 1] == a[..k][1..] && b[1..][..k - 1] == b[..k][1..];
      assert a[1..][k - 1..] == a[k..] && b[1..][k - 1..] == b[k..];
      assert a[..k] == [a[0]] + a[..k][1..] && b[..k] == [b[0]] + b[..k][1..];
    } else {
      assert a[0..] == a && b[0..] == b;
    }
  }

  lemma {:induction false} NothingBeforeZeros(a: Bits)
    ensures !Before(a, Zeros(|a|))
  {
    if a != [] {
      NothingBeforeZeros(a[1..]);
      assert Zeros(|a|)[1..] == Zeros(|a| - 1);
    }
  }

  lemma {:induction false} OnesLast(a: Bits)
    ensures Before(a, Ones(|a|)) || a == Ones(|a|)
  {
    if a != [] {
      OnesLast(a[1..]);
      assert Ones(|a|)[1..] == Ones(|a| - 1);
      assert a == [a[0]] + a[1..] && Ones(|a|) == [true] + Ones(|a| - 1);
    }
  }

  lemma {:induction false} IncOnes(n: nat, b: Bits)
    ensures Inc(Ones(n) + b) == Zeros(n) + Inc(b)
  {
    if n == 0 {
      assert Ones(n) + b == b;
      assert Zeros(n) + Inc(b) == Inc(b);
    } else {
      IncOnes(n - 1, b);
      var a := Ones(n) + b;
      assert a[1..] == Ones(n - 1) + b;
      assert [false] + (Zeros(n - 1) + Inc(b)) == Zeros(n) + Inc(b);
    }
  }

  lemma {:induction false} IncNoCarry(a: Bits, b: Bits)
    requires a != Ones(|a|)
    ensures Inc(a + b) == Inc(a) + b
  {
    assert (a + b)[1..] == a[1..] + b;
    if a[0] {
      assert a[1..] != Ones(|a| - 1) by { assert a == [true] + a[1..]; assert Ones(|a|) == [true] + Ones(|a| - 1); }
      IncNoCarry(a[1..], b);
    }
  }

  lemma {:induction false} IncConcat(a: Bits, b: Bits)
    ensures Inc(a + b) == if a == Ones(|a|) then Zeros(|a|) + Inc(b) else Inc(a) + b
  {
    if a == Ones(|a|) { IncOnes(|a|, b); } else { IncNoCarry(a, b); }
  }

  /** Increment in scan order, the carry going from the highest bit down. */
  function ReverseInc(a: Bits): (r: Bits)
    ensures |r| == |a|
  {
    var n := |a| - 1;
    if a == [] then []
    else if a[n] then ReverseInc(a[..n]) + [false]
    else a[..n] + [true]
  }

  lemma {:induction false} ReversedTwice(a: Bits)
    ensures Reversed(Reversed(a)) == a
  {
  }

  /** It is the plain increment between two reversals. */
  lemma {:induction false} ReverseIncReversed(a: Bits)
    ensures Reversed(Inc(Reversed(a))) == ReverseInc(a)
  {
    if a != [] {
      var n := |a| - 1;
      var t, c := a[..n], a[n];
      assert a == t + [c];
      ReversedSnoc(t, c);
      var r := Reversed(t);
      assert ([c] + r)[1..] == r;
      if c {
        ReverseIncReversed(t);
        assert Inc([c] + r) == [false] + Inc(r);
        ReversedSnoc(Inc(r), false);
      } else {
        assert Inc([c] + r) == [true] + r;
        ReversedSnoc(r, true);
        assert Reversed(r) == t;
      }
    }
  }

  lemma {:induction false} ReverseIncOnes(a: Bits, n: nat)
    ensures ReverseInc(a + Ones(n)) == ReverseInc(a) + Zeros(n)
  {
    if n == 0 {
      assert a + Ones(n) == a;
      assert ReverseInc(a) + Zeros(n) == ReverseInc(a);
    } else {
      ReverseIncOnes(a, n - 1);
      assert (a + Ones(n))[..|a| + n - 1] == a + Ones(n - 1);
      assert ReverseInc(a) + Zeros(n) == (ReverseInc(a) + Zeros(n - 1)) + [false];
    }
  }

  lemma {:induction false} BeforeSnoc(a: Bits, b: Bits)
    requires |a| == |b| > 0
    ensures var n := |a| - 1;
            Before(a, b) <==> Before(a[..n], b[..n]) || (a[..n] == b[..n] && !a[n] && b[n])
  {
    var n := |a| - 1;
    BeforePrefix(a, b, n);
    assert a[n..] == [a[n]] && b[n..] == [b[n]];
  }

  /** ReverseInc is the successor in scan order, and wraps from all ones to zero. */
  lemma {:induction false} ReverseIncSuccessor(a: Bits, x: Bits)
    requires |x| == |a|
    ensures a == Ones(|a|) <==> ReverseInc(a) == Zeros(|a|)
    ensures a != Ones(|a|) ==> (Before(x, ReverseInc(a)) <==> Before(x, a) || x == a)
  {
    if a != [] {
      var n := |a| - 1;
      var r := ReverseInc(a);
      ReverseIncSuccessor(a[..n], x[..n]);
      BeforeSnoc(x, r);
      BeforeSnoc(x, a);
      assert a == a[..n] + [a[n]] && x == x[..n] + [x[n]] && r == r[..n] + [r[n]];
      assert Ones(|a|)[..n] == Ones(n) && Zeros(|a|)[..n] == Zeros(n);
      if a[n] {
        assert r[..n] == ReverseInc(a[..n]);
        assert a == Ones(|a|) <==> a[..n] == Ones(n);
        assert r == Zeros(|a|) <==> r[..n] == Zeros(n);
      } else {
        assert r[..n] == a[..n];
      }
    }
  }

  /** The next cursor over a table with 2^k buckets, as dictScan computes it. */
  function NextCursor(v: Word, k: nat): Word
    requires k <= WORD_BITS
  {
    Reversed(Inc(Reversed(Or(v, Not(Mask(k))))))
  }

  lemma {:induction false} NextCursorShape(v: Word, k: nat)
    requires k <= WORD_BITS
    ensures NextCursor(v, k) == ReverseInc(v[..k]) + Zeros(WORD_BITS - k)
  {
    var n := WORD_BITS - k;
    assert Or(v, Not(Mask(k))) == v[..k] + Ones(n);
    ReverseIncReversed(v[..k] + Ones(n));
    ReverseIncOnes(v[..k], n);
  }

  lemma {:induction false} BeforePadded(h: Word, a: Bits)
    requires |a| <= WORD_BITS
    ensures Before(h, a + Zeros(WORD_BITS - |a|)) <==> Before(h[..|a|], a)
  {
    var n := a + Zeros(WORD_BITS - |a|);
    BeforePrefix(h, n, |a|);
    assert n[..|a|] == a && n[|a|..] == Zeros(WORD_BITS - |a|);
    NothingBeforeZeros(h[|a|..]);
  }

  lemma {:induction false} PaddedZero(a: Bits)
    requires |a| <= WORD_BITS
    ensures a + Zeros(WORD_BITS - |a|) == Zeros(WORD_BITS) <==> a == Zeros(|a|)
  {
    var n := a + Zeros(WORD_BITS - |a|);
    assert n[..|a|] == a;
    assert Zeros(WORD_BITS)[..|a|] == Zeros(|a|);
    if a == Zeros(|a|) { assert n == Zeros(WORD_BITS); }
  }

  /** What lies before the next cursor, or everything when it is 0, has a bucket
      no later than the one of this step. */
  lemma {:induction false} BeforeNext(v: Word, k: nat, h: Word)
    requires k <= WORD_BITS
    ensures NextCursor(v, k) == Zeros(WORD_BITS) || Before(h, NextCursor(v, k)) <==>
            Before(h[..k], v[..k]) || h[..k] == v[..k]
  {
    var next := ReverseInc(v[..k]);
    NextCursorShape(v, k);
    PaddedZero(next);
    BeforePadded(h, next);
    ReverseIncSuccessor(v[..k], h[..k]);
    OnesLast(h[..k]);
  }

  /** One scan step over a table with 2^k buckets: whatever lies before the
      new cursor (everything, once it is back to 0) lay before the old one or is
      in the bucket the step looked at. */
  lemma {:induction false} Advance(v: Word, k: nat, h: Word)
    requires k <= WORD_BITS
    requires NextCursor(v, k) == Zeros(WORD_BITS) || Before(h, NextCursor(v, k))
    ensures Before(h, v) || h[..k] == v[..k]
  {
    BeforeNext(v, k, h);
    BeforePrefix(h, v, k);
  }

  lemma {:induction false} SameNextCursor(v: Word, w: Word, k: nat)
    requires k <= WORD_BITS && v[..k] == w[..k]
    ensures NextCursor(v, k) == NextCursor(w, k)
  {
    NextCursorShape(v, k);
    NextCursorShape(w, k);
  }

  /** What shares the bucket of a step lies before the new cursor. */
  lemma {:induction false} SamePrefixBeforeNext(v: Word, h: Word, k: nat)
    requires k <= WORD_BITS && h[..k] == v[..k]
    ensures NextCursor(v, k) == Zeros(WORD_BITS) || Before(h, NextCursor(v, k))
  {
    BeforeNext(v, k, h);
  }

  /** The cursor moves strictly forward until it wraps to 0, and uses only the
      bits of the mask it was computed with. */
  lemma {:induction false} CursorForward(v: Word, k: nat)
    requires k <= WORD_BITS
    ensures NextCursor(v, k) == Zeros(WORD_BITS) || Before(v, NextCursor(v, k))
    ensures NextCursor(v, k)[k..] == Zeros(WORD_BITS - k)
  {
    BeforeNext(v, k, v);
    NextCursorShape(v, k);
  }

  // ------------------------------------------------------- the larger table

  /** The step of the inner loop: add one to the bits above the smaller mask. */
  function Expand(v: Word, k0: nat): Word
    requires k0 <= WORD_BITS
  {
    Or(And(Inc(Or(v, Mask(k0))), Not(Mask(k0))), And(v, Mask(k0)))
  }

  lemma {:induction false} ExpandShape(v: Word, k0: nat)
    requires k0 <= WORD_BITS
    ensures Expand(v, k0) == v[..k0] + Inc(v[k0..])
  {
    assert Or(v, Mask(k0)) == Ones(k0) + v[k0..];
    IncOnes(k0, v[k0..]);
    MergeMasked(v, Inc(v[k0..]), k0);
  }

  lemma {:induction false} MergeMasked(v: Word, t: Bits, k: nat)
    requires k <= WORD_BITS && |t| == WORD_BITS - k
    ensures Or(And(Zeros(k) + t, Not(Mask(k))), And(v, Mask(k))) == v[..k] + t
  {
  }

  /** The loop goes on while the bits covered by the mask difference are not all zero. */
  predicate MoreExpansions(v: Word, k0: nat, k1: nat)
    requires k0 <= k1 <= WORD_BITS
  {
    And(v, Xor(Mask(k0), Mask(k1))) != Zeros(WORD_BITS)
  }

  lemma {:induction false} MoreExpansionsShape(v: Word, k0: nat, k1: nat)
    requires k0 <= k1 <= WORD_BITS
    ensures MoreExpansions(v, k0, k1) <==> v[k0..k1] != Zeros(k1 - k0)
  {
    var w := And(v, Xor(Mask(k0), Mask(k1)));
    assert w == Zeros(k0) + v[k0..k1] + Zeros(WORD_BITS - k1);
    assert Zeros(WORD_BITS) == Zeros(k0) + Zeros(k1 - k0) + Zeros(WORD_BITS - k1);
    assert v[k0..k1] == w[k0..k1];
  }

  lemma {:induction false} IncMiddle(c: Bits, t: Bits)
    ensures Inc(c + t)[..|c|] == Inc(c)
  {
    IncConcat(c, t);
    IncVal(c);
  }

  lemma {:induction false} ExpandParts(v: Word, k0: nat, k1: nat)
    requires k0 <= k1 <= WORD_BITS
    ensures Expand(v, k0)[..k0] == v[..k0]
    ensures Expand(v, k0)[k0..k1] == Inc(v[k0..k1])
  {
    ExpandShape(v, k0);
    assert v[k0..] == v[k0..k1] + v[k1..];
    IncMiddle(v[k0..k1], v[k1..]);
    var r := Inc(v[k0..]);
    assert (v[..k0] + r)[k0..k1] == r[..k1 - k0];
  }

  /** How many expansions are left from v on. */
  function Left(v: Word, k0: nat, k1: nat): (n: nat)
    requires k0 <= k1 <= WORD_BITS
    ensures n > 0
  {
    ValBound(v[k0..k1]);
    Pow2(k1 - k0) - Val(v[k0..k1])
  }

  lemma {:induction false} ExpandMiddle(v: Word, k0: nat, k1: nat)
    requires k0 <= k1 <= WORD_BITS
    ensures Expand(v, k0)[..k0] == v[..k0]
    ensures MoreExpansions(Expand(v, k0), k0, k1) <==> v[k0..k1] != Ones(k1 - k0)
    ensures v[k0..k1] != Ones(k1 - k0) ==> Val(Expand(v, k0)[k0..k1]) == Val(v[k0..k1]) + 1
    ensures v[k0..k1] != Ones(k1 - k0) ==> Left(Expand(v, k0), k0, k1) == Left(v, k0, k1) - 1
  {
    ExpandParts(v, k0, k1);
    IncVal(v[k0..k1]);
    MoreExpansionsShape(Expand(v, k0), k0, k1);
    ZerosVal(k1 - k0);
  }

  /** The loop over the larger table, started at v, looks at bucket x. */
  predicate Looks(v: Word, k0: nat, k1: nat, x: Bits)
    requires k0 <= k1 <= WORD_BITS
    decreases Left(v, k0, k1)
  {
    ExpandMiddle(v, k0, k1);
    v[..k1] == x || (MoreExpansions(Expand(v, k0), k0, k1) && Looks(Expand(v, k0), k0, k1, x))
  }

  lemma {:induction false} SameBucket(v: Word, k0: nat, k1: nat, x: Bits)
    requires k0 <= k1 <= WORD_BITS && |x| == k1
    ensures v[..k1] == x <==> x[..k0] == v[..k0] && Val(x[k0..]) == Val(v[k0..k1])
  {
    assert v[..k1] == v[..k0] + v[k0..k1] && x == x[..k0] + x[k0..];
    if Val(x[k0..]) == Val(v[k0..k1]) { ValInjective(x[k0..], v[k0..k1]); }
    if v[..k1] == x { assert v[..k1][k0..] == v[k0..k1]; }
  }

  /** The loop looks at exactly the expansions numerically at or above its
      starting point. */
  lemma {:induction false} LooksExactly(v: Word, k0: nat, k1: nat, x: Bits)
    requires k0 <= k1 <= WORD_BITS && |x| == k1
    ensures Looks(v, k0, k1, x) <==> x[..k0] == v[..k0] && Val(x[k0..]) >= Val(v[k0..k1])
    decreases Left(v, k0, k1)
  {
    ExpandMiddle(v, k0, k1);
    SameBucket(v, k0, k1, x);
    if MoreExpansions(Expand(v, k0), k0, k1) {
      LooksExactly(Expand(v, k0), k0, k1, x);
    } else {
      OnesVal(k1 - k0);
      ValBound(x[k0..]);
    }
  }

  /** The cursor bits under the mask difference are ones from the lowest up. */
  predicate LowOnes(c: Bits)
  {
    c == Zeros(|c|) || (c[0] && LowOnes(c[1..]))
  }

  lemma {:induction false} LowOnesOrder(c: Bits, x: Bits)
    requires |x| == |c| && LowOnes(c) && !Before(x, c)
    ensures Val(x) >= Val(c)
  {
    if c == Zeros(|c|) {
      ZerosVal(|c|);
    } else {
      LowOnesOrder(c[1..], x[1..]);
    }
  }

  /** An expansion that comes later in scan order and is numerically smaller. */
  function Skipped(c: Bits): (x: Bits)
    requires !LowOnes(c)
    ensures |x| == |c|
  {
    if c[0] then [true] + Skipped(c[1..]) else [true] + Zeros(|c| - 1)
  }

  lemma {:induction false} SkippedOrder(c: Bits)
    requires !LowOnes(c)
    ensures Before(c, Skipped(c)) && Val(Skipped(c)) < Val(c)
  {
    if c[0] {
      SkippedOrder(c[1..]);
      assert Skipped(c)[1..] == Skipped(c[1..]);
    } else {
      assert Skipped(c)[1..] == Zeros(|c| - 1);
      ZerosVal(|c| - 1);
      assert c == [false] + c[1..] && Zeros(|c|) == [false] + Zeros(|c| - 1);
      if Val(c[1..]) == 0 {
        ValInjective(c[1..], Zeros(|c| - 1));
      }
    }
  }

  /** Every bucket of the larger table still ahead of the cursor within this
      bucket of the smaller table is looked at. */
  ghost predicate NothingSkipped(v: Word, k0: nat, k1: nat)
    requires k0 <= k1 <= WORD_BITS
  {
    forall h: Word :: h[..k0] == v[..k0] && !Before(h, v) ==> Looks(v, k0, k1, h[..k1])
  }

  /** Exactly when the loop over the larger table skips nothing. */
  lemma {:induction false} SkipCondition(v: Word, k0: nat, k1: nat)
    requires k0 <= k1 <= WORD_BITS
    ensures NothingSkipped(v, k0, k1) <==> LowOnes(v[k0..k1])
  {
    if LowOnes(v[k0..k1]) {
      forall h: Word | h[..k0] == v[..k0] && !Before(h, v) ensures Looks(v, k0, k1, h[..k1]) {
        MiddleOrder(h, v, k0, k1);
        LowOnesOrder(v[k0..k1], h[k0..k1]);
        LooksExactly(v, k0, k1, h[..k1]);
        assert h[..k1][k0..] == h[k0..k1] && h[..k1][..k0] == h[..k0];
      }
    } else {
      var c := v[k0..k1];
      var h: Word := v[..k0] + Skipped(c) + Zeros(WORD_BITS - k1);
      SkippedOrder(c);
      assert h[..k0] == v[..k0] && h[k0..k1] == Skipped(c) && h[..k1][k0..] == Skipped(c);
      MiddleOrder(v, h, k0, k1);
      BeforeTotal(v, h);
      LooksExactly(v, k0, k1, h[..k1]);
      assert !Looks(v, k0, k1, h[..k1]);
    }
  }

  lemma {:induction false} MiddleOrder(a: Word, b: Word, k0: nat, k1: nat)
    requires k0 <= k1 <= WORD_BITS && a[..k0] == b[..k0]
    ensures Before(a[k0..k1], b[k0..k1]) ==> Before(a, b)
  {
    BeforePrefix(a, b, k0);
    BeforePrefix(a[k0..], b[k0..], k1 - k0);
    assert a[k0..][..k1 - k0] == a[k0..k1] && b[k0..][..k1 - k0] == b[k0..k1];
  }
}
