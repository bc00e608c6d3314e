/** Machine words as bit sequences, least significant bit at index 0.

    The hash table of src/dict.c works on `unsigned long` values with masks of
    the form 2^k - 1.  A word is kept as its 64 bits, so that every C operator
    it uses (&, |, ~, ^, <<, >>, ++) is the bitwise definition below, and the
    arguments about masks become arguments about prefixes.
 */
module Words {

  const WORD_BITS: nat := 64

  type Bits = seq<bool>
  type Word = w: Bits | |w| == WORD_BITS witness seq(64, i => false)

  function Zeros(n: nat): (r: Bits)
    ensures |r| == n && forall i :: 0 <= i < n ==> !r[i]
  {
    seq(n, i => false)
  }

  function Ones(n: nat): (r: Bits)
    ensures |r| == n && forall i :: 0 <= i < n ==> r[i]
  {
    seq(n, i => true)
  }

  /** The word 2^k - 1. */
  function Mask(k: nat): Word
    requires k <= WORD_BITS
  {
    Ones(k) + Zeros(WORD_BITS - k)
  }

  // ---------------------------------------------------------------- operators

  function And(a: Word, b: Word): Word { seq(WORD_BITS, i requires 0 <= i < WORD_BITS => a[i] && b[i]) }

  function Or(a: Word, b: Word): Word { seq(WORD_BITS, i requires 0 <= i < WORD_BITS => a[i] || b[i]) }

  function Xor(a: Word, b: Word): Word { seq(WORD_BITS, i requires 0 <= i < WORD_BITS => a[i] != b[i]) }

  function Not(a: Word): Word { seq(WORD_BITS, i requires 0 <= i < WORD_BITS => !a[i]) }

  /** a << s */
  function Shl(a: Word, s: nat): Word
    requires s <= WORD_BITS
  {
    seq(WORD_BITS, i requires 0 <= i < WORD_BITS => s <= i && a[i - s])
  }

  /** a >> s */
  function Shr(a: Word, s: nat): Word
    requires s <= WORD_BITS
  {
    seq(WORD_BITS, i requires 0 <= i < WORD_BITS => i + s < WORD_BITS && a[i + s])
  }

  /** a + 1 with wrap-around, by carry propagation from bit 0. */
  function Inc(a: Bits): (r: Bits)
    ensures |r| == |a|
  {
    if a == [] then []
    else if !a[0] then [true] + a[1..]
    else [false] + Inc(a[1..])
  }

  // ------------------------------------------------------------------- values

  function Pow2(k: nat): (p: nat)
    ensures p >= 1
  {
    if k == 0 then 1 else 2 * Pow2(k - 1)
  }

  /** The unsigned number a bit sequence stands for. */
  function Val(a: Bits): nat
  {
    if a == [] then 0 else (if a[0] then 1 else 0) + 2 * Val(a[1..])
  }

  lemma {:induction false} ValBound(a: Bits)
    ensures Val(a) < Pow2(|a|)
  {
    if a != [] {
      ValBound(a[1..]);
    }
  }

  lemma {:induction false} IncVal(a: Bits)
    ensures Val(Inc(a)) == if a == Ones(|a|) then 0 else Val(a) + 1
    ensures a == Ones(|a|) ==> Inc(a) == Zeros(|a|)
  {
    if a != [] {
      IncVal(a[1..]);
      assert a == Ones(|a|) <==> a[0] && a[1..] == Ones(|a| - 1);
      if a[0] {
        assert Inc(a)[1..] == Inc(a[1..]);
      }
    }
  }

  lemma {:induction false} ZerosVal(n: nat)
    ensures Val(Zeros(n)) == 0
  {
    if n > 0 {
      ZerosVal(n - 1);
      assert Zeros(n)[1..] == Zeros(n - 1);
    }
  }

  lemma {:induction false} OnesVal(n: nat)
    ensures Val(Ones(n)) == Pow2(n) - 1
  {
    if n > 0 {
      OnesVal(n - 1);
      assert Ones(n)[1..] == Ones(n - 1);
    }
  }

  lemma {:induction false} ValInjective(a: Bits, b: Bits)
    requires |a| == |b| && Val(a) == Val(b)
    ensures a == b
  {
    if a != [] {
      ValInjective(a[1..], b[1..]);
    }
  }

  lemma {:induction false} PrefixVal(a: Bits, k: nat)
    requires k <= |a|
    ensures Val(a) % Pow2(k) == Val(a[..k])
  {
    if k > 0 {
      PrefixVal(a[1..], k - 1);
      assert a[1..][..k - 1] == a[..k][1..];
      var p, w := Pow2(k - 1), Val(a[1..]);
      Digit(w, p, if a[0] then 1 else 0);
    }
  }

  lemma {:induction false} Digit(w: nat, p: nat, b: nat)
    requires p > 0 && b < 2
    ensures (b + 2 * w) % (2 * p) == b + 2 * (w % p)
  {
    var q, r := w / p, w % p;
    assert w == q * p + r;
    assert b + 2 * w == q * (2 * p) + (b + 2 * r);
    DivModUnique(b + 2 * w, 2 * p, q, b + 2 * r);
  }

  lemma {:induction false} DivModUnique(n: nat, d: nat, q: nat, r: nat)
    requires d > 0 && r < d && n == q * d + r
    ensures n / d == q && n % d == r
  {
    var e := n / d - q;
    assert e * d == r - n % d;
    if e > 0 {
      MulAtLeast(e, d);
    } else if e < 0 {
      MulAtLeast(-e, d);
    }
  }

  lemma {:induction false} MulAtLeast(x: int, d: int)
    requires x >= 1 && d >= 0
    ensures x * d >= d
  {
  }

  /** Anding with the mask 2^k - 1 keeps the low k bits, that is the rest of
      the division by 2^k. */
  lemma {:induction false} AndMask(a: Word, k: nat)
    requires k <= WORD_BITS
    ensures And(a, Mask(k)) == a[..k] + Zeros(WORD_BITS - k)
    ensures Val(And(a, Mask(k))) == Val(a[..k]) == Val(a) % Pow2(k)
  {
    assert And(a, Mask(k)) == a[..k] + Zeros(WORD_BITS - k);
    PadVal(a[..k], WORD_BITS - k);
    PrefixVal(a, k);
  }

  lemma {:induction false} PadVal(a: Bits, n: nat)
    ensures Val(a + Zeros(n)) == Val(a)
  {
    if a == [] {
      ZerosVal(n);
      assert a + Zeros(n) == Zeros(n);
    } else {
      PadVal(a[1..], n);
      assert (a + Zeros(n))[1..] == a[1..] + Zeros(n);
    }
  }

  // ---------------------------------------------------------------- reversal

  function Reversed(a: Bits): (r: Bits)
    ensures |r| == |a|
    ensures forall i :: 0 <= i < |a| ==> r[i] == a[|a| - 1 - i]
  {
    seq(|a|, i requires 0 <= i < |a| => a[|a| - 1 - i])
  }

  /** The position a bit comes from in one round of swaps at distance s. */
  function Swap(s: nat, i: nat): int
    requires s > 0
  {
    if i % (2 * s) < s then i + s else i - s
  }

  /** The position a bit comes from once the rounds 32, 16, .. down to s are done. */
  function Source(s: nat, i: nat): int
    requires s > 0
    decreases WORD_BITS - s
  {
    if s >= WORD_BITS || Swap(s, i) < 0 then i else Source(2 * s, Swap(s, i))
  }

  lemma {:induction false} Halves(i: nat, s: nat)
    requires s > 0
    ensures i % s == if i % (2 * s) < s then i % (2 * s) else i % (2 * s) - s
  {
    HalvesOf(i, s, i / (2 * s), i % (2 * s));
  }

  lemma {:induction false} HalvesOf(i: nat, s: nat, q: nat, r: nat)
    requires s > 0 && r < 2 * s && i == q * (2 * s) + r
    ensures i % s == if r < s then r else r - s
  {
    assert q * (2 * s) == (2 * q) * s;
    if r < s {
      DivModUnique(i, s, 2 * q, r);
    } else {
      assert (2 * q + 1) * s == (2 * q) * s + s;
      DivModUnique(i, s, 2 * q + 1, r - s);
    }
  }

  lemma {:induction false} ModMinus(i: nat, s: nat, d: nat)
    requires 0 < s <= d && s <= i
    ensures (i - s) % d == if i % d >= s then i % d - s else i % d + d - s
  {
    var q, r := i / d, i % d;
    assert i == q * d + r;
    if r >= s {
      DivModUnique(i - s, d, q, r - s);
    } else {
      assert q >= 1;
      assert i - s == (q - 1) * d + (r + d - s);
      DivModUnique(i - s, d, q - 1, r + d - s);
    }
  }

  lemma {:induction false} ModPlus(i: nat, s: nat, d: nat)
    requires 0 < d && i % d + s < d
    ensures (i + s) % d == i % d + s
  {
    DivModUnique(i + s, d, i / d, i % d + s);
  }

  lemma {:induction false} SwapAt(s: nat, i: nat)
    requires s in {1, 2, 4, 8, 16, 32} && i < WORD_BITS
    ensures 0 <= Swap(s, i) < WORD_BITS
    ensures (i % (2 * s) < s) == ((i % (4 * s) < 2 * s) != (s <= i && (i - s) % (4 * s) < 2 * s))
  {
    Halves(i, 2 * s);
    assert i < s ==> i % (4 * s) == i by { if i < s { DivModUnique(i, 4 * s, 0, i); } }
    if s <= i {
      ModMinus(i, s, 4 * s);
    }
    SwapInRange(s, i);
  }

  lemma {:induction false} SwapInRange(s: nat, i: nat)
    requires s in {1, 2, 4, 8, 16, 32} && i < WORD_BITS
    ensures 0 <= Swap(s, i) < WORD_BITS
  {
    if s == 1 { SwapInBlock(s, i, 32); }
    else if s == 2 { SwapInBlock(s, i, 16); }
    else if s == 4 { SwapInBlock(s, i, 8); }
    else if s == 8 { SwapInBlock(s, i, 4); }
    else if s == 16 { SwapInBlock(s, i, 2); }
    else { SwapInBlock(s, i, 1); }
  }

  lemma {:induction false} SwapInBlock(s: nat, i: nat, blocks: nat)
    requires s > 0 && i < WORD_BITS == blocks * (2 * s)
    ensures 0 <= Swap(s, i) < WORD_BITS
  {
    BlockBound(i, i / (2 * s), i % (2 * s), 2 * s, blocks);
  }

  /** The block a position is in is one of the blocks, all of it. */
  lemma {:induction false} BlockBound(i: nat, q: nat, r: nat, d: nat, blocks: nat)
    requires i == q * d + r && r < d && i < blocks * d
    ensures r <= i && i + d - r <= blocks * d
  {
    if q >= blocks {
      MulMonotone(blocks, q, d);
    } else {
      MulMonotone(q + 1, blocks, d);
    }
  }

  lemma {:induction false} MulMonotone(x: int, y: int, d: int)
    requires x <= y && d >= 0
    ensures x * d <= y * d
  {
  }

  lemma {:induction false} SourceClosed(s: nat, i: nat)
    requires s in {1, 2, 4, 8, 16, 32, 64} && i < WORD_BITS
    ensures Source(s, i) == WORD_BITS - s - i + 2 * (i % s)
    decreases WORD_BITS - s
  {
    if s < WORD_BITS {
      SwapInRange(s, i);
      SourceClosed(2 * s, Swap(s, i));
      Halves(i, s);
      if i % (2 * s) < s {
        ModPlus(i, s, 2 * s);
      } else {
        ModMinus(i, s, 2 * s);
      }
    }
  }

  /** The mask selects, in every block of 2s bits, the lower s. */
  ghost predicate LowHalves(mask: Word, s: nat)
    requires s > 0
  {
    forall i :: 0 <= i < WORD_BITS ==> mask[i] == (i % (2 * s) < s)
  }

  ghost predicate Routed(v0: Word, v: Word, s: nat)
    requires s > 0
  {
    forall i :: 0 <= i < WORD_BITS ==> 0 <= Source(s, i) < WORD_BITS && v[i] == v0[Source(s, i)]
  }

  lemma {:induction false} SwapMask(s: nat, mask: Word, mask': Word)
    requires s in {1, 2, 4, 8, 16, 32}
    requires LowHalves(mask, 2 * s) && mask' == Xor(mask, Shl(mask, s))
    ensures LowHalves(mask', s)
  {
    forall i | 0 <= i < WORD_BITS ensures mask'[i] == (i % (2 * s) < s) {
      SwapAt(s, i);
      assert mask[i] == (i % (2 * (2 * s)) < 2 * s);
      assert mask'[i] == (mask[i] != (s <= i && mask[i - s]));
    }
  }

  /** One round of the swapping takes each bit from the other half of its block. */
  lemma {:induction false} SwapBit(s: nat, v: Word, mask: Word, v': Word, i: nat)
    requires 0 < s && i < WORD_BITS && 0 <= Swap(s, i) < WORD_BITS && mask[i] == (i % (2 * s) < s)
    requires v' == Or(And(Shr(v, s), mask), And(Shl(v, s), Not(mask)))
    ensures v'[i] == v[Swap(s, i)]
  {
    if mask[i] {
      assert v'[i] == Shr(v, s)[i];
    } else {
      assert v'[i] == Shl(v, s)[i];
    }
  }

  lemma {:induction false} RoutedBit(s: nat, v0: Word, v: Word, i: nat, j: nat)
    requires s > 0 && j < WORD_BITS && Routed(v0, v, 2 * s) && Source(s, i) == Source(2 * s, j)
    ensures 0 <= Source(s, i) < WORD_BITS && v[j] == v0[Source(s, i)]
  {
  }

  lemma {:induction false} SwapBits(s: nat, v0: Word, v: Word, mask: Word, v': Word)
    requires s in {1, 2, 4, 8, 16, 32}
    requires LowHalves(mask, s) && Routed(v0, v, 2 * s)
    requires v' == Or(And(Shr(v, s), mask), And(Shl(v, s), Not(mask)))
    ensures Routed(v0, v', s)
  {
    forall i | 0 <= i < WORD_BITS
      ensures 0 <= Source(s, i) < WORD_BITS && v'[i] == v0[Source(s, i)]
    {
      SwapInRange(s, i);
      SwapBit(s, v, mask, v', i);
      RoutedBit(s, v0, v, i, Swap(s, i));
    }
  }

  lemma {:induction false} RoutedThrough(v0: Word, v: Word)
    requires Routed(v0, v, 1)
    ensures v == Reversed(v0)
  {
    forall i | 0 <= i < WORD_BITS ensures v[i] == Reversed(v0)[i] {
      SourceClosed(1, i);
    }
  }

  /** The bit-swapping loop of rev(). */
  method Rev(v0: Word) returns (v: Word)
    ensures v == Reversed(v0)
  {
    var s := WORD_BITS;
    var mask: Word := Ones(64);
    v := v0;
    while s / 2 > 0
      invariant s in {1, 2, 4, 8, 16, 32, 64}
      invariant LowHalves(mask, s) && Routed(v0, v, s)
    {
      s := s / 2;
      var mask' := Xor(mask, Shl(mask, s));
      var v' := Or(And(Shr(v, s), mask'), And(Shl(v, s), Not(mask')));
      SwapMask(s, mask, mask');
      SwapBits(s, v0, v, mask', v');
      mask, v := mask', v';
    }
    RoutedThrough(v0, v);
  }
}
