/** Where things are in a file or a buffer.
 */
module Layout {
  import opened Decimal

  /** x is in the file at pos. */
  predicate At(file: Bytes, pos: nat, x: Bytes) { pos + |x| <= |file| && Same(file, pos, x, |x|) }

  /** The file ends, at pos, with a part of x from its start and not all of it. */
  predicate EndsIn(file: Bytes, pos: nat, x: Bytes)
  {
    pos <= |file| && |file| - pos < |x| && Same(file, pos, x, |file| - pos)
  }

  /** The file has, at pos, the first n bytes of x. */
  predicate Same(file: Bytes, pos: nat, x: Bytes, n: nat)
    requires n <= |x| && pos + n <= |file|
    decreases n, 0
  {
    n == 0 || SameNext(file, pos, x, n - 1)
  }

  /** The file has, at pos, the first n bytes of x and the next one. */
  predicate SameNext(file: Bytes, pos: nat, x: Bytes, n: nat)
    requires n < |x| && pos + n < |file|
    decreases n, 1
  {
    Same(file, pos, x, n) && file[pos + n] == x[n]
  }

  lemma {:induction false} SameByte(file: Bytes, pos: nat, x: Bytes, n: nat, i: nat)
    requires n <= |x| && pos + n <= |file| && Same(file, pos, x, n) && i < n
    ensures file[pos + i] == x[i]
  {
    if i < n - 1 { SameByte(file, pos, x, n - 1, i); }
  }

  lemma {:induction false} AllSame(file: Bytes, pos: nat, x: Bytes, n: nat)
    requires n <= |x| && pos + n <= |file| && file[pos..pos + n] == x[..n]
    ensures Same(file, pos, x, n)
  {
    if n > 0 {
      assert file[pos..pos + (n - 1)] == file[pos..pos + n][..n - 1] == x[..n - 1];
      AllSame(file, pos, x, n - 1);
      assert file[pos + (n - 1)] == file[pos..pos + n][n - 1] == x[n - 1];
    }
  }

  lemma {:induction false} SameFirst(file: Bytes, pos: nat, x: Bytes, y: Bytes, n: nat)
    requires n <= |x| && pos + n <= |file| && Same(file, pos, x + y, n)
    ensures Same(file, pos, x, n)
  {
    if n > 0 { SameFirst(file, pos, x, y, n - 1); }
  }

  lemma {:induction false} SameSecond(file: Bytes, pos: nat, x: Bytes, y: Bytes, n: nat)
    requires n <= |y| && pos + |x| + n <= |file| && Same(file, pos, x + y, |x| + n)
    ensures Same(file, pos, x, |x|) && Same(file, pos + |x|, y, n)
  {
    if n > 0 {
      SameSecond(file, pos, x, y, n - 1);
      assert (x + y)[|x| + n - 1] == y[n - 1];
    } else {
      SameFirst(file, pos, x, y, |x|);
    }
  }

  lemma {:induction false} AtSplit(file: Bytes, pos: nat, x: Bytes, y: Bytes)
    requires At(file, pos, x + y)
    ensures At(file, pos, x) && At(file, pos + |x|, y)
  {
    SameSecond(file, pos, x, y, |y|);
  }

  lemma {:induction false} EndsInSplit(file: Bytes, pos: nat, x: Bytes, y: Bytes)
    requires EndsIn(file, pos, x + y)
    ensures |file| - pos < |x| ==> EndsIn(file, pos, x)
    ensures |file| - pos >= |x| ==> At(file, pos, x) && EndsIn(file, pos + |x|, y)
  {
    if |file| - pos < |x| {
      SameFirst(file, pos, x, y, |file| - pos);
    } else {
      SameSecond(file, pos, x, y, |file| - pos - |x|);
    }
  }

  lemma {:induction false} AtByte(file: Bytes, pos: nat, x: Bytes, i: nat)
    requires At(file, pos, x) && i < |x|
    ensures file[pos + i] == x[i]
  {
    SameByte(file, pos, x, |x|, i);
  }

  lemma {:induction false} EndsInByte(file: Bytes, pos: nat, x: Bytes, i: nat)
    requires EndsIn(file, pos, x) && i < |file| - pos
    ensures file[pos + i] == x[i]
  {
    SameByte(file, pos, x, |file| - pos, i);
  }

  lemma {:induction false} AtSlice(file: Bytes, pos: nat, x: Bytes)
    requires At(file, pos, x)
    ensures file[pos..pos + |x|] == x
  {
    forall i | 0 <= i < |x| ensures file[pos..pos + |x|][i] == x[i] { AtByte(file, pos, x, i); }
  }

  lemma {:induction false} SliceAt(file: Bytes, pos: nat, x: Bytes)
    requires pos + |x| <= |file| && file[pos..pos + |x|] == x
    ensures At(file, pos, x)
  {
    assert x[..|x|] == x;
    AllSame(file, pos, x, |x|);
  }

  lemma {:induction false} SliceEndsIn(file: Bytes, pos: nat, x: Bytes)
    requires pos <= |file| && file[pos..] < x
    ensures EndsIn(file, pos, x)
  {
    assert file[pos..] == file[pos..pos + (|file| - pos)];
    AllSame(file, pos, x, |file| - pos);
  }

  lemma {:induction false} AtTail(file: Bytes, pos: nat, x: Bytes)
    requires At(file, pos, x) && x != []
    ensures file[pos] == x[0] && At(file, pos + 1, x[1..])
  {
    AtByte(file, pos, x, 0);
    assert x == [x[0]] + x[1..];
    AtSplit(file, pos, [x[0]], x[1..]);
  }
}
