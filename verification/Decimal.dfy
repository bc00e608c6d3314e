/** Decimal integers as the protocol writes and reads them: ll2string and string2ll of
    src/util.c.
 */
module Decimal {
  import opened Options

  type byte = x: int | 0 <= x < 256
  type Bytes = seq<byte>

  const LLONG_MAX: nat := 0x7fff_ffff_ffff_ffff
  const LLONG_MIN: int := -0x8000_0000_0000_0000
  const ULLONG_MAX: nat := 0xffff_ffff_ffff_ffff

  predicate IsDigit(b: byte) { 48 <= b <= 57 }

  /** ll2string of a number that is not negative */
  function Digits(n: nat): (s: Bytes)
    ensures s != []
  {
    if n < 10 then [48 + n] else Digits(n / 10) + [48 + n % 10]
  }

  /** The digits of s after the value v, unless they overflow. */
  function ReadDigits(s: Bytes, v: nat): Option<nat>
    decreases |s|
  {
    if s == [] then Some(v)
    else if !IsDigit(s[0]) || v > ULLONG_MAX / 10 || v * 10 + (s[0] - 48) > ULLONG_MAX then None
    else ReadDigits(s[1..], v * 10 + (s[0] - 48))
  }

  /** string2ll */
  function ReadInt(s: Bytes): Option<int>
  {
    if s == [] then None
    else if s == [48] then Some(0)
    else
      var negative := s[0] == 45;
      var d := if negative then s[1..] else s;
      if d == [] || !(49 <= d[0] <= 57) then None
      else
        var v := ReadDigits(d[1..], d[0] - 48);
        if v.None? then None
        else
          var x: int := v.value;
          if negative then (if x > LLONG_MAX + 1 then None else Some(-x))
          else (if x > LLONG_MAX then None else Some(x))
  }

  /** Reading digits from the left, with one more at the end. */
  lemma {:induction false} ReadDigitsSnoc(s: Bytes, d: byte, v: nat, x: nat)
    requires ReadDigits(s, v) == Some(x) && IsDigit(d) && x * 10 + (d - 48) <= ULLONG_MAX
    ensures ReadDigits(s + [d], v) == Some(x * 10 + (d - 48))
    decreases |s|
  {
    if s == [] {
      assert s + [d] == [d];
    } else {
      assert (s + [d])[1..] == s[1..] + [d];
      ReadDigitsSnoc(s[1..], d, v * 10 + (s[0] - 48), x);
    }
  }

  /** The first digit of a number that is not zero is not zero. */
  lemma {:induction false} DigitsShape(n: nat)
    requires 0 < n <= ULLONG_MAX
    ensures 49 <= Digits(n)[0] <= 57
    ensures ReadDigits(Digits(n)[1..], Digits(n)[0] - 48) == Some(n)
  {
    if n >= 10 {
      DigitsShape(n / 10);
      var s := Digits(n / 10);
      ReadDigitsSnoc(s[1..], 48 + n % 10, s[0] - 48, n / 10);
      assert Digits(n)[1..] == s[1..] + [48 + n % 10];
    }
  }

  /** What is printed is read back. */
  lemma {:induction false} ReadPrinted(n: nat)
    requires n <= LLONG_MAX
    ensures ReadInt(Digits(n)) == Some(n)
  {
    if n > 0 { DigitsShape(n); }
  }

  /** ll2string */
  function Printed(x: int): Bytes { if x < 0 then [45] + Digits(-x) else Digits(x) }

  /** Digits that are read after those of a number are those of the number they make. */
  lemma {:induction false} ReadIsPrinted(s: Bytes, v: nat, x: nat)
    requires v > 0 && ReadDigits(s, v) == Some(x)
    ensures Digits(v) + s == Digits(x) && x >= v
    decreases |s|
  {
    if s == [] {
      assert Digits(v) + s == Digits(v);
    } else {
      var v' := v * 10 + (s[0] - 48);
      ReadIsPrinted(s[1..], v', x);
      assert v' / 10 == v && v' % 10 == s[0] - 48;
      assert Digits(v) + s == Digits(v') + s[1..];
    }
  }

  /** What a number that is not zero is read from is what is printed for it. */
  lemma {:induction false} ReadInverse(s: Bytes, x: int)
    requires ReadInt(s) == Some(x)
    ensures s == Printed(x) && LLONG_MIN <= x <= LLONG_MAX
  {
    if s != [48] {
      var d := if s[0] == 45 then s[1..] else s;
      var v := d[0] - 48;
      var y := ReadDigits(d[1..], v).value;
      ReadIsPrinted(d[1..], v, y);
      assert Digits(v) == [d[0]];
      assert d == [d[0]] + d[1..];
      assert s[0] == 45 ==> s == [45] + d;
    }
  }

  /** The texts that are read as integers are exactly those that are printed for the
      integers of 64 bits: no sign without digits, no leading zero, nothing after the
      digits, no number out of range. */
  lemma {:induction false} ReadIntExact(s: Bytes, x: int)
    ensures ReadInt(s) == Some(x) <==> s == Printed(x) && LLONG_MIN <= x <= LLONG_MAX
  {
    if s == Printed(x) && LLONG_MIN <= x <= LLONG_MAX {
      if x < 0 {
        DigitsShape(-x);
        assert s[1..] == Digits(-x);
      } else if x > 0 {
        DigitsShape(x);
      }
    } else if ReadInt(s) == Some(x) {
      ReadInverse(s, x);
    }
  }

  lemma {:induction false} AllDigits(n: nat)
    ensures forall i :: 0 <= i < |Digits(n)| ==> IsDigit(Digits(n)[i])
  {
    if n >= 10 { AllDigits(n / 10); }
  }

  /** The loop of string2ll over the digits. */
  method ReadDigitsLoop(s: Bytes, first: nat) returns (v: Option<nat>)
    ensures v == ReadDigits(s, first)
  {
    var i: nat, x: nat := 0, first;
    while i < |s| && IsDigit(s[i])
      invariant i <= |s| && ReadDigits(s[i..], x) == ReadDigits(s, first)
    {
      assert s[i..][1..] == s[i + 1..];
      if x > ULLONG_MAX / 10 { return None; }
      x := x * 10;
      if x > ULLONG_MAX - (s[i] - 48) { return None; }
      x := x + (s[i] - 48);
      i := i + 1;
    }
    return if i < |s| then None else Some(x);
  }

  /** string2ll */
  method StringToInt(s: Bytes) returns (r: Option<int>)
    ensures r == ReadInt(s)
  {
    if s == [] { return None; }
    if s == [48] { return Some(0); }
    var negative, d := false, s;
    if s[0] == 45 {
      negative, d := true, s[1..];
      if d == [] { return None; }
    }
    if !(49 <= d[0] <= 57) { return None; }
    var v := ReadDigitsLoop(d[1..], d[0] - 48);
    if v.None? { return None; }
    var x: int := v.value;
    if negative { return if x > LLONG_MAX + 1 then None else Some(-x); }
    return if x > LLONG_MAX then None else Some(x);
  }
}
