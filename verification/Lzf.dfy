/** The LZF codec of src/lzf_c.c and src/lzf_d.c (VERY_FAST, CHECK_INPUT).

    The compressed format, as tokens: a literal run of 1 to 32 bytes, or a back
    reference of 3 to 264 bytes at a distance of 1 to 8192.
 */
module Lzf {

  type byte = x: int | 0 <= x < 256
  type Bytes = seq<byte>

  const MAX_LIT: nat := 32
  const MAX_OFF: nat := 8192
  const MAX_REF: nat := 264
  const HSIZE: nat := 65536

  // ------------------------------------------------------------ decompression

  datatype Error = TooBig | Invalid
  datatype Result = Ok(bytes: Bytes) | Err(error: Error)

  /** n bytes copied one at a time from position r on, over the bytes already
      written and the ones this very copy writes. */
  function CopyFrom(out: Bytes, r: nat, n: nat): (o: Bytes)
    requires n > 0 ==> r < |out|
    ensures |o| == |out| + n
    decreases n
  {
    if n == 0 then out else CopyFrom(out + [out[r]], r + 1, n - 1)
  }

  /** What the control bytes at a position ask for. */
  datatype Item = Run(len: nat) | Back(dist: nat, len: nat, next: nat) | Cut

  function ReadItem(inp: Bytes, i: nat): (item: Item)
    requires i < |inp|
    ensures item.Run? ==> item.len > 0
    ensures item.Back? ==> i < item.next <= |inp| && item.dist > 0 && item.len > 0
  {
    var ctrl: int := inp[i];
    if ctrl < 32 then Run(ctrl + 1)
    else if i + 1 >= |inp| then Cut
    else if ctrl / 32 < 7 then Back((ctrl % 32) * 256 + (inp[i + 1] as int) + 1, ctrl / 32 + 2, i + 2)
    else if i + 2 >= |inp| then Cut
    else Back((ctrl % 32) * 256 + (inp[i + 2] as int) + 1, 7 + (inp[i + 1] as int) + 2, i + 3)
  }

  datatype Step = Fail(error: Error) | More(i: nat, out: Bytes)

  /** One round of the decompression loop. */
  function DecodeStep(inp: Bytes, i: nat, out: Bytes, cap: nat): (r: Step)
    requires i < |inp|
    ensures r.More? ==> i < r.i <= |inp| && |out| < |r.out| <= cap
  {
    match ReadItem(inp, i)
    case Cut => Fail(Invalid)
    case Run(len) =>
      if |out| + len > cap then Fail(TooBig)
      else if i + 1 + len > |inp| then Fail(Invalid)
      else More(i + 1 + len, out + inp[i + 1..i + 1 + len])
    case Back(dist, len, next) =>
      if |out| + len > cap then Fail(TooBig)
      else if dist > |out| then Fail(Invalid)
      else More(next, CopyFrom(out, |out| - dist, len))
  }

  /** lzf_decompress from input position i on, with out written so far. */
  function Decode(inp: Bytes, i: nat, out: Bytes, cap: nat): (r: Result)
    requires i <= |inp|
    ensures r.Ok? && i < |inp| ==> |out| < |r.bytes| <= cap
    decreases |inp| - i
  {
    if i == |inp| then Ok(out)
    else
      match DecodeStep(inp, i, out, cap)
      case Fail(e) => Err(e)
      case More(j, out') => Decode(inp, j, out', cap)
  }

  /** One round writes at most 264 bytes, and with room for them does not lack room. */
  lemma {:induction false} StepRoom(inp: Bytes, i: nat, out: Bytes, cap: nat)
    requires i < |inp|
    ensures var r := DecodeStep(inp, i, out, cap);
            && (|out| + 264 <= cap ==> r != Fail(TooBig))
            && (r.More? ==> |r.out| <= |out| + 264)
  {
  }

  lemma {:induction false} EnoughRoom(inp: Bytes, i: nat, out: Bytes, cap: nat)
    requires i <= |inp| && cap >= |out| + 264 * (|inp| - i)
    ensures Decode(inp, i, out, cap) != Err(TooBig)
    decreases |inp| - i
  {
    if i < |inp| {
      StepRoom(inp, i, out, cap);
      var r := DecodeStep(inp, i, out, cap);
      if r.More? { EnoughRoom(inp, r.i, r.out, cap); }
    }
  }

  /** With less room a round does the same, or lacks room. */
  lemma {:induction false} StepLessRoom(inp: Bytes, i: nat, out: Bytes, cap: nat, big: nat)
    requires i < |inp| && cap <= big && DecodeStep(inp, i, out, big).More?
    ensures var r := DecodeStep(inp, i, out, big);
            DecodeStep(inp, i, out, cap) == if |r.out| <= cap then r else Fail(TooBig)
  {
  }

  lemma {:induction false} LessRoom(inp: Bytes, i: nat, out: Bytes, cap: nat, big: nat)
    requires i <= |inp| && |out| <= cap <= big && Decode(inp, i, out, big).Ok?
    ensures |Decode(inp, i, out, big).bytes| >= |out|
    ensures var b := Decode(inp, i, out, big).bytes;
            Decode(inp, i, out, cap) == if |b| <= cap then Ok(b) else Err(TooBig)
    decreases |inp| - i
  {
    if i < |inp| {
      StepLessRoom(inp, i, out, cap, big);
      var r := DecodeStep(inp, i, out, big);
      if |r.out| <= cap { LessRoom(inp, r.i, r.out, cap, big); }
    }
  }

  lemma {:induction false} MoreRoom(inp: Bytes, i: nat, out: Bytes, cap: nat, big: nat)
    requires i <= |inp| && cap <= big && Decode(inp, i, out, cap).Ok?
    ensures Decode(inp, i, out, big) == Decode(inp, i, out, cap)
    decreases |inp| - i
  {
    if i < |inp| {
      var r := DecodeStep(inp, i, out, cap);
      assert DecodeStep(inp, i, out, big) == r;
      MoreRoom(inp, r.i, r.out, cap, big);
    }
  }

  /** For every input and room: what it stands for, if it stands for something, is decoded
      exactly if there is room for it, and TooBig says that there is not; an input that
      stands for nothing is not decoded, and with room it is Invalid. */
  lemma {:induction false} DecodeExact(inp: Bytes, cap: nat)
    ensures var whole := Decode(inp, 0, [], if cap < 264 * |inp| then 264 * |inp| else cap);
            && (whole.Ok? ==> Decode(inp, 0, [], cap) == if |whole.bytes| <= cap then whole else Err(TooBig))
            && (whole.Err? ==> whole == Err(Invalid) && Decode(inp, 0, [], cap).Err?)
  {
    var big := if cap < 264 * |inp| then 264 * |inp| else cap;
    EnoughRoom(inp, 0, [], big);
    if Decode(inp, 0, [], big).Ok? { LessRoom(inp, 0, [], cap, big); }
    if Decode(inp, 0, [], cap).Ok? { MoreRoom(inp, 0, [], cap, big); }
    var whole := Decode(inp, 0, [], big);
    assert whole.Err? ==> whole.error.TooBig? || whole.error.Invalid?;
  }

  /** Copy a literal run of the input to the output buffer. */
  method CopyLiterals(inp: Bytes, ip0: nat, out: array<byte>, op0: nat, len: nat) returns (ip: nat, op: nat)
    requires ip0 + len <= |inp| && op0 + len <= out.Length
    modifies out
    ensures ip == ip0 + len && op == op0 + len
    ensures out[..op] == old(out[..op0]) + inp[ip0..ip]
  {
    ip, op := ip0, op0;
    while ip < ip0 + len
      invariant ip0 <= ip <= ip0 + len && op == op0 + (ip - ip0)
      invariant out[..op] == old(out[..op0]) + inp[ip0..ip]
    {
      out[op] := inp[ip];
      op := op + 1;
      ip := ip + 1;
    }
  }

  /** Copy n bytes from position ref of the output buffer to its end. */
  method CopyBack(out: array<byte>, op0: nat, ref0: nat, n: nat) returns (op: nat)
    requires ref0 < op0 && op0 + n <= out.Length
    modifies out
    ensures op == op0 + n
    ensures out[..op] == CopyFrom(old(out[..op0]), ref0, n)
  {
    op := op0;
    var ref, left := ref0, n;
    while left > 0
      invariant 0 <= left <= n && ref == ref0 + (n - left) && op == op0 + (n - left)
      invariant CopyFrom(out[..op], ref, left) == CopyFrom(old(out[..op0]), ref0, n)
    {
      out[op] := out[ref];
      assert out[..op + 1] == out[..op] + [out[..op][ref]];
      op := op + 1;
      ref := ref + 1;
      left := left - 1;
    }
    assert out[..op] == CopyFrom(out[..op], ref, left);
  }

  /** The body of the decompression loop. */
  method DecompressStep(inp: Bytes, ip0: nat, out: array<byte>, op0: nat)
    returns (ok: bool, ip: nat, op: nat, error: Error)
    requires ip0 < |inp| && op0 <= out.Length
    modifies out
    ensures var r := DecodeStep(inp, ip0, old(out[..op0]), out.Length);
            && ok == r.More?
            && (ok ==> ip == r.i && op <= out.Length && out[..op] == r.out)
            && (!ok ==> error == r.error)
  {
    ok, ip, op, error := false, ip0, op0, Invalid;
    var ctrl: int := inp[ip];
    ip := ip + 1;
    if ctrl < 32 {
      ctrl := ctrl + 1;
      if op + ctrl > out.Length { error := TooBig; return; }
      if ip + ctrl > |inp| { return; }
      ip, op := CopyLiterals(inp, ip, out, op, ctrl);
    } else {
      var len: int := ctrl / 32;
      var ref: int := op - (ctrl % 32) * 256 - 1;
      if ip >= |inp| { return; }
      if len == 7 {
        len := len + inp[ip];
        ip := ip + 1;
        if ip >= |inp| { return; }
      }
      ref := ref - inp[ip];
      ip := ip + 1;
      if op + len + 2 > out.Length { error := TooBig; return; }
      if ref < 0 { return; }
      op := CopyBack(out, op, ref, len + 2);
    }
    ok := true;
  }

  /** lzf_decompress: reads its input only, copies only what it has written, and
      returns the length of the decoded bytes, or 0 and the error. */
  method Decompress(inp: Bytes, out: array<byte>) returns (n: nat, error: Error)
    requires inp != []
    modifies out
    ensures n <= out.Length
    ensures Decode(inp, 0, [], out.Length).Ok? ==> n > 0 && out[..n] == Decode(inp, 0, [], out.Length).bytes
    ensures Decode(inp, 0, [], out.Length).Err? ==> n == 0 && error == Decode(inp, 0, [], out.Length).error
  {
    var ip: nat, op: nat := 0, 0;
    error := Invalid;
    while true
      invariant ip < |inp| && op <= out.Length
      invariant Decode(inp, ip, out[..op], out.Length) == Decode(inp, 0, [], out.Length)
      decreases |inp| - ip
    {
      var ok;
      ok, ip, op, error := DecompressStep(inp, ip, out, op);
      if !ok { return 0, error; }
      if ip >= |inp| { break; }
    }
    n := op;
  }

  /** Copying from where the input repeats extends the decoded prefix. */
  lemma {:induction false} CopyMatches(inp: Bytes, ip: nat, ref: nat, n: nat)
    requires ref < ip && ip + n <= |inp| && inp[ref..ref + n] == inp[ip..ip + n]
    ensures CopyFrom(inp[..ip], ref, n) == inp[..ip + n]
    decreases n
  {
    if n > 0 {
      assert inp[ref] == inp[ref..ref + n][0] == inp[ip..ip + n][0] == inp[ip];
      assert inp[..ip] + [inp[..ip][ref]] == inp[..ip + 1];
      assert inp[ref + 1..ref + n] == inp[ref..ref + n][1..];
      assert inp[ip + 1..ip + n] == inp[ip..ip + n][1..];
      CopyMatches(inp, ip + 1, ref + 1, n - 1);
    } else {
      assert inp[..ip + n] == inp[..ip];
    }
  }

  // -------------------------------------------------------------- compression

  /** Before tail, and with enough room, the decoder reads e and has then written
      exactly b. */
  predicate ReadsTo(e: Bytes, b: Bytes, tail: Bytes, cap: nat)
  {
    Reaches(e + tail, |e|, b, cap)
  }

  predicate Reaches(inp: Bytes, i: nat, b: Bytes, cap: nat)
    requires i <= |inp|
  {
    cap >= |b| ==> Decode(inp, 0, [], cap) == Decode(inp, i, b, cap)
  }

  /** The bytes e encode the bytes b, whatever follows. */
  ghost predicate Encodes(e: Bytes, b: Bytes)
  {
    forall tail, cap :: ReadsTo(e, b, tail, cap)
  }

  lemma {:induction false} EncodesEmpty()
    ensures Encodes([], [])
  {
  }

  /** After e and before tail, the item t takes the decoder from b to b'. */
  predicate StepsTo(e: Bytes, t: Bytes, b: Bytes, b': Bytes, tail: Bytes, cap: nat)
  {
    && t != [] && |b| <= |b'|
    && (cap >= |b'| ==> DecodeStep(e + (t + tail), |e|, b, cap) == More(|e| + |t|, b'))
  }

  ghost predicate Extends(e: Bytes, t: Bytes, b: Bytes, b': Bytes)
  {
    forall tail, cap :: StepsTo(e, t, b, b', tail, cap)
  }

  lemma {:induction false} ReachesNext(inp: Bytes, i: nat, b: Bytes, cap: nat, j: nat, b': Bytes)
    requires i < |inp| && Reaches(inp, i, b, cap) && |b| <= |b'| && i < j <= |inp|
    requires cap >= |b'| ==> DecodeStep(inp, i, b, cap) == More(j, b')
    ensures Reaches(inp, j, b', cap)
  {
  }

  lemma {:induction false} ReadsItem(e: Bytes, t: Bytes, b: Bytes, b': Bytes, tail: Bytes, cap: nat)
    requires ReadsTo(e, b, t + tail, cap) && StepsTo(e, t, b, b', tail, cap)
    ensures ReadsTo(e + t, b', tail, cap)
  {
    assert e + t + tail == e + (t + tail);
    ReachesNext(e + (t + tail), |e|, b, cap, |e + t|, b');
  }

  lemma {:induction false} EncodesItem(e: Bytes, t: Bytes, b: Bytes, b': Bytes)
    requires Encodes(e, b) && Extends(e, t, b, b')
    ensures Encodes(e + t, b')
  {
    forall tail: Bytes, cap: nat
      ensures ReadsTo(e + t, b', tail, cap)
    {
      ReadsItem(e, t, b, b', tail, cap);
    }
  }

  lemma {:induction false} Middle(a: Bytes, e: Bytes, b: Bytes)
    ensures (a + (e + b))[|a|..|a| + |e|] == e
  {
  }

  /** A literal run: its length less one, then its bytes. */
  function RunBytes(run: Bytes): Bytes
    requires 1 <= |run| <= MAX_LIT
  {
    [|run| - 1] + run
  }

  lemma {:induction false} RunExtends(e: Bytes, b: Bytes, run: Bytes)
    requires 1 <= |run| <= MAX_LIT
    ensures Extends(e, RunBytes(run), b, b + run)
  {
    forall tail: Bytes, cap: nat
      ensures StepsTo(e, RunBytes(run), b, b + run, tail, cap)
    {
      ReadRun(e, run, tail);
    }
  }

  lemma {:induction false} ReadRun(e: Bytes, run: Bytes, tail: Bytes)
    requires 1 <= |run| <= MAX_LIT
    ensures var inp := e + (RunBytes(run) + tail);
            ReadItem(inp, |e|) == Run(|run|) && inp[|e| + 1..|e| + 1 + |run|] == run
  {
    var inp := e + (RunBytes(run) + tail);
    assert inp[|e|] == |run| - 1;
    assert inp == (e + [|run| - 1]) + (run + tail);
    Middle(e + [|run| - 1], run, tail);
  }

  function Distance(hi: nat, lo: byte): nat { hi * 256 + lo + 1 }

  /** A reference of len bytes at a distance: 3 bits of length and 5 of distance,
      the rest of a long length, the low byte of the distance. */
  function RefBytes(hi: nat, lo: byte, len: nat): Bytes
    requires hi < 32 && 3 <= len <= MAX_REF
  {
    if len - 2 < 7 then [hi + (len - 2) * 32, lo] else [hi + 7 * 32, len - 2 - 7, lo]
  }

  /** The bytes a reference takes. */
  function RefSize(len: nat): nat { if len < 9 then 2 else 3 }

  lemma {:induction false} HeaderByte(hi: nat, L: nat)
    requires hi < 32 && 1 <= L <= 7
    ensures var c := hi + L * 32; 32 <= c < 256 && c / 32 == L && c % 32 == hi
  {
  }

  lemma {:induction false} ReadReference(e: Bytes, hi: nat, lo: byte, len: nat, tail: Bytes)
    requires hi < 32 && 3 <= len <= MAX_REF
    ensures var t := RefBytes(hi, lo, len);
            ReadItem(e + (t + tail), |e|) == Back(Distance(hi, lo), len, |e| + |t|)
  {
    var t := RefBytes(hi, lo, len);
    var inp := e + (t + tail);
    assert inp[|e|] == t[0] && inp[|e| + 1] == t[1];
    HeaderByte(hi, if len - 2 < 7 then len - 2 else 7);
    if len - 2 >= 7 {
      assert inp[|e| + 2] == t[2];
    }
  }

  lemma {:induction false} StepBack(inp: Bytes, i: nat, out: Bytes, cap: nat, dist: nat, len: nat, next: nat)
    requires i < |inp| && ReadItem(inp, i) == Back(dist, len, next) && dist <= |out| && |out| + len <= cap
    ensures DecodeStep(inp, i, out, cap) == More(next, CopyFrom(out, |out| - dist, len))
  {
  }

  lemma {:induction false} BackStepsTo(e: Bytes, t: Bytes, b: Bytes, dist: nat, len: nat, tail: Bytes, cap: nat)
    requires t != [] && dist <= |b| && ReadItem(e + (t + tail), |e|) == Back(dist, len, |e| + |t|)
    ensures StepsTo(e, t, b, CopyFrom(b, |b| - dist, len), tail, cap)
  {
    if cap >= |b| + len {
      StepBack(e + (t + tail), |e|, b, cap, dist, len, |e| + |t|);
    }
  }

  lemma {:induction false} StepReference(e: Bytes, b: Bytes, hi: nat, lo: byte, len: nat, tail: Bytes, cap: nat)
    requires hi < 32 && Distance(hi, lo) <= |b| && 3 <= len <= MAX_REF
    ensures StepsTo(e, RefBytes(hi, lo, len), b, CopyFrom(b, |b| - Distance(hi, lo), len), tail, cap)
  {
    ReadReference(e, hi, lo, len, tail);
    BackStepsTo(e, RefBytes(hi, lo, len), b, Distance(hi, lo), len, tail, cap);
  }

  lemma {:induction false} ReferenceExtends(e: Bytes, b: Bytes, hi: nat, lo: byte, len: nat)
    requires hi < 32 && Distance(hi, lo) <= |b| && 3 <= len <= MAX_REF
    ensures Extends(e, RefBytes(hi, lo, len), b, CopyFrom(b, |b| - Distance(hi, lo), len))
  {
    var t, b' := RefBytes(hi, lo, len), CopyFrom(b, |b| - Distance(hi, lo), len);
    forall tail: Bytes, cap: nat
      ensures StepsTo(e, t, b, b', tail, cap)
    {
      StepReference(e, b, hi, lo, len, tail, cap);
    }
  }

  /** An encoding decodes to what it encodes, in any room that holds it. */
  lemma {:induction false} EncodesDecodes(e: Bytes, b: Bytes, cap: nat)
    requires Encodes(e, b) && b != [] && cap >= |b|
    ensures e != [] && Decode(e, 0, [], cap) == Ok(b)
  {
    assert ReadsTo(e, b, [], cap);
    assert e + [] == e;
  }

  /** The output so far: an encoding of the input before the run in progress,
      then the header slot of the run and its bytes. */
  ghost predicate Written(inp: Bytes, ip: nat, out: Bytes, lit: nat)
  {
    && lit <= MAX_LIT && lit <= ip <= |inp| && lit + 1 <= |out|
    && Encodes(out[..|out| - lit - 1], inp[..ip - lit])
    && out[|out| - lit..] == inp[ip - lit..ip]
  }

  /** Close the run in progress: patch its header, or drop it when empty. */
  function Closed(out: Bytes, lit: nat): (r: Bytes)
    requires lit <= MAX_LIT && lit < |out|
    ensures |r| == if lit == 0 then |out| - 1 else |out|
  {
    if lit == 0 then out[..|out| - 1] else out[|out| - lit - 1 := lit - 1]
  }

  lemma {:induction false} PatchHeader(out: Bytes, h: nat, x: byte)
    requires h < |out|
    ensures out[h := x] == out[..h] + ([x] + out[h + 1..])
  {
  }

  lemma {:induction false} CloseRun(inp: Bytes, ip: nat, out: Bytes, lit: nat)
    requires Written(inp, ip, out, lit)
    ensures Encodes(Closed(out, lit), inp[..ip])
  {
    if lit == 0 {
      assert ip - lit == ip;
    } else {
      var h := |out| - lit - 1;
      PatchHeader(out, h, lit - 1);
      RunExtends(out[..h], inp[..ip - lit], inp[ip - lit..ip]);
      EncodesItem(out[..h], RunBytes(inp[ip - lit..ip]), inp[..ip - lit], inp[..ip - lit] + inp[ip - lit..ip]);
      assert inp[..ip - lit] + inp[ip - lit..ip] == inp[..ip];
    }
  }

  lemma {:induction false} StartRun(inp: Bytes, ip: nat, out: Bytes, slot: byte)
    requires ip <= |inp| && Encodes(out, inp[..ip])
    ensures Written(inp, ip, out + [slot], 0)
  {
    assert (out + [slot])[..|out|] == out;
  }

  lemma {:induction false} OneLiteral(inp: Bytes, ip: nat, out: Bytes, lit: nat)
    requires Written(inp, ip, out, lit) && lit < MAX_LIT && ip < |inp|
    ensures Written(inp, ip + 1, out + [inp[ip]], lit + 1)
  {
    var o := out + [inp[ip]];
    assert o[..|o| - (lit + 1) - 1] == out[..|out| - lit - 1];
    assert o[|o| - (lit + 1)..] == out[|out| - lit..] + [inp[ip]];
    assert inp[ip - lit..ip] + [inp[ip]] == inp[ip + 1 - (lit + 1)..ip + 1];
  }

  lemma {:induction false} OneReference(inp: Bytes, ip: nat, ref: nat, len: nat, out: Bytes, hi: nat, lo: byte)
    requires ip <= |inp| && Encodes(out, inp[..ip]) && ref < ip && hi < 32 && ip - ref == Distance(hi, lo)
    requires 3 <= len <= MAX_REF && ip + len <= |inp| && inp[ref..ref + len] == inp[ip..ip + len]
    ensures Encodes(out + RefBytes(hi, lo, len), inp[..ip + len])
  {
    ReferenceExtends(out, inp[..ip], hi, lo, len);
    CopyMatches(inp, ip, ref, len);
    EncodesItem(out, RefBytes(hi, lo, len), inp[..ip], inp[..ip + len]);
  }

  function First(inp: Bytes, p: nat): nat
    requires p + 1 < |inp|
  {
    (inp[p] as int) * 256 + inp[p + 1] as int
  }

  /** NEXT on a 32-bit unsigned value. */
  function Next(v: nat, inp: Bytes, p: nat): nat
    requires p + 2 < |inp|
  {
    (v * 256) % 0x1_0000_0000 + inp[p + 2] as int
  }

  /** IDX in the VERY_FAST configuration. */
  function Idx(h: nat): (i: nat)
    ensures i < HSIZE
  {
    (h / 256 - 5 * h) % HSIZE
  }

  lemma {:induction false} ExtendMatch(inp: Bytes, ip: nat, ref: nat, len: nat)
    requires ref < ip && ip + len < |inp|
    requires inp[ref..ref + len] == inp[ip..ip + len] && inp[ref + len] == inp[ip + len]
    ensures inp[ref..ref + len + 1] == inp[ip..ip + len + 1]
  {
    assert inp[ref..ref + len + 1] == inp[ref..ref + len] + [inp[ref + len]];
    assert inp[ip..ip + len + 1] == inp[ip..ip + len] + [inp[ip + len]];
  }

  /** The sixteen unrolled comparisons: the first index that differs, or 18 when
      bytes 3 to 18 all match. */
  method MatchUnrolled(inp: Bytes, ip: nat, ref: nat) returns (len: nat, stopped: bool)
    requires ref < ip && ip + 18 < |inp| && inp[ref..ref + 3] == inp[ip..ip + 3]
    ensures 3 <= len <= 18 && inp[ref..ref + len] == inp[ip..ip + len]
    ensures if stopped then inp[ref + len] != inp[ip + len] else len == 18 && inp[ref + 18] == inp[ip + 18]
  {
    len, stopped := 2, false;
    var unrolled := 0;
    while unrolled < 16
      invariant 0 <= unrolled <= 16 && len == 2 + unrolled
      invariant inp[ref..ref + len + 1] == inp[ip..ip + len + 1]
    {
      len := len + 1;
      if inp[ref + len] != inp[ip + len] { return len, true; }
      ExtendMatch(inp, ip, ref, len);
      unrolled := unrolled + 1;
    }
    assert inp[ref..ref + 18] == inp[ref..ref + 19][..18] && inp[ip..ip + 18] == inp[ip..ip + 19][..18];
    assert inp[ref..ref + 19][18] == inp[ip..ip + 19][18];
  }

  /** The input repeats from ref for len bytes, and no reference could be longer, apart
      from the last two bytes of the input. */
  predicate Longest(inp: Bytes, ip: nat, ref: int, len: int)
    requires 0 <= ref < ip
  {
    && 3 <= len <= MAX_REF && ip + len <= |inp| && inp[ref..ref + len] == inp[ip..ip + len]
    && (len < MAX_REF && ip + len < |inp| - 2 ==> inp[ref + len] != inp[ip + len])
  }

  /** How far the input repeats from ref, as far as a reference may go; at least 3
      bytes are known to match. */
  method MatchLength(inp: Bytes, ip: nat, ref: nat) returns (len: nat)
    requires ref < ip && ip + 4 < |inp| && inp[ref..ref + 3] == inp[ip..ip + 3]
    ensures Longest(inp, ip, ref, len)
  {
    len := 2;
    var maxlen := |inp| - ip - len;
    if maxlen > MAX_REF { maxlen := MAX_REF; }
    if maxlen > 16 {
      var stopped;
      len, stopped := MatchUnrolled(inp, ip, ref);
      if stopped { return; }
      ExtendMatch(inp, ip, ref, len);
    }
    len := len + 1;
    while len < maxlen && inp[ref + len] == inp[ip + len]
      invariant 3 <= len && (len <= maxlen || len == 19) && ip + len <= |inp|
      invariant inp[ref..ref + len] == inp[ip..ip + len]
    {
      ExtendMatch(inp, ip, ref, len);
      len := len + 1;
    }
  }

  lemma {:induction false} ThreeBytes(inp: Bytes, ip: nat, ref: nat)
    requires ref < ip && ip + 2 < |inp|
    requires inp[ref] == inp[ip] && inp[ref + 1] == inp[ip + 1] && inp[ref + 2] == inp[ip + 2]
    ensures inp[ref..ref + 3] == inp[ip..ip + 3]
  {
    assert inp[ref..ref + 3] == [inp[ref], inp[ref + 1], inp[ref + 2]];
    assert inp[ip..ip + 3] == [inp[ip], inp[ip + 1], inp[ip + 2]];
  }

  /** Enter a position in the hash table; returns what its slot held. The table
      may hold anything: the matches found are checked against the input. */
  method Enter(inp: Bytes, hval: nat, ip: nat, htab: array<int>) returns (h: nat, ref: int)
    requires ip + 2 < |inp| && htab.Length == HSIZE
    modifies htab
    ensures h == Next(hval, inp, ip) && ref == old(htab[Idx(h)])
    ensures htab[..] == old(htab[..])[Idx(h) := ip]
  {
    h := Next(hval, inp, ip);
    var slot := Idx(h);
    ref := htab[slot];
    htab[slot] := ip;
  }

  /** What is written before the run in progress takes at most 33 bytes for every
      32 it stands for. */
  predicate Tight(ip: nat, size: nat, lit: nat)
  {
    32 * (size - 1 - lit) <= 33 * (ip - lit)
  }

  /** Only full runs of literals before the run in progress: 33 bytes for every 32. */
  predicate Plain(ip: nat, size: nat, lit: nat)
  {
    32 * (size - 1 - lit) == 33 * (ip - lit)
  }

  /** No byte occurs twice, so nothing can be referred to. */
  predicate AllDifferent(inp: Bytes)
  {
    forall i, k :: 0 <= i < k < |inp| ==> inp[i] != inp[k]
  }

  /** A byte that was there before. */
  predicate Repeats(inp: Bytes, ip: nat)
    requires ip < |inp|
  {
    inp[ip] in inp[..ip]
  }

  lemma {:induction false} NothingRepeats(inp: Bytes, ip: nat)
    requires AllDifferent(inp) && ip < |inp|
    ensures !Repeats(inp, ip)
  {
  }

  /** The last run is closed. */
  lemma {:induction false} PlainEnd(length: nat, size: nat, lit: nat)
    requires lit < 32 && lit <= length && lit < size && Plain(length, size, lit)
    ensures (if lit == 0 then size - 1 else size) == Most(length)
  {
    var k := (size - 1 - lit) - (length - lit);
    assert length == 32 * k + lit;
  }

  /** The most that may be written for an input of a length. */
  function Most(length: nat): nat { length + (length + 31) / 32 }

  /** Room enough for any input of a length: a header for every 32 bytes, and 4. */
  predicate Roomy(length: nat, cap: nat)
  {
    cap >= length + length / 32 + 4
  }

  /** One literal byte, closing the run when it is full. */
  method AddLiteral(inp: Bytes, ip: nat, out: Bytes, lit: nat) returns (out': Bytes, lit': nat)
    requires Written(inp, ip, out, lit) && lit < MAX_LIT && ip < |inp|
    ensures Written(inp, ip + 1, out', lit')
    ensures |out'| == |out| + (if lit + 1 == MAX_LIT then 2 else 1)
    ensures lit' == if lit + 1 == MAX_LIT then 0 else lit + 1
    ensures Tight(ip, |out|, lit) ==> Tight(ip + 1, |out'|, lit')
    ensures Plain(ip, |out|, lit) ==> Plain(ip + 1, |out'|, lit')
  {
    OneLiteral(inp, ip, out, lit);
    lit', out' := lit + 1, out + [inp[ip]];
    if lit' == MAX_LIT {
      CloseRun(inp, ip + 1, out', lit');
      out' := Closed(out', lit');
      StartRun(inp, ip + 1, out', 0);
      lit', out' := 0, out' + [0];
    }
  }

  predicate Matches(inp: Bytes, ip: nat, ref: int)
    requires ip < |inp|
  {
    && 0 <= ip - ref - 1 < MAX_OFF && ip + 4 < |inp| && ref > 0
    && inp[ref] == inp[ip] && inp[ref + 1] == inp[ip + 1] && inp[ref + 2] == inp[ip + 2]
  }

  /** Only a longer input with a repetition has a match. */
  lemma {:induction false} MatchRepeats(inp: Bytes, ip: nat, ref: nat)
    requires ip < |inp| && Matches(inp, ip, ref)
    ensures |inp| > 6 && Repeats(inp, ip)
  {
    assert inp[..ip][ref] == inp[ip];
  }

  /** With room for any input of the length there is room at every point. */
  lemma {:induction false} RoomLeft(length: nat, cap: nat, ip: nat, size: nat, lit: nat)
    requires Roomy(length, cap) && Tight(ip, size, lit) && lit <= ip <= length
    ensures size + 3 <= cap && (ip + 4 < length ==> size + 4 < cap)
  {
    var q := length / 32;
    assert length < 32 * q + 32;
  }

  /** A reference to a match, and the header of the run after it. */
  lemma {:induction false} WriteReference(inp: Bytes, ip: nat, ref: nat, len: nat, out: Bytes, off: nat)
    requires ip <= |inp| && Encodes(out, inp[..ip]) && ip - ref - 1 == off < 32 * 256
    requires 3 <= len <= MAX_REF && ip + len <= |inp| && inp[ref..ref + len] == inp[ip..ip + len]
    ensures var out' := out + RefBytes(off / 256, off % 256, len) + [0];
            Written(inp, ip + len, out', 0) && |out'| == |out| + RefSize(len) + 1
  {
    OneReference(inp, ip, ref, len, out, off / 256, off % 256);
    StartRun(inp, ip + len, out + RefBytes(off / 256, off % 256, len), 0);
  }

  method PutReference(inp: Bytes, ip: nat, ref: nat, len: nat, out: Bytes) returns (out': Bytes)
    requires ip <= |inp| && Encodes(out, inp[..ip]) && 0 < ip - ref <= MAX_OFF && Longest(inp, ip, ref, len)
    ensures Written(inp, ip + len, out', 0) && |out'| == |out| + RefSize(len) + 1
  {
    var off := ip - ref - 1;
    WriteReference(inp, ip, ref, len, out, off);
    out' := out + RefBytes(off / 256, off % 256, len) + [0];
  }

  /** A match at ref: close the run and write the reference, if there is room. */
  method AddReference(inp: Bytes, ip: nat, ref: nat, cap: nat, out: Bytes, lit: nat)
    returns (room: bool, out': Bytes, len: nat)
    requires ip < |inp| && Written(inp, ip, out, lit) && Matches(inp, ip, ref)
    ensures room == (|Closed(out, lit)| + 4 < cap)
    ensures room ==> Longest(inp, ip, ref, len) && Written(inp, ip + len, out', 0)
    ensures room ==> |out'| == |Closed(out, lit)| + RefSize(len) + 1
    ensures room && Tight(ip, |out|, lit) ==> Tight(ip + len, |out'|, 0)
  {
    CloseRun(inp, ip, out, lit);
    out' := Closed(out, lit);
    room, len := |out'| + 3 + 1 < cap, 0;
    if room {
      ThreeBytes(inp, ip, ref);
      len := MatchLength(inp, ip, ref);
      out' := PutReference(inp, ip, ref, len, out');
    }
  }

  /** The hash of the three bytes before ip, and the table with the last two positions
      before ip entered. */
  function LastHash(inp: Bytes, ip: nat): nat
    requires 2 <= ip < |inp| - 2
  {
    Next(Next(First(inp, ip - 2), inp, ip - 2), inp, ip - 1)
  }

  function EnterLast(inp: Bytes, ip: nat, tab: seq<int>): seq<int>
    requires 2 <= ip < |inp| - 2 && |tab| == HSIZE
  {
    tab[Idx(Next(First(inp, ip - 2), inp, ip - 2)) := ip - 2][Idx(LastHash(inp, ip)) := ip - 1]
  }

  method EnterTwo(inp: Bytes, ip: nat, htab: array<int>) returns (hval: nat)
    requires 2 <= ip < |inp| - 2 && htab.Length == HSIZE
    modifies htab
    ensures hval == LastHash(inp, ip) && htab[..] == EnterLast(inp, ip, old(htab[..]))
  {
    var ref;
    hval, ref := Enter(inp, First(inp, ip - 2), ip - 2, htab);
    hval, ref := Enter(inp, hval, ip - 1, htab);
  }

  /** What a match at ref leads to: the longest reference, or no room for one. */
  predicate MatchDone(inp: Bytes, cap: nat, ip0: nat, ref: int, closed: nat, tab0: seq<int>,
      room: bool, ip: nat, hval: nat, n: nat, tab: seq<int>)
    requires 0 <= ref < ip0 && |tab0| == HSIZE
  {
    && room == (closed + 4 < cap)
    && (room ==>
      && Longest(inp, ip0, ref, ip - ip0) && n == closed + RefSize(ip - ip0) + 1
      && (ip < |inp| - 2 ==> hval == LastHash(inp, ip) && tab == EnterLast(inp, ip, tab0)))
  }

  /** A match: the reference, and the last two positions it covers in the hash table. */
  method TakeReference(inp: Bytes, ip0: nat, ref0: nat, hval0: nat, cap: nat, htab: array<int>, out0: Bytes, lit0: nat)
    returns (room: bool, ip: nat, hval: nat, out: Bytes)
    requires ip0 + 2 < |inp| && Written(inp, ip0, out0, lit0) && Matches(inp, ip0, ref0) && htab.Length == HSIZE
    modifies htab
    ensures MatchDone(inp, cap, ip0, ref0, |Closed(out0, lit0)|, old(htab[..]), room, ip, hval, |out|, htab[..])
    ensures room ==> ip0 < ip <= |inp| && Written(inp, ip, out, 0)
    ensures room && Tight(ip0, |out0|, lit0) ==> Tight(ip, |out|, 0)
  {
    var len;
    room, out, len := AddReference(inp, ip0, ref0, cap, out0, lit0);
    ip, hval := ip0 + len, hval0;
    if room && ip < |inp| - 2 { hval := EnterTwo(inp, ip, htab); }
  }

  /** What one round of the main loop does, from a position ip0 with three bytes left, the
      output of size n0 with lit0 bytes in its run, and the hash table tab0.  When the
      slot of ip0 holds a position that matches, the longest reference is written, or
      there is no room for one; otherwise one more literal is. */
  predicate RoundDone(inp: Bytes, cap: nat, ip0: nat, hval0: nat, n0: nat, lit0: nat, tab0: seq<int>,
      room: bool, ip: nat, hval: nat, n: nat, lit: nat, tab: seq<int>)
    requires ip0 + 2 < |inp| && |tab0| == HSIZE && 0 < n0
  {
    var h := Next(hval0, inp, ip0);
    var (ref, tab1) := (tab0[Idx(h)], tab0[Idx(h) := ip0]);
    if Matches(inp, ip0, ref) then
      && lit == 0
      && MatchDone(inp, cap, ip0, ref, if lit0 == 0 then n0 - 1 else n0, tab1, room, ip, hval, n, tab)
    else
      && room == (n0 < cap)
      && (room ==>
        && ip == ip0 + 1 && hval == h && tab == tab1
        && n == n0 + (if lit0 + 1 == MAX_LIT then 2 else 1) && lit == if lit0 + 1 == MAX_LIT then 0 else lit0 + 1)
  }

  /** No match: one more literal, if there is room. */
  method TakeLiteral(inp: Bytes, ip0: nat, cap: nat, out0: Bytes, lit0: nat)
    returns (room: bool, ip: nat, out: Bytes, lit: nat)
    requires ip0 < |inp| && lit0 < MAX_LIT && Written(inp, ip0, out0, lit0)
    ensures room == (|out0| < cap)
    ensures room ==> ip == ip0 + 1 && lit < MAX_LIT && Written(inp, ip, out, lit)
    ensures room ==> |out| == |out0| + (if lit0 + 1 == MAX_LIT then 2 else 1)
    ensures room ==> lit == if lit0 + 1 == MAX_LIT then 0 else lit0 + 1
    ensures room && Tight(ip0, |out0|, lit0) ==> Tight(ip, |out|, lit)
    ensures room && Plain(ip0, |out0|, lit0) ==> Plain(ip, |out|, lit)
  {
    room, ip, out, lit := |out0| < cap, ip0, out0, lit0;
    if room {
      out, lit := AddLiteral(inp, ip, out, lit0);
      ip := ip + 1;
    }
  }

  /** One round of the main loop, at a position with three bytes left: a reference
      or a literal, or no room. */
  method CompressRound(inp: Bytes, ip0: nat, hval0: nat, cap: nat, htab: array<int>, out0: Bytes, lit0: nat)
    returns (room: bool, ip: nat, hval: nat, out: Bytes, lit: nat)
    requires ip0 + 2 < |inp| && lit0 < MAX_LIT && Written(inp, ip0, out0, lit0) && htab.Length == HSIZE
    modifies htab
    ensures RoundDone(inp, cap, ip0, hval0, |out0|, lit0, old(htab[..]), room, ip, hval, |out|, lit, htab[..])
    ensures room ==> ip0 < ip <= |inp| && lit < MAX_LIT && Written(inp, ip, out, lit)
    ensures room && Tight(ip0, |out0|, lit0) ==> Tight(ip, |out|, lit)
    ensures Tight(ip0, |out0|, lit0) && Roomy(|inp|, cap) ==> room
    ensures room && Plain(ip0, |out0|, lit0) ==> Plain(ip, |out|, lit) || (|inp| > 6 && Repeats(inp, ip0))
  {
    if Tight(ip0, |out0|, lit0) && Roomy(|inp|, cap) { RoomLeft(|inp|, cap, ip0, |out0|, lit0); }
    var ref;
    hval, ref := Enter(inp, hval0, ip0, htab);
    lit := 0;
    if Matches(inp, ip0, ref) {
      MatchRepeats(inp, ip0, ref);
      room, ip, hval, out := TakeReference(inp, ip0, ref, hval, cap, htab, out0, lit0);
      return;
    }
    room, ip, out, lit := TakeLiteral(inp, ip0, cap, out0, lit0);
  }

  // ------------------------------------------------------- one byte, again and again

  /** One byte, again and again. */
  predicate OneByte(inp: Bytes) { forall i :: 0 <= i < |inp| ==> inp[i] == inp[0] }

  /** The slot of three bytes b. */
  function SlotOf(b: byte): nat { Idx(65793 * (b as nat)) }

  lemma {:induction false} ModMore(x: int, k: int)
    ensures (x + 65536 * k) % 65536 == x % 65536
  {
  }

  lemma {:induction false} ModWord(q: nat, r: nat)
    requires r < 0x1_0000_0000
    ensures (0x1_0000_0000 * q + r) % 0x1_0000_0000 == r
  {
  }

  lemma {:induction false} DivByte(q: nat, x: nat)
    ensures (256 * q + x) / 256 == q + x / 256
  {
  }

  lemma {:induction false} IdxMore(r: nat, x: nat)
    ensures Idx(0x100_0000 * r + x) == Idx(x)
  {
    DivByte(65536 * r, x);
    ModMore(x / 256 - 5 * x, r - 1280 * r);
  }

  lemma {:induction false} Shifted(q: nat, b: nat)
    requires b < 256
    ensures ((65536 * q + 257 * b) * 256) % 0x1_0000_0000 == 0x100_0000 * (q % 256) + 65792 * b
  {
    ModWord(q / 256, 0x100_0000 * (q % 256) + 65792 * b);
  }

  /** The low bits of the hash are those of the bytes. */
  predicate HashOf(v: nat, b: byte) { v % 65536 == 257 * (b as nat) }

  lemma {:induction false} HashNext(v: nat, inp: Bytes, p: nat)
    requires OneByte(inp) && p + 2 < |inp| && HashOf(v, inp[0])
    ensures Idx(Next(v, inp, p)) == SlotOf(inp[0]) && HashOf(Next(v, inp, p), inp[0])
  {
    var q, b := v / 65536, inp[0] as nat;
    assert v == 65536 * q + 257 * b;
    Shifted(q, b);
    HashValue(q % 256, inp[0], Next(v, inp, p));
  }

  lemma {:induction false} HashValue(r: nat, c: byte, h: nat)
    requires h == 0x100_0000 * r + 65793 * (c as nat)
    ensures Idx(h) == SlotOf(c) && HashOf(h, c)
  {
    IdxMore(r, 65793 * (c as nat));
    ModMore(257 * (c as nat), 256 * r + c as nat);
  }

  lemma {:induction false} HashFirst(inp: Bytes, p: nat)
    requires OneByte(inp) && p + 1 < |inp|
    ensures HashOf(First(inp, p), inp[0])
  {
  }

  lemma {:induction false} HashLast(inp: Bytes, ip: nat, tab: seq<int>)
    requires OneByte(inp) && 2 <= ip < |inp| - 2 && |tab| == HSIZE
    ensures HashOf(LastHash(inp, ip), inp[0]) && EnterLast(inp, ip, tab)[SlotOf(inp[0])] == ip - 1
  {
    HashFirst(inp, ip - 2);
    HashNext(First(inp, ip - 2), inp, ip - 2);
    HashNext(Next(First(inp, ip - 2), inp, ip - 2), inp, ip - 1);
  }

  /** Any longer input of one byte again and again takes less than it is long. */
  lemma {:induction false} RefsBelow(length: nat)
    ensures length >= 13 ==> 3 * Refs(length) + 9 < length
    ensures 2 <= length <= 6 ==> Most(length) <= 3 * Refs(length) + 9
  {
    var q := Refs(length);
    assert 264 * q <= length + 261 < 264 * q + 264;
  }

  /** The references for ip bytes after the first two, at 264 bytes each. */
  function Refs(ip: nat): nat { (ip + 261) / 264 }

  /** How far the compression of one byte again and again has got: two literals, then
      references as long as they may be, and literals only when no match can start. */
  predicate Halfway(inp: Bytes, ip: nat, hval: nat, n: nat, lit: nat, tab: seq<int>)
    requires inp != [] && |tab| == HSIZE
  {
    && HashOf(hval, inp[0])
    && if ip <= 2 then lit == ip && n == ip + 1 && (ip > 0 ==> tab[SlotOf(inp[0])] == ip - 1)
       else
         && lit <= ip - 3 && (lit > 0 ==> ip - lit + 4 >= |inp|) && n <= 3 * Refs(ip - lit) + 4 + lit
         && (ip + 4 < |inp| ==> ip == 264 * Refs(ip) + 2 && n == 3 * Refs(ip) + 4 && tab[SlotOf(inp[0])] == ip - 1)
  }

  /** One reference more, whatever its length. */
  lemma {:induction false} RefsNext(ip: nat, len: nat)
    requires ip == 264 * Refs(ip) + 2 && 1 <= len <= 264
    ensures Refs(ip + len) == Refs(ip) + 1
  {
    assert ip + len + 261 == 264 * (Refs(ip) + 1) + (len - 1);
  }

  lemma {:induction false} RefsGrow(a: nat, b: nat)
    requires a <= b
    ensures Refs(a) <= Refs(b)
  {
  }

  /** A match of one byte again and again is as long as it may be. */
  lemma {:induction false} LongMatch(inp: Bytes, ip: nat, ref: int, len: int)
    requires OneByte(inp) && 0 <= ref < ip && Longest(inp, ip, ref, len)
    ensures len == MAX_REF || ip + len >= |inp| - 2
  {
  }

  lemma {:induction false} FirstLiterals(inp: Bytes, cap: nat, ip0: nat, hval0: nat, n0: nat, lit0: nat, tab0: seq<int>,
      room: bool, ip: nat, hval: nat, n: nat, lit: nat, tab: seq<int>)
    requires OneByte(inp) && |inp| >= 7 && |tab0| == HSIZE == |tab| && ip0 < 2
    requires Halfway(inp, ip0, hval0, n0, lit0, tab0) && 0 < n0
    requires RoundDone(inp, cap, ip0, hval0, n0, lit0, tab0, room, ip, hval, n, lit, tab)
    ensures n0 < cap ==> room
    ensures room ==> Halfway(inp, ip, hval, n, lit, tab)
  {
    HashNext(hval0, inp, ip0);
  }

  /** The reference of a round, at any place where one can start. */
  lemma {:induction false} NextReference(inp: Bytes, cap: nat, ip0: nat, hval0: nat, n0: nat, lit0: nat,
      tab0: seq<int>, room: bool, ip: nat, hval: nat, n: nat, lit: nat, tab: seq<int>)
    requires OneByte(inp) && |tab0| == HSIZE == |tab| && 2 <= ip0 && ip0 + 4 < |inp|
    requires Halfway(inp, ip0, hval0, n0, lit0, tab0) && 0 < n0
    requires RoundDone(inp, cap, ip0, hval0, n0, lit0, tab0, room, ip, hval, n, lit, tab)
    ensures 3 * Refs(|inp|) + 9 <= cap ==> room
    ensures room ==> ip0 < ip <= |inp| && (ip < |inp| - 2 ==> Halfway(inp, ip, hval, n, lit, tab))
    ensures room ==> lit == 0 && n <= 3 * Refs(ip) + 4
  {
    var h := Next(hval0, inp, ip0);
    HashNext(hval0, inp, ip0);
    assert Matches(inp, ip0, ip0 - 1);
    var closed := if lit0 == 0 then n0 - 1 else n0;
    assert ip0 == 264 * Refs(ip0) + 2 && closed == 3 * Refs(ip0) + 3;
    RefsNext(ip0, 3);
    RefsGrow(ip0 + 3, |inp|);
    if room {
      var len := ip - ip0;
      LongMatch(inp, ip0, ip0 - 1, len);
      RefsNext(ip0, len);
      if ip < |inp| - 2 { HashLast(inp, ip, tab0[Idx(h) := ip0]); }
    }
  }

  /** The literals at the end, where no match can start. */
  lemma {:induction false} LastLiterals(inp: Bytes, cap: nat, ip0: nat, hval0: nat, n0: nat, lit0: nat,
      tab0: seq<int>, room: bool, ip: nat, hval: nat, n: nat, lit: nat, tab: seq<int>)
    requires OneByte(inp) && |tab0| == HSIZE == |tab| && 2 < ip0 && ip0 + 4 >= |inp| && ip0 + 2 < |inp|
    requires Halfway(inp, ip0, hval0, n0, lit0, tab0) && 0 < n0
    requires RoundDone(inp, cap, ip0, hval0, n0, lit0, tab0, room, ip, hval, n, lit, tab)
    ensures 3 * Refs(|inp|) + 9 <= cap ==> room
    ensures room ==> Halfway(inp, ip, hval, n, lit, tab)
  {
    HashNext(hval0, inp, ip0);
    RefsGrow(ip0 - lit0, |inp|);
  }

  /** What the main loop keeps for one byte again and again. */
  predicate Repeating(inp: Bytes, ip: nat, hval: nat, n: nat, lit: nat, tab: seq<int>)
    requires |tab| == HSIZE
  {
    OneByte(inp) && |inp| >= 7 ==>
      if ip < |inp| - 2 then Halfway(inp, ip, hval, n, lit, tab) else lit <= 2 && n <= 3 * Refs(|inp|) + 6
  }

  lemma {:induction false} RepeatingNext(inp: Bytes, cap: nat, ip0: nat, hval0: nat, n0: nat, lit0: nat,
      tab0: seq<int>, room: bool, ip: nat, hval: nat, n: nat, lit: nat, tab: seq<int>)
    requires |tab0| == HSIZE == |tab| && ip0 + 2 < |inp| && 0 < n0 && Repeating(inp, ip0, hval0, n0, lit0, tab0)
    requires RoundDone(inp, cap, ip0, hval0, n0, lit0, tab0, room, ip, hval, n, lit, tab)
    ensures OneByte(inp) && |inp| >= 7 && 3 * Refs(|inp|) + 9 <= cap ==> room
    ensures room ==> Repeating(inp, ip, hval, n, lit, tab)
  {
    if OneByte(inp) && |inp| >= 7 {
      if ip0 < 2 {
        FirstLiterals(inp, cap, ip0, hval0, n0, lit0, tab0, room, ip, hval, n, lit, tab);
      } else if ip0 + 4 < |inp| {
        NextReference(inp, cap, ip0, hval0, n0, lit0, tab0, room, ip, hval, n, lit, tab);
        if room { RefsGrow(ip, |inp|); }
      } else {
        LastLiterals(inp, cap, ip0, hval0, n0, lit0, tab0, room, ip, hval, n, lit, tab);
        if room { RefsGrow(ip - lit, |inp|); }
      }
    }
  }

  /** lzf_compress with any contents of its hash table: 0, or the length of an
      encoding of the input that fits the capacity. It takes at most one byte more
      for every 32 or part of them, which is what input without a repetition and input of
      up to six bytes takes, and gives up only when there may not be room. The "less
      than 104%" of lzf.h holds for the lengths for which that is less. */
  method Compress(inp: Bytes, cap: nat, htab: array<int>) returns (n: nat, out: Bytes)
    requires |inp| != 1 && htab.Length == HSIZE
    modifies htab
    ensures n <= cap
    ensures n > 0 ==> n == |out| && Encodes(out, inp)
    ensures inp == [] ==> n == 0
    ensures n <= Most(|inp|)
    ensures (AllDifferent(inp) || |inp| <= 6) && n > 0 ==> n == Most(|inp|)
    ensures 25 * ((|inp| + 31) / 32) < |inp| ==> 100 * n < 104 * |inp|
    ensures inp != [] && Roomy(|inp|, cap) ==> n > 0
    ensures OneByte(inp) ==> n <= 3 * Refs(|inp|) + 9
    ensures OneByte(inp) && |inp| >= 7 && cap >= 3 * Refs(|inp|) + 9 ==> n > 0
    ensures OneByte(inp) && 13 <= |inp| <= cap + 1 ==> 0 < n < |inp|
  {
    RefsBelow(|inp|);
    if inp == [] || cap == 0 { return 0, []; }
    var room, ip, out0, lit := CompressMost(inp, cap, htab);
    if !room { return 0, out0; }
    if Roomy(|inp|, cap) { RoomLeft(|inp|, cap, ip, |out0|, lit); }
    if |out0| + 3 > cap { return 0, out0; }
    out := CompressTail(inp, ip, out0, lit);
    EncodesDecodes(out, inp, |inp|);
    n := |out|;
  }

  /** The main loop, which leaves the last two bytes at most. */
  method CompressMost(inp: Bytes, cap: nat, htab: array<int>)
      returns (room: bool, ip: nat, out: Bytes, lit: nat)
    requires |inp| >= 2 && htab.Length == HSIZE
    modifies htab
    ensures room ==> |inp| - 2 <= ip && Written(inp, ip, out, lit) && lit < MAX_LIT && Tight(ip, |out|, lit)
    ensures room && (AllDifferent(inp) || |inp| <= 6) ==> Plain(ip, |out|, lit)
    ensures room && OneByte(inp) && |inp| >= 7 ==> |out| <= 3 * Refs(|inp|) + 6
    ensures Roomy(|inp|, cap) || (OneByte(inp) && |inp| >= 7 && cap >= 3 * Refs(|inp|) + 9) ==> room
  {
    room, ip, lit := true, 0, 0;
    EncodesEmpty();
    StartRun(inp, 0, [], 0);
    out := [0];
    var hval := First(inp, ip);
    if OneByte(inp) { HashFirst(inp, ip); }
    while room && ip < |inp| - 2
      invariant room ==> lit < MAX_LIT && ip <= |inp| && Written(inp, ip, out, lit) && Tight(ip, |out|, lit)
      invariant room && (AllDifferent(inp) || |inp| <= 6) ==> Plain(ip, |out|, lit)
      invariant room ==> Repeating(inp, ip, hval, |out|, lit, htab[..])
      invariant Roomy(|inp|, cap) || (OneByte(inp) && |inp| >= 7 && cap >= 3 * Refs(|inp|) + 9) ==> room
      decreases room, |inp| - ip
    {
      if AllDifferent(inp) { NothingRepeats(inp, ip); }
      ghost var tab0 := htab[..];
      var ip', hval', out', lit';
      room, ip', hval', out', lit' := CompressRound(inp, ip, hval, cap, htab, out, lit);
      RepeatingNext(inp, cap, ip, hval, |out|, lit, tab0, room, ip', hval', |out'|, lit', htab[..]);
      ip, hval, out, lit := ip', hval', out', lit';
    }
  }

  /** How far the last bytes are written, after ip0 and n0 bytes of output. */
  ghost predicate LastBytes(inp: Bytes, ip0: nat, n0: nat, lit0: nat, ip: nat, out: Bytes, lit: nat)
  {
    && ip0 <= ip && lit < MAX_LIT && Written(inp, ip, out, lit)
    && (Tight(ip0, n0, lit0) ==> Tight(ip, |out|, lit))
    && (Plain(ip0, n0, lit0) ==> Plain(ip, |out|, lit))
    && |out| <= n0 + (ip - ip0) + (if lit < ip - ip0 then 1 else 0)
  }

  lemma {:induction false} LastBytesNext(inp: Bytes, ip0: nat, n0: nat, lit0: nat, ip: nat, out: Bytes, lit: nat,
      out': Bytes, lit': nat)
    requires LastBytes(inp, ip0, n0, lit0, ip, out, lit) && ip < |inp| && |inp| - ip0 <= 2
    requires Written(inp, ip + 1, out', lit') && |out'| == |out| + (if lit + 1 == MAX_LIT then 2 else 1)
    requires lit' == if lit + 1 == MAX_LIT then 0 else lit + 1
    requires Tight(ip, |out|, lit) ==> Tight(ip + 1, |out'|, lit')
    requires Plain(ip, |out|, lit) ==> Plain(ip + 1, |out'|, lit')
    ensures LastBytes(inp, ip0, n0, lit0, ip + 1, out', lit')
  {
  }

  /** The end of the input: the run in progress is closed. */
  lemma {:induction false} CloseLast(inp: Bytes, ip0: nat, n0: nat, lit0: nat, out: Bytes, lit: nat)
    requires LastBytes(inp, ip0, n0, lit0, |inp|, out, lit) && |inp| - ip0 <= 2
    ensures var r := Closed(out, lit);
            && Encodes(r, inp) && |r| <= n0 + 3
            && (Tight(ip0, n0, lit0) ==> 32 * |r| <= 33 * |inp| + 31)
            && (Plain(ip0, n0, lit0) ==> |r| == Most(|inp|))
  {
    CloseRun(inp, |inp|, out, lit);
    assert inp[..|inp|] == inp;
    if Plain(|inp|, |out|, lit) { PlainEnd(|inp|, |out|, lit); }
  }

  /** The bytes left when no match can start any more. */
  method CompressTail(inp: Bytes, ip0: nat, out0: Bytes, lit0: nat) returns (out: Bytes)
    requires Written(inp, ip0, out0, lit0) && lit0 < MAX_LIT && |inp| - ip0 <= 2
    ensures Encodes(out, inp)
    ensures |out| <= |out0| + 3
    ensures Tight(ip0, |out0|, lit0) ==> 32 * |out| <= 33 * |inp| + 31
    ensures Plain(ip0, |out0|, lit0) ==> |out| == Most(|inp|)
  {
    var ip: nat, lit: nat := ip0, lit0;
    out := out0;
    while ip < |inp|
      invariant ip <= |inp| && LastBytes(inp, ip0, |out0|, lit0, ip, out, lit)
    {
      var out', lit' := AddLiteral(inp, ip, out, lit);
      LastBytesNext(inp, ip0, |out0|, lit0, ip, out, lit, out', lit');
      ip, out, lit := ip + 1, out', lit';
    }
    CloseLast(inp, ip0, |out0|, lit0, out, lit);
    out := Closed(out, lit);
  }

  /** For every length, an input that takes the most: its result is less than 104% of it
      if and only if the condition under which that holds of every input of this length
      does. It does above 100 bytes, and fails for 2 to 25, 33 to 50, 65 to 75 and 97 to
      100. */
  method WorstInput(length: nat, htab: array<int>) returns (inp: Bytes, n: nat)
    requires length >= 2 && htab.Length == HSIZE
    modifies htab
    ensures |inp| == length && n > 0
    ensures 100 * n < 104 * length <==> 25 * ((length + 31) / 32) < length
    ensures length <= 256 ==> n == Most(length)
    ensures 25 * ((length + 31) / 32) < length <==>
              length > 100 || 26 <= length <= 32 || 51 <= length <= 64 || 76 <= length <= 96
  {
    inp := seq(length, i requires 0 <= i < length => if length <= 256 then i as byte else 0);
    var out;
    n, out := Compress(inp, length + length / 32 + 4, htab);
    LengthRanges(length);
  }

  lemma {:induction false} LengthRanges(length: nat)
    requires length >= 2
    ensures 25 * ((length + 31) / 32) < length <==>
              length > 100 || 26 <= length <= 32 || 51 <= length <= 64 || 76 <= length <= 96
  {
    var q := (length + 31) / 32;
    assert 32 * q <= length + 31 < 32 * q + 32;
  }

  /** Compressing and decompressing gives the input back, whatever the hash table
      held, the capacity offered and the buffer decoded into. */
  method RoundTrip(inp: Bytes, cap: nat, htab: array<int>, buffer: array<byte>) returns (n: nat, m: nat)
    requires |inp| != 1 && htab.Length == HSIZE && buffer.Length >= |inp|
    modifies htab, buffer
    ensures n <= cap
    ensures n > 0 ==> m == |inp| && buffer[..m] == inp
    ensures inp != [] && Roomy(|inp|, cap) ==> n > 0
  {
    var out;
    n, out := Compress(inp, cap, htab);
    m := 0;
    if n > 0 {
      EncodesDecodes(out, inp, buffer.Length);
      var error;
      m, error := Decompress(out, buffer);
    }
  }
}
