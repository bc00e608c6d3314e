/** The checker of AOF files, src/disque-check-aof.c: which commands it takes and where it
    cuts, for every file, and when the loader takes what it leaves.
 */
module AofCheck {
  import opened Options
  import opened Decimal
  import opened Layout
  import opened Resp
  import opened AofLoad
  import opened AofEnd

  /** What a step of the checker finds: an error, or a number, the place of an argument, or
      a command, and where the next one starts. */
  datatype Found = Wrong | Header(count: int, next: nat) | Text(start: nat, next: nat) | Whole(next: nat, multi: int)

  /** readLong: the number of a header line, and where the line ends. */
  function CheckLong(file: Bytes, pos: nat, prefix: byte): (r: Found)
    requires pos <= |file|
    ensures r.Wrong? || (r.Header? && pos < r.next <= |file|)
  {
    if pos == |file| then Wrong
    else
      var end := LineEnd(file, pos, LINE_MAX);
      if file[pos] != prefix then Wrong
      else
        var n := Strtol(file, pos + 1, end);
        if n.stop + 2 <= end && file[n.stop] == CR && file[n.stop + 1] == LF then Header(n.value, end) else Wrong
  }

  /** readString: where an argument is. */
  function CheckString(file: Bytes, pos: nat): (r: Found)
    requires pos <= |file|
    ensures r.Wrong? || (r.Text? && pos < r.start <= r.next - 2 && r.next <= |file|)
  {
    var h := CheckLong(file, pos, DOLLAR);
    if h.Wrong? || h.count < 0 || |file| - h.next < h.count + 2 then Wrong
    else
      var end := h.next + h.count;
      if file[end] != CR || file[end + 1] != LF then Wrong else Text(h.next, end + 2)
  }

  /** strcasecmp of the bytes from start to end with a name in lower case, from its
      position i on. */
  predicate SameName(file: Bytes, start: nat, end: nat, name: Bytes, i: nat)
    requires start + i <= end <= |file| && i <= |name|
    decreases end - start - i
  {
    if start + i >= end || file[start + i] == 0 then i == |name|
    else
      var b := file[start + i];
      i < |name| && (if 65 <= b <= 90 then b + 32 else b) == name[i] && SameName(file, start, end, name, i + 1)
  }

  const MULTI: Bytes := [109, 117, 108, 116, 105]
  const EXEC: Bytes := [101, 120, 101, 99]

  /** The transactions open after a command whose name is at start, or none when it opens
      one inside another or closes none. */
  function Transact(file: Bytes, start: nat, end: nat, multi: int): Option<int>
    requires start <= end <= |file|
  {
    if SameName(file, start, end, MULTI, 0) then (if multi != 0 then None else Some(multi + 1))
    else if SameName(file, start, end, EXEC, 0) then (if multi - 1 != 0 then None else Some(multi - 1))
    else Some(multi)
  }

  /** n more arguments of a command: where they end. */
  function CheckArgs(file: Bytes, pos: nat, n: int, multi: int): (r: Found)
    requires pos <= |file|
    ensures r.Wrong? || (r.Whole? && pos <= r.next <= |file|)
    decreases n
  {
    if n <= 0 then Whole(pos, multi)
    else
      var a := CheckString(file, pos);
      if a.Wrong? then Wrong else CheckArgs(file, a.next, n - 1, multi)
  }

  /** The arguments of a command, of which the first may be MULTI or EXEC. */
  function CheckBody(file: Bytes, pos: nat, count: int, multi: int): (r: Found)
    requires pos <= |file|
    ensures r.Wrong? || (r.Whole? && pos <= r.next <= |file|)
  {
    if count <= 0 then Whole(pos, multi)
    else
      var a := CheckString(file, pos);
      if a.Wrong? then Wrong
      else
        var m := Transact(file, a.start, a.next - 2, multi);
        if m.None? then Wrong else CheckArgs(file, a.next, count - 1, m.value)
  }

  /** One round of the checking loop: where a whole command ends, and the transactions
      then open. */
  function CheckCommand(file: Bytes, pos: nat, multi: int): (r: Found)
    requires pos <= |file|
    ensures r.Wrong? || (r.Whole? && pos < r.next <= |file|)
  {
    var h := CheckLong(file, pos, STAR);
    if h.Wrong? then Wrong else CheckBody(file, h.next, h.count, multi)
  }

  /** process: up to where the file is well formed; ok: the last such position known. */
  function Check(file: Bytes, pos: nat, ok: nat, multi: int): (r: nat)
    requires pos <= |file| && ok <= pos
    ensures r <= |file|
    decreases |file| - pos
  {
    var good := if multi == 0 then pos else ok;
    var end := CheckCommand(file, pos, multi);
    if end.Wrong? then good else Check(file, end.next, good, end.multi)
  }

  // ---------------------------------------------------------------- what it accepts

  predicate DigitsFrom(file: Bytes, pos: nat, end: nat)
    requires end <= |file|
  {
    forall i :: pos <= i < end ==> IsDigit(file[i])
  }

  /** The bytes from pos to end are a number: digits, perhaps none, or a minus and digits. */
  predicate IsNumber(file: Bytes, pos: nat, end: nat)
    requires end <= |file|
  {
    DigitsFrom(file, pos, end) || (pos + 1 < end && file[pos] == 45 && DigitsFrom(file, pos + 1, end))
  }

  /** A header line is in the file from pos to next: a mark, a number, and the end of a
      line, in no more than a buffer takes. */
  predicate HeaderAt(file: Bytes, pos: nat, mark: byte, count: int, next: nat)
  {
    && pos + 3 <= next <= |file| && next == LineEnd(file, pos, LINE_MAX)
    && file[pos] == mark && IsNumber(file, pos + 1, next - 2) && file[next - 2] == CR && file[next - 1] == LF
    && count == NumberAtLine(file, pos)
  }

  lemma {:induction false} LineFeedLast(file: Bytes, pos: nat, limit: nat)
    requires pos <= |file|
    ensures forall i :: pos <= i < LineEnd(file, pos, limit) - 1 ==> file[i] != LF
    decreases |file| - pos
  {
    if pos < |file| && limit > 0 && file[pos] != LF { LineFeedLast(file, pos + 1, limit - 1); }
  }

  lemma {:induction false} NumberStop(file: Bytes, pos: nat, end: nat, v: nat, q: nat)
    requires pos <= q < end <= |file| && !IsDigit(file[q])
    ensures Number(file, pos, end, v).stop == q <==> DigitsFrom(file, pos, q)
    decreases end - pos
  {
    if pos < q && IsDigit(file[pos]) { NumberStop(file, pos + 1, end, v * 10 + (file[pos] - 48), q); }
  }

  lemma {:induction false} StrtolStop(file: Bytes, pos: nat, end: nat, q: nat)
    requires pos <= q < end <= |file| && file[q] == CR
    ensures Strtol(file, pos, end).stop == q <==> IsNumber(file, pos, q)
  {
    if file[pos] == 45 { NumberStop(file, pos + 1, end, 0, q); } else { NumberStop(file, pos, end, 0, q); }
  }

  lemma {:induction false} CheckLongExact(file: Bytes, pos: nat, mark: byte, count: int, next: nat)
    requires pos <= |file|
    ensures CheckLong(file, pos, mark) == Header(count, next) <==> HeaderAt(file, pos, mark, count, next)
  {
    if CheckLong(file, pos, mark).Header? {
      var end := LineEnd(file, pos, LINE_MAX);
      var stop := Strtol(file, pos + 1, end).stop;
      LineFeedLast(file, pos, LINE_MAX);
      StrtolStop(file, pos + 1, end, stop);
    } else if HeaderAt(file, pos, mark, count, next) {
      StrtolStop(file, pos + 1, next, next - 2);
    }
  }

  /** An argument is in the file from pos to next: a header line, as many bytes as it says,
      and the end of a line. */
  predicate StrictArgument(file: Bytes, pos: nat, next: nat)
  {
    && pos < |file|
    && var start := LineEnd(file, pos, LINE_MAX);
       && HeaderAt(file, pos, DOLLAR, next - 2 - start, start)
       && start + 2 <= next <= |file| && file[next - 2] == CR && file[next - 1] == LF
  }

  lemma {:induction false} CheckStringExact(file: Bytes, pos: nat, start: nat, next: nat)
    requires pos <= |file|
    ensures CheckString(file, pos) == Text(start, next) <==>
            StrictArgument(file, pos, next) && start == LineEnd(file, pos, LINE_MAX)
  {
    CheckLongExact(file, pos, DOLLAR, next - 2 - start, start);
    if CheckString(file, pos).Text? {
      var h := CheckLong(file, pos, DOLLAR);
      CheckLongExact(file, pos, DOLLAR, h.count, h.next);
    }
  }

  /** Arguments are in the file from pos to next; ends: where each of them ends. */
  predicate StrictArguments(file: Bytes, pos: nat, ends: seq<nat>, next: nat)
    decreases |ends|
  {
    if ends == [] then pos == next <= |file|
    else StrictArgument(file, pos, ends[0]) && StrictArguments(file, ends[0], ends[1..], next)
  }

  ghost predicate SomeStrict(file: Bytes, pos: nat, n: nat, next: nat)
  {
    exists ends :: |ends| == n && StrictArguments(file, pos, ends, next)
  }

  lemma {:induction false} SomeStrictNext(file: Bytes, pos: nat, n: nat, q: nat, next: nat)
    requires StrictArgument(file, pos, q) && n > 0
    ensures SomeStrict(file, pos, n, next) <==> SomeStrict(file, q, n - 1, next)
  {
    if SomeStrict(file, pos, n, next) {
      var ends :| |ends| == n && StrictArguments(file, pos, ends, next);
      assert ends[0] == q;
      assert |ends[1..]| == n - 1 && StrictArguments(file, q, ends[1..], next);
    }
    if SomeStrict(file, q, n - 1, next) {
      var ends :| |ends| == n - 1 && StrictArguments(file, q, ends, next);
      assert ([q] + ends)[1..] == ends;
      assert |[q] + ends| == n && StrictArguments(file, pos, [q] + ends, next);
    }
  }

  lemma {:induction false} SomeStrictFirst(file: Bytes, pos: nat, n: nat, next: nat)
    requires SomeStrict(file, pos, n, next) && n > 0 && pos <= |file|
    ensures CheckString(file, pos).Text?
  {
    var ends :| |ends| == n && StrictArguments(file, pos, ends, next);
    CheckStringExact(file, pos, LineEnd(file, pos, LINE_MAX), ends[0]);
  }

  lemma {:induction false} CheckArgsExact(file: Bytes, pos: nat, n: nat, multi: int, next: nat)
    requires pos <= |file|
    ensures CheckArgs(file, pos, n, multi) == Whole(next, multi) <==> SomeStrict(file, pos, n, next)
    ensures CheckArgs(file, pos, n, multi).Whole? ==> CheckArgs(file, pos, n, multi).multi == multi
    decreases n
  {
    if n == 0 {
      assert StrictArguments(file, pos, [], next) <==> pos == next;
    } else {
      var a := CheckString(file, pos);
      if a.Text? {
        CheckStringExact(file, pos, a.start, a.next);
        SomeStrictNext(file, pos, n, a.next, next);
        CheckArgsExact(file, a.next, n - 1, multi, next);
      } else if SomeStrict(file, pos, n, next) {
        SomeStrictFirst(file, pos, n, next);
      }
    }
  }

  /** A command is in the file from pos to next, that leaves m transactions open where multi
      were: a header line, as many arguments as it says, and not a MULTI inside a
      transaction or an EXEC outside one. */
  ghost predicate StrictCommand(file: Bytes, pos: nat, multi: int, next: nat, m: int)
  {
    && pos < |file|
    && var (start, count) := (LineEnd(file, pos, LINE_MAX), NumberAtLine(file, pos));
       && HeaderAt(file, pos, STAR, count, start)
       && if count <= 0 then next == start && m == multi
          else exists q :: StrictFirst(file, start, q, multi, m) && SomeStrict(file, q, count - 1, next)
  }

  /** The first argument of a command, and what it does to the transactions. */
  predicate StrictFirst(file: Bytes, pos: nat, q: nat, multi: int, m: int)
  {
    StrictArgument(file, pos, q) && Transact(file, LineEnd(file, pos, LINE_MAX), q - 2, multi) == Some(m)
  }

  lemma {:induction false} CheckBodyExact(file: Bytes, pos: nat, count: nat, multi: int, next: nat, m: int)
    requires pos <= |file| && count > 0
    ensures CheckBody(file, pos, count, multi) == Whole(next, m) <==>
            exists q :: StrictFirst(file, pos, q, multi, m) && SomeStrict(file, q, count - 1, next)
  {
    var a := CheckString(file, pos);
    if a.Text? {
      CheckStringExact(file, pos, a.start, a.next);
      var t := Transact(file, a.start, a.next - 2, multi);
      if t.Some? { CheckArgsExact(file, a.next, count - 1, t.value, next); }
      assert forall q :: StrictFirst(file, pos, q, multi, m) ==> q == a.next;
      assert StrictFirst(file, pos, a.next, multi, m) <==> t == Some(m);
    } else if exists q :: StrictFirst(file, pos, q, multi, m) {
      var q :| StrictFirst(file, pos, q, multi, m);
      CheckStringExact(file, pos, LineEnd(file, pos, LINE_MAX), q);
    }
  }

  /** The commands the checker takes, for every file. */
  lemma {:induction false} CheckCommandExact(file: Bytes, pos: nat, multi: int, next: nat, m: int)
    requires pos <= |file|
    ensures CheckCommand(file, pos, multi) == Whole(next, m) <==> StrictCommand(file, pos, multi, next, m)
  {
    var h := CheckLong(file, pos, STAR);
    if h.Header? {
      CheckLongExact(file, pos, STAR, h.count, h.next);
      if h.count > 0 { CheckBodyExact(file, h.next, h.count, multi, next, m); }
    } else if StrictCommand(file, pos, multi, next, m) {
      CheckLongExact(file, pos, STAR, NumberAtLine(file, pos), LineEnd(file, pos, LINE_MAX));
    }
  }

  // ------------------------------------------------------------------ where it cuts

  /** From pos on, with multi transactions open, commands go up to q, where none is open. */
  predicate Passes(file: Bytes, pos: nat, multi: int, q: nat)
    requires pos <= |file|
    decreases |file| - pos
  {
    || (pos == q && multi == 0)
    || (var c := CheckCommand(file, pos, multi); c.Whole? && Passes(file, c.next, c.multi, q))
  }

  lemma {:induction false} PassesForward(file: Bytes, pos: nat, multi: int, q: nat)
    requires pos <= |file| && Passes(file, pos, multi, q)
    ensures pos <= q <= |file|
    decreases |file| - pos
  {
    var c := CheckCommand(file, pos, multi);
    if !(pos == q && multi == 0) { PassesForward(file, c.next, c.multi, q); }
  }

  lemma {:induction false} CheckReached(file: Bytes, pos: nat, ok: nat, multi: int)
    requires ok <= pos <= |file|
    ensures Passes(file, pos, multi, Check(file, pos, ok, multi)) || (multi != 0 && Check(file, pos, ok, multi) == ok)
    ensures Check(file, pos, ok, multi) >= if multi == 0 then pos else ok
    decreases |file| - pos
  {
    var c := CheckCommand(file, pos, multi);
    if c.Whole? { CheckReached(file, c.next, if multi == 0 then pos else ok, c.multi); }
  }

  lemma {:induction false} CheckLargest(file: Bytes, pos: nat, ok: nat, multi: int, q: nat)
    requires ok <= pos <= |file| && Passes(file, pos, multi, q)
    ensures q <= Check(file, pos, ok, multi)
    decreases |file| - pos
  {
    CheckReached(file, pos, ok, multi);
    var c := CheckCommand(file, pos, multi);
    if !(pos == q && multi == 0) { CheckLargest(file, c.next, if multi == 0 then pos else ok, c.multi, q); }
  }

  /** For every file: the checker cuts at the last offset that commands go up to with no
      transaction open. */
  lemma {:induction false} CheckExact(file: Bytes)
    ensures Passes(file, 0, 0, Check(file, 0, 0, 0))
    ensures forall q: nat :: Passes(file, 0, 0, q) ==> q <= Check(file, 0, 0, 0)
  {
    CheckReached(file, 0, 0, 0);
    forall q: nat | Passes(file, 0, 0, q) ensures q <= Check(file, 0, 0, 0) { CheckLargest(file, 0, 0, 0, q); }
  }

  // ------------------------------------------------------------------ what it leaves

  /** Every command up to r has an argument. */
  predicate NoneEmpty(file: Bytes, pos: nat, multi: int, r: nat)
    requires pos <= |file|
    decreases |file| - pos
  {
    pos == |file| || pos >= r
    || (&& NumberAtLine(file, pos) >= 1
        && var c := CheckCommand(file, pos, multi); c.Whole? ==> NoneEmpty(file, c.next, c.multi, r))
  }

  /** What the checker takes for arguments the loader takes for arguments. */
  lemma {:induction false} StrictIsArguments(file: Bytes, pos: nat, ends: seq<nat>, next: nat)
      returns (args: seq<Bytes>)
    requires StrictArguments(file, pos, ends, next)
    ensures ArgumentsAt(file, pos, args, ends, next)
    decreases |ends|
  {
    args := [];
    if ends != [] {
      var start := LineEnd(file, pos, LINE_MAX);
      var more := StrictIsArguments(file, ends[0], ends[1..], next);
      args := [file[start..ends[0] - 2]] + more;
      assert args[1..] == more;
    }
  }

  lemma {:induction false} SomeAreArguments(file: Bytes, pos: nat, q: nat, n: nat, next: nat)
      returns (args: seq<Bytes>, ends: seq<nat>)
    requires StrictArgument(file, pos, q) && SomeStrict(file, q, n, next)
    ensures |args| == n + 1 && ArgumentsAt(file, pos, args, ends, next)
  {
    SomeStrictNext(file, pos, n + 1, q, next);
    ends :| |ends| == n + 1 && StrictArguments(file, pos, ends, next);
    args := StrictIsArguments(file, pos, ends, next);
  }

  /** What the checker takes for a command, with an argument, the loader takes for one. */
  lemma {:induction false} StrictIsWhole(file: Bytes, pos: nat, multi: int, next: nat,
      m: int) returns (argv: seq<Bytes>)
    requires StrictCommand(file, pos, multi, next, m) && NumberAtLine(file, pos) >= 1
    ensures WholeCommand(file, pos, argv, next)
  {
    var (start, count) := (LineEnd(file, pos, LINE_MAX), NumberAtLine(file, pos));
    var q :| StrictFirst(file, start, q, multi, m) && SomeStrict(file, q, count - 1, next);
    var ends;
    argv, ends := SomeAreArguments(file, start, q, count - 1, next);
  }

  /** In the part of a file that ends with a command, the loader takes it too, unless it
      has no argument. */
  lemma {:induction false} CheckedIsRead(file: Bytes, pos: nat, multi: int, r: nat)
    requires pos < |file| && CheckCommand(file, pos, multi).Whole?
    requires CheckCommand(file, pos, multi).next <= r <= |file|
    ensures var (c, l) := (CheckCommand(file, pos, multi), ReadCommand(file[..r], pos));
            if NumberAtLine(file, pos) >= 1 then l.Command? && l.next == c.next else l == Malformed
  {
    var c := CheckCommand(file, pos, multi);
    CheckCommandExact(file, pos, multi, c.next, c.multi);
    if NumberAtLine(file, pos) >= 1 {
      var argv := StrictIsWhole(file, pos, multi, c.next, c.multi);
      CommandPrefix(file, r, pos, argv, c.next);
      WholeIsRead(file[..r], pos, argv, c.next);
    } else {
      LinePrefix(file, r, pos);
    }
  }

  lemma {:induction false} CheckedLoadsFrom(file: Bytes, pos: nat, multi: int, r: nat, executed: seq<seq<Bytes>>)
    requires pos <= |file| && Passes(file, pos, multi, r) && pos <= r <= |file|
    ensures Load(file[..r], pos, executed).end == if NoneEmpty(file, pos, multi, r) then AtEnd else BadFormat
    decreases |file| - pos
  {
    if pos < r {
      var c := CheckCommand(file, pos, multi);
      PassesForward(file, c.next, c.multi, r);
      CheckedIsRead(file, pos, multi, r);
      if NumberAtLine(file, pos) >= 1 {
        CheckedLoadsFrom(file, c.next, c.multi, r, executed + [ReadCommand(file[..r], pos).argv]);
      }
    }
  }

  /** For every file: what the checker leaves of it loads to its end exactly if none of the
      commands left is without arguments.  With one that is, which the checker takes, the
      server refuses to start. */
  lemma {:induction false} CheckedLoads(file: Bytes)
    ensures var r := Check(file, 0, 0, 0);
            Load(file[..r], 0, []).end == if NoneEmpty(file, 0, 0, r) then AtEnd else BadFormat
  {
    CheckExact(file);
    CheckedLoadsFrom(file, 0, 0, Check(file, 0, 0, 0), []);
  }

  // ------------------------------------------------------------------- printed files

  /** A printed header line is read as the number it was printed for. */
  lemma {:induction false} CheckLongPrinted(file: Bytes, pos: nat, mark: byte, n: nat)
    requires mark != LF && n <= LLONG_MAX && At(file, pos, LineOf(mark, n))
    ensures CheckLong(file, pos, mark) == Header(n, pos + |LineOf(mark, n)|)
  {
    ReadLine(file, pos, mark, n);
  }

  lemma {:induction false} CheckStringPrinted(file: Bytes, pos: nat, a: Bytes)
    requires |a| <= LLONG_MAX && At(file, pos, ArgOf(a))
    ensures CheckString(file, pos) == Text(pos + |LineOf(DOLLAR, |a|)|, pos + |ArgOf(a)|)
  {
    var start := pos + |LineOf(DOLLAR, |a|)|;
    AtSplit(file, pos, LineOf(DOLLAR, |a|), a + Crlf());
    AtSplit(file, start, a, Crlf());
    CheckLongPrinted(file, pos, DOLLAR, |a|);
    AtByte(file, start + |a|, Crlf(), 0);
    AtByte(file, start + |a|, Crlf(), 1);
  }

  lemma {:induction false} CheckFirstArg(file: Bytes, pos: nat, args: seq<Bytes>)
    requires Sized(args) && args != [] && ArgsAt(file, pos, args)
    ensures var next := pos + |ArgOf(args[0])|;
            && CheckString(file, pos) == Text(next - 2 - |args[0]|, next)
            && ArgsAt(file, next, args[1..]) && ArgsEnd(next, args[1..]) == ArgsEnd(pos, args)
  {
    SizedTail(args);
    ArgsAtNext(file, pos, args);
    CheckStringPrinted(file, pos, args[0]);
  }

  lemma {:induction false} CheckNextArg(file: Bytes, pos: nat, args: seq<Bytes>, multi: int)
    requires Sized(args) && args != [] && ArgsAt(file, pos, args)
    ensures var next := pos + |ArgOf(args[0])|;
            && ArgsAt(file, next, args[1..]) && ArgsEnd(next, args[1..]) == ArgsEnd(pos, args)
            && CheckArgs(file, pos, |args|, multi) == CheckArgs(file, next, |args[1..]|, multi)
  {
    CheckFirstArg(file, pos, args);
  }

  lemma {:induction false} CheckArgsPrinted(file: Bytes, pos: nat, args: seq<Bytes>, multi: int)
    requires Sized(args) && ArgsAt(file, pos, args)
    ensures CheckArgs(file, pos, |args|, multi) == Whole(ArgsEnd(pos, args), multi)
    decreases |args|
  {
    if args != [] {
      CheckNextArg(file, pos, args, multi);
      SizedTail(args);
      CheckArgsPrinted(file, pos + |ArgOf(args[0])|, args[1..], multi);
    }
  }

  lemma {:induction false} FirstArgAt(file: Bytes, pos: nat, args: seq<Bytes>)
    requires args != [] && ArgsAt(file, pos, args)
    ensures At(file, pos + |ArgOf(args[0])| - 2 - |args[0]|, args[0])
  {
    var a := args[0];
    ArgsAtNext(file, pos, args);
    AtSplit(file, pos, LineOf(DOLLAR, |a|), a + Crlf());
    AtSplit(file, pos + |LineOf(DOLLAR, |a|)|, a, Crlf());
  }

  /** After the first argument of a command come the others. */
  lemma {:induction false} CheckAfterFirst(file: Bytes, pos: nat, count: nat, start: nat, next: nat, multi: int)
    requires count > 0 && pos <= |file| && CheckString(file, pos) == Text(start, next)
    ensures CheckBody(file, pos, count, multi)
            == var m := Transact(file, start, next - 2, multi);
               if m.None? then Wrong else CheckArgs(file, next, count - 1, m.value)
  {
  }

  /** A part of a header line is not a header line. */
  lemma {:induction false} CheckPartOfLine(file: Bytes, pos: nat, mark: byte, n: nat)
    requires mark != LF && n <= LLONG_MAX && EndsIn(file, pos, LineOf(mark, n))
    ensures CheckLong(file, pos, mark).Wrong?
  {
    if pos < |file| {
      ReadPartOfLine(file, pos, mark, n);
      var x, p := LineOf(mark, n), file[pos..];
      AllDigits(n);
      forall i | 0 <= i < |p| ensures p[i] == x[i] && x[i] != LF { EndsInByte(file, pos, x, i); }
      var stop := Strtol(file, pos + 1, |file|).stop;
      if stop + 2 <= |file| { assert file[stop + 1] == p[stop + 1 - pos]; }
    }
  }

  lemma {:induction false} CheckArgCutShort(file: Bytes, pos: nat, a: Bytes)
    requires |a| <= LLONG_MAX && EndsIn(file, pos, ArgOf(a))
    ensures CheckString(file, pos).Wrong?
  {
    var x := LineOf(DOLLAR, |a|);
    EndsInSplit(file, pos, x, a + Crlf());
    if |file| - pos < |x| {
      CheckPartOfLine(file, pos, DOLLAR, |a|);
    } else {
      CheckLongPrinted(file, pos, DOLLAR, |a|);
    }
  }

  /** The first argument is cut short, or read and the others are cut short. */
  lemma {:induction false} CheckFirstCutShort(file: Bytes, pos: nat, args: seq<Bytes>)
    requires Sized(args) && args != [] && ArgsCut(file, pos, args)
    ensures var next := pos + |ArgOf(args[0])|;
            || CheckString(file, pos).Wrong?
            || (CheckString(file, pos) == Text(next - 2 - |args[0]|, next) && ArgsCut(file, next, args[1..]))
  {
    SizedTail(args);
    ArgsCutNext(file, pos, args);
    if |file| < pos + |ArgOf(args[0])| {
      CheckArgCutShort(file, pos, args[0]);
    } else {
      CheckStringPrinted(file, pos, args[0]);
    }
  }

  lemma {:induction false} CheckArgsCutShort(file: Bytes, pos: nat, args: seq<Bytes>, multi: int)
    requires Sized(args) && ArgsCut(file, pos, args)
    ensures CheckArgs(file, pos, |args|, multi).Wrong?
    decreases |args|
  {
    SizedTail(args);
    CheckFirstCutShort(file, pos, args);
    if CheckString(file, pos).Text? { CheckArgsCutShort(file, pos + |ArgOf(args[0])|, args[1..], multi); }
  }

  lemma {:induction false} CheckBodyCutShort(file: Bytes, pos: nat, argv: seq<Bytes>, multi: int)
    requires Sized(argv) && argv != [] && ArgsCut(file, pos, argv)
    ensures CheckBody(file, pos, |argv|, multi).Wrong?
  {
    CheckFirstCutShort(file, pos, argv);
    var next := pos + |ArgOf(argv[0])|;
    if !CheckString(file, pos).Wrong? {
      SizedTail(argv);
      CheckAfterFirst(file, pos, |argv|, next - 2 - |argv[0]|, next, multi);
      var m := Transact(file, next - 2 - |argv[0]|, next - 2, multi);
      if m.Some? { CheckArgsCutShort(file, next, argv[1..], m.value); }
    }
  }

  /** After its header line a command is its arguments. */
  lemma {:induction false} CheckAfterHeader(file: Bytes, pos: nat, n: nat, multi: int)
    requires n <= LLONG_MAX && At(file, pos, LineOf(STAR, n))
    ensures CheckCommand(file, pos, multi) == CheckBody(file, pos + |LineOf(STAR, n)|, n, multi)
  {
    CheckLongPrinted(file, pos, STAR, n);
  }

  /** The checker stops at a command that is cut short. */
  lemma {:induction false} CheckCutShort(file: Bytes, pos: nat, argv: seq<Bytes>, multi: int)
    requires Loggable(argv) && EndsIn(file, pos, CommandOf(argv))
    ensures CheckCommand(file, pos, multi).Wrong?
  {
    var x := LineOf(STAR, |argv|);
    CommandCut(file, pos, argv);
    if |file| < pos + |x| {
      CheckPartOfLine(file, pos, STAR, |argv|);
    } else {
      CheckAfterHeader(file, pos, |argv|, multi);
      CheckBodyCutShort(file, pos + |x|, argv, multi);
    }
  }

  /** The shortest file that the checker calls valid and the server does not start with. */
  lemma {:induction false} EmptyCommand()
    ensures var file := LineOf(STAR, 0); Check(file, 0, 0, 0) == |file| && Load(file, 0, []).end == BadFormat
  {
    var file := LineOf(STAR, 0);
    SliceAt(file, 0, file);
    CheckAfterHeader(file, 0, 0, 0);
    ReadLine(file, 0, STAR, 0);
  }

  // ------------------------------------------------------------------- transactions

  function Lower(b: byte): byte { if 65 <= b <= 90 then b + 32 else b }

  /** An argument is a name, in any case, up to its first zero byte. */
  predicate Named(arg: Bytes, name: Bytes)
  {
    && |name| <= |arg| && (|name| == |arg| || arg[|name|] == 0)
    && forall i :: 0 <= i < |name| ==> Lower(arg[i]) == name[i]
  }

  lemma {:induction false} SameNameFrom(arg: Bytes, name: Bytes, i: nat)
    requires i <= |arg| && i <= |name| && forall k :: 0 <= k < |name| ==> name[k] != 0
    ensures SameName(arg, 0, |arg|, name, i) <==>
            && |name| <= |arg| && (|name| == |arg| || arg[|name|] == 0)
            && forall k :: i <= k < |name| ==> Lower(arg[k]) == name[k]
    decreases |arg| - i
  {
    if i < |arg| && arg[i] != 0 && i < |name| { SameNameFrom(arg, name, i + 1); }
  }

  /** Whether a transaction is open after a command, or none when the command may not be
      there. */
  function After(argv: seq<Bytes>, open: bool): Option<bool>
    requires argv != []
  {
    if Named(argv[0], MULTI) then (if open then None else Some(true))
    else if Named(argv[0], EXEC) then (if open then Some(false) else None)
    else Some(open)
  }

  /** The same after several commands. */
  function OpenAfter(cmds: seq<seq<Bytes>>, open: bool): Option<bool>
    requires AllLoggable(cmds)
  {
    if cmds == [] then Some(open)
    else
      var o := After(cmds[0], open);
      if o.None? then None else OpenAfter(cmds[1..], o.value)
  }

  function Count(open: bool): int { if open then 1 else 0 }

  function Counted(o: Option<bool>): Option<int> { if o.None? then None else Some(Count(o.value)) }

  lemma {:induction false} SameNameAt(file: Bytes, start: nat, arg: Bytes, name: Bytes, i: nat)
    requires At(file, start, arg) && i <= |arg| && i <= |name|
    ensures SameName(file, start, start + |arg|, name, i) == SameName(arg, 0, |arg|, name, i)
    decreases |name| - i
  {
    if i < |arg| {
      AtByte(file, start, arg, i);
      if i < |name| { SameNameAt(file, start, arg, name, i + 1); }
    }
  }

  lemma {:induction false} TransactAt(file: Bytes, start: nat, argv: seq<Bytes>, open: bool)
    requires argv != [] && At(file, start, argv[0])
    ensures Transact(file, start, start + |argv[0]|, Count(open)) == Counted(After(argv, open))
  {
    SameNameAt(file, start, argv[0], MULTI, 0);
    SameNameAt(file, start, argv[0], EXEC, 0);
    SameNameFrom(argv[0], MULTI, 0);
    SameNameFrom(argv[0], EXEC, 0);
  }

  /** The first argument of a complete command, and what it does to the transactions. */
  lemma {:induction false} FirstPrinted(file: Bytes, pos: nat, argv: seq<Bytes>, open: bool) returns (start: nat,
      next: nat)
    requires Sized(argv) && argv != [] && ArgsAt(file, pos, argv)
    ensures pos <= start && start + 2 <= next <= |file| && CheckString(file, pos) == Text(start, next)
    ensures Transact(file, start, next - 2, Count(open)) == Counted(After(argv, open))
    ensures Sized(argv[1..]) && ArgsAt(file, next, argv[1..]) && ArgsEnd(next, argv[1..]) == ArgsEnd(pos, argv)
  {
    next := pos + |ArgOf(argv[0])|;
    start := next - 2 - |argv[0]|;
    SizedTail(argv);
    CheckFirstArg(file, pos, argv);
    FirstArgAt(file, pos, argv);
    TransactAt(file, start, argv, open);
  }

  lemma {:induction false} CheckBodyPrinted(file: Bytes, pos: nat, argv: seq<Bytes>, open: bool, end: nat)
    requires Sized(argv) && argv != [] && ArgsAt(file, pos, argv) && end == ArgsEnd(pos, argv)
    ensures CheckBody(file, pos, |argv|, Count(open))
            == var o := After(argv, open); if o.None? then Wrong else Whole(end, Count(o.value))
  {
    var start, next := FirstPrinted(file, pos, argv, open);
    CheckAfterFirst(file, pos, |argv|, start, next, Count(open));
    var o := After(argv, open);
    if o.Some? { CheckArgsPrinted(file, next, argv[1..], Count(o.value)); }
  }

  /** A complete command is taken unless it may not be there. */
  lemma {:induction false} CheckCommandPrinted(file: Bytes, pos: nat, argv: seq<Bytes>, open: bool)
    requires Loggable(argv) && At(file, pos, CommandOf(argv))
    ensures CheckCommand(file, pos, Count(open))
            == var o := After(argv, open);
               if o.None? then Wrong else Whole(pos + |CommandOf(argv)|, Count(o.value))
  {
    var start, end := pos + |LineOf(STAR, |argv|)|, pos + |CommandOf(argv)|;
    assert At(file, pos, LineOf(STAR, |argv|)) && ArgsAt(file, start, argv) && ArgsEnd(start, argv) == end by {
      CommandAt(file, pos, argv);
    }
    CheckAfterHeader(file, pos, |argv|, Count(open));
    CheckBodyPrinted(file, start, argv, open, end);
  }

  lemma {:induction false} FirstOf(cmds: seq<seq<Bytes>>, k: nat)
    requires AllLoggable(cmds) && 0 < k <= |cmds|
    ensures |CommandsOf(cmds[..k])| == |CommandOf(cmds[0])| + |CommandsOf(cmds[1..][..k - 1])|
    ensures |CommandOf(cmds[0])| > 0
  {
    assert cmds[..k][1..] == cmds[1..][..k - 1];
  }

  /** The first k commands leave no transaction open. */
  predicate Closes(cmds: seq<seq<Bytes>>, k: nat, open: bool)
    requires AllLoggable(cmds)
  {
    k <= |cmds| && OpenAfter(cmds[..k], open) == Some(false)
  }

  lemma {:induction false} ClosesNext(cmds: seq<seq<Bytes>>, k: nat, open: bool)
    requires AllLoggable(cmds) && 0 < k <= |cmds|
    ensures Closes(cmds, k, open) <==>
            var o := After(cmds[0], open); o.Some? && Closes(cmds[1..], k - 1, o.value)
  {
    assert cmds[..k][1..] == cmds[1..][..k - 1];
  }

  /** The first of the commands that a file holds. */
  lemma {:induction false} CheckNext(file: Bytes, pos: nat, cmds: seq<seq<Bytes>>, argv: seq<Bytes>, open: bool)
      returns (next: nat)
    requires Holds(file, pos, cmds, argv) && cmds != []
    ensures pos < next == pos + |CommandOf(cmds[0])| <= |file| && Holds(file, next, cmds[1..], argv)
    ensures CheckCommand(file, pos, Count(open))
            == var o := After(cmds[0], open); if o.None? then Wrong else Whole(next, Count(o.value))
  {
    next := pos + |CommandOf(cmds[0])|;
    HoldsNext(file, pos, cmds, argv);
    CheckCommandPrinted(file, pos, cmds[0], open);
  }

  lemma {:induction false} PassesNext(file: Bytes, pos: nat, multi: int, q: nat, next: nat, m: int)
    requires pos < next <= |file| && CheckCommand(file, pos, multi) == Whole(next, m)
    ensures Passes(file, pos, multi, q) <==> (pos == q && multi == 0) || Passes(file, next, m, q)
  {
  }

  /** Where the first k commands end. */
  function EndOf(pos: nat, cmds: seq<seq<Bytes>>, k: nat): nat
    requires k <= |cmds|
  {
    pos + |CommandsOf(cmds[..k])|
  }

  lemma {:induction false} EndOfNext(pos: nat, cmds: seq<seq<Bytes>>, k: nat)
    requires AllLoggable(cmds) && 0 < k <= |cmds|
    ensures EndOf(pos, cmds, k) == EndOf(pos + |CommandOf(cmds[0])|, cmds[1..], k - 1)
  {
    FirstOf(cmds, k);
  }

  /** Passes, with what it requires. */
  predicate GoesTo(file: Bytes, pos: nat, open: bool, q: nat) { pos <= |file| && Passes(file, pos, Count(open), q) }

  lemma {:induction false} GoesBefore(file: Bytes, pos: nat, open: bool, q: nat, next: nat, open': bool)
    requires pos < next <= |file| && CheckCommand(file, pos, Count(open)) == Whole(next, Count(open'))
    requires GoesTo(file, next, open', q)
    ensures GoesTo(file, pos, open, q)
  {
    PassesNext(file, pos, Count(open), q, next, Count(open'));
  }

  lemma {:induction false} GoesAfter(file: Bytes, pos: nat, open: bool, q: nat, next: nat, o: Option<bool>)
    requires GoesTo(file, pos, open, q) && (pos != q || open) && pos < next <= |file|
    requires CheckCommand(file, pos, Count(open)) == if o.None? then Wrong else Whole(next, Count(o.value))
    ensures o.Some? && GoesTo(file, next, o.value, q)
  {
  }

  lemma {:induction false} LogPasses(file: Bytes, pos: nat, cmds: seq<seq<Bytes>>, argv: seq<Bytes>, open: bool, k: nat,
      q: nat)
    requires Holds(file, pos, cmds, argv) && Closes(cmds, k, open) && q == EndOf(pos, cmds, k)
    ensures GoesTo(file, pos, open, q)
    decreases k
  {
    if k > 0 {
      ClosesNext(cmds, k, open);
      EndOfNext(pos, cmds, k);
      var next := CheckNext(file, pos, cmds, argv, open);
      var o := After(cmds[0], open);
      LogPasses(file, next, cmds[1..], argv, o.value, k - 1, q);
      GoesBefore(file, pos, open, q, next, o.value);
    }
  }

  lemma {:induction false} NoneLeft(file: Bytes, pos: nat, argv: seq<Bytes>, open: bool, q: nat)
    requires pos == |file| || (Loggable(argv) && EndsIn(file, pos, CommandOf(argv)))
    requires pos <= |file| && Passes(file, pos, Count(open), q)
    ensures pos == q && !open
  {
    if pos < |file| { CheckCutShort(file, pos, argv, Count(open)); }
  }

  lemma {:induction false} LogPassesOnly(file: Bytes, pos: nat, cmds: seq<seq<Bytes>>, argv: seq<Bytes>, open: bool,
      q: nat) returns (k: nat)
    requires Holds(file, pos, cmds, argv) && GoesTo(file, pos, open, q)
    ensures Closes(cmds, k, open) && q == EndOf(pos, cmds, k)
    decreases |cmds|
  {
    k := 0;
    if pos != q || open {
      if cmds == [] {
        NoneLeft(file, pos, argv, open, q);
      } else {
        var next := CheckNext(file, pos, cmds, argv, open);
        var o := After(cmds[0], open);
        GoesAfter(file, pos, open, q, next, o);
        k := LogPassesOnly(file, next, cmds[1..], argv, o.value, q);
        k := k + 1;
        EndOfNext(pos, cmds, k);
        ClosesNext(cmds, k, open);
      }
    }
  }

  lemma {:induction false} CommandsGrow(cmds: seq<seq<Bytes>>, i: nat, k: nat)
    requires AllLoggable(cmds) && i < k <= |cmds|
    ensures |CommandsOf(cmds[..i])| < |CommandsOf(cmds[..k])|
    decreases i
  {
    FirstOf(cmds, k);
    if i > 0 {
      FirstOf(cmds, i);
      CommandsGrow(cmds[1..], i - 1, k - 1);
    }
  }

  /** A log, and any part of a further command: the checker cuts after the last command
      that leaves no transaction open. */
  lemma {:induction false} CheckedLog(file: Bytes, cmds: seq<seq<Bytes>>, argv: seq<Bytes>) returns (k: nat)
    requires Leaves(file, cmds, argv)
    ensures Closes(cmds, k, false) && forall i: nat :: k < i <= |cmds| ==> !Closes(cmds, i, false)
    ensures Check(file, 0, 0, 0) == |CommandsOf(cmds[..k])|
  {
    LeavesHolds(file, cmds, argv);
    CheckExact(file);
    k := LogPassesOnly(file, 0, cmds, argv, false, Check(file, 0, 0, 0));
    forall i: nat | k < i <= |cmds| ensures !Closes(cmds, i, false) {
      CommandsGrow(cmds, k, i);
      if Closes(cmds, i, false) { LogPasses(file, 0, cmds, argv, false, i, EndOf(0, cmds, i)); }
    }
  }

  /** All commands, and fewer. */
  lemma {:induction false} AllOrFewer(cmds: seq<seq<Bytes>>, k: nat)
    requires AllLoggable(cmds) && k <= |cmds|
    ensures Closes(cmds, |cmds|, false) <==> OpenAfter(cmds, false) == Some(false)
    ensures |CommandsOf(cmds[..k])| <= |CommandsOf(cmds)|
    ensures |CommandsOf(cmds[..k])| == |CommandsOf(cmds)| <==> k == |cmds|
  {
    assert cmds[..|cmds|] == cmds;
    if k < |cmds| { CommandsGrow(cmds, k, |cmds|); }
  }

  /** The checker and the loader agree on where a log that was cut ends, exactly if its
      complete commands leave no transaction open. */
  lemma {:induction false} CheckerAgreesWithLoader(file: Bytes, cmds: seq<seq<Bytes>>, argv: seq<Bytes>)
    requires Leaves(file, cmds, argv)
    ensures Check(file, 0, 0, 0) <= |CommandsOf(cmds)| == Load(file, 0, []).validUpTo
    ensures Check(file, 0, 0, 0) == Load(file, 0, []).validUpTo <==> OpenAfter(cmds, false) == Some(false)
  {
    assert Load(file, 0, []).validUpTo == |CommandsOf(cmds)| by { LoadsCompleteCommands(file, cmds, argv); }
    var k := CheckedLog(file, cmds, argv);
    AllOrFewer(cmds, k);
  }

  // ------------------------------------------------------------------------ the loops

  /** readLong */
  method ReadLong(file: Bytes, pos: nat, prefix: byte) returns (r: Found)
    requires pos <= |file|
    ensures r == CheckLong(file, pos, prefix)
    ensures forall count, next: nat :: r == Header(count, next) <==> HeaderAt(file, pos, prefix, count, next)
  {
    forall count, next: nat
      ensures CheckLong(file, pos, prefix) == Header(count, next) <==> HeaderAt(file, pos, prefix, count, next) {
      CheckLongExact(file, pos, prefix, count, next);
    }
    if pos == |file| { return Wrong; }
    var end := Gets(file, pos);
    if file[pos] != prefix { return Wrong; }
    var v, stop := StringToLong(file, pos + 1, end);
    if stop + 2 <= end && file[stop] == CR && file[stop + 1] == LF { return Header(v, end); }
    return Wrong;
  }

  /** readString */
  method ReadString(file: Bytes, pos: nat) returns (r: Found)
    requires pos <= |file|
    ensures r == CheckString(file, pos)
    ensures forall start: nat, next: nat :: r == Text(start, next) <==>
              StrictArgument(file, pos, next) && start == LineEnd(file, pos, LINE_MAX)
  {
    forall start: nat, next: nat
      ensures CheckString(file, pos) == Text(start, next) <==>
              StrictArgument(file, pos, next) && start == LineEnd(file, pos, LINE_MAX) {
      CheckStringExact(file, pos, start, next);
    }
    var h := ReadLong(file, pos, DOLLAR);
    if h.Wrong? { return Wrong; }
    if h.count < 0 || |file| - h.next < h.count + 2 { return Wrong; }
    var end := h.next + h.count;
    if file[end] != CR || file[end + 1] != LF { return Wrong; }
    return Text(h.next, end + 2);
  }

  /** The loop over the arguments of a command after the first. */
  method ReadRest(file: Bytes, pos0: nat, argc: int, multi: int) returns (r: Found)
    requires pos0 <= |file|
    ensures r == CheckArgs(file, pos0, argc, multi)
  {
    var i: nat, pos: nat := 0, pos0;
    while i < argc
      invariant pos <= |file| && (i > 0 ==> i <= argc)
      invariant CheckArgs(file, pos, argc - i, multi) == CheckArgs(file, pos0, argc, multi)
    {
      var str := ReadString(file, pos);
      if str.Wrong? { return Wrong; }
      pos := str.next;
      i := i + 1;
    }
    return Whole(pos, multi);
  }

  /** The arguments of a command, the first one looked at for MULTI and EXEC. */
  method ReadBody(file: Bytes, pos: nat, argc: int, multi: int) returns (r: Found)
    requires pos <= |file|
    ensures r == CheckBody(file, pos, argc, multi)
  {
    if argc <= 0 { return Whole(pos, multi); }
    var str := ReadString(file, pos);
    if str.Wrong? { return Wrong; }
    var m := Transact(file, str.start, str.next - 2, multi);
    if m.None? { return Wrong; }
    r := ReadRest(file, str.next, argc - 1, m.value);
  }

  /** process */
  method CheckFile(file: Bytes) returns (ok: nat)
    ensures ok == Check(file, 0, 0, 0)
    ensures Passes(file, 0, 0, ok) && forall q: nat :: Passes(file, 0, 0, q) ==> q <= ok
    ensures Load(file[..ok], 0, []).end == if NoneEmpty(file, 0, 0, ok) then AtEnd else BadFormat
  {
    CheckExact(file);
    CheckedLoads(file);
    var pos: nat, multi := 0, 0;
    ok := 0;
    while true
      invariant ok <= pos <= |file|
      invariant Check(file, pos, ok, multi) == Check(file, 0, 0, 0)
      decreases |file| - pos
    {
      if multi == 0 { ok := pos; }
      var argc := ReadLong(file, pos, STAR);
      if argc.Wrong? { return; }
      var c := ReadBody(file, argc.next, argc.count, multi);
      if c.Wrong? { return; }
      pos, multi := c.next, c.multi;
    }
  }
}
