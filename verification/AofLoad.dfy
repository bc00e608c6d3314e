/** Loading an AOF at start (loadAppendOnlyFile of src/aof.c) and checking one
    (src/disque-check-aof.c), in particular one that was cut in the middle of a command.

    A file is its bytes, and reading is at a position in it.
 */
module AofLoad {
  import opened Options
  import opened Decimal
  import opened Layout
  import opened Resp

  const LINE_MAX: nat := 127

  // ---------------------------------------------------------------------- C library

  /** Where fgets stops, with a buffer for limit bytes. */
  function LineEnd(file: Bytes, pos: nat, limit: nat): (end: nat)
    requires pos <= |file|
    ensures pos <= end <= |file| && (end == pos <==> pos == |file| || limit == 0)
    decreases |file| - pos
  {
    if pos == |file| || limit == 0 then pos
    else if file[pos] == LF then pos + 1
    else LineEnd(file, pos + 1, limit - 1)
  }

  /** A number that was read, and where it ends. */
  datatype Long = Long(value: int, stop: nat)

  /** The digits from pos to end, after the value v. */
  function Number(file: Bytes, pos: nat, end: nat, v: nat): (r: Long)
    requires pos <= end <= |file|
    ensures pos <= r.stop <= end && r.value >= v
    decreases end - pos
  {
    if pos == end || !IsDigit(file[pos]) then Long(v, pos) else Number(file, pos + 1, end, v * 10 + (file[pos] - 48))
  }

  /** strtol and atoi, of a line without leading blanks. */
  function Strtol(file: Bytes, pos: nat, end: nat): (r: Long)
    requires pos <= end <= |file|
    ensures pos <= r.stop <= end
  {
    if pos < end && file[pos] == 45 then
      var n := Number(file, pos + 1, end, 0);
      if n.stop == pos + 1 then Long(0, pos) else Long(-n.value, n.stop)
    else Number(file, pos, end, 0)
  }

  // --------------------------------------------------------------------- the loader

  datatype Command = Command(argv: seq<Bytes>, next: nat) | Short | Malformed

  /** The arguments of a command: n more, after those in argv. */
  function ReadArgs(file: Bytes, pos: nat, n: nat, argv: seq<Bytes>): (r: Command)
    requires pos <= |file|
    ensures r.Command? ==> pos <= r.next <= |file|
    decreases n
  {
    if n == 0 then Command(argv, pos)
    else if pos == |file| then Short
    else if file[pos] != DOLLAR then Malformed
    else
      var start := LineEnd(file, pos, LINE_MAX);
      var len := Strtol(file, pos + 1, start).value;
      if len < 0 then Malformed
      else if |file| - start < len + 2 then Short
      else ReadArgs(file, start + len + 2, n - 1, argv + [file[start..start + len]])
  }

  /** One round of the loading loop, when the file is not at its end. */
  function ReadCommand(file: Bytes, pos: nat): (r: Command)
    requires pos < |file|
    ensures r.Command? ==> pos < r.next <= |file|
  {
    var start := LineEnd(file, pos, LINE_MAX);
    if file[pos] != STAR then Malformed
    else if start == pos + 1 then Short
    else
      var argc := Strtol(file, pos + 1, start).value;
      if argc < 1 then Malformed else ReadArgs(file, start, argc, [])
  }

  /** How loading ends: at the end of the file, with a part of a command, or with bytes
      that are not a command; the commands executed, and the offset after them. */
  datatype Loaded = Loaded(executed: seq<seq<Bytes>>, validUpTo: nat, end: End)
  datatype End = AtEnd | CutShort | BadFormat

  /** loadAppendOnlyFile from a position on */
  function Load(file: Bytes, pos: nat, executed: seq<seq<Bytes>>): Loaded
    requires pos <= |file|
    decreases |file| - pos
  {
    if pos == |file| then Loaded(executed, pos, AtEnd)
    else
      match ReadCommand(file, pos)
      case Short => Loaded(executed, pos, CutShort)
      case Malformed => Loaded(executed, pos, BadFormat)
      case Command(argv, next) => Load(file, next, executed + [argv])
  }

  // -------------------------------------------------------------------- header lines

  predicate NoLf(p: Bytes) { forall i :: 0 <= i < |p| ==> p[i] != LF }

  /** A line ends after its line feed. */
  lemma {:induction false} LineEndAt(file: Bytes, pos: nat, p: Bytes, limit: nat)
    requires At(file, pos, p + [LF]) && NoLf(p) && |p| < limit
    ensures LineEnd(file, pos, limit) == pos + |p| + 1
    decreases |p|
  {
    AtTail(file, pos, p + [LF]);
    if p != [] {
      assert (p + [LF])[1..] == p[1..] + [LF];
      LineEndAt(file, pos + 1, p[1..], limit - 1);
    }
  }

  /** A line without a line feed ends with the file. */
  lemma {:induction false} LineEndLast(file: Bytes, pos: nat, limit: nat)
    requires pos <= |file| && NoLf(file[pos..]) && |file| - pos < limit
    ensures LineEnd(file, pos, limit) == |file|
    decreases |file| - pos
  {
    if pos < |file| {
      assert file[pos..][0] == file[pos];
      assert file[pos + 1..] == file[pos..][1..];
      LineEndLast(file, pos + 1, limit - 1);
    }
  }

  lemma {:induction false} NumberAt(file: Bytes, pos: nat, end: nat, s: Bytes, v: nat, x: nat)
    requires end <= |file| && pos + |s| < end && At(file, pos, s) && ReadDigits(s, v) == Some(x)
             && !IsDigit(file[pos + |s|])
    ensures Number(file, pos, end, v) == Long(x, pos + |s|)
    decreases |s|
  {
    if s != [] {
      AtTail(file, pos, s);
      NumberAt(file, pos + 1, end, s[1..], v * 10 + (s[0] - 48), x);
    }
  }

  lemma {:induction false} DigitsRead(n: nat)
    requires n <= LLONG_MAX
    ensures ReadDigits(Digits(n), 0) == Some(n)
  {
    if n > 0 { DigitsShape(n); }
  }

  lemma {:induction false} LongShort(n: nat)
    requires n <= LLONG_MAX
    ensures |Digits(n)| <= 19
  {
    assert Pow10(7) == 10_000_000;
    assert Pow10(13) == 10_000_000_000_000;
    assert Pow10(19) == 10_000_000_000_000_000_000;
    DigitsShort(n, 19);
  }

  /** fgets reads a whole header line, and strtol its number. */
  lemma {:induction false} ReadLine(file: Bytes, pos: nat, mark: byte, n: nat)
    requires mark != LF && n <= LLONG_MAX && At(file, pos, LineOf(mark, n))
    ensures var end := pos + |LineOf(mark, n)|;
            && file[pos] == mark && LineEnd(file, pos, LINE_MAX) == end
            && Strtol(file, pos + 1, end) == Long(n, end - 2)
            && file[end - 2] == CR && file[end - 1] == LF
  {
    var p := [mark] + Digits(n) + [CR];
    LongShort(n);
    AllDigits(n);
    assert LineOf(mark, n) == p + [LF];
    LineEndAt(file, pos, p, LINE_MAX);
    ReadNumber(file, pos, mark, n);
  }

  lemma {:induction false} ReadNumber(file: Bytes, pos: nat, mark: byte, n: nat)
    requires n <= LLONG_MAX && At(file, pos, LineOf(mark, n))
    ensures var end := pos + |LineOf(mark, n)|;
            && file[pos] == mark && Strtol(file, pos + 1, end) == Long(n, end - 2)
            && file[end - 2] == CR && file[end - 1] == LF
  {
    var d := Digits(n);
    var end := pos + |LineOf(mark, n)|;
    assert LineOf(mark, n) == [mark] + (d + Crlf());
    AtSplit(file, pos, [mark], d + Crlf());
    AtSplit(file, pos + 1, d, Crlf());
    AtByte(file, pos, [mark], 0);
    AtByte(file, pos + 1 + |d|, Crlf(), 0);
    AtByte(file, pos + 1 + |d|, Crlf(), 1);
    AtByte(file, pos + 1, d, 0);
    AllDigits(n);
    DigitsRead(n);
    NumberAt(file, pos + 1, end, d, 0, n);
  }

  // --------------------------------------------------------------- complete commands

  predicate Sized(args: seq<Bytes>) { forall i :: 0 <= i < |args| ==> |args[i]| <= LLONG_MAX }

  /** A command a log may hold. */
  predicate Loggable(argv: seq<Bytes>) { 1 <= |argv| <= LLONG_MAX && Sized(argv) }

  lemma {:induction false} SizedTail(args: seq<Bytes>)
    requires Sized(args) && args != []
    ensures |args[0]| <= LLONG_MAX && Sized(args[1..])
  {
  }

  lemma {:induction false} Regroup<T>(have: seq<T>, args: seq<T>)
    requires args != []
    ensures have + [args[0]] + args[1..] == have + args
  {
  }

  /** Arguments are in the file at pos. */
  predicate ArgsAt(file: Bytes, pos: nat, args: seq<Bytes>) { At(file, pos, ArgsOf(args)) }

  /** The file ends, at pos, with a part of the arguments. */
  predicate ArgsCut(file: Bytes, pos: nat, args: seq<Bytes>) { EndsIn(file, pos, ArgsOf(args)) }

  function ArgsEnd(pos: nat, args: seq<Bytes>): nat { pos + |ArgsOf(args)| }

  lemma {:induction false} ArgsAtNext(file: Bytes, pos: nat, args: seq<Bytes>)
    requires args != [] && ArgsAt(file, pos, args)
    ensures var next := pos + |ArgOf(args[0])|;
            && At(file, pos, ArgOf(args[0])) && ArgsAt(file, next, args[1..])
            && ArgsEnd(next, args[1..]) == ArgsEnd(pos, args)
  {
    AtSplit(file, pos, ArgOf(args[0]), ArgsOf(args[1..]));
  }

  lemma {:induction false} ArgsCutNext(file: Bytes, pos: nat, args: seq<Bytes>)
    requires args != [] && ArgsCut(file, pos, args)
    ensures var next := pos + |ArgOf(args[0])|;
            if |file| < next then EndsIn(file, pos, ArgOf(args[0]))
            else At(file, pos, ArgOf(args[0])) && ArgsCut(file, next, args[1..])
  {
    EndsInSplit(file, pos, ArgOf(args[0]), ArgsOf(args[1..]));
  }

  /** A command is its header line and its arguments. */
  lemma {:induction false} CommandAt(file: Bytes, pos: nat, argv: seq<Bytes>)
    requires At(file, pos, CommandOf(argv))
    ensures var next := pos + |LineOf(STAR, |argv|)|;
            && At(file, pos, LineOf(STAR, |argv|)) && ArgsAt(file, next, argv)
            && ArgsEnd(next, argv) == pos + |CommandOf(argv)|
  {
    AtSplit(file, pos, LineOf(STAR, |argv|), ArgsOf(argv));
  }

  lemma {:induction false} CommandCut(file: Bytes, pos: nat, argv: seq<Bytes>)
    requires EndsIn(file, pos, CommandOf(argv))
    ensures var next := pos + |LineOf(STAR, |argv|)|;
            if |file| < next then EndsIn(file, pos, LineOf(STAR, |argv|))
            else At(file, pos, LineOf(STAR, |argv|)) && ArgsCut(file, next, argv)
  {
    EndsInSplit(file, pos, LineOf(STAR, |argv|), ArgsOf(argv));
  }

  /** An argument that is in the file is read. */
  lemma {:induction false} ReadArg(file: Bytes, pos: nat, a: Bytes, n: nat, have: seq<Bytes>)
    requires |a| <= LLONG_MAX && n > 0 && At(file, pos, ArgOf(a))
    ensures ReadArgs(file, pos, n, have) == ReadArgs(file, pos + |ArgOf(a)|, n - 1, have + [a])
  {
    var start := pos + |LineOf(DOLLAR, |a|)|;
    AtSplit(file, pos, LineOf(DOLLAR, |a|), a + Crlf());
    AtSplit(file, start, a, Crlf());
    ReadLine(file, pos, DOLLAR, |a|);
    AtSlice(file, start, a);
  }

  /** The first of the arguments is read, and the others follow. */
  lemma {:induction false} ReadFirstArg(file: Bytes, pos: nat, args: seq<Bytes>, have: seq<Bytes>)
    requires Sized(args) && args != [] && ArgsAt(file, pos, args)
    ensures var next := pos + |ArgOf(args[0])|;
            && ArgsAt(file, next, args[1..]) && ArgsEnd(next, args[1..]) == ArgsEnd(pos, args)
            && ReadArgs(file, pos, |args|, have) == ReadArgs(file, next, |args| - 1, have + [args[0]])
  {
    SizedTail(args);
    ArgsAtNext(file, pos, args);
    ReadArg(file, pos, args[0], |args|, have);
  }

  lemma {:induction false} ReadArgsPrinted(file: Bytes, pos: nat, args: seq<Bytes>, have: seq<Bytes>)
    requires Sized(args) && ArgsAt(file, pos, args)
    ensures ReadArgs(file, pos, |args|, have) == Command(have + args, ArgsEnd(pos, args))
    decreases |args|
  {
    if args == [] {
      assert have + args == have;
    } else {
      ReadFirstArg(file, pos, args, have);
      SizedTail(args);
      ReadArgsPrinted(file, pos + |ArgOf(args[0])|, args[1..], have + [args[0]]);
      Regroup(have, args);
    }
  }

  lemma {:induction false} ReadCount(file: Bytes, pos: nat, argv: seq<Bytes>)
    requires Loggable(argv) && At(file, pos, CommandOf(argv))
    ensures var next := pos + |LineOf(STAR, |argv|)|;
            && pos < |file| && ArgsAt(file, next, argv)
            && ReadCommand(file, pos) == ReadArgs(file, next, |argv|, [])
  {
    CommandAt(file, pos, argv);
    ReadLine(file, pos, STAR, |argv|);
  }

  /** A command that is in the file is read. */
  lemma {:induction false} ReadCommandPrinted(file: Bytes, pos: nat, argv: seq<Bytes>)
    requires Loggable(argv) && At(file, pos, CommandOf(argv))
    ensures pos < |file| && ReadCommand(file, pos) == Command(argv, pos + |CommandOf(argv)|)
  {
    ReadCount(file, pos, argv);
    ReadArgsPrinted(file, pos + |LineOf(STAR, |argv|)|, argv, []);
    assert [] + argv == argv;
  }

  // --------------------------------------------------------------- commands cut short

  /** Of a part of a header line fgets reads all, and its number is not negative. */
  lemma {:induction false} ReadPartOfLine(file: Bytes, pos: nat, mark: byte, n: nat)
    requires mark != LF && n <= LLONG_MAX && EndsIn(file, pos, LineOf(mark, n)) && pos < |file|
    ensures file[pos] == mark && LineEnd(file, pos, LINE_MAX) == |file|
    ensures Strtol(file, pos + 1, |file|).value >= 0
    ensures n > 0 && pos + 1 < |file| ==> Strtol(file, pos + 1, |file|).value >= 1
  {
    var x, p := LineOf(mark, n), file[pos..];
    LongShort(n);
    AllDigits(n);
    forall i | 0 <= i < |p| ensures p[i] == x[i] { EndsInByte(file, pos, x, i); }
    assert NoLf(p);
    assert file[pos] == p[0];
    LineEndLast(file, pos, LINE_MAX);
    if pos + 1 < |file| {
      assert file[pos + 1] == p[1];
      if n > 0 { DigitsShape(n); }
    }
  }

  /** What the file has of the next argument is not enough. */
  lemma {:induction false} ArgCutShort(file: Bytes, pos: nat, a: Bytes, n: nat, have: seq<Bytes>)
    requires |a| <= LLONG_MAX && n > 0 && EndsIn(file, pos, ArgOf(a))
    ensures ReadArgs(file, pos, n, have) == Short
  {
    var x := LineOf(DOLLAR, |a|);
    EndsInSplit(file, pos, x, a + Crlf());
    if |file| - pos < |x| {
      if pos < |file| { ReadPartOfLine(file, pos, DOLLAR, |a|); }
    } else {
      ReadLine(file, pos, DOLLAR, |a|);
    }
  }

  lemma {:induction false} ArgsCutShort(file: Bytes, pos: nat, args: seq<Bytes>, have: seq<Bytes>)
    requires Sized(args) && ArgsCut(file, pos, args)
    ensures ReadArgs(file, pos, |args|, have) == Short
    decreases |args|
  {
    SizedTail(args);
    ArgsCutNext(file, pos, args);
    if |file| < pos + |ArgOf(args[0])| {
      ArgCutShort(file, pos, args[0], |args|, have);
    } else {
      ReadArg(file, pos, args[0], |args|, have);
      ArgsCutShort(file, pos + |ArgOf(args[0])|, args[1..], have + [args[0]]);
    }
  }

  lemma {:induction false} CommandCutShort(file: Bytes, pos: nat, argv: seq<Bytes>)
    requires Loggable(argv) && EndsIn(file, pos, CommandOf(argv)) && pos < |file|
    ensures ReadCommand(file, pos) == Short
  {
    var x := LineOf(STAR, |argv|);
    CommandCut(file, pos, argv);
    if |file| < pos + |x| {
      ReadPartOfLine(file, pos, STAR, |argv|);
    } else {
      ReadLine(file, pos, STAR, |argv|);
      ArgsCutShort(file, pos + |x|, argv, []);
    }
  }

  predicate AllLoggable(cmds: seq<seq<Bytes>>) { forall i :: 0 <= i < |cmds| ==> Loggable(cmds[i]) }

  function CommandsEnd(pos: nat, cmds: seq<seq<Bytes>>): nat { pos + |CommandsOf(cmds)| }

  /** What is in the file from pos on: commands, and then a part of a further one. */
  predicate Holds(file: Bytes, pos: nat, cmds: seq<seq<Bytes>>, argv: seq<Bytes>)
  {
    && AllLoggable(cmds) && At(file, pos, CommandsOf(cmds))
    && var end := CommandsEnd(pos, cmds); end == |file| || (Loggable(argv) && EndsIn(file, end, CommandOf(argv)))
  }

  lemma {:induction false} HoldsNext(file: Bytes, pos: nat, cmds: seq<seq<Bytes>>, argv: seq<Bytes>)
    requires Holds(file, pos, cmds, argv) && cmds != []
    ensures var next := pos + |CommandOf(cmds[0])|;
            && Loggable(cmds[0]) && At(file, pos, CommandOf(cmds[0]))
            && Holds(file, next, cmds[1..], argv) && CommandsEnd(next, cmds[1..]) == CommandsEnd(pos, cmds)
  {
    AtSplit(file, pos, CommandOf(cmds[0]), CommandsOf(cmds[1..]));
  }

  /** The next complete command is read, and what the file then holds is after it. */
  lemma {:induction false} ReadNext(file: Bytes, pos: nat, cmds: seq<seq<Bytes>>, argv: seq<Bytes>) returns (next: nat)
    requires Holds(file, pos, cmds, argv) && cmds != []
    ensures pos < next <= |file| && ReadCommand(file, pos) == Command(cmds[0], next)
    ensures Holds(file, next, cmds[1..], argv) && CommandsEnd(next, cmds[1..]) == CommandsEnd(pos, cmds)
  {
    next := pos + |CommandOf(cmds[0])|;
    HoldsNext(file, pos, cmds, argv);
    ReadCommandPrinted(file, pos, cmds[0]);
  }

  lemma {:induction false} LoadLast(file: Bytes, pos: nat, argv: seq<Bytes>, executed: seq<seq<Bytes>>)
    requires pos == |file| || (Loggable(argv) && EndsIn(file, pos, CommandOf(argv)))
    ensures Load(file, pos, executed) == Loaded(executed, pos, if pos == |file| then AtEnd else CutShort)
  {
    if pos < |file| { CommandCutShort(file, pos, argv); }
  }

  lemma {:induction false} LoadFrom(file: Bytes, pos: nat, cmds: seq<seq<Bytes>>, argv: seq<Bytes>,
      executed: seq<seq<Bytes>>)
    requires Holds(file, pos, cmds, argv)
    ensures var end := CommandsEnd(pos, cmds);
            Load(file, pos, executed) == Loaded(executed + cmds, end, if end == |file| then AtEnd else CutShort)
    decreases |cmds|
  {
    if cmds == [] {
      assert executed + cmds == executed;
      LoadLast(file, pos, argv, executed);
    } else {
      var next := ReadNext(file, pos, cmds, argv);
      LoadFrom(file, next, cmds[1..], argv, executed + [cmds[0]]);
      Regroup(executed, cmds);
    }
  }

  /** A log, and then any part of a further command: what a crash may leave. */
  predicate Leaves(file: Bytes, cmds: seq<seq<Bytes>>, argv: seq<Bytes>)
  {
    && AllLoggable(cmds) && CommandsOf(cmds) <= file
    && var p := file[|CommandsOf(cmds)|..]; p == [] || (Loggable(argv) && p < CommandOf(argv))
  }

  lemma {:induction false} LeavesHolds(file: Bytes, cmds: seq<seq<Bytes>>, argv: seq<Bytes>)
    requires Leaves(file, cmds, argv)
    ensures Holds(file, 0, cmds, argv)
  {
    SliceAt(file, 0, CommandsOf(cmds));
    if |CommandsOf(cmds)| < |file| { SliceEndsIn(file, |CommandsOf(cmds)|, CommandOf(argv)); }
  }

  /** Loading a log that was cut in the middle of a command executes exactly the complete
      commands, and finds where they end. */
  lemma {:induction false} LoadsCompleteCommands(file: Bytes, cmds: seq<seq<Bytes>>, argv: seq<Bytes>)
    requires Leaves(file, cmds, argv)
    ensures var end := |CommandsOf(cmds)|;
            Load(file, 0, []) == Loaded(cmds, end, if end == |file| then AtEnd else CutShort)
  {
    LeavesHolds(file, cmds, argv);
    LoadFrom(file, 0, cmds, argv, []);
    assert [] + cmds == cmds;
  }

  // ------------------------------------------------------------------------ the loops

  /** fgets */
  method Gets(file: Bytes, pos: nat) returns (end: nat)
    requires pos <= |file|
    ensures end == LineEnd(file, pos, LINE_MAX)
  {
    var limit: nat := LINE_MAX;
    end := pos;
    while end < |file| && limit > 0
      invariant pos <= end <= |file|
      invariant LineEnd(file, end, limit) == LineEnd(file, pos, LINE_MAX)
      decreases |file| - end
    {
      end, limit := end + 1, limit - 1;
      if file[end - 1] == LF { return; }
    }
  }

  /** strtol */
  method StringToLong(file: Bytes, pos: nat, end: nat) returns (v: int, stop: nat)
    requires pos <= end <= |file|
    ensures Long(v, stop) == Strtol(file, pos, end)
  {
    var negative := pos < end && file[pos] == 45;
    var start := if negative then pos + 1 else pos;
    var x: nat := 0;
    stop := start;
    while stop < end && IsDigit(file[stop])
      invariant start <= stop <= end
      invariant Number(file, stop, end, x) == Number(file, start, end, 0)
    {
      x := x * 10 + (file[stop] - 48);
      stop := stop + 1;
    }
    v := x;
    if negative {
      if stop == start { return 0, pos; }
      v := -v;
    }
  }

  lemma {:induction false} ReadArgsNext(file: Bytes, pos: nat, n: nat, argv: seq<Bytes>, start: nat, len: nat)
    requires pos < |file| && n > 0 && file[pos] == DOLLAR && start == LineEnd(file, pos, LINE_MAX)
    requires Strtol(file, pos + 1, start).value == len && |file| - start >= len + 2
    ensures ReadArgs(file, pos, n, argv)
            == ReadArgs(file, start + len + 2, n - 1, argv + [file[start..start + len]])
  {
  }

  /** The arguments of a command in the loading loop. */
  method LoadArgs(file: Bytes, pos0: nat, argc: nat) returns (r: Command)
    requires pos0 <= |file|
    ensures r == ReadArgs(file, pos0, argc, [])
  {
    var argv: seq<Bytes>, pos: nat, j: nat := [], pos0, 0;
    ghost var all := ReadArgs(file, pos0, argc, []);
    while j < argc
      invariant j <= argc && pos <= |file|
      invariant ReadArgs(file, pos, argc - j, argv) == all
    {
      if pos == |file| { return Short; }
      if file[pos] != DOLLAR { return Malformed; }
      var start := Gets(file, pos);
      var len, stop := StringToLong(file, pos + 1, start);
      if len < 0 { return Malformed; }
      if |file| - start < len { return Short; }
      if |file| - start - len < 2 { return Short; }
      ReadArgsNext(file, pos, argc - j, argv, start, len);
      argv := argv + [file[start..start + len]];
      pos := start + len + 2;
      j := j + 1;
    }
    return Command(argv, pos);
  }
}
