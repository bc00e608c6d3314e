/** How the loading of an AOF ends, for every file (loadAppendOnlyFile of src/aof.c):
    which bytes after the last complete command are a command cut short, and which are no
    command at all.
 */
module AofEnd {
  import opened Options
  import opened Decimal
  import opened Layout
  import opened Resp
  import opened AofLoad

  // ------------------------------------------------------------- what can be in a file

  /** The number on the line at pos, after its first byte, and where the line ends. */
  function NumberAtLine(file: Bytes, pos: nat): int
    requires pos < |file|
  {
    Strtol(file, pos + 1, LineEnd(file, pos, LINE_MAX)).value
  }

  /** An argument is in the file from pos to next: its line, as many bytes as that says,
      and two more. */
  predicate ArgumentAt(file: Bytes, pos: nat, a: Bytes, next: nat)
  {
    && pos < |file| && file[pos] == DOLLAR && NumberAtLine(file, pos) == |a|
    && var start := LineEnd(file, pos, LINE_MAX);
       start + |a| + 2 == next <= |file| && file[start..start + |a|] == a
  }

  /** Arguments are in the file from pos to next; ends: where each of them ends. */
  predicate ArgumentsAt(file: Bytes, pos: nat, args: seq<Bytes>, ends: seq<nat>, next: nat)
    decreases |args|
  {
    && |args| == |ends|
    && if args == [] then pos == next <= |file|
       else ArgumentAt(file, pos, args[0], ends[0]) && ArgumentsAt(file, ends[0], args[1..], ends[1..], next)
  }

  /** The bytes at pos are not those of an argument. */
  predicate NoArgument(file: Bytes, pos: nat)
  {
    pos < |file| && (file[pos] != DOLLAR || NumberAtLine(file, pos) < 0)
  }

  /** The file ends before the argument at pos does. */
  predicate ArgumentCut(file: Bytes, pos: nat)
  {
    || pos == |file|
    || (&& pos < |file| && file[pos] == DOLLAR && NumberAtLine(file, pos) >= 0
        && |file| - LineEnd(file, pos, LINE_MAX) < NumberAtLine(file, pos) + 2)
  }

  /** A command is in the file from pos to next. */
  ghost predicate WholeCommand(file: Bytes, pos: nat, argv: seq<Bytes>, next: nat)
  {
    && pos < |file| && file[pos] == STAR && LineEnd(file, pos, LINE_MAX) > pos + 1
    && 1 <= NumberAtLine(file, pos) == |argv|
    && exists ends :: ArgumentsAt(file, LineEnd(file, pos, LINE_MAX), argv, ends, next)
  }

  /** Fewer arguments than the command at pos has are in the file up to q. */
  predicate SomeArguments(file: Bytes, pos: nat, args: seq<Bytes>, ends: seq<nat>, q: nat)
  {
    && pos < |file| && file[pos] == STAR && LineEnd(file, pos, LINE_MAX) > pos + 1
    && |args| < NumberAtLine(file, pos) && ArgumentsAt(file, LineEnd(file, pos, LINE_MAX), args, ends, q)
  }

  /** The bytes at pos are not those of a command, whatever comes after them: no star, a
      count below 1, or after some of the arguments bytes that are no argument. */
  ghost predicate NoCommand(file: Bytes, pos: nat)
  {
    && pos < |file|
    && (|| file[pos] != STAR
        || (LineEnd(file, pos, LINE_MAX) > pos + 1 && NumberAtLine(file, pos) < 1)
        || exists args, ends, q :: SomeArguments(file, pos, args, ends, q) && NoArgument(file, q))
  }

  /** The file ends before the command at pos does. */
  ghost predicate CommandIsCut(file: Bytes, pos: nat)
  {
    && pos < |file| && file[pos] == STAR
    && (|| LineEnd(file, pos, LINE_MAX) == pos + 1
        || exists args, ends, q :: SomeArguments(file, pos, args, ends, q) && ArgumentCut(file, q))
  }

  // ---------------------------------------------------------------------- the arguments

  /** Arguments that are in the file are read, and reading goes on after them. */
  lemma {:induction false} ReadsArguments(file: Bytes, pos: nat, n: nat, have: seq<Bytes>, args: seq<Bytes>,
      ends: seq<nat>, q: nat)
    requires ArgumentsAt(file, pos, args, ends, q) && |args| <= n && pos <= |file|
    ensures q <= |file| && ReadArgs(file, pos, n, have) == ReadArgs(file, q, n - |args|, have + args)
    decreases |args|
  {
    if args == [] {
      assert have + args == have;
    } else {
      ReadsArguments(file, ends[0], n - 1, have + [args[0]], args[1..], ends[1..], q);
      Regroup(have, args);
    }
  }

  lemma {:induction false} ArgumentsThen(file: Bytes, pos: nat, a: Bytes, next: nat, args: seq<Bytes>, ends: seq<nat>,
      q: nat)
    requires ArgumentAt(file, pos, a, next) && ArgumentsAt(file, next, args, ends, q)
    ensures ArgumentsAt(file, pos, [a] + args, [next] + ends, q)
  {
    assert ([a] + args)[1..] == args && ([next] + ends)[1..] == ends;
  }

  /** Reading up to n arguments: those that are in the file, and what stops it. */
  lemma {:induction false} ReadsUpTo(file: Bytes, pos: nat, n: nat) returns (args: seq<Bytes>, ends: seq<nat>, q: nat)
    requires pos <= |file|
    ensures ArgumentsAt(file, pos, args, ends, q) && |args| <= n
    ensures |args| < n ==> NoArgument(file, q) || ArgumentCut(file, q)
    decreases n
  {
    args, ends, q := [], [], pos;
    if n > 0 && !NoArgument(file, pos) && !ArgumentCut(file, pos) {
      var start, len := LineEnd(file, pos, LINE_MAX), NumberAtLine(file, pos);
      var a, next := file[start..start + len], start + len + 2;
      assert ArgumentAt(file, pos, a, next);
      var args', ends', q' := ReadsUpTo(file, next, n - 1);
      ArgumentsThen(file, pos, a, next, args', ends', q');
      args, ends, q := [a] + args', [next] + ends', q';
    }
  }

  lemma {:induction false} StopsAt(file: Bytes, q: nat, n: nat, have: seq<Bytes>)
    requires q <= |file|
    ensures n == 0 ==> ReadArgs(file, q, n, have) == Command(have, q)
    ensures n > 0 && NoArgument(file, q) ==> ReadArgs(file, q, n, have) == Malformed
    ensures n > 0 && ArgumentCut(file, q) ==> ReadArgs(file, q, n, have) == Short
  {
  }

  // ----------------------------------------------------------------------- the commands

  lemma {:induction false} WholeIsRead(file: Bytes, pos: nat, argv: seq<Bytes>, next: nat)
    requires WholeCommand(file, pos, argv, next)
    ensures ReadCommand(file, pos) == Command(argv, next)
  {
    var start := LineEnd(file, pos, LINE_MAX);
    var ends :| ArgumentsAt(file, start, argv, ends, next);
    ReadsArguments(file, start, |argv|, [], argv, ends, next);
    StopsAt(file, next, 0, [] + argv);
    assert [] + argv == argv;
  }

  lemma {:induction false} SomeIsRead(file: Bytes, pos: nat, args: seq<Bytes>, ends: seq<nat>, q: nat)
    requires SomeArguments(file, pos, args, ends, q)
    ensures NoArgument(file, q) ==> ReadCommand(file, pos) == Malformed
    ensures ArgumentCut(file, q) ==> ReadCommand(file, pos) == Short
  {
    var start, n := LineEnd(file, pos, LINE_MAX), NumberAtLine(file, pos);
    ReadsArguments(file, start, n, [], args, ends, q);
    StopsAt(file, q, n - |args|, [] + args);
  }

  /** What is at a place of the file: a command, a part of one, or neither. */
  lemma {:induction false} CommandOrNot(file: Bytes, pos: nat)
    requires pos < |file|
    ensures (exists argv, next :: WholeCommand(file, pos, argv, next)) || NoCommand(file, pos)
            || CommandIsCut(file, pos)
  {
    var start := LineEnd(file, pos, LINE_MAX);
    if file[pos] == STAR && start > pos + 1 && NumberAtLine(file, pos) >= 1 {
      var n := NumberAtLine(file, pos);
      var args, ends, q := ReadsUpTo(file, start, n);
      if |args| == n {
        assert WholeCommand(file, pos, args, q);
      } else {
        assert SomeArguments(file, pos, args, ends, q);
      }
    }
  }

  /** One round of the loading loop tells which. */
  lemma {:induction false} ReadCommandExact(file: Bytes, pos: nat)
    requires pos < |file|
    ensures ReadCommand(file, pos).Malformed? <==> NoCommand(file, pos)
    ensures ReadCommand(file, pos).Short? <==> CommandIsCut(file, pos)
    ensures forall argv, next :: ReadCommand(file, pos) == Command(argv, next) <==> WholeCommand(file, pos, argv, next)
  {
    forall argv, next | WholeCommand(file, pos, argv, next) ensures ReadCommand(file, pos) == Command(argv, next) {
      WholeIsRead(file, pos, argv, next);
    }
    forall args, ends, q | SomeArguments(file, pos, args, ends, q)
      ensures NoArgument(file, q) ==> ReadCommand(file, pos) == Malformed
      ensures ArgumentCut(file, q) ==> ReadCommand(file, pos) == Short
    {
      SomeIsRead(file, pos, args, ends, q);
    }
    CommandOrNot(file, pos);
  }

  // ---------------------------------------------------------------------- whole files

  /** Whole commands are in the file from pos to next. */
  ghost predicate WholeCommands(file: Bytes, pos: nat, cmds: seq<seq<Bytes>>, next: nat)
    decreases |cmds|
  {
    if cmds == [] then pos == next <= |file|
    else exists q :: pos < q <= |file| && WholeCommand(file, pos, cmds[0], q) && WholeCommands(file, q, cmds[1..], next)
  }

  lemma {:induction false} WholeThen(file: Bytes, pos: nat, argv: seq<Bytes>, q: nat, cmds: seq<seq<Bytes>>, next: nat)
    requires pos < q <= |file| && WholeCommand(file, pos, argv, q) && WholeCommands(file, q, cmds, next)
    ensures WholeCommands(file, pos, [argv] + cmds, next)
  {
    assert ([argv] + cmds)[1..] == cmds;
  }

  /** How loading ends at a place. */
  ghost predicate EndsThere(file: Bytes, pos: nat, end: End)
  {
    match end
    case AtEnd => pos == |file|
    case CutShort => CommandIsCut(file, pos)
    case BadFormat => NoCommand(file, pos)
  }

  lemma {:induction false} LoadsOne(file: Bytes, pos: nat, executed: seq<seq<Bytes>>, argv: seq<Bytes>, next: nat)
    requires pos < |file| && ReadCommand(file, pos) == Command(argv, next)
    ensures Load(file, pos, executed) == Load(file, next, executed + [argv])
  {
  }

  /** Loading from pos, after some commands, gives r: whole commands more, and how it ends. */
  ghost predicate LoadsAs(file: Bytes, pos: nat, executed: seq<seq<Bytes>>, cmds: seq<seq<Bytes>>, r: Loaded)
  {
    && r.executed == executed + cmds && WholeCommands(file, pos, cmds, r.validUpTo)
    && r.validUpTo <= |file| && EndsThere(file, r.validUpTo, r.end)
  }

  lemma {:induction false} LoadsBefore(file: Bytes, pos: nat, executed: seq<seq<Bytes>>, argv: seq<Bytes>, next: nat,
      cmds: seq<seq<Bytes>>, r: Loaded)
    requires pos < next <= |file| && WholeCommand(file, pos, argv, next)
    requires LoadsAs(file, next, executed + [argv], cmds, r)
    ensures LoadsAs(file, pos, executed, [argv] + cmds, r)
  {
    WholeThen(file, pos, argv, next, cmds, r.validUpTo);
    assert executed + [argv] + cmds == executed + ([argv] + cmds);
  }

  lemma {:induction false} LoadsNothing(file: Bytes, pos: nat, executed: seq<seq<Bytes>>)
    requires pos == |file| || (pos < |file| && !ReadCommand(file, pos).Command?)
    ensures LoadsAs(file, pos, executed, [], Load(file, pos, executed))
  {
    if pos < |file| { ReadCommandExact(file, pos); }
    assert executed + [] == executed;
  }

  lemma {:induction false} LoadFromExact(file: Bytes, pos: nat,
      executed: seq<seq<Bytes>>) returns (cmds: seq<seq<Bytes>>)
    requires pos <= |file|
    ensures LoadsAs(file, pos, executed, cmds, Load(file, pos, executed))
    decreases |file| - pos
  {
    cmds := [];
    if pos < |file| && ReadCommand(file, pos).Command? {
      var argv, next := ReadCommand(file, pos).argv, ReadCommand(file, pos).next;
      assert WholeCommand(file, pos, argv, next) by { ReadCommandExact(file, pos); }
      var rest := LoadFromExact(file, next, executed + [argv]);
      LoadsOne(file, pos, executed, argv, next);
      cmds := [argv] + rest;
      LoadsBefore(file, pos, executed, argv, next, rest, Load(file, pos, executed));
    } else {
      LoadsNothing(file, pos, executed);
    }
  }

  /** The ends exclude each other. */
  lemma {:induction false} EndsApart(file: Bytes, pos: nat, a: End, b: End)
    requires EndsThere(file, pos, a) && EndsThere(file, pos, b)
    ensures a == b
  {
    if pos < |file| { ReadCommandExact(file, pos); }
  }

  /** Loading executes whole commands from the start of the file, and ends after them at the
      end of the file; or CutShort exactly when the file ends before the next command does;
      or BadFormat exactly when the next bytes are no command, whatever would come after them. */
  ghost predicate EndsExactly(file: Bytes, r: Loaded)
  {
    && WholeCommands(file, 0, r.executed, r.validUpTo) && r.validUpTo <= |file|
    && (r.end == AtEnd <==> r.validUpTo == |file|)
    && (r.end == CutShort <==> CommandIsCut(file, r.validUpTo))
    && (r.end == BadFormat <==> NoCommand(file, r.validUpTo))
  }

  /** How loading ends, for every file. */
  lemma {:induction false} LoadExact(file: Bytes)
    ensures EndsExactly(file, Load(file, 0, []))
  {
    var r := Load(file, 0, []);
    var cmds := LoadFromExact(file, 0, []);
    assert [] + cmds == cmds;
    forall e | EndsThere(file, r.validUpTo, e) ensures e == r.end { EndsApart(file, r.validUpTo, r.end, e); }
    assert EndsThere(file, r.validUpTo, AtEnd) <==> r.end == AtEnd;
    assert EndsThere(file, r.validUpTo, CutShort) <==> r.end == CutShort;
    assert EndsThere(file, r.validUpTo, BadFormat) <==> r.end == BadFormat;
  }

  /** loadAppendOnlyFile: what it executes, and where it would truncate the file. */
  method LoadFile(file: Bytes) returns (r: Loaded)
    ensures r == Load(file, 0, []) && EndsExactly(file, r)
  {
    LoadExact(file);
    var executed: seq<seq<Bytes>>, validUpTo: nat := [], 0;
    while validUpTo < |file|
      invariant validUpTo <= |file|
      invariant Load(file, validUpTo, executed) == Load(file, 0, [])
      decreases |file| - validUpTo
    {
      var start := Gets(file, validUpTo);
      if file[validUpTo] != STAR { return Loaded(executed, validUpTo, BadFormat); }
      if start == validUpTo + 1 { return Loaded(executed, validUpTo, CutShort); }
      var argc, stop := StringToLong(file, validUpTo + 1, start);
      if argc < 1 { return Loaded(executed, validUpTo, BadFormat); }
      var c := LoadArgs(file, start, argc);
      assert ReadCommand(file, validUpTo) == c;
      if c.Short? { return Loaded(executed, validUpTo, CutShort); }
      if c.Malformed? { return Loaded(executed, validUpTo, BadFormat); }
      executed := executed + [c.argv];
      validUpTo := c.next;
    }
    return Loaded(executed, validUpTo, AtEnd);
  }

  // --------------------------------------------------------- after commands of a log

  lemma {:induction false} LoggedFirst(file: Bytes, pos: nat, cmds: seq<seq<Bytes>>) returns (next: nat)
    requires cmds != [] && AllLoggable(cmds) && At(file, pos, CommandsOf(cmds))
    ensures pos < next <= |file| && ReadCommand(file, pos) == Command(cmds[0], next)
    ensures AllLoggable(cmds[1..]) && At(file, next, CommandsOf(cmds[1..]))
    ensures CommandsEnd(next, cmds[1..]) == CommandsEnd(pos, cmds)
  {
    next := pos + |CommandOf(cmds[0])|;
    AtSplit(file, pos, CommandOf(cmds[0]), CommandsOf(cmds[1..]));
    ReadCommandPrinted(file, pos, cmds[0]);
  }

  /** Commands that were logged are executed, whatever is after them. */
  lemma {:induction false} LoggedThen(file: Bytes, pos: nat, cmds: seq<seq<Bytes>>, executed: seq<seq<Bytes>>)
    requires AllLoggable(cmds) && At(file, pos, CommandsOf(cmds))
    ensures CommandsEnd(pos, cmds) <= |file|
    ensures Load(file, pos, executed) == Load(file, CommandsEnd(pos, cmds), executed + cmds)
    decreases |cmds|
  {
    if cmds == [] {
      assert executed + cmds == executed;
    } else {
      var next := LoggedFirst(file, pos, cmds);
      LoadsOne(file, pos, executed, cmds[0], next);
      LoggedThen(file, next, cmds[1..], executed + [cmds[0]]);
      Regroup(executed, cmds);
    }
  }

  /** A log with bytes after it that are no command: exactly its commands are executed,
      and the file is refused. */
  lemma {:induction false} RefusedAfter(file: Bytes, cmds: seq<seq<Bytes>>)
    requires AllLoggable(cmds) && At(file, 0, CommandsOf(cmds)) && NoCommand(file, |CommandsOf(cmds)|)
    ensures Load(file, 0, []) == Loaded(cmds, |CommandsOf(cmds)|, BadFormat)
  {
    LoggedThen(file, 0, cmds, []);
    assert [] + cmds == cmds;
    ReadCommandExact(file, |CommandsOf(cmds)|);
  }

  /** Printed arguments are arguments. */
  lemma {:induction false} PrintedArguments(file: Bytes, pos: nat, args: seq<Bytes>) returns (ends: seq<nat>)
    requires Sized(args) && ArgsAt(file, pos, args)
    ensures ArgumentsAt(file, pos, args, ends, ArgsEnd(pos, args))
    decreases |args|
  {
    ends := [];
    if args != [] {
      var next := PrintedArgument(file, pos, args);
      SizedTail(args);
      var rest := PrintedArguments(file, next, args[1..]);
      ends := [next] + rest;
      ArgumentsThen(file, pos, args[0], next, args[1..], rest, ArgsEnd(pos, args));
      assert [args[0]] + args[1..] == args;
    }
  }

  lemma {:induction false} PrintedArgument(file: Bytes, pos: nat, args: seq<Bytes>) returns (next: nat)
    requires Sized(args) && args != [] && ArgsAt(file, pos, args)
    ensures next <= |file| && ArgumentAt(file, pos, args[0], next) && ArgsAt(file, next, args[1..])
    ensures ArgsEnd(next, args[1..]) == ArgsEnd(pos, args)
  {
    var a := args[0];
    next := pos + |ArgOf(a)|;
    ArgsAtNext(file, pos, args);
    SizedTail(args);
    ArgIsArgument(file, pos, a);
  }

  lemma {:induction false} ArgIsArgument(file: Bytes, pos: nat, a: Bytes)
    requires |a| <= LLONG_MAX && At(file, pos, ArgOf(a))
    ensures ArgumentAt(file, pos, a, pos + |ArgOf(a)|)
  {
    var start := pos + |LineOf(DOLLAR, |a|)|;
    AtSplit(file, pos, LineOf(DOLLAR, |a|), a + Crlf());
    AtSplit(file, start, a, Crlf());
    ReadLine(file, pos, DOLLAR, |a|);
    AtSlice(file, start, a);
  }

  /** The three ways in which bytes after a log are no command: a byte that is not a star; a
      header line with the count 0; and a header line with a count, fewer arguments than
      it says, and a byte that is not a dollar. */
  lemma {:induction false} NoStar(file: Bytes, pos: nat)
    requires pos < |file| && file[pos] != STAR
    ensures NoCommand(file, pos)
  {
  }

  lemma {:induction false} NoCount(file: Bytes, pos: nat)
    requires At(file, pos, LineOf(STAR, 0))
    ensures NoCommand(file, pos)
  {
    ReadLine(file, pos, STAR, 0);
  }

  /** A minus is read. */
  lemma {:induction false} NegativeLine(file: Bytes, pos: nat, mark: byte, n: nat)
    requires mark != LF && 0 < n <= LLONG_MAX && At(file, pos, [mark, 45] + (Digits(n) + Crlf()))
    ensures pos < |file| && file[pos] == mark && NumberAtLine(file, pos) + n == 0
  {
    var d := Digits(n);
    var p := [mark, 45] + d + [CR];
    var end := pos + |p| + 1;
    LongShort(n);
    AllDigits(n);
    assert [mark, 45] + (d + Crlf()) == p + [LF];
    LineEndAt(file, pos, p, LINE_MAX);
    AtSplit(file, pos, [mark, 45], d + Crlf());
    AtSplit(file, pos + 2, d, Crlf());
    AtByte(file, pos, [mark, 45], 0);
    AtByte(file, pos, [mark, 45], 1);
    AtByte(file, pos + 2 + |d|, Crlf(), 0);
    DigitsRead(n);
    NumberAt(file, pos + 2, end, d, 0, n);
  }

  /** An argument with a negative length is none. */
  lemma {:induction false} NegativeLength(file: Bytes, pos: nat, n: nat)
    requires 0 < n <= LLONG_MAX && At(file, pos, [DOLLAR, 45] + (Digits(n) + Crlf()))
    ensures NoArgument(file, pos)
  {
    NegativeLine(file, pos, DOLLAR, n);
  }

  lemma {:induction false} NoDollar(file: Bytes, pos: nat, n: nat, args: seq<Bytes>)
    requires |args| < n <= LLONG_MAX && Sized(args) && At(file, pos, LineOf(STAR, n) + ArgsOf(args))
    requires var q := pos + |LineOf(STAR, n) + ArgsOf(args)|; q < |file| && file[q] != DOLLAR
    ensures NoCommand(file, pos)
  {
    var q := pos + |LineOf(STAR, n) + ArgsOf(args)|;
    var start := pos + |LineOf(STAR, n)|;
    AtSplit(file, pos, LineOf(STAR, n), ArgsOf(args));
    ReadLine(file, pos, STAR, n);
    var ends := PrintedArguments(file, start, args);
    assert SomeArguments(file, pos, args, ends, q);
    assert NoArgument(file, q);
  }

  // ------------------------------------------------------------------ starting again

  lemma {:induction false} LineEndPrefix(file: Bytes, k: nat, pos: nat, limit: nat)
    requires pos <= k <= |file| && LineEnd(file, pos, limit) <= k
    ensures LineEnd(file[..k], pos, limit) == LineEnd(file, pos, limit)
    decreases k - pos
  {
    if pos < |file| && limit > 0 && pos < k && file[pos] != LF { LineEndPrefix(file, k, pos + 1, limit - 1); }
  }

  lemma {:induction false} NumberPrefix(file: Bytes, k: nat, pos: nat, end: nat, v: nat)
    requires pos <= end <= k <= |file|
    ensures Number(file[..k], pos, end, v) == Number(file, pos, end, v)
    decreases end - pos
  {
    if pos < end && IsDigit(file[pos]) { NumberPrefix(file, k, pos + 1, end, v * 10 + (file[pos] - 48)); }
  }

  lemma {:induction false} StrtolPrefix(file: Bytes, k: nat, pos: nat, end: nat)
    requires pos <= end <= k <= |file|
    ensures Strtol(file[..k], pos, end) == Strtol(file, pos, end)
  {
    if pos < end && file[pos] == 45 {
      NumberPrefix(file, k, pos + 1, end, 0);
    } else {
      NumberPrefix(file, k, pos, end, 0);
    }
  }

  lemma {:induction false} LinePrefix(file: Bytes, k: nat, pos: nat)
    requires pos < k <= |file| && LineEnd(file, pos, LINE_MAX) <= k
    ensures file[..k][pos] == file[pos] && LineEnd(file[..k], pos, LINE_MAX) == LineEnd(file, pos, LINE_MAX)
    ensures NumberAtLine(file[..k], pos) == NumberAtLine(file, pos)
  {
    LineEndPrefix(file, k, pos, LINE_MAX);
    StrtolPrefix(file, k, pos + 1, LineEnd(file, pos, LINE_MAX));
  }

  lemma {:induction false} ArgumentPrefix(file: Bytes, k: nat, pos: nat, a: Bytes, next: nat)
    requires ArgumentAt(file, pos, a, next) && next <= k <= |file|
    ensures ArgumentAt(file[..k], pos, a, next)
  {
    var start := LineEnd(file, pos, LINE_MAX);
    LinePrefix(file, k, pos);
    assert file[..k][start..start + |a|] == file[start..start + |a|];
  }

  lemma {:induction false} ArgumentsForward(file: Bytes, pos: nat, args: seq<Bytes>, ends: seq<nat>, next: nat)
    requires ArgumentsAt(file, pos, args, ends, next)
    ensures pos <= next
    decreases |args|
  {
    if args != [] { ArgumentsForward(file, ends[0], args[1..], ends[1..], next); }
  }

  lemma {:induction false} ArgumentsPrefix(file: Bytes, k: nat, pos: nat, args: seq<Bytes>, ends: seq<nat>, next: nat)
    requires ArgumentsAt(file, pos, args, ends, next) && next <= k <= |file|
    ensures ArgumentsAt(file[..k], pos, args, ends, next)
    decreases |args|
  {
    if args != [] {
      ArgumentsForward(file, ends[0], args[1..], ends[1..], next);
      ArgumentPrefix(file, k, pos, args[0], ends[0]);
      ArgumentsPrefix(file, k, ends[0], args[1..], ends[1..], next);
    }
  }

  lemma {:induction false} CommandPrefix(file: Bytes, k: nat, pos: nat, argv: seq<Bytes>, next: nat)
    requires WholeCommand(file, pos, argv, next) && next <= k <= |file|
    ensures WholeCommand(file[..k], pos, argv, next)
  {
    var start := LineEnd(file, pos, LINE_MAX);
    var ends :| ArgumentsAt(file, start, argv, ends, next);
    ArgumentsForward(file, start, argv, ends, next);
    LinePrefix(file, k, pos);
    ArgumentsPrefix(file, k, start, argv, ends, next);
  }

  lemma {:induction false} CommandsForward(file: Bytes, pos: nat, cmds: seq<seq<Bytes>>, next: nat)
    requires WholeCommands(file, pos, cmds, next)
    ensures pos <= next
    decreases |cmds|
  {
    if cmds != [] {
      var q :| pos < q <= |file| && WholeCommand(file, pos, cmds[0], q) && WholeCommands(file, q, cmds[1..], next);
      CommandsForward(file, q, cmds[1..], next);
    }
  }

  /** Whole commands are loaded from the part of the file that ends with them. */
  lemma {:induction false} PartLoads(file: Bytes, k: nat, pos: nat, cmds: seq<seq<Bytes>>, executed: seq<seq<Bytes>>)
    requires k <= |file| && pos <= k && WholeCommands(file, pos, cmds, k)
    ensures Load(file[..k], pos, executed) == Loaded(executed + cmds, k, AtEnd)
    decreases |cmds|
  {
    if cmds == [] {
      assert executed + cmds == executed;
    } else {
      var q :| pos < q <= |file| && WholeCommand(file, pos, cmds[0], q) && WholeCommands(file, q, cmds[1..], k);
      CommandsForward(file, q, cmds[1..], k);
      CommandPrefix(file, k, pos, cmds[0], q);
      WholeIsRead(file[..k], pos, cmds[0], q);
      PartLoads(file, k, q, cmds[1..], executed + [cmds[0]]);
      Regroup(executed, cmds);
    }
  }

  /** The file the server goes on with, if it starts: aof-load-truncated says whether a
      last command that was cut may be dropped. */
  function Recovered(file: Bytes, loadTruncated: bool): Option<Bytes>
  {
    var r := Load(file, 0, []);
    match r.end
    case AtEnd => Some(file)
    case CutShort => if loadTruncated && r.validUpTo <= |file| then Some(file[..r.validUpTo]) else None
    case BadFormat => None
  }

  /** For every file: the server starts unless bytes of the file are no command, or the last
      one is cut and that is not allowed.  The file it goes on with has just the commands it
      executed, so that it starts again with the same. */
  lemma {:induction false} StartsAgain(file: Bytes, loadTruncated: bool)
    ensures var r := Load(file, 0, []);
            && (Recovered(file, loadTruncated).None? <==>
              NoCommand(file, r.validUpTo) || (CommandIsCut(file, r.validUpTo) && !loadTruncated))
            && (Recovered(file, loadTruncated).Some? ==>
              Load(Recovered(file, loadTruncated).value, 0, []) == Loaded(r.executed, r.validUpTo, AtEnd))
  {
    var r := Load(file, 0, []);
    LoadExact(file);
    PartLoads(file, r.validUpTo, 0, r.executed, []);
    assert [] + r.executed == r.executed;
    assert file[..|file|] == file;
  }
}
