/** Which requests the parser refuses (processMultibulkBuffer of src/networking.c), for
    every contents of the query buffer.
 */
module RespErrors {
  import opened Options
  import opened Decimal
  import opened Resp

  // --------------------------------------------------------------- arguments in a buffer

  /** The number on the line that a buffer starts with, after its first byte. */
  function LineNumber(s: Bytes): Option<int>
    requires HeadOf(s).Line?
  {
    if HeadOf(s).len == 0 then ReadInt([]) else ReadInt(s[1..HeadOf(s).len])
  }

  predicate GoodHeader(s: Bytes)
  {
    && HeadOf(s).Line? && s[0] == DOLLAR
    && LineNumber(s).Some? && 0 <= LineNumber(s).value <= MAX_BULK
  }

  /** What follows the line that a buffer starts with. */
  function AfterLine(s: Bytes): Bytes
    requires HeadOf(s).Line?
  {
    s[HeadOf(s).len + 2..]
  }

  /** A buffer starts with an argument, and rest is what follows it. */
  predicate Starts(s: Bytes, a: Bytes, rest: Bytes)
  {
    && GoodHeader(s) && LineNumber(s).value == |a|
    && |AfterLine(s)| >= |a| + 2 && AfterLine(s)[..|a|] == a && AfterLine(s)[|a| + 2..] == rest
  }

  /** A buffer starts with arguments; rests: what follows each of them. */
  predicate StartsAll(s: Bytes, args: seq<Bytes>, rests: seq<Bytes>, rest: Bytes)
    decreases |args|
  {
    && |rests| == |args|
    && if args == [] then s == rest
       else Starts(s, args[0], rests[0]) && StartsAll(rests[0], args[1..], rests[1..], rest)
  }

  /** A buffer that starts with no argument: how the parser answers to it.  total: the size
      the whole buffer counts for. */
  predicate Answered(s: Bytes, total: nat, left: nat, argv: seq<Bytes>, r: Result)
  {
    match HeadOf(s)
    case NoLine => if total > INLINE_MAX then r == Bad(BulkTooBig) else r == More(Client(s, left, -1, argv))
    case Cut => r == More(Client(s, left, -1, argv))
    case Line(_) =>
      if s[0] != DOLLAR then r == Bad(NoDollar)
      else if !GoodHeader(s) then r == Bad(BadBulk)
      else
        && |AfterLine(s)| < LineNumber(s).value + 2
        && r == More(Client(AfterLine(s), left, LineNumber(s).value, argv))
  }

  lemma {:induction false} NoEmptyNumber()
    ensures ReadInt([]) == None
  {
  }

  /** An argument that is there is taken. */
  lemma {:induction false} TakesOne(s: Bytes, total: nat, left: nat, argv: seq<Bytes>, a: Bytes, rest: Bytes)
      returns (total': nat)
    requires total >= |s| && left > 0 && Starts(s, a, rest)
    ensures total' >= |rest| && Parse(s, total, left, -1, argv) == Parse(rest, total', left - 1, -1, argv + [a])
  {
    NoEmptyNumber();
    var s', n := AfterLine(s), |a|;
    var t := if n >= BIG_ARG then |s'| else total;
    assert Parse(s, total, left, -1, argv) == Parse(s', t, left, n, argv);
    var whole := t == |s'| && n >= BIG_ARG && |s'| == n + 2;
    total' := if whole then 0 else t;
  }

  lemma {:induction false} StopsThere(s: Bytes, total: nat, left: nat, argv: seq<Bytes>)
    requires total >= |s| && left > 0
    requires GoodHeader(s) ==> |AfterLine(s)| < LineNumber(s).value + 2
    ensures Answered(s, total, left, argv, Parse(s, total, left, -1, argv))
  {
    NoEmptyNumber();
  }

  lemma {:induction false} StartsThen(s: Bytes, a: Bytes, next: Bytes, args: seq<Bytes>, rests: seq<Bytes>, rest: Bytes)
    requires Starts(s, a, next) && StartsAll(next, args, rests, rest)
    ensures StartsAll(s, [a] + args, [next] + rests, rest)
  {
    assert ([a] + args)[1..] == args && ([next] + rests)[1..] == rests;
  }

  /** The result of parsing left arguments from a buffer: args are there, and then all are,
      or the bytes after them decide. */
  predicate ParsesAs(s: Bytes, left: nat, argv: seq<Bytes>, args: seq<Bytes>, rests: seq<Bytes>, rest: Bytes,
      total: nat, r: Result)
  {
    && StartsAll(s, args, rests, rest) && |args| <= left
    && if |args| == left then r == Complete(Client(rest, 0, -1, argv + args))
       else Answered(rest, total, left - |args|, argv + args, r)
  }

  lemma {:induction false} ParsesBefore(s: Bytes, left: nat, argv: seq<Bytes>, a: Bytes, next: Bytes, args: seq<Bytes>,
      rests: seq<Bytes>, rest: Bytes, total: nat, r: Result)
    requires left > 0 && Starts(s, a, next) && ParsesAs(next, left - 1, argv + [a], args, rests, rest, total, r)
    ensures ParsesAs(s, left, argv, [a] + args, [next] + rests, rest, total, r)
  {
    StartsThen(s, a, next, args, rests, rest);
    assert argv + [a] + args == argv + ([a] + args);
  }

  lemma {:induction false} ParsesNone(s: Bytes, total: nat, left: nat, argv: seq<Bytes>)
    requires total >= |s|
    requires left > 0 && GoodHeader(s) ==> |AfterLine(s)| < LineNumber(s).value + 2
    ensures ParsesAs(s, left, argv, [], [], s, total, Parse(s, total, left, -1, argv))
  {
    assert argv + [] == argv;
    if left > 0 { StopsThere(s, total, left, argv); }
  }

  /** Exactly how parsing arguments ends, for every buffer: the arguments that are there are
      taken, and then all are there, or the bytes after them decide. */
  lemma {:induction false} ParseExact(s: Bytes, total: nat, left: nat, argv: seq<Bytes>)
      returns (args: seq<Bytes>, rests: seq<Bytes>, rest: Bytes, total': nat)
    requires total >= |s|
    ensures ParsesAs(s, left, argv, args, rests, rest, total', Parse(s, total, left, -1, argv))
    decreases left
  {
    if left > 0 && GoodHeader(s) && |AfterLine(s)| >= LineNumber(s).value + 2 {
      var a, next, t := FirstArgument(s, total, left, argv);
      var more, after;
      more, after, rest, total' := ParseExact(next, t, left - 1, argv + [a]);
      args, rests := [a] + more, [next] + after;
      ParsesBefore(s, left, argv, a, next, more, after, rest, total', Parse(s, total, left, -1, argv));
    } else {
      args, rests, rest, total' := [], [], s, total;
      ParsesNone(s, total, left, argv);
    }
  }

  lemma {:induction false} FirstArgument(s: Bytes, total: nat, left: nat, argv: seq<Bytes>)
      returns (a: Bytes, next: Bytes, total': nat)
    requires total >= |s| && left > 0 && GoodHeader(s) && |AfterLine(s)| >= LineNumber(s).value + 2
    ensures Starts(s, a, next) && total' >= |next|
    ensures Parse(s, total, left, -1, argv) == Parse(next, total', left - 1, -1, argv + [a])
  {
    var n := LineNumber(s).value;
    a, next := AfterLine(s)[..n], AfterLine(s)[n + 2..];
    total' := TakesOne(s, total, left, argv, a, next);
  }

  /** Parsing n arguments from a buffer gives r, whatever size the buffer counts for. */
  predicate ParsesTo(s: Bytes, total: nat, n: nat, argv: seq<Bytes>, r: Result)
  {
    total >= |s| && Parse(s, total, n, -1, argv) == r
  }

  lemma {:induction false} TakesFirst(s: Bytes, total: nat, left: nat, argv: seq<Bytes>, a: Bytes, rest: Bytes,
      r: Result)
      returns (total': nat)
    requires left > 0 && Starts(s, a, rest) && ParsesTo(s, total, left, argv, r)
    ensures ParsesTo(rest, total', left - 1, argv + [a], r)
  {
    total' := TakesOne(s, total, left, argv, a, rest);
  }

  /** Arguments that are there are taken, whatever follows. */
  lemma {:induction false} TakesAll(s: Bytes, total: nat, left: nat, argv: seq<Bytes>, args: seq<Bytes>,
      rests: seq<Bytes>, rest: Bytes, all: seq<Bytes>, r: Result) returns (total': nat)
    requires |args| <= left && StartsAll(s, args, rests, rest) && all == argv + args
             && ParsesTo(s, total, left, argv, r)
    ensures ParsesTo(rest, total', left - |args|, all, r)
    decreases |args|
  {
    if args == [] {
      total' := total;
      assert all == argv;
    } else {
      var t := TakesFirst(s, total, left, argv, args[0], rests[0], r);
      assert all == argv + [args[0]] + args[1..];
      total' := TakesAll(rests[0], t, left - 1, argv + [args[0]], args[1..], rests[1..], rest, all, r);
    }
  }

  // ------------------------------------------------------------------- whole requests

  /** A client at the start of a request. */
  predicate AtStart(c: Client)
  {
    c.multibulklen == 0 && c.bulklen == -1 && c.argv == [] && c.buf != [] && c.buf[0] == STAR
  }

  /** A request is refused for its count exactly when the line is there and holds no number
      or one above the limit; and for its size when there is no line in too big a buffer. */
  lemma {:induction false} CountRefused(c: Client)
    requires AtStart(c)
    ensures Process(c) == Bad(BadCount) <==>
            HeadOf(c.buf).Line? && (LineNumber(c.buf).None? || LineNumber(c.buf).value > MAX_ARGS)
    ensures Process(c) == Bad(CountTooBig) <==> HeadOf(c.buf).NoLine? && |c.buf| > INLINE_MAX
    ensures HeadOf(c.buf).Line? && LineNumber(c.buf).Some? && LineNumber(c.buf).value <= 0 ==>
            Process(c) == Complete(Client(AfterLine(c.buf), 0, -1, []))
  {
    if HeadOf(c.buf).Line? && LineNumber(c.buf).Some? && 0 < LineNumber(c.buf).value <= MAX_ARGS {
      NotForCount(AfterLine(c.buf), |c.buf|, LineNumber(c.buf).value);
    }
  }

  lemma {:induction false} NotForCount(s: Bytes, total: nat, left: nat)
    requires total >= |s|
    ensures Parse(s, total, left, -1, []) != Bad(BadCount) && Parse(s, total, left, -1, []) != Bad(CountTooBig)
  {
    var args, rests, rest, total' := ParseExact(s, total, left, []);
  }

  /** With a good count the arguments are parsed. */
  lemma {:induction false} CountTaken(c: Client, n: nat, s: Bytes, r: Result)
    requires AtStart(c) && HeadOf(c.buf).Line? && LineNumber(c.buf) == Some(n) && 0 < n <= MAX_ARGS
    requires s == AfterLine(c.buf) && r == Process(c)
    ensures ParsesTo(s, |c.buf|, n, [], r)
  {
  }

  lemma {:induction false} RefusedThere(s: Bytes, total: nat, left: nat, argv: seq<Bytes>, r: Result)
    requires left > 0 && ParsesTo(s, total, left, argv, r) && HeadOf(s).Line?
    ensures s[0] != DOLLAR ==> r == Bad(NoDollar)
    ensures s[0] == DOLLAR && !GoodHeader(s) ==> r == Bad(BadBulk)
  {
    if !GoodHeader(s) { StopsThere(s, total, left, argv); }
  }

  /** A request with a good count is refused for an argument when, after some of its
      arguments, there is a line that does not start with a dollar, or one that does and
      holds no number, a negative one, or one above the limit. */
  lemma {:induction false} ArgumentRefused(c: Client, args: seq<Bytes>, rests: seq<Bytes>, rest: Bytes)
    requires AtStart(c) && HeadOf(c.buf).Line? && LineNumber(c.buf).Some?
             && |args| < LineNumber(c.buf).value <= MAX_ARGS
    requires StartsAll(AfterLine(c.buf), args, rests, rest) && HeadOf(rest).Line?
    ensures rest[0] != DOLLAR ==> Process(c) == Bad(NoDollar)
    ensures rest[0] == DOLLAR && !GoodHeader(rest) ==> Process(c) == Bad(BadBulk)
  {
    var n := LineNumber(c.buf).value;
    assert [] + args == args;
    CountTaken(c, n, AfterLine(c.buf), Process(c));
    var t := TakesAll(AfterLine(c.buf), |c.buf|, n, [], args, rests, rest, args, Process(c));
    RefusedThere(rest, t, n - |args|, args, Process(c));
  }

  /** A refused request: what is wrong with it. */
  lemma {:induction false} RefusedFor(c: Client) returns (args: seq<Bytes>, rests: seq<Bytes>, rest: Bytes)
    requires AtStart(c) && Process(c).Bad?
    ensures match Process(c).error
            case BadCount =>
              HeadOf(c.buf).Line? && (LineNumber(c.buf).None? || LineNumber(c.buf).value > MAX_ARGS)
            case CountTooBig => HeadOf(c.buf).NoLine? && |c.buf| > INLINE_MAX
            case _ =>
              && HeadOf(c.buf).Line? && LineNumber(c.buf).Some? && |args| < LineNumber(c.buf).value <= MAX_ARGS
              && StartsAll(AfterLine(c.buf), args, rests, rest)
    ensures Process(c).error == NoDollar ==> HeadOf(rest).Line? && rest[0] != DOLLAR
    ensures Process(c).error == BadBulk ==> HeadOf(rest).Line? && rest[0] == DOLLAR && !GoodHeader(rest)
    ensures Process(c).error == BulkTooBig ==> HeadOf(rest).NoLine?
  {
    args, rests, rest := [], [], [];
    CountRefused(c);
    if HeadOf(c.buf).Line? && LineNumber(c.buf).Some? && 0 < LineNumber(c.buf).value <= MAX_ARGS {
      var n := LineNumber(c.buf).value;
      CountTaken(c, n, AfterLine(c.buf), Process(c));
      args, rests, rest := WhatIsWrong(AfterLine(c.buf), |c.buf|, n, Process(c));
    }
  }

  lemma {:induction false} WhatIsWrong(s: Bytes, total: nat, left: nat, r: Result)
      returns (args: seq<Bytes>, rests: seq<Bytes>, rest: Bytes)
    requires ParsesTo(s, total, left, [], r) && r.Bad?
    ensures StartsAll(s, args, rests, rest) && |args| < left
    ensures r.error == NoDollar || r.error == BadBulk || r.error == BulkTooBig
    ensures r.error == NoDollar ==> HeadOf(rest).Line? && rest[0] != DOLLAR
    ensures r.error == BadBulk ==> HeadOf(rest).Line? && rest[0] == DOLLAR && !GoodHeader(rest)
    ensures r.error == BulkTooBig ==> HeadOf(rest).NoLine?
  {
    var total';
    args, rests, rest, total' := ParseExact(s, total, left, []);
  }

  // ---------------------------------------------------------------- after good requests

  /** A session that has just executed its last command, with a buffer. */
  function Fresh(executed: seq<seq<Bytes>>, buf: Bytes): Session { Session(Client(buf, 0, -1, []), executed, false) }

  /** Where a session with this buffer ends up. */
  predicate DrainsTo(executed: seq<seq<Bytes>>, buf: Bytes, x: Session) { Drain(Fresh(executed, buf)) == x }

  lemma {:induction false} FirstExecuted(executed: seq<seq<Bytes>>, argv: seq<Bytes>, rest: Bytes, buf: Bytes,
      x: Session)
    requires Within(argv) && buf == CommandOf(argv) + rest && DrainsTo(executed + [argv], rest, x)
    ensures DrainsTo(executed, buf, x)
  {
    var c := Client(buf, 0, -1, []);
    assert c.buf + [] == buf;
    ProcessFollows(c, argv, [], rest);
    var r := Process(c);
    assert r.Complete? && r.client.buf + [] == rest;
    assert r.client.buf == rest;
  }

  lemma {:induction false} CommandsSplit(cmds: seq<seq<Bytes>>, rest: Bytes)
    requires cmds != []
    ensures CommandsOf(cmds) + rest == CommandOf(cmds[0]) + (CommandsOf(cmds[1..]) + rest)
  {
    var x, y := CommandOf(cmds[0]), CommandsOf(cmds[1..]);
    assert x + y + rest == x + (y + rest);
  }

  /** Requests that are complete are executed, whatever comes after them. */
  lemma {:induction false} PrintedExecuted(executed: seq<seq<Bytes>>, cmds: seq<seq<Bytes>>, rest: Bytes, buf: Bytes,
      all: seq<seq<Bytes>>, x: Session)
    requires AllWithin(cmds) && buf == CommandsOf(cmds) + rest && all == executed + cmds && DrainsTo(all, rest, x)
    ensures DrainsTo(executed, buf, x)
    decreases |cmds|
  {
    if cmds == [] {
      assert buf == rest && all == executed;
    } else {
      var next := CommandsOf(cmds[1..]) + rest;
      CommandsSplit(cmds, rest);
      assert all == executed + [cmds[0]] + cmds[1..];
      PrintedExecuted(executed + [cmds[0]], cmds[1..], rest, next, all, x);
      FirstExecuted(executed, cmds[0], next, buf, x);
    }
  }

  /** A request that is refused ends the session, after exactly the requests before it. */
  lemma {:induction false} RefusedAfter(cmds: seq<seq<Bytes>>, rest: Bytes)
    requires AllWithin(cmds) && AtStart(Client(rest, 0, -1, [])) && Process(Client(rest, 0, -1, [])).Bad?
    ensures var x := Drain(Fresh([], CommandsOf(cmds) + rest)); x.failed && x.executed == cmds
  {
    assert [] + cmds == cmds;
    PrintedExecuted([], cmds, rest, CommandsOf(cmds) + rest, cmds, Drain(Fresh(cmds, rest)));
  }
}
