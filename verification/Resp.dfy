/** The incremental parser of requests, processMultibulkBuffer of src/networking.c,
    against the printer of the AOF, catAppendOnlyGenericCommand of src/aof.c.
 */
module Resp {
  import opened Options
  import opened Decimal

  const CR: byte := 13
  const LF: byte := 10
  const STAR: byte := 42
  const DOLLAR: byte := 36

  const INLINE_MAX: nat := 65536
  const BIG_ARG: nat := 32768
  const MAX_ARGS: nat := 1024 * 1024
  const MAX_BULK: nat := 512 * 1024 * 1024
  const IOBUF_LEN: nat := 16384

  // ------------------------------------------------------------------- the printer

  function Crlf(): Bytes { [CR, LF] }

  function LineOf(mark: byte, n: nat): (r: Bytes)
    ensures |r| == |Digits(n)| + 3
  {
    [mark] + Digits(n) + Crlf()
  }

  /** The bytes of one argument. */
  function ArgOf(a: Bytes): (r: Bytes)
    ensures |r| == |LineOf(DOLLAR, |a|)| + |a| + 2
  {
    LineOf(DOLLAR, |a|) + (a + Crlf())
  }

  function ArgsOf(args: seq<Bytes>): (r: Bytes)
    ensures |r| >= |args|
  {
    if args == [] then [] else ArgOf(args[0]) + ArgsOf(args[1..])
  }

  /** catAppendOnlyGenericCommand */
  function CommandOf(argv: seq<Bytes>): Bytes { LineOf(STAR, |argv|) + ArgsOf(argv) }

  lemma {:induction false} PrintedNext(dst: Bytes, args: seq<Bytes>)
    requires args != []
    ensures dst + LineOf(DOLLAR, |args[0]|) + args[0] + Crlf() + ArgsOf(args[1..]) == dst + ArgsOf(args)
  {
    var x, y, z := LineOf(DOLLAR, |args[0]|), args[0] + Crlf(), ArgsOf(args[1..]);
    assert dst + x + args[0] + Crlf() + z == dst + (x + y + z);
  }

  /** catAppendOnlyGenericCommand */
  method PrintCommand(dst0: Bytes, argv: seq<Bytes>) returns (dst: Bytes)
    ensures dst == dst0 + CommandOf(argv)
  {
    dst := dst0 + LineOf(STAR, |argv|);
    ghost var start := dst;
    var j := 0;
    assert argv[0..] == argv;
    while j < |argv|
      invariant j <= |argv|
      invariant dst + ArgsOf(argv[j..]) == start + ArgsOf(argv)
    {
      assert argv[j..][1..] == argv[j + 1..] && argv[j..][0] == argv[j];
      PrintedNext(dst, argv[j..]);
      dst := dst + LineOf(DOLLAR, |argv[j]|) + argv[j] + Crlf();
      j := j + 1;
    }
    assert dst + [] == dst;
  }

  // -------------------------------------------------------------------- the parser

  /** strchr for a carriage return: not past a zero byte. */
  function FindCr(s: Bytes): (r: Option<nat>)
    ensures r.Some? ==> r.value < |s| && s[r.value] == CR
    decreases |s|
  {
    if s == [] || s[0] == 0 then None
    else if s[0] == CR then Some(0)
    else
      var r := FindCr(s[1..]);
      if r.None? then None else Some(r.value + 1)
  }

  /** The carriage return that is found is the first one, and no zero byte is before it. */
  lemma {:induction false} FindCrExact(s: Bytes, k: nat)
    ensures FindCr(s) == Some(k) <==>
            k < |s| && s[k] == CR && forall i :: 0 <= i < k ==> s[i] != CR && s[i] != 0
    decreases |s|
  {
    if s != [] && s[0] != 0 && s[0] != CR && k > 0 {
      FindCrExact(s[1..], k - 1);
      assert k < |s| ==> s[k] == s[1..][k - 1];
      assert forall i :: 1 <= i < k && i < |s| ==> s[i] == s[1..][i - 1];
      assert forall i :: 0 <= i < k - 1 && i < |s[1..]| ==> s[1..][i] == s[i + 1];
    } else if s != [] && s[0] != 0 && s[0] != CR {
      FindCrFirst(s);
    }
  }

  lemma {:induction false} FindCrFirst(s: Bytes)
    requires s != [] && s[0] != CR
    ensures FindCr(s) != Some(0)
  {
  }

  /** What the start of a buffer is: no line yet, a line that lacks its line feed, or a
      line of len bytes before its carriage return. */
  datatype Head = NoLine | Cut | Line(len: nat)

  function HeadOf(s: Bytes): (h: Head)
    ensures h.Line? ==> h.len + 2 <= |s|
  {
    var r := FindCr(s);
    if r.None? then NoLine else if r.value + 2 > |s| then Cut else Line(r.value)
  }

  datatype Client = Client(buf: Bytes, multibulklen: nat, bulklen: int, argv: seq<Bytes>)

  datatype Error = CountTooBig | BulkTooBig | BadCount | NoDollar | BadBulk
  datatype Result = Complete(client: Client) | More(client: Client) | Bad(error: Error)

  /** The loop of the parser.  s: the buffer from pos on; total: the size of the whole
      buffer; left: the arguments that are missing; bulklen: -1, or the size of the
      next one. */
  function Parse(s: Bytes, total: nat, left: nat, bulklen: int, argv: seq<Bytes>): (r: Result)
    requires total >= |s| && bulklen >= -1
    ensures r.Complete? ==> |r.client.buf| <= |s| - 2 * left
    decreases left, if bulklen == -1 then 1 else 0
  {
    if left == 0 then Complete(Client(s, 0, -1, argv))
    else if bulklen == -1 then
      var h := HeadOf(s);
      if h.NoLine? then (if total > INLINE_MAX then Bad(BulkTooBig) else More(Client(s, left, -1, argv)))
      else if h.Cut? then More(Client(s, left, -1, argv))
      else if s[0] != DOLLAR then Bad(NoDollar)
      else
        var n := ReadInt(s[1..h.len]);
        if n.None? || n.value < 0 || n.value > MAX_BULK then Bad(BadBulk)
        else
          var s' := s[h.len + 2..];
          Parse(s', if n.value >= BIG_ARG then |s'| else total, left, n.value, argv)
    else if |s| < bulklen + 2 then More(Client(s, left, bulklen, argv))
    else
      var whole := total == |s| && bulklen >= BIG_ARG && |s| == bulklen + 2;
      Parse(s[bulklen + 2..], if whole then 0 else total, left - 1, -1, argv + [s[..bulklen]])
  }

  /** processMultibulkBuffer */
  function Process(c: Client): Result
    requires c.bulklen >= -1 && (c.multibulklen == 0 ==> c.buf != [] && c.buf[0] == STAR)
  {
    if c.multibulklen > 0 then Parse(c.buf, |c.buf|, c.multibulklen, c.bulklen, c.argv)
    else
      var h := HeadOf(c.buf);
      if h.NoLine? then (if |c.buf| > INLINE_MAX then Bad(CountTooBig) else More(c))
      else if h.Cut? then More(c)
      else
        var n := ReadInt(c.buf[1..h.len]);
        if n.None? || n.value > MAX_ARGS then Bad(BadCount)
        else if n.value <= 0 then Complete(Client(c.buf[h.len + 2..], 0, -1, []))
        else Parse(c.buf[h.len + 2..], |c.buf|, n.value, -1, [])
  }

  // ---------------------------------------------------------------- reading headers

  lemma {:induction false} FindCrAfter(p: Bytes, tail: Bytes)
    requires forall i :: 0 <= i < |p| ==> p[i] != 0 && p[i] != CR
    ensures FindCr(p + tail) == var r := FindCr(tail); if r.None? then None else Some(|p| + r.value)
    decreases |p|
  {
    if p == [] {
      assert p + tail == tail;
    } else {
      assert (p + tail)[1..] == p[1..] + tail;
      FindCrAfter(p[1..], tail);
    }
  }

  /** The part of a line before its end. */
  function Stem(mark: byte, n: nat): Bytes { [mark] + Digits(n) }

  lemma {:induction false} StemClean(mark: byte, n: nat)
    requires mark != 0 && mark != CR
    ensures forall i :: 0 <= i < |Stem(mark, n)| ==> Stem(mark, n)[i] != 0 && Stem(mark, n)[i] != CR
  {
    AllDigits(n);
  }

  /** A whole line is found, and its number is read. */
  lemma {:induction false} HeadOfLine(mark: byte, n: nat, tail: Bytes)
    requires mark != 0 && mark != CR && n <= LLONG_MAX
    ensures var s := LineOf(mark, n) + tail;
            && HeadOf(s) == Line(1 + |Digits(n)|)
            && s[0] == mark && ReadInt(s[1..1 + |Digits(n)|]) == Some(n)
  {
    var s := LineOf(mark, n) + tail;
    StemClean(mark, n);
    FindCrAfter(Stem(mark, n), Crlf() + tail);
    assert s == Stem(mark, n) + (Crlf() + tail);
    assert s[1..1 + |Digits(n)|] == Digits(n);
    ReadPrinted(n);
  }

  /** Of a part of a line no line is found. */
  lemma {:induction false} HeadOfPart(mark: byte, n: nat, k: nat)
    requires mark != 0 && mark != CR && k < |LineOf(mark, n)|
    ensures !HeadOf(LineOf(mark, n)[..k]).Line?
  {
    var s := LineOf(mark, n)[..k];
    var p := Stem(mark, n);
    StemClean(mark, n);
    if k <= |p| {
      assert s == p[..k];
      FindCrAfter(s, []);
      assert s + [] == s;
    } else {
      assert s == p + [CR];
      FindCrAfter(p, [CR]);
    }
  }

  // ------------------------------------------------------ the parser follows the printer

  predicate Within(argv: seq<Bytes>)
  {
    1 <= |argv| <= MAX_ARGS && forall i :: 0 <= i < |argv| ==> |argv[i]| <= MAX_BULK
  }

  /** What is missing of a command of which the client has read a part. */
  function Missing(argv: seq<Bytes>, have: nat, bulklen: int): Bytes
    requires have < |argv|
  {
    if bulklen == -1 then ArgsOf(argv[have..]) else argv[have] + Crlf() + ArgsOf(argv[have + 1..])
  }

  /** The client has read a part of the command argv, and stream, which starts with its
      buffer, is the rest of it and then after. */
  predicate Follows(c: Client, argv: seq<Bytes>, stream: Bytes, after: Bytes)
  {
    if c.multibulklen == 0 then c.bulklen == -1 && c.argv == [] && stream == CommandOf(argv) + after
    else
      && |c.argv| < |argv| && c.argv == argv[..|c.argv|] && c.multibulklen == |argv| - |c.argv|
      && (c.bulklen == -1 || c.bulklen == |argv[|c.argv|]|)
      && stream == Missing(argv, |c.argv|, c.bulklen) + after
  }

  /** When a stream starts with x, a buffer that is long enough starts with x. */
  lemma {:induction false} SplitStream(s: Bytes, future: Bytes, x: Bytes, y: Bytes)
    requires s + future == x + y
    ensures |s| >= |x| ==> s == x + s[|x|..] && s[|x|..] + future == y
    ensures |s| < |x| ==> s == x[..|s|]
  {
    if |s| >= |x| {
      assert s[..|x|] == (s + future)[..|x|] == (x + y)[..|x|] == x;
      assert s == s[..|x|] + s[|x|..];
      assert s[|x|..] + future == (s + future)[|x|..] == (x + y)[|x|..] == y;
    } else {
      assert s == (s + future)[..|s|] == (x + y)[..|s|] == x[..|s|];
    }
  }

  /** The buffer ends before what the client reads next does. */
  predicate Short(c: Client, argv: seq<Bytes>)
  {
    if c.multibulklen == 0 then |c.buf| < |LineOf(STAR, |argv|)|
    else |c.argv| < |argv| && |c.buf| < if c.bulklen == -1 then |LineOf(DOLLAR, |argv[|c.argv|]|)| else c.bulklen + 2
  }

  /** The buffer is small, or holds no more than a big argument. */
  predicate Fits(s: Bytes, total: nat, bulklen: int)
  {
    total <= INLINE_MAX || (bulklen >= BIG_ARG && total == |s| && |s| <= bulklen + 2)
  }

  predicate NotTooBig(r: Result)
  {
    !r.Bad? && (r.Complete? ==> |r.client.buf| <= INLINE_MAX)
  }

  /** How parsing goes on: the command is complete and what follows it is left, or a
      part of it is still to come, or an incomplete header sits in too big a buffer. */
  predicate Parsed(r: Result, argv: seq<Bytes>, future: Bytes, after: Bytes)
  {
    match r
    case Complete(c) => c == Client(c.buf, 0, -1, argv) && c.buf + future == after
    case More(c) => c.bulklen >= -1 && future != [] && Follows(c, argv, c.buf + future, after) && Short(c, argv)
    case Bad(e) => (e == BulkTooBig || e == CountTooBig) && future != []
  }

  lemma {:induction false} MissingHeader(argv: seq<Bytes>, have: nat, after: Bytes)
    requires have < |argv|
    ensures Missing(argv, have, -1) + after
            == LineOf(DOLLAR, |argv[have]|) + (Missing(argv, have, |argv[have]|) + after)
  {
    assert argv[have..][1..] == argv[have + 1..];
    assert argv[have..][0] == argv[have];
  }

  lemma {:induction false} MissingArg(argv: seq<Bytes>, have: nat, after: Bytes)
    requires have < |argv|
    ensures var rest := ArgsOf(argv[have + 1..]) + after;
            Missing(argv, have, |argv[have]|) + after == argv[have] + Crlf() + rest
  {
  }

  /** The header of the next argument: it is read, or the buffer holds a part of it. */
  lemma {:induction false} ParseHeader(s: Bytes, total: nat, left: nat, have: seq<Bytes>, n: nat, future: Bytes,
      y: Bytes)
    requires total >= |s| && left > 0 && n <= MAX_BULK && s + future == LineOf(DOLLAR, n) + y
    ensures var x := LineOf(DOLLAR, n);
            if |s| >= |x| then
              && s[|x|..] + future == y
              && Parse(s, total, left, -1, have)
                == Parse(s[|x|..], if n >= BIG_ARG then |s| - |x| else total, left, n, have)
            else
              && future != []
              && (Parse(s, total, left, -1, have) == More(Client(s, left, -1, have))
                  || (Parse(s, total, left, -1, have) == Bad(BulkTooBig) && total > INLINE_MAX))
  {
    var x := LineOf(DOLLAR, n);
    SplitStream(s, future, x, y);
    if |s| >= |x| {
      HeadOfLine(DOLLAR, n, s[|x|..]);
    } else {
      HeadOfPart(DOLLAR, n, |s|);
    }
  }

  lemma {:induction false} ParseArgument(s: Bytes, total: nat, left: nat, have: seq<Bytes>, a: Bytes, future: Bytes,
      y: Bytes)
    requires total >= |s| && left > 0 && s + future == a + Crlf() + y
    ensures if |s| >= |a| + 2 then
              && s[|a| + 2..] + future == y
              && Parse(s, total, left, |a|, have)
                 == Parse(s[|a| + 2..], if total == |s| && |a| >= BIG_ARG
                   && |s| == |a| + 2 then 0 else total, left - 1, -1, have + [a])
            else
              && future != []
              && Parse(s, total, left, |a|, have) == More(Client(s, left, |a|, have))
  {
    SplitStream(s, future, a + Crlf(), y);
    if |s| >= |a| + 2 { assert s[..|a|] == a; }
  }

  /** Parsing goes on as it should from any point of a command, and without an error
      unless the buffer is too big. */
  lemma {:induction false} ParseFollows(s: Bytes, total: nat, left: nat, bulklen: int, have: seq<Bytes>,
      argv: seq<Bytes>, future: Bytes, after: Bytes)
    requires total >= |s| && bulklen >= -1 && Within(argv) && left > 0
    requires Follows(Client(s, left, bulklen, have), argv, s + future, after)
    ensures Parsed(Parse(s, total, left, bulklen, have), argv, future, after)
    ensures Fits(s, total, bulklen) ==> NotTooBig(Parse(s, total, left, bulklen, have))
    decreases left, if bulklen == -1 then 1 else 0
  {
    if bulklen == -1 {
      ParseFromHeader(s, total, left, have, argv, future, after);
    } else {
      ParseFromArgument(s, total, left, have, argv, future, after);
    }
  }

  lemma {:induction false} ParseFromHeader(s: Bytes, total: nat, left: nat, have: seq<Bytes>, argv: seq<Bytes>,
      future: Bytes, after: Bytes)
    requires total >= |s| && Within(argv) && left > 0
    requires Follows(Client(s, left, -1, have), argv, s + future, after)
    ensures Parsed(Parse(s, total, left, -1, have), argv, future, after)
    ensures Fits(s, total, -1) ==> NotTooBig(Parse(s, total, left, -1, have))
    decreases left, 1, 0
  {
    var k := |have|;
    var a := argv[k];
    MissingHeader(argv, k, after);
    ParseHeader(s, total, left, have, |a|, future, Missing(argv, k, |a|) + after);
    var x := LineOf(DOLLAR, |a|);
    if |s| >= |x| {
      ParseFollows(s[|x|..], if |a| >= BIG_ARG then |s| - |x| else total, left, |a|, have, argv, future, after);
    }
  }

  lemma {:induction false} ParseFromArgument(s: Bytes, total: nat, left: nat, have: seq<Bytes>, argv: seq<Bytes>,
      future: Bytes, after: Bytes)
    requires total >= |s| && Within(argv) && left > 0 && |have| < |argv|
    requires Follows(Client(s, left, |argv[|have|]|, have), argv, s + future, after)
    ensures Parsed(Parse(s, total, left, |argv[|have|]|, have), argv, future, after)
    ensures Fits(s, total, |argv[|have|]|) ==> NotTooBig(Parse(s, total, left, |argv[|have|]|, have))
    decreases left, 0, 0
  {
    var k := |have|;
    var a := argv[k];
    MissingArg(argv, k, after);
    ParseArgument(s, total, left, have, a, future, ArgsOf(argv[k + 1..]) + after);
    if |s| >= |a| + 2 {
      assert argv[..k] + [a] == argv[..k + 1];
      var total' := if total == |s| && |a| >= BIG_ARG && |s| == |a| + 2 then 0 else total;
      if left > 1 {
        ParseFollows(s[|a| + 2..], total', left - 1, -1, have + [a], argv, future, after);
      } else {
        assert argv[..k + 1] == argv && ArgsOf(argv[k + 1..]) + after == after;
      }
    }
  }

  /** How one call of the parser ends, at some point of a command. */
  predicate Processed(c: Client, r: Result, argv: seq<Bytes>, future: Bytes, after: Bytes)
  {
    && Parsed(r, argv, future, after)
    && (r.Complete? ==> |r.client.buf| < |c.buf|)
    && (Fits(c.buf, |c.buf|, c.bulklen) ==> NotTooBig(r))
  }

  /** The number of arguments is in the buffer: parsing goes on with them. */
  lemma {:induction false} CountFollows(c: Client, n: nat, rest: Bytes)
    requires c.multibulklen == 0 && c.bulklen >= -1 && c.buf == LineOf(STAR, n) + rest && 1 <= n <= MAX_ARGS
    ensures c.buf != [] && c.buf[0] == STAR && Process(c) == Parse(rest, |c.buf|, n, -1, [])
  {
    HeadOfLine(STAR, n, rest);
  }

  /** At the start of a command. */
  lemma {:induction false} ProcessStarts(c: Client, argv: seq<Bytes>, future: Bytes, after: Bytes)
    requires Within(argv) && c.buf != [] && c.multibulklen == 0 && Follows(c, argv, c.buf + future, after)
    ensures c.buf[0] == STAR && Processed(c, Process(c), argv, future, after)
  {
    var x, y := LineOf(STAR, |argv|), ArgsOf(argv) + after;
    assert c.buf + future == x + y;
    assert (c.buf + future)[0] == x[0] == STAR;
    SplitStream(c.buf, future, x, y);
    if |c.buf| >= |x| {
      CountFollows(c, |argv|, c.buf[|x|..]);
      assert argv[0..] == argv && argv[..0] == [];
      ParseFollows(c.buf[|x|..], |c.buf|, |argv|, -1, [], argv, future, after);
    } else {
      HeadOfPart(STAR, |argv|, |c.buf|);
    }
  }

  /** One call of the parser, at any point of a command. */
  lemma {:induction false} ProcessFollows(c: Client, argv: seq<Bytes>, future: Bytes, after: Bytes)
    requires Within(argv) && c.bulklen >= -1 && c.buf != [] && Follows(c, argv, c.buf + future, after)
    ensures c.multibulklen == 0 ==> c.buf[0] == STAR
    ensures Processed(c, Process(c), argv, future, after)
  {
    if c.multibulklen > 0 {
      ParseFollows(c.buf, |c.buf|, c.multibulklen, c.bulklen, c.argv, argv, future, after);
    } else {
      ProcessStarts(c, argv, future, after);
    }
  }

  // ---------------------------------------------------------------- whole connections

  predicate Ready(c: Client) { c.bulklen >= -1 && (c.multibulklen == 0 ==> c.buf == [] || c.buf[0] == STAR) }

  function Reset(c: Client): Client { Client(c.buf, 0, -1, []) }

  /** A connection: its client, the commands it executed, and whether it failed. */
  datatype Session = Session(client: Client, executed: seq<seq<Bytes>>, failed: bool)

  /** processInputBuffer: commands are executed while the buffer has one. */
  function Drain(x: Session): Session
    decreases |x.client.buf|
  {
    if x.client.buf == [] || x.failed || !Ready(x.client) then x
    else
      match Process(x.client)
      case Bad(_) => x.(failed := true)
      case More(c) => x.(client := c)
      case Complete(c) =>
        if |c.buf| >= |x.client.buf| then x
        else Drain(Session(Reset(c), if c.argv == [] then x.executed else x.executed + [c.argv], false))
  }

  /** readQueryFromClient, with the bytes that read returned. */
  function Receive(x: Session, chunk: Bytes): Session
  {
    Drain(x.(client := x.client.(buf := x.client.buf + chunk)))
  }

  function ReceiveAll(x: Session, chunks: seq<Bytes>): Session
    decreases |chunks|
  {
    if chunks == [] then x else ReceiveAll(Receive(x, chunks[0]), chunks[1..])
  }

  function Flatten(chunks: seq<Bytes>): Bytes
  {
    if chunks == [] then [] else chunks[0] + Flatten(chunks[1..])
  }

  /** The commands of a log or a connection, printed one after the other. */
  function CommandsOf(cmds: seq<seq<Bytes>>): Bytes
  {
    if cmds == [] then [] else CommandOf(cmds[0]) + CommandsOf(cmds[1..])
  }

  predicate AllWithin(cmds: seq<seq<Bytes>>) { forall i :: 0 <= i < |cmds| ==> Within(cmds[i]) }

  /** The client is somewhere in the commands, with stream to come, from its buffer on. */
  predicate InStream(c: Client, cmds: seq<seq<Bytes>>, stream: Bytes)
  {
    && c.bulklen >= -1
    && if cmds == [] then c == Client(c.buf, 0, -1, []) && stream == []
       else Follows(c, cmds[0], stream, CommandsOf(cmds[1..]))
  }

  /** The session has executed some commands and is in the middle of the rest. */
  ghost predicate OnTrack(x: Session, cmds: seq<seq<Bytes>>, future: Bytes)
  {
    && |x.executed| <= |cmds|
    && x.executed == cmds[..|x.executed|]
    && (!x.failed ==> InStream(x.client, cmds[|x.executed|..], x.client.buf + future))
  }

  /** The session has nothing more to do with its buffer: the rest is still to come. */
  predicate Waits(x: Session, cmds: seq<seq<Bytes>>, future: Bytes)
  {
    && |x.executed| <= |cmds|
    && (future == [] ==> !x.failed)
    && (!x.failed ==>
      if |x.executed| == |cmds| then x.client.buf == [] else future != [] && Short(x.client, cmds[|x.executed|]))
  }

  /** A new command starts with a star. */
  lemma {:induction false} StartsReady(c: Client, cmds: seq<seq<Bytes>>, future: Bytes)
    requires InStream(c, cmds, c.buf + future) && c.buf != []
    ensures cmds != [] && Ready(c)
  {
    if c.multibulklen == 0 {
      assert (c.buf + future)[0] == STAR;
      assert (c.buf + future)[0] == c.buf[0];
    }
  }

  lemma {:induction false} DrainOnTrack(x: Session, cmds: seq<seq<Bytes>>, future: Bytes)
    requires OnTrack(x, cmds, future) && AllWithin(cmds) && !x.failed
    ensures OnTrack(Drain(x), cmds, future) && Waits(Drain(x), cmds, future)
    ensures Fits(x.client.buf, |x.client.buf|, x.client.bulklen) ==> !Drain(x).failed
    decreases |x.client.buf|
  {
    var c, k := x.client, |x.executed|;
    var rest := cmds[k..];
    if c.buf == [] {
      if k < |cmds| { EmptyBuffer(c, rest, future); }
    } else {
      StartsReady(c, rest, future);
      ProcessFollows(c, rest[0], future, CommandsOf(rest[1..]));
      var r := Process(c);
      if r.Complete? {
        OneExecuted(x, cmds, future, r.client);
        DrainOnTrack(Session(Reset(r.client), x.executed + [r.client.argv], false), cmds, future);
      }
    }
  }

  /** The next command is executed, and the buffer goes on after it. */
  lemma {:induction false} OneExecuted(x: Session, cmds: seq<seq<Bytes>>, future: Bytes, c: Client)
    requires OnTrack(x, cmds, future) && |x.executed| < |cmds|
    requires c.argv == cmds[|x.executed|] && c.buf + future == CommandsOf(cmds[|x.executed|..][1..])
    ensures OnTrack(Session(Reset(c), x.executed + [c.argv], false), cmds, future)
  {
    var k := |x.executed|;
    assert cmds[..k] + [cmds[k]] == cmds[..k + 1];
    assert cmds[k..][1..] == cmds[k + 1..];
    NextCommand(c, cmds[k + 1..], future);
  }

  lemma {:induction false} NextCommand(c: Client, cmds: seq<seq<Bytes>>, future: Bytes)
    requires c.buf + future == CommandsOf(cmds)
    ensures InStream(Reset(c), cmds, c.buf + future)
  {
  }

  /** There is always something of a command left to come. */
  lemma {:induction false} EmptyBuffer(c: Client, cmds: seq<seq<Bytes>>, future: Bytes)
    requires cmds != [] && c.buf == [] && InStream(c, cmds, c.buf + future)
    ensures future != [] && Short(c, cmds[0])
  {
    if c.multibulklen > 0 && c.bulklen == -1 { MissingHeader(cmds[0], |c.argv|, CommandsOf(cmds[1..])); }
    assert |c.buf + future| > 0;
  }

  lemma {:induction false} ReceiveOnTrack(x: Session, cmds: seq<seq<Bytes>>, chunk: Bytes, future: Bytes)
    requires OnTrack(x, cmds, chunk + future) && AllWithin(cmds) && !x.failed
    ensures OnTrack(Receive(x, chunk), cmds, future) && Waits(Receive(x, chunk), cmds, future)
    ensures Fits(x.client.buf + chunk, |x.client.buf + chunk|, x.client.bulklen) ==> !Receive(x, chunk).failed
  {
    var x1 := x.(client := x.client.(buf := x.client.buf + chunk));
    assert x.client.buf + (chunk + future) == x1.client.buf + future;
    DrainOnTrack(x1, cmds, future);
  }

  lemma {:induction false} FailedStays(x: Session, chunks: seq<Bytes>)
    requires x.failed
    ensures ReceiveAll(x, chunks).failed
    decreases |chunks|
  {
    if chunks != [] { FailedStays(Receive(x, chunks[0]), chunks[1..]); }
  }

  lemma {:induction false} ReceiveAllOnTrack(x: Session, cmds: seq<seq<Bytes>>, chunks: seq<Bytes>)
    requires OnTrack(x, cmds, Flatten(chunks)) && Waits(x, cmds, Flatten(chunks)) && AllWithin(cmds) && !x.failed
    ensures var y := ReceiveAll(x, chunks); y.failed || (y.executed == cmds && y.client == Client([], 0, -1, []))
    decreases |chunks|
  {
    if chunks == [] {
      assert x.executed == cmds;
    } else {
      ReceiveOnTrack(x, cmds, chunks[0], Flatten(chunks[1..]));
      var y := Receive(x, chunks[0]);
      if y.failed { FailedStays(y, chunks[1..]); } else { ReceiveAllOnTrack(y, cmds, chunks[1..]); }
    }
  }

  function NewSession(): Session { Session(Client([], 0, -1, []), [], false) }

  lemma {:induction false} NewOnTrack(cmds: seq<seq<Bytes>>, future: Bytes)
    requires future == CommandsOf(cmds)
    ensures OnTrack(NewSession(), cmds, future) && Waits(NewSession(), cmds, future)
  {
    assert [] + future == future;
    assert cmds[0..] == cmds && cmds[..0] == [];
    if cmds != [] { EmptyBuffer(Client([], 0, -1, []), cmds, future); }
  }

  /** However the printed commands are cut into reads, the connection executes exactly
      these commands and is left with nothing, unless some read finds an incomplete
      header in a buffer that is too big. */
  lemma {:induction false} ExecutesWhatWasPrinted(cmds: seq<seq<Bytes>>, chunks: seq<Bytes>)
    requires AllWithin(cmds) && Flatten(chunks) == CommandsOf(cmds) && !ReceiveAll(NewSession(), chunks).failed
    ensures ReceiveAll(NewSession(), chunks).executed == cmds
    ensures ReceiveAll(NewSession(), chunks).client == Client([], 0, -1, [])
  {
    NewOnTrack(cmds, Flatten(chunks));
    ReceiveAllOnTrack(NewSession(), cmds, chunks);
  }

  // ------------------------------------------------------------ reads of the right size

  /** How much readQueryFromClient asks for: the rest of a big argument and no more. */
  function ReadLen(c: Client): int
  {
    if c.multibulklen > 0 && c.bulklen >= BIG_ARG && c.bulklen + 2 - |c.buf| < IOBUF_LEN then c.bulklen + 2 - |c.buf|
    else IOBUF_LEN
  }

  predicate ReadsAsked(x: Session, chunks: seq<Bytes>)
    decreases |chunks|
  {
    chunks == [] || (|chunks[0]| <= ReadLen(x.client) && ReadsAsked(Receive(x, chunks[0]), chunks[1..]))
  }

  function Pow10(k: nat): nat { if k == 0 then 1 else 10 * Pow10(k - 1) }

  lemma {:induction false} DigitsShort(n: nat, k: nat)
    requires k > 0 && n < Pow10(k)
    ensures |Digits(n)| <= k
  {
    if k == 1 {
      assert Pow10(1) == 10 * Pow10(0);
    } else if n >= 10 {
      DigitsShort(n / 10, k - 1);
    }
  }

  /** Headers are short. */
  lemma {:induction false} LineShort(mark: byte, n: nat)
    requires n <= MAX_BULK
    ensures |LineOf(mark, n)| <= 12
  {
    assert Pow10(9) == 1000000000;
    DigitsShort(n, 9);
  }

  /** A read of at most the size asked for never makes the buffer too big. */
  lemma {:induction false} AskedFits(c: Client, argv: seq<Bytes>, chunk: Bytes)
    requires Within(argv) && Short(c, argv) && |chunk| <= ReadLen(c) && (c.multibulklen == 0 ==> c.bulklen == -1)
    ensures Fits(c.buf + chunk, |c.buf + chunk|, c.bulklen)
  {
    if c.multibulklen == 0 {
      LineShort(STAR, |argv|);
    } else if c.bulklen == -1 {
      LineShort(DOLLAR, |argv[|c.argv|]|);
    }
  }

  lemma {:induction false} AskedNeverFails(x: Session, cmds: seq<seq<Bytes>>, chunks: seq<Bytes>)
    requires OnTrack(x, cmds, Flatten(chunks)) && Waits(x, cmds, Flatten(chunks)) && AllWithin(cmds) && !x.failed
    requires ReadsAsked(x, chunks)
    ensures !ReceiveAll(x, chunks).failed
    decreases |chunks|
  {
    if chunks != [] {
      var k := |x.executed|;
      if k < |cmds| { AskedFits(x.client, cmds[k], chunks[0]); }
      ReceiveOnTrack(x, cmds, chunks[0], Flatten(chunks[1..]));
      AskedNeverFails(Receive(x, chunks[0]), cmds, chunks[1..]);
    }
  }

  /** With reads of the size the server asks for, every list of commands within the
      limits is executed exactly, big arguments included: no read fails. */
  lemma {:induction false} ReadsExecuteAll(cmds: seq<seq<Bytes>>, chunks: seq<Bytes>)
    requires AllWithin(cmds) && Flatten(chunks) == CommandsOf(cmds) && ReadsAsked(NewSession(), chunks)
    ensures ReceiveAll(NewSession(), chunks) == Session(Client([], 0, -1, []), cmds, false)
  {
    NewOnTrack(cmds, Flatten(chunks));
    AskedNeverFails(NewSession(), cmds, chunks);
    ExecutesWhatWasPrinted(cmds, chunks);
  }

  // ------------------------------------------------------------------------ the object

  /** The number of arguments is read, and parsing goes on with them. */
  lemma {:induction false} ProcessCount(c: Client, k: nat, n: int)
    requires c.multibulklen == 0 && c.bulklen == -1 && c.argv == [] && c.buf != [] && c.buf[0] == STAR
    requires FindCr(c.buf) == Some(k) && k + 2 <= |c.buf| && 1 <= k && ReadInt(c.buf[1..k]) == Some(n) && n <= MAX_ARGS
    ensures Process(c) == Parse(c.buf[k + 2..], |c.buf|, if n > 0 then n else 0, c.bulklen, c.argv)
  {
  }

  /** The query part of a client. */
  class Connection {
    var querybuf: Bytes
    var multibulklen: nat
    var bulklen: int
    var argv: seq<Bytes>

    ghost function Model(): Client
      reads this
    {
      Client(querybuf, multibulklen, bulklen, argv)
    }

    constructor ()
      ensures Model() == NewSession().client
    {
      querybuf, multibulklen, bulklen, argv := [], 0, -1, [];
    }

    /** strchr */
    static method Find(s: Bytes) returns (r: Option<nat>)
      ensures r == FindCr(s)
    {
      var i := 0;
      while i < |s| && s[i] != 0 && s[i] != CR
        invariant i <= |s|
        invariant FindCr(s) == var q := FindCr(s[i..]); if q.None? then None else Some(q.value + i)
      {
        assert s[i..][1..] == s[i + 1..];
        i := i + 1;
      }
      return if i < |s| && s[i] == CR then Some(i) else None;
    }

    /** The header of an argument, from pos on. */
    method ReadHeader(pos0: nat) returns (go: bool, error: Option<Error>, pos: nat)
      requires pos0 <= |querybuf| && bulklen == -1 && multibulklen > 0
      modifies this`querybuf, this`bulklen
      ensures pos <= |querybuf|
      ensures go ==> bulklen >= 0 && error.None?
      ensures var s := old(querybuf)[pos0..];
              Parse(s, |old(querybuf)|, multibulklen, -1, argv) ==
              if go then Parse(querybuf[pos..], |querybuf|, multibulklen, bulklen, argv)
              else if error.Some? then Bad(error.value)
              else More(Client(querybuf[pos..], multibulklen, bulklen, argv))
    {
      go, error, pos := false, None, pos0;
      var s := querybuf[pos..];
      var newline := Find(s);
      if newline.None? {
        if |querybuf| > INLINE_MAX { error := Some(BulkTooBig); }
        return;
      }
      if newline.value > |s| - 2 { return; }
      if s[0] != DOLLAR { error := Some(NoDollar); return; }
      var ll := StringToInt(s[1..newline.value]);
      if ll.None? || ll.value < 0 || ll.value > MAX_BULK { error := Some(BadBulk); return; }
      pos := pos + newline.value + 2;
      assert querybuf[pos..] == s[newline.value + 2..];
      if ll.value >= BIG_ARG {
        querybuf := querybuf[pos..];
        pos := 0;
      }
      bulklen := ll.value;
      go := true;
    }

    /** An argument that is in the buffer. */
    method ReadArgument(pos0: nat) returns (pos: nat)
      requires pos0 <= |querybuf| && bulklen >= 0 && multibulklen > 0 && |querybuf| - pos0 >= bulklen + 2
      modifies this
      ensures pos <= |querybuf| && bulklen == -1 && multibulklen == old(multibulklen) - 1
      ensures Parse(old(querybuf)[pos0..], |old(querybuf)|, old(multibulklen), old(bulklen), old(argv))
              == Parse(querybuf[pos..], |querybuf|, multibulklen, bulklen, argv)
    {
      pos := pos0;
      var s := querybuf[pos..];
      if pos == 0 && bulklen >= BIG_ARG && |querybuf| == bulklen + 2 {
        argv := argv + [querybuf[..bulklen]];
        querybuf := [];
        pos := 0;
      } else {
        argv := argv + [querybuf[pos..pos + bulklen]];
        assert querybuf[pos..pos + bulklen] == s[..bulklen];
        pos := pos + bulklen + 2;
        assert querybuf[pos..] == s[bulklen + 2..];
      }
      bulklen := -1;
      multibulklen := multibulklen - 1;
    }

    /** The number of arguments, which starts a command. */
    method ReadCount() returns (go: bool, error: Option<Error>, pos: nat)
      requires multibulklen == 0 && bulklen == -1 && argv == [] && querybuf != [] && querybuf[0] == STAR
      modifies this`multibulklen
      ensures pos <= |querybuf|
      ensures Process(old(Model())) ==
              if go then Parse(querybuf[pos..], |querybuf|, multibulklen, bulklen, argv)
              else if error.Some? then Bad(error.value)
              else More(Model())
      ensures !go ==> pos == 0
    {
      go, error, pos := false, None, 0;
      var newline := Find(querybuf);
      if newline.None? {
        if |querybuf| > INLINE_MAX { error := Some(CountTooBig); }
        return;
      }
      if newline.value > |querybuf| - 2 { return; }
      var ll := StringToInt(querybuf[1..newline.value]);
      if ll.None? || ll.value > MAX_ARGS { error := Some(BadCount); return; }
      ProcessCount(Model(), newline.value, ll.value);
      if ll.value > 0 { multibulklen := ll.value; }
      return true, None, newline.value + 2;
    }

    /** processMultibulkBuffer: true when a command is complete */
    method ProcessMultibulkBuffer() returns (ok: bool, error: Option<Error>)
      requires bulklen >= -1
               && (multibulklen == 0 ==> bulklen == -1 && argv == [] && querybuf != [] && querybuf[0] == STAR)
      modifies this
      ensures Process(old(Model())) == if ok then Complete(Model()) else if error.Some? then Bad(error.value)
              else More(Model())
    {
      ok, error := false, None;
      var pos: nat, go := 0, true;
      if multibulklen == 0 {
        go, error, pos := ReadCount();
        if !go { return false, error; }
      }
      while multibulklen > 0
        invariant pos <= |querybuf| && bulklen >= -1 && (multibulklen == 0 ==> bulklen == -1)
        invariant Process(old(Model())) == Parse(querybuf[pos..], |querybuf|, multibulklen, bulklen, argv)
        decreases multibulklen
      {
        if bulklen == -1 {
          go, error, pos := ReadHeader(pos);
          if !go {
            if error.None? { querybuf := querybuf[pos..]; }
            return false, error;
          }
        }
        if |querybuf| - pos < bulklen + 2 { break; }
        pos := ReadArgument(pos);
      }
      querybuf := querybuf[pos..];
      ok, error := multibulklen == 0, None;
    }
  }
}
