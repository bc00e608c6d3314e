/** The background rewrite of the AOF (src/aof.c): the child writes the jobs it had
    at the fork, the parent passes it what is logged meanwhile through a pipe, and
    appends what is left when the child is done.
 */
module AofRewrite {

  import Decimal

  type byte = Decimal.byte
  type Bytes = Decimal.Bytes

  const BLOCK_SIZE: nat := 10 * 1024 * 1024

  function Min(a: nat, b: nat): nat { if a < b then a else b }

  lemma {:induction false} Assoc(a: Bytes, b: Bytes, c: Bytes)
    ensures a + b + c == a + (b + c)
  {
  }

  lemma {:induction false} Cut(s: Bytes, n: nat)
    requires n <= |s|
    ensures s[..n] + s[n..] == s
  {
  }

  // ------------------------------------------------------------- the list of blocks

  /** aofrwblock: what it holds, and how much can still be appended to it. */
  datatype Block = Block(buf: Bytes, free: nat)

  function Concat(blocks: seq<Block>): Bytes
  {
    if blocks == [] then [] else blocks[0].buf + Concat(blocks[1..])
  }

  lemma {:induction false} ConcatSnoc(blocks: seq<Block>, b: Block)
    ensures Concat(blocks + [b]) == Concat(blocks) + b.buf
    decreases |blocks|
  {
    if blocks == [] {
      assert [] + [b] == [b];
      assert [b][1..] == [];
    } else {
      assert (blocks + [b])[1..] == blocks[1..] + [b];
      ConcatSnoc(blocks[1..], b);
    }
  }

  /** The last block with up to as much more as it takes. */
  function FillLast(blocks: seq<Block>, s: Bytes): seq<Block>
    requires blocks != []
  {
    var last := blocks[|blocks| - 1];
    var n := Min(last.free, |s|);
    blocks[..|blocks| - 1] + [Block(last.buf + s[..n], last.free - n)]
  }

  /** How much of s the last block takes. */
  function Room(blocks: seq<Block>, s: Bytes): nat
  {
    if blocks == [] then 0 else Min(blocks[|blocks| - 1].free, |s|)
  }

  /** aofRewriteBufferAppend: fill the last block, and add a block for the rest. */
  function Appended(blocks: seq<Block>, s: Bytes): seq<Block>
    decreases |s|, if Room(blocks, s) == 0 then 1 else 0
  {
    if s == [] then blocks
    else
      var filled := if blocks == [] then [] else FillLast(blocks, s);
      var n := Room(blocks, s);
      if n == |s| then filled else Appended(filled + [Block([], BLOCK_SIZE)], s[n..])
  }

  /** One round of appending. */
  lemma {:induction false} AppendedNext(blocks: seq<Block>, s: Bytes, filled: seq<Block>, n: nat)
    requires s != [] && n == Room(blocks, s) && filled == if blocks == [] then [] else FillLast(blocks, s)
    ensures n <= |s|
    ensures Appended(blocks, s) == if s[n..] == [] then filled else Appended(filled + [Block([], BLOCK_SIZE)], s[n..])
  {
  }

  lemma {:induction false} FillLastConcat(blocks: seq<Block>, s: Bytes)
    requires blocks != []
    ensures Concat(FillLast(blocks, s)) == Concat(blocks) + s[..Min(blocks[|blocks| - 1].free, |s|)]
  {
    var init, last := blocks[..|blocks| - 1], blocks[|blocks| - 1];
    var n := Min(last.free, |s|);
    ConcatSnoc(init, last);
    assert init + [last] == blocks;
    ConcatSnoc(init, Block(last.buf + s[..n], last.free - n));
    Assoc(Concat(init), last.buf, s[..n]);
  }

  /** The blocks hold what they held, and then what is appended. */
  lemma {:induction false} AppendedConcat(blocks: seq<Block>, s: Bytes)
    ensures Concat(Appended(blocks, s)) == Concat(blocks) + s
    decreases |s|, if Room(blocks, s) == 0 then 1 else 0
  {
    if s != [] {
      var filled := if blocks == [] then [] else FillLast(blocks, s);
      var n := Room(blocks, s);
      if blocks != [] { FillLastConcat(blocks, s); }
      if n == |s| {
        assert s[..n] == s;
      } else {
        ConcatSnoc(filled, Block([], BLOCK_SIZE));
        AppendedConcat(filled + [Block([], BLOCK_SIZE)], s[n..]);
        Cut(s, n);
        Assoc(Concat(blocks), s[..n], s[n..]);
      }
    }
  }

  /** aofChildWriteDiffData: blocks go to the pipe until a write takes nothing;
      results: what the successive writes return. */
  function Sent(blocks: seq<Block>, pipe: Bytes, results: seq<int>): (seq<Block>, Bytes)
    decreases |blocks| + |results|
  {
    if blocks == [] then (blocks, pipe)
    else if blocks[0].buf == [] then Sent(blocks[1..], pipe, results)
    else if results == [] || results[0] <= 0 then (blocks, pipe)
    else if results[0] >= |blocks[0].buf| then Sent(blocks[1..], pipe + blocks[0].buf, results[1..])
    else Sent(SendPart(blocks, results[0]), pipe + blocks[0].buf[..results[0]], results[1..])
  }

  function SendPart(blocks: seq<Block>, n: nat): (r: seq<Block>)
    requires blocks != [] && n <= |blocks[0].buf|
    ensures |r| == |blocks|
  {
    [blocks[0].(buf := blocks[0].buf[n..])] + blocks[1..]
  }

  /** Nothing is lost or reordered between the blocks and the pipe. */
  lemma {:induction false} SentConserves(blocks: seq<Block>, pipe: Bytes, results: seq<int>)
    ensures var (b, p) := Sent(blocks, pipe, results); p + Concat(b) == pipe + Concat(blocks)
    decreases |blocks| + |results|
  {
    if blocks == [] {
    } else if blocks[0].buf == [] {
      SentConserves(blocks[1..], pipe, results);
      assert blocks[0].buf + Concat(blocks[1..]) == Concat(blocks[1..]);
    } else if results == [] || results[0] <= 0 {
    } else if results[0] >= |blocks[0].buf| {
      SentConserves(blocks[1..], pipe + blocks[0].buf, results[1..]);
      Assoc(pipe, blocks[0].buf, Concat(blocks[1..]));
    } else {
      var n := results[0];
      SentConserves(SendPart(blocks, n), pipe + blocks[0].buf[..n], results[1..]);
      SendPartConcat(blocks, n);
      Assoc(pipe, blocks[0].buf[..n], Concat(SendPart(blocks, n)));
    }
  }

  /** What is in the pipe stays in front. */
  lemma {:induction false} SentExtends(blocks: seq<Block>, pipe: Bytes, results: seq<int>)
    ensures pipe <= Sent(blocks, pipe, results).1
    decreases |blocks| + |results|
  {
    if blocks != [] {
      if blocks[0].buf == [] {
        SentExtends(blocks[1..], pipe, results);
      } else if results != [] && results[0] >= |blocks[0].buf| {
        SentExtends(blocks[1..], pipe + blocks[0].buf, results[1..]);
      } else if results != [] && results[0] > 0 {
        SentExtends(SendPart(blocks, results[0]), pipe + blocks[0].buf[..results[0]], results[1..]);
      }
    }
  }

  lemma {:induction false} SendPartConcat(blocks: seq<Block>, n: nat)
    requires blocks != [] && n <= |blocks[0].buf|
    ensures blocks[0].buf[..n] + Concat(SendPart(blocks, n)) == Concat(blocks)
  {
    assert SendPart(blocks, n)[1..] == blocks[1..];
    Cut(blocks[0].buf, n);
    Assoc(blocks[0].buf[..n], blocks[0].buf[n..], Concat(blocks[1..]));
  }

  /** Writes that all take something, as many as there are bytes, send everything. */
  lemma {:induction false} SentDrains(blocks: seq<Block>, pipe: Bytes, results: seq<int>)
    requires |results| >= |Concat(blocks)| && forall i :: 0 <= i < |results| ==> results[i] > 0
    ensures Sent(blocks, pipe, results) == ([], pipe + Concat(blocks))
    decreases |blocks| + |results|
  {
    if blocks == [] {
      assert pipe + [] == pipe;
    } else if blocks[0].buf == [] {
      SentDrains(blocks[1..], pipe, results);
      assert [] + Concat(blocks[1..]) == Concat(blocks[1..]);
    } else if results[0] >= |blocks[0].buf| {
      SentDrains(blocks[1..], pipe + blocks[0].buf, results[1..]);
      Assoc(pipe, blocks[0].buf, Concat(blocks[1..]));
    } else {
      var n := results[0];
      SendPartConcat(blocks, n);
      SentDrains(SendPart(blocks, n), pipe + blocks[0].buf[..n], results[1..]);
      Assoc(pipe, blocks[0].buf[..n], Concat(SendPart(blocks, n)));
    }
  }

  // --------------------------------------------------------------- the two processes

  /** What the child is doing: reading, waiting for the agreement, gone. */
  datatype Child = Reading | Asked | Done

  /** blocks: logged, not yet sent.  pipe: sent, not yet read.  diff: read by the
      child.  ask, ack: a mark is in the pipe to the parent, to the child.  temp: the
      file of the child. */
  datatype Rewrite = Rewrite(
    blocks: seq<Block>, pipe: Bytes, diff: Bytes, stop: bool, ask: bool, ack: bool, child: Child, temp: Bytes)

  /** After the fork, with the jobs the child writes. */
  function Forked(snapshot: Bytes): Rewrite { Rewrite([], [], [], false, false, false, Reading, snapshot) }

  datatype Event =
    | Feed(bytes: Bytes)               // feedAppendOnlyFile
    | Write(results: seq<int>)         // aofChildWriteDiffData
    | Read(count: nat)                 // aofReadDiffFromParent, in the child
    | Ask                              // the child sends its mark
    | Agree                            // aofChildPipeReadable
    | Finish                           // the child, from the mark of the parent to its exit

  predicate Enabled(r: Rewrite, e: Event)
  {
    match e
    case Feed(_) => true
    case Write(_) => true
    case Read(count) => r.child == Reading && count <= |r.pipe|
    case Ask => r.child == Reading
    case Agree => r.ask
    case Finish => r.child == Asked && r.ack
  }

  function Step(r: Rewrite, e: Event): Rewrite
    requires Enabled(r, e)
  {
    match e
    case Feed(bytes) => r.(blocks := Appended(r.blocks, bytes))
    case Write(results) =>
      if r.stop then r else var (b, p) := Sent(r.blocks, r.pipe, results); r.(blocks := b, pipe := p)
    case Read(count) => r.(diff := r.diff + r.pipe[..count], pipe := r.pipe[count..])
    case Ask => r.(child := Asked, ask := true)
    case Agree => r.(stop := true, ask := false, ack := true)
    case Finish => r.(child := Done, diff := r.diff + r.pipe, pipe := [], temp := r.temp + (r.diff + r.pipe))
  }

  predicate CanRun(r: Rewrite, evs: seq<Event>)
    decreases |evs|
  {
    evs == [] || (Enabled(r, evs[0]) && CanRun(Step(r, evs[0]), evs[1..]))
  }

  function Run(r: Rewrite, evs: seq<Event>): Rewrite
    requires CanRun(r, evs)
    decreases |evs|
  {
    if evs == [] then r else Run(Step(r, evs[0]), evs[1..])
  }

  function FedBy(e: Event): Bytes { if e.Feed? then e.bytes else [] }

  /** Everything fed by the events, in order. */
  function Fed(evs: seq<Event>): Bytes
  {
    if evs == [] then [] else FedBy(evs[0]) + Fed(evs[1..])
  }

  /** A child that reads can always ask, be agreed with and finish; it then has all that
      was in the pipe. */
  lemma {:induction false} CanFinish(r: Rewrite)
    requires r.child == Reading
    ensures CanRun(r, [Ask, Agree, Finish])
    ensures var r' := Run(r, [Ask, Agree, Finish]);
            r'.child == Done && r'.temp == r.temp + (r.diff + r.pipe) && r'.blocks == r.blocks
  {
    var evs := [Ask, Agree, Finish];
    assert evs[1..] == [Agree, Finish] && evs[1..][1..] == [Finish] && evs[1..][1..][1..] == [];
    var r1 := Step(r, Ask);
    var r2 := Step(r1, Agree);
    var r3 := Step(r2, Finish);
    assert CanRun(r2, [Finish]) && Run(r2, [Finish]) == r3 by { assert [Finish][1..] == []; }
  }

  // ------------------------------------------------------------------- whole rewrites

  /** Everything fed since the fork is in one of three places, in order; the parent has
      agreed before the child is done, and then nothing is in the pipe any more. */
  predicate Conserves(r: Rewrite, snapshot: Bytes, fed: Bytes)
  {
    && r.diff + (r.pipe + Concat(r.blocks)) == fed
    && (r.ack ==> r.stop)
    && (r.child == Done ==> r.stop && r.pipe == [])
    && r.temp == if r.child == Done then snapshot + r.diff else snapshot
  }

  lemma {:induction false} FeedConserves(r: Rewrite, snapshot: Bytes, fed: Bytes, bytes: Bytes)
    requires Conserves(r, snapshot, fed)
    ensures Conserves(Step(r, Feed(bytes)), snapshot, fed + bytes)
  {
    AppendedConcat(r.blocks, bytes);
    Assoc(r.pipe, Concat(r.blocks), bytes);
    Assoc(r.diff, r.pipe + Concat(r.blocks), bytes);
  }

  lemma {:induction false} MoveConserves(r: Rewrite, snapshot: Bytes, fed: Bytes, count: nat)
    requires Conserves(r, snapshot, fed) && count <= |r.pipe|
    ensures r.diff + r.pipe[..count] + (r.pipe[count..] + Concat(r.blocks)) == fed
  {
    Cut(r.pipe, count);
    Assoc(r.pipe[..count], r.pipe[count..], Concat(r.blocks));
    Assoc(r.diff, r.pipe[..count], r.pipe[count..] + Concat(r.blocks));
  }

  lemma {:induction false} StepConserves(r: Rewrite, snapshot: Bytes, fed: Bytes, e: Event)
    requires Conserves(r, snapshot, fed) && Enabled(r, e)
    ensures Conserves(Step(r, e), snapshot, fed + FedBy(e))
  {
    assert fed + [] == fed;
    match e
    case Feed(bytes) => FeedConserves(r, snapshot, fed, bytes);
    case Write(results) => SentConserves(r.blocks, r.pipe, results);
    case Read(count) => MoveConserves(r, snapshot, fed, count);
    case Ask =>
    case Agree =>
    case Finish =>
      MoveConserves(r, snapshot, fed, |r.pipe|);
      assert r.pipe[..|r.pipe|] == r.pipe && r.pipe[|r.pipe|..] == [];
  }

  lemma {:induction false} RunConserves(r: Rewrite, snapshot: Bytes, fed: Bytes, evs: seq<Event>)
    requires Conserves(r, snapshot, fed) && CanRun(r, evs)
    ensures Conserves(Run(r, evs), snapshot, fed + Fed(evs))
    decreases |evs|
  {
    if evs == [] {
      assert fed + [] == fed;
    } else {
      StepConserves(r, snapshot, fed, evs[0]);
      RunConserves(Step(r, evs[0]), snapshot, fed + FedBy(evs[0]), evs[1..]);
      Assoc(fed, FedBy(evs[0]), Fed(evs[1..]));
    }
  }

  /** The file backgroundRewriteDoneHandler leaves: what the child wrote, and the
      blocks that were not sent. */
  function FinalFile(r: Rewrite): Bytes { r.temp + Concat(r.blocks) }

  lemma {:induction false} FinalIsFed(r: Rewrite, snapshot: Bytes, fed: Bytes)
    requires Conserves(r, snapshot, fed) && r.child == Done
    ensures FinalFile(r) == snapshot + fed
  {
    assert [] + Concat(r.blocks) == Concat(r.blocks);
    Assoc(snapshot, r.diff, Concat(r.blocks));
  }

  lemma {:induction false} NothingFed(snapshot: Bytes, before: Bytes)
    ensures Conserves(Forked(snapshot), snapshot, []) && before + [] == before
  {
  }

  /** Whatever is logged meanwhile and however the pipe is written and read, a finished
      rewrite leaves the jobs of the fork followed by every byte logged since. */
  lemma {:induction false} RewriteIsExact(snapshot: Bytes, evs: seq<Event>)
    requires CanRun(Forked(snapshot), evs) && Run(Forked(snapshot), evs).child == Done
    ensures FinalFile(Run(Forked(snapshot), evs)) == snapshot + Fed(evs)
  {
    RunConserves(Forked(snapshot), snapshot, [], evs);
    assert [] + Fed(evs) == Fed(evs);
    FinalIsFed(Run(Forked(snapshot), evs), snapshot, Fed(evs));
  }

  // -------------------------------------------------------------------- the objects

  datatype AofState = Off | On | WaitRewrite

  /** The AOF of the server and the rewrite in progress. */
  class Aof {
    var state: AofState
    var active: bool                   // there is a child
    var buf: Bytes                     // logged, to be flushed to file
    var file: Bytes
    var blocks: seq<Block>
    var pipe: Bytes
    var diff: Bytes
    var stop: bool
    var ask: bool
    var ack: bool
    var child: Child
    var temp: Bytes
    ghost var snapshot: Bytes          // the jobs at the last fork
    ghost var fed: Bytes               // logged since the last fork
    ghost var before: Bytes            // the log at the last fork

    ghost function Model(): Rewrite
      reads this
    {
      Rewrite(blocks, pipe, diff, stop, ask, ack, child, temp)
    }

    /** The log, flushed and to be flushed. */
    ghost function Contents(): Bytes
      reads this
    {
      file + buf
    }

    /** Nothing logged since the fork is lost or out of order, wherever it is; and the old
        log has it too, when the AOF is on. */
    ghost predicate Valid()
      reads this
    {
      && (if active then Conserves(Model(), snapshot, fed) else blocks == [])
      && (active && state == On ==> Contents() == before + fed)
    }

    constructor (state: AofState)
      ensures Valid() && this.state == state && !active && Contents() == []
    {
      this.state, active, buf, file := state, false, [], [];
      blocks, pipe, diff, stop, ask, ack, child, temp := [], [], [], false, false, false, Reading, [];
      snapshot, fed, before := [], [], [];
    }

    /** A child with the jobs, nothing logged since, and the pipes empty. */
    method Fork(jobs: Bytes)
      modifies this`blocks, this`pipe, this`diff, this`stop, this`ask, this`ack, this`child, this`temp
      ensures Model() == Forked(jobs)
    {
      blocks, pipe, diff, stop, ask, ack, child, temp := [], [], [], false, false, false, Reading, jobs;
    }

    /** rewriteAppendOnlyFileBackground; false when a rewrite is going on */
    method StartRewrite(jobs: Bytes) returns (ok: bool)
      requires Valid()
      modifies this
      ensures Valid() && state == old(state) && Contents() == old(Contents())
      ensures ok == !old(active) && active
      ensures ok ==> Model() == Forked(jobs) && snapshot == jobs && fed == [] && before == Contents()
      ensures !ok ==> unchanged(this)
    {
      if active { return false; }
      Fork(jobs);
      active := true;
      snapshot, fed, before := jobs, [], file + buf;
      NothingFed(jobs, before);
      return true;
    }

    /** aofRewriteBufferAppend */
    method RewriteBufferAppend(s0: Bytes)
      modifies this`blocks
      ensures blocks == Appended(old(blocks), s0)
    {
      var s := s0;
      while s != []
        invariant Appended(blocks, s) == Appended(old(blocks), s0)
        decreases |s|, if Room(blocks, s) == 0 then 1 else 0
      {
        var n := Room(blocks, s);
        AppendedNext(blocks, s, if blocks == [] then [] else FillLast(blocks, s), n);
        if blocks != [] { blocks := FillLast(blocks, s); }
        s := s[n..];
        if s != [] { blocks := blocks + [Block([], BLOCK_SIZE)]; }
      }
    }

    /** aofChildWriteDiffData */
    method WriteDiffData(results: seq<int>)
      requires Valid() && active
      modifies this`blocks, this`pipe
      ensures Valid() && Model() == Step(old(Model()), Write(results))
      ensures old(pipe) <= pipe && pipe + Concat(blocks) == old(pipe + Concat(blocks))
    {
      SentConserves(blocks, pipe, results);
      SentExtends(blocks, pipe, results);
      StepConserves(Model(), snapshot, fed, Write(results));
      assert fed + [] == fed;
      var i := 0;
      while !stop && blocks != []
        invariant i <= |results|
        invariant stop ==> blocks == old(blocks) && pipe == old(pipe)
        invariant !stop ==> Sent(blocks, pipe, results[i..]) == Sent(old(blocks), old(pipe), results)
        decreases |blocks| + (|results| - i)
      {
        var block := blocks[0];
        if block.buf != [] {
          if i == |results| || results[i] <= 0 { return; }
          assert results[i..][1..] == results[i + 1..];
          var n := Min(results[i], |block.buf|);
          assert n == |block.buf| ==> block.buf[..n] == block.buf;
          pipe := pipe + block.buf[..n];
          block := block.(buf := block.buf[n..]);
          i := i + 1;
          if block.buf != [] { blocks := SendPart(blocks, n); }
        }
        if block.buf == [] { blocks := blocks[1..]; }
      }
    }

    /** feedAppendOnlyFile, with the command printed */
    method Append(s: Bytes)
      requires Valid()
      modifies this`buf, this`blocks, this`fed
      ensures Valid()
      ensures Contents() == if state == On then old(Contents()) + s else old(Contents())
      ensures fed == if active then old(fed) + s else old(fed)
    {
      if state == On { buf := buf + s; }
      Assoc(file, old(buf), s);
      if active {
        FeedConserves(Model(), snapshot, fed, s);
        Assoc(before, fed, s);
        RewriteBufferAppend(s);
        fed := fed + s;
      }
    }

    /** flushAppendOnlyFile, when the write succeeds: the log is all in the file */
    method Flush()
      requires Valid()
      modifies this`buf, this`file
      ensures Valid() && file == Contents() == old(Contents())
    {
      file := file + buf;
      buf := [];
      assert file + [] == file;
    }

    /** The child asks the parent to stop. */
    method AskToStop()
      requires Valid() && active && child == Reading
      modifies this`child, this`ask
      ensures Valid() && ask && child == Asked
    {
      child := Asked;
      ask := true;
    }

    /** aofChildPipeReadable: what is logged from now on stays in the blocks, and what was
        sent is still to be read */
    method ChildPipeReadable()
      requires Valid() && active && ask
      modifies this`stop, this`ask, this`ack
      ensures Valid() && stop && ack && !ask && diff + (pipe + Concat(blocks)) == fed
    {
      ask := false;
      stop := true;
      ack := true;
    }

    /** Reads of up to 64 KB, until count bytes are read. */
    method ReadPipe(count: nat)
      requires count <= |pipe|
      modifies this`diff, this`pipe
      ensures diff == old(diff) + old(pipe)[..count] && pipe == old(pipe)[count..]
    {
      var total := 0;
      while total < count
        invariant total <= count
        invariant diff == old(diff) + old(pipe)[..total] && pipe == old(pipe)[total..]
      {
        var n := Min(65536, count - total);
        assert old(pipe)[..total] + pipe[..n] == old(pipe)[..total + n];
        diff := diff + pipe[..n];
        pipe := pipe[n..];
        total := total + n;
      }
    }

    /** aofReadDiffFromParent, in the child, when count bytes are there to read. */
    method ReadDiffFromParent(count: nat) returns (total: nat)
      requires Valid() && active && child == Reading && count <= |pipe|
      modifies this`diff, this`pipe
      ensures Valid() && total == count && Model() == Step(old(Model()), Read(count))
      ensures diff + pipe == old(diff + pipe)
    {
      StepConserves(Model(), snapshot, fed, Read(count));
      assert fed + [] == fed;
      ReadPipe(count);
      return count;
    }

    /** The end of rewriteAppendOnlyFile in the child, once the parent has agreed: its
        file and the blocks that were not sent are everything. */
    method FinishChild()
      requires Valid() && active && child == Asked && ack
      modifies this`diff, this`pipe, this`temp, this`child
      ensures Valid() && child == Done && temp + Concat(blocks) == snapshot + fed
    {
      StepConserves(Model(), snapshot, fed, Finish);
      assert fed + [] == fed;
      diff := diff + pipe;
      pipe := [];
      temp := temp + diff;
      child := Done;
      FinalIsFed(Model(), snapshot, fed);
    }

    /** aofRewriteBufferWrite: append every block to the new file. */
    method RewriteBufferWrite(to: Bytes) returns (r: Bytes)
      ensures r == to + Concat(blocks)
    {
      r := to;
      var i := 0;
      while i < |blocks|
        invariant i <= |blocks| && r + Concat(blocks[i..]) == to + Concat(blocks)
      {
        assert blocks[i..][1..] == blocks[i + 1..];
        Assoc(r, blocks[i].buf, Concat(blocks[i + 1..]));
        r := r + blocks[i].buf;
        i := i + 1;
      }
    }

    /** backgroundRewriteDoneHandler; success: the child exited well, and the files could
        be written and renamed.  The log is then the jobs of the fork and every byte logged
        since; the old log had the same bytes after the log of the fork. */
    method RewriteDone(success: bool)
      requires Valid() && active && (success ==> child == Done)
      modifies this
      ensures Valid() && !active
      ensures success ==> file == old(snapshot + fed) && state == (if old(state) == Off then Off else On)
      ensures success && old(state) != Off ==> Contents() == old(snapshot + fed)
      ensures old(state) == On ==> old(Contents()) == old(before + fed)
      ensures !success ==> file == old(file) && buf == old(buf) && state == old(state)
    {
      if success {
        FinalIsFed(Model(), snapshot, fed);
        file := RewriteBufferWrite(temp);
        assert file + [] == file;
        if state != Off { buf := []; }
        if state == WaitRewrite { state := On; }
      }
      blocks := [];
      active := false;
    }
  }
}
