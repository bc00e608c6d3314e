/** What an AOF means, rewritten or not: from its bytes, as they are on disk after a
    crash, to the jobs of the node.
 */
module AofReplay {
  import opened Options
  import opened JobSpec
  import opened JobLog
  import opened JobLines
  import AofRewrite
  import AofLoad
  import Decimal
  import JobCodec
  import Layout
  import Resp

  type Bytes = AofRewrite.Bytes

  /** Replaying a log on top of jobs already loaded. */
  function ReplayFrom(m: map<JobId, nat>, log: seq<Command>, u: nat): map<JobId, nat>
    decreases |log|
  {
    if log == [] then m
    else
      var m1 := ReplayFrom(m, log[..|log| - 1], u);
      match log[|log| - 1]
      case LoadJob(id, etime) => if etime <= u || id in m1 then m1 else m1[id := etime]
      case DelJobCommand(id) => m1 - {id}
  }

  lemma {:induction false} ReplayAppend(a: seq<Command>, b: seq<Command>, u: nat)
    ensures Replay(a + b, u) == ReplayFrom(Replay(a, u), b, u)
    decreases |b|
  {
    if b == [] {
      assert a + b == a;
    } else {
      assert (a + b)[..|a + b| - 1] == a + b[..|b| - 1];
      ReplayAppend(a, b[..|b| - 1], u);
    }
  }

  predicate Kept(j: Job) { j.state == Active || j.state == JobState.Queued }

  lemma {:induction false} ReplaySnoc(cmds: seq<Command>, id: JobId, etime: nat, u: nat)
    requires id !in Replay(cmds, u)
    ensures Replay(cmds + [LoadJob(id, etime)], u) == if etime <= u then Replay(cmds, u)
            else Replay(cmds, u)[id := etime]
  {
    assert (cmds + [LoadJob(id, etime)])[..|cmds|] == cmds;
  }

  /** The commands load exactly the active and queued jobs of the table. */
  ghost predicate Snapshots(cmds: seq<Command>, jobs: map<JobId, Job>)
  {
    forall u :: Replay(cmds, u) == Survivors(jobs, u)
  }

  /** The loop of rewriteAppendOnlyFile: a LOADJOB for every active or queued job. */
  method RewriteJobs(jobs: map<JobId, Job>) returns (cmds: seq<Command>)
    ensures Snapshots(cmds, jobs)
  {
    cmds := [];
    var left := jobs.Keys;
    while left != {}
      invariant left <= jobs.Keys
      invariant Snapshots(cmds, jobs - left)
      decreases |left|
    {
      var id :| id in left;
      var more := if Kept(jobs[id]) then cmds + [LoadJob(id, jobs[id].etime)] else cmds;
      OneMore(cmds, jobs, left, id);
      cmds, left := more, left - {id};
    }
    assert jobs - left == jobs;
  }

  lemma {:induction false} SurvivorsMore(jobs: map<JobId, Job>, left: set<JobId>, id: JobId, u: nat)
    requires left <= jobs.Keys && id in left
    ensures Survivors(jobs - (left - {id}), u) ==
            if Kept(jobs[id]) && jobs[id].etime > u then Survivors(jobs - left, u)[id := jobs[id].etime]
            else Survivors(jobs - left, u)
  {
  }

  lemma {:induction false} OneMoreAt(cmds: seq<Command>, jobs: map<JobId, Job>, left: set<JobId>, id: JobId, u: nat)
    requires left <= jobs.Keys && id in left && Replay(cmds, u) == Survivors(jobs - left, u)
    ensures Replay(if Kept(jobs[id]) then cmds + [LoadJob(id, jobs[id].etime)] else cmds, u)
            == Survivors(jobs - (left - {id}), u)
  {
    SurvivorsMore(jobs, left, id, u);
    if Kept(jobs[id]) { ReplaySnoc(cmds, id, jobs[id].etime, u); }
  }

  lemma {:induction false} OneMore(cmds: seq<Command>, jobs: map<JobId, Job>, left: set<JobId>, id: JobId)
    requires left <= jobs.Keys && id in left && Snapshots(cmds, jobs - left)
    ensures Snapshots(if Kept(jobs[id]) then cmds + [LoadJob(id, jobs[id].etime)] else cmds, jobs - (left - {id}))
  {
    forall u ensures Replay(if Kept(jobs[id]) then cmds + [LoadJob(id, jobs[id].etime)] else cmds, u)
      == Survivors(jobs - (left - {id}), u) {
      assert Replay(cmds, u) == Survivors(jobs - left, u);
      OneMoreAt(cmds, jobs, left, id, u);
    }
  }

  /** Logging on after the rewrite is the same as logging on without it. */
  lemma {:induction false} RewriteReplays(jobs: map<JobId, Job>, snapshot: seq<Command>, log: seq<Command>,
      since: seq<Command>, u: nat)
    requires Replay(snapshot, u) == Survivors(jobs, u) && Replay(log, u) == Survivors(jobs, u)
    ensures Replay(snapshot + since, u) == Replay(log + since, u)
  {
    ReplayAppend(snapshot, since, u);
    ReplayAppend(log, since, u);
  }

  // -------------------------------------------------------------- the lines of a log

  /** A line of the log: the job as it is when the line is written, or just its ID. */
  datatype Line = LoadLine(id: JobId, data: JobCodec.JobData) | DelLine(id: JobId)

  const LOADJOB: Bytes := [76, 79, 65, 68, 74, 79, 66]
  const DELJOB: Bytes := [68, 69, 76, 74, 79, 66]

  /** The command a line stands for. */
  function CommandFor(l: Line): Command
  {
    match l
    case LoadLine(id, data) => LoadJob(id, data.etime)
    case DelLine(id) => DelJobCommand(id)
  }

  /** AOFLoadJob and AOFDelJob; name: the IDs as they are written. */
  function ArgvOf(name: JobId -> Bytes, l: Line): seq<Bytes>
  {
    match l
    case LoadLine(id, data) => [LOADJOB, JobCodec.Encode(data, JobCodec.Storage, 0)]
    case DelLine(id) => [DELJOB, name(id)]
  }

  /** The job of a line has the ID of the line and fits its fields. */
  predicate LineOk(name: JobId -> Bytes, l: Line)
  {
    && |name(l.id)| == JobCodec.ID_LEN
    && (l.LoadLine? ==> l.data.id == name(l.id) && JobCodec.Fits(l.data) && JobCodec.Distinct(l.data.nodes))
  }

  predicate AllOk(name: JobId -> Bytes, lines: seq<Line>) { forall i :: 0 <= i < |lines| ==> LineOk(name, lines[i]) }

  function Commands(lines: seq<Line>): seq<Command>
  {
    seq(|lines|, i requires 0 <= i < |lines| => CommandFor(lines[i]))
  }

  function Argvs(name: JobId -> Bytes, lines: seq<Line>): seq<seq<Bytes>>
  {
    seq(|lines|, i requires 0 <= i < |lines| => ArgvOf(name, lines[i]))
  }

  /** The log as feedAppendOnlyFile prints it. */
  function LogBytes(name: JobId -> Bytes, lines: seq<Line>): Bytes { Resp.CommandsOf(Argvs(name, lines)) }

  lemma {:induction false} LogBytesAppend(name: JobId -> Bytes, a: seq<Line>, b: seq<Line>)
    ensures LogBytes(name, a + b) == LogBytes(name, a) + LogBytes(name, b)
  {
    assert Argvs(name, a + b) == Argvs(name, a) + Argvs(name, b);
    CommandsAppend(Argvs(name, a), Argvs(name, b));
  }

  lemma {:induction false} CommandsAppend(a: seq<seq<Bytes>>, b: seq<seq<Bytes>>)
    ensures Resp.CommandsOf(a + b) == Resp.CommandsOf(a) + Resp.CommandsOf(b)
    decreases |a|
  {
    if a == [] {
      assert a + b == b && [] + Resp.CommandsOf(b) == Resp.CommandsOf(b);
    } else {
      assert (a + b)[1..] == a[1..] + b;
      CommandsAppend(a[1..], b);
      AofRewrite.Assoc(Resp.CommandOf(a[0]), Resp.CommandsOf(a[1..]), Resp.CommandsOf(b));
    }
  }

  // ------------------------------------------------------------------ loading the log

  /** loadjobCommand and deljobCommand, from the bytes of the command; idOf: the IDs as
      they are read, now and known: the clock and the nodes at the time of loading. */
  function Executed(idOf: Bytes -> JobId, argv: seq<Bytes>, now: nat, known: set<Bytes>): Option<Command>
  {
    if |argv| != 2 then None
    else if argv[0] == LOADJOB then
      var d := JobCodec.Decode(argv[1], 0, JobCodec.Storage, now, known);
      if d.Decoded? then Some(LoadJob(idOf(d.job.id), d.job.etime)) else None
    else if argv[0] == DELJOB then Some(DelJobCommand(idOf(argv[1])))
    else None
  }

  /** IDs are read as they were written. */
  ghost predicate SameIds(name: JobId -> Bytes, idOf: Bytes -> JobId) { forall id :: idOf(name(id)) == id }

  /** A line is executed as the command it stands for, whatever the node knows then. */
  lemma {:induction false} LineExecuted(name: JobId -> Bytes, idOf: Bytes -> JobId, l: Line, now: nat,
      known: set<Bytes>)
    requires SameIds(name, idOf) && LineOk(name, l)
    ensures Executed(idOf, ArgvOf(name, l), now, known) == Some(CommandFor(l))
  {
    assert idOf(name(l.id)) == l.id;
    if l.LoadLine? {
      var b := JobCodec.Encode(l.data, JobCodec.Storage, 0);
      Layout.SliceAt(b, 0, b);
      JobCodec.DecodeEncoded(b, 0, l.data, JobCodec.Storage, 0, now, known);
    }
  }

  /** The commands of a list, all of them executable. */
  predicate ExecutesAs(
    idOf: Bytes -> JobId, argvs: seq<seq<Bytes>>, now: nat, known: set<Bytes>, cmds: seq<Command>)
  {
    |argvs| == |cmds| && forall i :: 0 <= i < |argvs| ==> Executed(idOf, argvs[i], now, known) == Some(cmds[i])
  }

  lemma {:induction false} LinesExecuted(
    name: JobId -> Bytes, idOf: Bytes -> JobId, lines: seq<Line>, now: nat, known: set<Bytes>)
    requires SameIds(name, idOf) && AllOk(name, lines)
    ensures ExecutesAs(idOf, Argvs(name, lines), now, known, Commands(lines))
  {
    forall i | 0 <= i < |lines|
      ensures Executed(idOf, ArgvOf(name, lines[i]), now, known) == Some(CommandFor(lines[i])) {
      LineExecuted(name, idOf, lines[i], now, known);
    }
  }

  lemma {:induction false} LineLoggable(name: JobId -> Bytes, l: Line)
    requires LineOk(name, l)
    ensures AofLoad.Loggable(ArgvOf(name, l))
  {
    var argv := ArgvOf(name, l);
    assert |argv[1]| < 0x2_0000_0000;
    forall i | 0 <= i < |argv| ensures |argv[i]| <= Decimal.LLONG_MAX { assert i == 0 || i == 1; }
  }

  /** A log as it is on disk after a crash, its last command perhaps cut, is loaded as
      exactly its complete lines, and these are executed as the commands they stand for. */
  lemma {:induction false} LogLoads(
    name: JobId -> Bytes, idOf: Bytes -> JobId, lines: seq<Line>, last: Line, cut: nat, now: nat, known: set<Bytes>)
    requires SameIds(name, idOf) && AllOk(name, lines) && LineOk(name, last)
    requires cut < |Resp.CommandOf(ArgvOf(name, last))|
    ensures var file := LogBytes(name, lines) + Resp.CommandOf(ArgvOf(name, last))[..cut];
            ExecutesAs(idOf, AofLoad.Load(file, 0, []).executed, now, known, Commands(lines))
  {
    var argvs, p := Argvs(name, lines), Resp.CommandOf(ArgvOf(name, last))[..cut];
    var file := LogBytes(name, lines) + p;
    forall i | 0 <= i < |argvs| ensures AofLoad.Loggable(argvs[i]) { LineLoggable(name, lines[i]); }
    LineLoggable(name, last);
    assert file[|Resp.CommandsOf(argvs)|..] == p;
    AofLoad.LoadsCompleteCommands(file, argvs, ArgvOf(name, last));
    LinesExecuted(name, idOf, lines, now, known);
  }

  // ------------------------------------------------------------ runs, rewrites, files

  /** A node forks a rewrite in the middle of a run of its cluster.  Whatever is logged
      until the rewrite is done, and however the bytes travel, the new file is a log of
      the jobs of the fork and the lines since. */
  lemma {:induction false} RewrittenFile(
    name: JobId -> Bytes, snapshot: seq<Line>, since: seq<Line>, evs: seq<AofRewrite.Event>)
    requires AofRewrite.CanRun(AofRewrite.Forked(LogBytes(name, snapshot)), evs)
    requires AofRewrite.Run(AofRewrite.Forked(LogBytes(name, snapshot)), evs).child == AofRewrite.Done
    requires AofRewrite.Fed(evs) == LogBytes(name, since)
    ensures AofRewrite.FinalFile(AofRewrite.Run(AofRewrite.Forked(LogBytes(name, snapshot)), evs))
            == LogBytes(name, snapshot + since)
  {
    AofRewrite.RewriteIsExact(LogBytes(name, snapshot), evs);
    LogBytesAppend(name, snapshot, since);
  }

  /** The run up to the fork, from there to the last whole step, and p lines of the step
      after it: the jobs of the fork are in the snapshot, and the lines since are what the
      node logged.  There is always a step that is possible; with p == 0 the crash is
      between two steps. */
  ghost predicate Forks(
    nodes: set<NodeId>, past: seq<JobEvent>, evs: seq<JobEvent>, e: JobEvent, p: nat, snapshot: seq<Command>,
    since: seq<Command>)
  {
    && CanHappen(NewCluster(nodes), past)
    && var (n, k) := (e.event.env.me, HappenAll(NewCluster(nodes), past));
    && n in nodes && Snapshots(snapshot, JobsOf(k, n)) && CanHappen(k, evs) && n in k.logs
    && var k' := HappenAll(k, evs);
    && Possible(k', e) && p <= |LinesOfStep(k', e)|
    && k'.logs[n] + LinesOfStep(k', e)[..p] == k.logs[n] + since
  }

  /** The jobs of the node at the crash. */
  function JobsAtCrash(nodes: set<NodeId>, past: seq<JobEvent>, evs: seq<JobEvent>, e: JobEvent, p: nat)
      : map<JobId, Job>
    requires CanHappen(NewCluster(nodes), past) && CanHappen(HappenAll(NewCluster(nodes), past), evs)
    requires Possible(HappenAll(HappenAll(NewCluster(nodes), past), evs), e)
  {
    JobsAt(HappenAll(HappenAll(NewCluster(nodes), past), evs), e, p)
  }

  /** From the log of a run to the jobs at its end, when the log was replaced by the jobs
      of a moment in between. */
  lemma {:induction false} RewrittenLogReplays(
    nodes: set<NodeId>, past: seq<JobEvent>, evs: seq<JobEvent>, e: JobEvent, p: nat,
    snapshot: seq<Command>, since: seq<Command>, u: nat)
    requires Forks(nodes, past, evs, e, p, snapshot, since)
    ensures Replay(snapshot + since, u) == Survivors(JobsAtCrash(nodes, past, evs, e, p), u)
  {
    var n, k := e.event.env.me, HappenAll(NewCluster(nodes), past);
    ReplayIsLiveJobs(nodes, past, n, u);
    NewClusterOk(nodes);
    HappenAllOk(NewCluster(nodes), past);
    HappenAllOk(k, evs);
    StageReplays(HappenAll(k, evs), e, p, u);
    RewriteReplays(JobsOf(k, n), snapshot, k.logs[n], since, u);
  }

  /** The file that a crash leaves: a rewrite forked after `past`, and done by the time
      `since` was logged; then lines as before, the last of them perhaps cut. */
  function FileAfter(
    name: JobId -> Bytes, snapshot: seq<Line>, rewrite: seq<AofRewrite.Event>, later: seq<Line>,
    last: Line, cut: nat): Bytes
    requires AofRewrite.CanRun(AofRewrite.Forked(LogBytes(name, snapshot)), rewrite)
    requires cut < |Resp.CommandOf(ArgvOf(name, last))|
  {
    AofRewrite.FinalFile(AofRewrite.Run(AofRewrite.Forked(LogBytes(name, snapshot)), rewrite))
    + LogBytes(name, later) + Resp.CommandOf(ArgvOf(name, last))[..cut]
  }

  /** The rewrite is done, having been fed the lines since the fork. */
  predicate Rewrites(name: JobId -> Bytes, snapshot: seq<Line>, since: seq<Line>, rewrite: seq<AofRewrite.Event>)
  {
    var start := AofRewrite.Forked(LogBytes(name, snapshot));
    && AofRewrite.CanRun(start, rewrite) && AofRewrite.Run(start, rewrite).child == AofRewrite.Done
    && AofRewrite.Fed(rewrite) == LogBytes(name, since)
  }

  /** From the bytes of the file to the commands the loader executes. */
  lemma {:induction false} FileExecutes(
    name: JobId -> Bytes, idOf: Bytes -> JobId, snapshot: seq<Line>, since: seq<Line>, later: seq<Line>,
    rewrite: seq<AofRewrite.Event>, last: Line, cut: nat, now: nat, known: set<Bytes>)
    requires SameIds(name, idOf) && Rewrites(name, snapshot, since, rewrite)
    requires AllOk(name, snapshot + since + later) && LineOk(name, last) && cut < |Resp.CommandOf(ArgvOf(name, last))|
    ensures ExecutesAs(
        idOf, AofLoad.Load(FileAfter(name, snapshot, rewrite, later, last, cut), 0, []).executed, now, known,
        Commands(snapshot + since + later))
  {
    RewrittenFile(name, snapshot, since, rewrite);
    LogBytesAppend(name, snapshot + since, later);
    LogLoads(name, idOf, snapshot + since + later, last, cut, now, known);
  }

  lemma {:induction false} CommandsAre(snapshot: seq<Line>, since: seq<Line>, later: seq<Line>)
    ensures Commands(snapshot + since + later) == Commands(snapshot) + (Commands(since) + Commands(later))
  {
  }

  /** In every run of a cluster with many jobs: a node rewrites its AOF in the middle of
      the run, goes on logging, and crashes, between two steps or in the middle of one.
      From the bytes of the file, the loader executes commands that leave, at any time,
      exactly the jobs that the node had active or queued and unexpired when its last
      complete line was written. */
  lemma {:induction false} RewrittenFileReplays(
    nodes: set<NodeId>, past: seq<JobEvent>, evs: seq<JobEvent>, e: JobEvent, p: nat, name: JobId -> Bytes,
    idOf: Bytes -> JobId, snapshot: seq<Line>, since: seq<Line>, later: seq<Line>, rewrite: seq<AofRewrite.Event>,
    last: Line, cut: nat, now: nat, known: set<Bytes>) returns (cmds: seq<Command>)
    requires Forks(nodes, past, evs, e, p, Commands(snapshot), Commands(since) + Commands(later))
    requires SameIds(name, idOf) && Rewrites(name, snapshot, since, rewrite)
    requires AllOk(name, snapshot + since + later) && LineOk(name, last) && cut < |Resp.CommandOf(ArgvOf(name, last))|
    ensures ExecutesAs(
        idOf, AofLoad.Load(FileAfter(name, snapshot, rewrite, later, last, cut), 0, []).executed, now, known, cmds)
    ensures forall u :: Replay(cmds, u) == Survivors(JobsAtCrash(nodes, past, evs, e, p), u)
  {
    cmds := Commands(snapshot + since + later);
    FileExecutes(name, idOf, snapshot, since, later, rewrite, last, cut, now, known);
    CommandsAre(snapshot, since, later);
    forall u ensures Replay(cmds, u) == Survivors(JobsAtCrash(nodes, past, evs, e, p), u) {
      RewrittenLogReplays(nodes, past, evs, e, p, Commands(snapshot), Commands(since) + Commands(later), u);
    }
  }
}
