/** A crash between two lines of the AOF.  A step may append two lines, so a node may
    stop, and its log end, when a step is half done; loading leaves the jobs as they
    were when the last complete line was written.
 */
module JobLines {
  import opened Options
  import opened JobSpec
  import opened JobSteps
  import opened JobCopy
  import opened Protocol
  import opened JobLog

  // --------------------------------------------------------------- how many lines

  lemma {:induction false} CollectLines(env: Env, c: Ctx)
    requires IsAcked(c)
    ensures TryGC(env, c).log == c.log
  {
  }

  lemma {:induction false} AckLines(env: Env, c: Ctx, sender: NodeId, mayhave: nat)
    requires c.job.Some?
    ensures |AckAndAnswer(env, c, sender, mayhave).log| <= |c.log| + 1
  {
    var c1 := Acknowledge(c);
    CollectLines(env, if mayhave == 0 then Send(env, c1, sender, GotAck(true)) else c1);
  }

  lemma {:induction false} AddLines(env: Env, c: Ctx, a: AddArgs)
    ensures |AddJob(env, c, a).log| <= |c.log| + 1
  {
  }

  lemma {:induction false} TimerLines(env: Env, c: Ctx)
    requires c.job.Some?
    ensures |Process(env, c).log| <= |c.log| + 1
  {
    if c.job.value.etime > env.unixtime {
      var c2 := ProcessRequeue(env, ProcessWillQueue(env, c));
      assert c2.log == c.log;
      if IsAcked(c2) { CollectLines(env, c2); }
    }
  }

  lemma {:induction false} AckJobLines(env: Env, c: Ctx, minutes: nat)
    ensures |AckJob(env, c, minutes).log| <= |c.log| + 1
  {
    if c.job.Some? { CollectLines(env, Acknowledge(c)); } else { CollectLines(env, Set(c, DummyAck(env, minutes))); }
  }

  lemma {:induction false} ActLines(env: Env, c: Ctx, a: Action)
    ensures |Act(env, c, a).log| <= |c.log| + 1
  {
    if a.DoAddJob? { AddLines(env, c, a.args); }
    else if a.DoAckJob? { AckJobLines(env, c, a.minutes); }
    else if a.DoProcess? && c.job.Some? { TimerLines(env, c); }
  }

  /** The copy waits for its replication, and the step acknowledges it. */
  predicate AcksWaiting(c: Ctx, cause: Cause)
  {
    c.job.Some? && c.job.value.state == WaitRepl && cause.Msg? && cause.msg.SetAck?
  }

  lemma {:induction false} GotAckLines(env: Env, c: Ctx, sender: NodeId, known: bool)
    requires c.job.Some?
    ensures GotAckReceived(env, c, sender, known).log == c.log
  {
  }

  lemma {:induction false} QueuedLines(env: Env, c: Ctx, sender: NodeId, working: bool)
    requires c.job.Some?
    ensures OnQueued(env, c, sender, working).log == c.log && OnWillQueue(env, c, sender).log == c.log
  {
  }

  lemma {:induction false} GotJobLines(env: Env, c: Ctx, sender: NodeId, target: Option<NodeId>)
    requires c.job.Some?
    ensures |OnGotJob(env, c, sender, target).log| <= |c.log| + 1
  {
  }

  lemma {:induction false} HandleLines(env: Env, c: Ctx, sender: NodeId, m: Message, target: Option<NodeId>)
    requires !AcksWaiting(c, Msg(sender, m, target))
    ensures |Handle(env, c, sender, m, target).log| <= |c.log| + 1
  {
    if c.job.Some? {
      if m.GotAck? { GotAckLines(env, c, sender, m.known); }
      else if m.SetAck? { AckLines(env, c, sender, m.mayhave); }
      else if m.GotJob? { GotJobLines(env, c, sender, target); }
      else if m.Queued? || m.Working? || m.WillQueue? { QueuedLines(env, c, sender, m.Working?); }
    }
  }

  /** The copy after the first of the two lines such a step may append. */
  function Midway(env: Env, c: Ctx, cause: Cause): Ctx
    requires AcksWaiting(c, cause)
  {
    ReplicationAchieved(env, c, cause.target)
  }

  lemma {:induction false} MidwayLines(env: Env, c: Ctx, cause: Cause)
    requires AcksWaiting(c, cause)
    ensures Logs(c, Midway(env, c, cause)) && |Midway(env, c, cause).log| == |c.log| + 1
    ensures Midway(env, c, cause).log <= Step(env, c, cause).log
    ensures |Step(env, c, cause).log| <= |c.log| + 2
  {
    var c1 := Midway(env, c, cause);
    AchievedSends(env, c, cause.target);
    if c1.job.Some? {
      AckLines(env, c1, cause.sender, cause.msg.mayhave);
      AckAndAnswerSends(env, c1, cause.sender, cause.msg.mayhave);
    }
  }

  lemma {:induction false} OneLine(env: Env, c: Ctx, cause: Cause)
    requires !AcksWaiting(c, cause)
    ensures |Step(env, c, cause).log| <= |c.log| + 1
  {
    match cause
    case Msg(sender, m, target) => HandleLines(env, c, sender, m, target);
    case Own(a) => ActLines(env, c, a);
  }

  // ----------------------------------------------------------- the stages of a step

  /** The copy of a node when p lines of a step are written. */
  function Stage(env: Env, c: Ctx, cause: Cause, p: nat): Ctx
  {
    if p == 0 then c
    else if AcksWaiting(c, cause) && p < |NewLines(c, Step(env, c, cause))| then Midway(env, c, cause)
    else Step(env, c, cause)
  }

  lemma {:induction false} PrefixLines(c: Ctx, c1: Ctx, c': Ctx, p: nat)
    requires c.log <= c1.log <= c'.log && |c1.log| == |c.log| + p
    ensures p <= |NewLines(c, c')| && c1.log == c.log + NewLines(c, c')[..p]
  {
    assert c1.log == c'.log[..|c.log| + p];
  }

  /** Its log is then the log before the step and these lines. */
  lemma {:induction false} StageLog(env: Env, c: Ctx, cause: Cause, p: nat)
    requires p <= |NewLines(c, Step(env, c, cause))|
    ensures var s := Stage(env, c, cause, p);
            s.id == c.id && s.log == c.log + NewLines(c, Step(env, c, cause))[..p]
  {
    var c' := Step(env, c, cause);
    StepSends(env, c, cause);
    LinesOf(c, c');
    if AcksWaiting(c, cause) && 0 < p < |NewLines(c, c')| {
      MidwayLines(env, c, cause);
      AchievedSends(env, c, cause.target);
      PrefixLines(c, Midway(env, c, cause), c', 1);
    } else if p > 0 {
      if !AcksWaiting(c, cause) { OneLine(env, c, cause); }
      assert NewLines(c, c')[..p] == NewLines(c, c');
    } else {
      assert c.log + [] == c.log;
    }
  }

  /** In every run, the log of a step under way has the job exactly when the copy is live
      and unexpired at that stage. */
  lemma {:induction false} StageFollows(w: World, e: Event, p: nat, u: nat)
    requires Reachable(w) && Enabled(w, e)
    ensures LogAt(Stage(e.env, w.nodes[e.env.me], e.cause, p), u)
  {
    var n, c := e.env.me, w.nodes[e.env.me];
    ReachableInv(w);
    assert NodeOk(w, n);
    assert LogAt(c, u);
    StepCopy(w, e);
    assert LogAt(Step(e.env, c, e.cause), u);
    if AcksWaiting(c, e.cause) {
      AchievedKeeps(e.env, c, e.cause.target, FactsOf(w, n));
      assert LogAt(Midway(e.env, c, e.cause), u);
    }
  }

  // -------------------------------------------------------------------- whole logs

  /** The lines a step of a cluster appends to the log of its node. */
  function LinesOfStep(k: Cluster, e: JobEvent): seq<Command>
    requires Possible(k, e)
  {
    var w := WorldOf(k, e.id);
    NewLines(w.nodes[e.event.env.me], Next(w, e.event).nodes[e.event.env.me])
  }

  /** The copy of the job of a step when p lines of it are written. */
  function StageOf(k: Cluster, e: JobEvent, p: nat): Option<Job>
    requires Possible(k, e)
  {
    Stage(e.event.env, WorldOf(k, e.id).nodes[e.event.env.me], e.event.cause, p).job
  }

  /** The jobs of a node when p lines of its next step are written. */
  function JobsAt(k: Cluster, e: JobEvent, p: nat): map<JobId, Job>
    requires Possible(k, e)
  {
    var jobs := JobsOf(k, e.event.env.me);
    match StageOf(k, e, p)
    case Some(j) => jobs[e.id := j]
    case None => jobs - {e.id}
  }

  lemma {:induction false} StageLoaded(k: Cluster, e: JobEvent, p: nat, u: nat)
    requires ClusterOk(k) && Possible(k, e) && p <= |LinesOfStep(k, e)|
    ensures var log, j := k.logs[e.event.env.me] + LinesOfStep(k, e)[..p], StageOf(k, e, p);
            Loaded(log, e.id, u) == if j.Some? && (j.value.state == Active || j.value.state == JobState.Queued)
              && j.value.etime > u then Some(j.value.etime) else None
  {
    var n, w := e.event.env.me, WorldOf(k, e.id);
    var lines := LinesOfStep(k, e)[..p];
    assert WorldOk(k, e.id) && LogAbout(k, n, e.id);
    StepAbout(k, e);
    StageLog(e.event.env, w.nodes[n], e.event.cause, p);
    StageFollows(w, e.event, p, u);
    AboutLines(k.logs[n], lines, e.id, e.id);
    LoadedAbout(k.logs[n] + lines, e.id, u);
  }

  /** What a step appends is about its job. */
  lemma {:induction false} StepAbout(k: Cluster, e: JobEvent)
    requires ClusterOk(k) && Possible(k, e)
    ensures WorldOf(k, e.id).nodes[e.event.env.me].id == e.id
    ensures forall i :: 0 <= i < |LinesOfStep(k, e)| ==> LinesOfStep(k, e)[i].id == e.id
  {
    var w := WorldOf(k, e.id);
    assert WorldOk(k, e.id);
    ReachableInv(w);
    assert NodeOk(w, e.event.env.me);
    StepLines(e.event.env, w.nodes[e.event.env.me], e.event.cause);
  }

  lemma {:induction false} OtherLoaded(k: Cluster, e: JobEvent, p: nat, u: nat, id: JobId)
    requires ClusterOk(k) && Possible(k, e) && p <= |LinesOfStep(k, e)| && id != e.id
    ensures var n := e.event.env.me;
            Loaded(k.logs[n] + LinesOfStep(k, e)[..p], id, u) == Loaded(k.logs[n], id, u)
  {
    var n, lines := e.event.env.me, LinesOfStep(k, e)[..p];
    StepAbout(k, e);
    AboutLines(k.logs[n], lines, e.id, id);
    assert About(k.logs[n], id) + [] == About(k.logs[n], id);
    LoadedAbout(k.logs[n] + lines, id, u);
    LoadedAbout(k.logs[n], id, u);
  }

  /** In every run of a cluster with many jobs, when a node stops with any number of the
      lines of its last step written, its log replays to exactly the jobs that were active
      or queued, and not expired, when the last of these lines was written. */
  lemma {:induction false} StageReplays(k: Cluster, e: JobEvent, p: nat, u: nat)
    requires ClusterOk(k) && Possible(k, e) && p <= |LinesOfStep(k, e)|
    ensures Replay(k.logs[e.event.env.me] + LinesOfStep(k, e)[..p], u) == Survivors(JobsAt(k, e, p), u)
  {
    var n := e.event.env.me;
    var log := k.logs[n] + LinesOfStep(k, e)[..p];
    RunAssembles(k, n);
    forall id ensures SameAt(Replay(log, u), Survivors(JobsAt(k, e, p), u), id) {
      ReplayLoaded(log, id, u);
      if id == e.id {
        StageLoaded(k, e, p, u);
      } else {
        OtherLoaded(k, e, p, u, id);
        OneJob(n, JobsOf(k, n), k.logs[n], k.worlds, u, id);
      }
    }
    SameMaps(Replay(log, u), Survivors(JobsAt(k, e, p), u));
  }
}
