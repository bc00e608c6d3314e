/** What every step keeps of one node's copy of a job: an acknowledged copy stays
    acknowledged, its confirmations are acknowledges of listed nodes, a waiting copy
    counts nodes that have the job, and the AOF follows the copy.
 */
module JobCopy {
  import opened Options
  import opened JobSpec
  import opened JobSteps

  datatype Cause = Msg(sender: NodeId, msg: Message, target: Option<NodeId>) | Own(action: Action)

  function Step(env: Env, c: Ctx, cause: Cause): Ctx
  {
    match cause
    case Msg(sender, m, target) => Handle(env, c, sender, m, target)
    case Own(a) => Act(env, c, a)
  }

  predicate Adds(cause: Cause) { cause.Own? && cause.action.DoAddJob? }

  lemma {:induction false} StepSends(env: Env, c: Ctx, cause: Cause)
    ensures var c' := Step(env, c, cause);
            Only(env, c, c',
              MaySend(c', Adds(cause) || Originates(c), cause.Msg? && Answers(c, cause.sender, cause.msg)))
  {
    match cause
    case Msg(sender, m, target) => HandleSends(env, c, sender, m, target);
    case Own(a) => ActSends(env, c, a);
  }

  lemma {:induction false} SameSize<T>(a: set<T>, b: set<T>)
    requires a <= b && |a| >= |b|
    ensures a == b
  {
    assert |b - a| == |b| - |a|;
  }

  // ------------------------------------------------------------------------- the AOF

  /** The expire time replaying a log at time u leaves a job with, if it leaves it:
      loadjobCommand and deljobCommand. */
  function Loaded(log: seq<Command>, id: JobId, u: nat): Option<nat>
    decreases |log|
  {
    if log == [] then None
    else
      var before := Loaded(log[..|log| - 1], id, u);
      match log[|log| - 1]
      case LoadJob(i, etime) => if i != id || etime <= u || before.Some? then before else Some(etime)
      case DelJobCommand(i) => if i == id then None else before
  }

  lemma {:induction false} LoadedSnoc(log: seq<Command>, cmd: Command, id: JobId, u: nat)
    ensures Loaded(log + [cmd], id, u) ==
            match cmd
            case LoadJob(i, etime) =>
              if i != id || etime <= u || Loaded(log, id, u).Some? then Loaded(log, id, u) else Some(etime)
            case DelJobCommand(i) => if i == id then None else Loaded(log, id, u)
  {
    assert (log + [cmd])[..|log|] == log;
  }

  predicate IsLive(c: Ctx) { c.job.Some? && (c.job.value.state == Active || c.job.value.state == JobState.Queued) }

  /** At time u, replaying the log has the job exactly if it is live and unexpired. */
  predicate LogAt(c: Ctx, u: nat)
  {
    Loaded(c.log, c.id, u) == if IsLive(c) && c.job.value.etime > u then Some(c.job.value.etime) else None
  }

  ghost predicate LogOk(c: Ctx) { forall u :: LogAt(c, u) }

  /** Changes that keep the log, whether the job is live, and its expire time. */
  predicate SameLife(c: Ctx, c': Ctx)
  {
    && c'.id == c.id && c'.log == c.log && IsLive(c') == IsLive(c)
    && (IsLive(c) ==> c'.job.value.etime == c.job.value.etime)
  }

  lemma {:induction false} SameLogOk(c: Ctx, c': Ctx)
    requires LogOk(c) && SameLife(c, c')
    ensures LogOk(c')
  {
    forall u ensures LogAt(c', u) { assert LogAt(c, u); }
  }

  lemma {:induction false} DeletedLogOk(c: Ctx, c': Ctx)
    requires c'.id == c.id && c'.log == c.log + [DelJobCommand(c.id)] && !IsLive(c')
    ensures LogOk(c')
  {
    forall u ensures LogAt(c', u) { LoadedSnoc(c.log, DelJobCommand(c.id), c.id, u); }
  }

  lemma {:induction false} LoadedLogOk(c: Ctx, c': Ctx)
    requires LogOk(c) && !IsLive(c) && IsLive(c') && c'.id == c.id
             && c'.log == c.log + [LoadJob(c.id, c'.job.value.etime)]
    ensures LogOk(c')
  {
    forall u ensures LogAt(c', u) {
      assert LogAt(c, u);
      LoadedSnoc(c.log, LoadJob(c.id, c'.job.value.etime), c.id, u);
    }
  }

  // ------------------------------------------------------------------- what is kept

  /** A copy that lists its own node, and the nodes whose acknowledges it may count. */
  predicate CopyOk(me: NodeId, j: Job, acks: set<NodeId>)
  {
    && me in j.nodesDelivered
    && (j.state == Acked && j.nodesConfirmed.Some? ==>
      && me in j.nodesConfirmed.value
      && j.nodesConfirmed.value <= j.nodesDelivered
      && j.nodesConfirmed.value - {me} <= acks)
  }

  /** A copy that waits for replication counts nodes that have the job; a live copy
      counts nothing. */
  predicate WaitOk(me: NodeId, j: Job, holders: set<NodeId>)
  {
    && (j.state == WaitRepl ==>
      && j.client && j.nodesConfirmed.Some? && j.nodesConfirmed.value <= holders
      && (me in j.nodesConfirmed.value ==> me in j.nodesDelivered))
    && (j.state == Active || j.state == JobState.Queued ==> j.nodesConfirmed.None?)
  }

  /** listed: the copy began as one that lists its own node. */
  datatype Facts = Facts(me: NodeId, acks: set<NodeId>, holders: set<NodeId>, listed: bool)

  ghost predicate CtxOk(f: Facts, c: Ctx)
  {
    && LogOk(c)
    && (c.job.Some? ==> WaitOk(f.me, c.job.value, f.holders) && (f.listed ==> CopyOk(f.me, c.job.value, f.acks)))
  }

  /** From c to c' what must be kept is kept. */
  ghost predicate Keeps(f: Facts, c: Ctx, c': Ctx)
  {
    && CtxOk(f, c')
    && (NotLive(c) ==> NotLive(c'))
    && (Originates(c') ==> Originates(c))
  }

  /** Knowing more acknowledges and holders breaks nothing. */
  lemma {:induction false} FactsGrow(f: Facts, f': Facts, c: Ctx)
    requires CtxOk(f, c) && f'.me == f.me && f.acks <= f'.acks && f.holders <= f'.holders
    requires c.job.Some? && f'.listed ==> f.listed
    ensures CtxOk(f', c)
  {
  }

  lemma {:induction false} EnqueueKeeps(env: Env, c: Ctx, nack: bool, f: Facts)
    requires c.job.Some? && CtxOk(f, c) && c.job.value.state == Active
    ensures Keeps(f, c, EnqueueJob(env, c, nack))
  {
    SameLogOk(c, EnqueueJob(env, c, nack));
  }

  lemma {:induction false} DequeueKeeps(c: Ctx, f: Facts)
    requires c.job.Some? && CtxOk(f, c)
    ensures Keeps(f, c, DequeueJob(c))
  {
    SameLogOk(c, DequeueJob(c));
  }

  lemma {:induction false} UnregisterKeeps(env: Env, c: Ctx, f: Facts)
    requires c.job.Some? && CtxOk(f, c)
    ensures Keeps(f, c, Unregister(env, c))
  {
    var c' := Unregister(env, c);
    if IsLive(c) { DeletedLogOk(c, c'); } else { SameLogOk(c, c'); }
  }

  lemma {:induction false} DeleteKeeps(env: Env, c: Ctx, f: Facts)
    requires c.job.Some? && CtxOk(f, c)
    ensures Keeps(f, c, DeleteFromCluster(env, c))
  {
    var c1 := Broadcast(env, c, c.job.value.nodesDelivered, DelJob);
    SameLogOk(c, c1);
    UnregisterKeeps(env, c1, f);
  }

  lemma {:induction false} AcknowledgeKeeps(c: Ctx, f: Facts)
    requires c.job.Some? && CtxOk(f, c)
    ensures Keeps(f, c, Acknowledge(c)) && IsAcked(Acknowledge(c))
  {
    if c.job.value.state != Acked { DeletedLogOk(c, Acknowledge(c)); }
  }

  lemma {:induction false} SameSizes(j: Job, f: Facts)
    requires CopyOk(f.me, j, f.acks) && j.state == Acked && j.nodesConfirmed.Some?
    requires |j.nodesConfirmed.value| >= |j.nodesDelivered|
    ensures j.nodesDelivered - {f.me} <= f.acks
  {
    SameSize(j.nodesConfirmed.value, j.nodesDelivered);
  }

  /** Garbage collection keeps what must be kept, and removes a copy only when every
      node it lists has acknowledged. */
  lemma {:induction false} TryGCKeeps(env: Env, c: Ctx, f: Facts)
    requires c.job.Some? && CtxOk(f, c) && f.me == env.me
    ensures Keeps(f, c, TryGC(env, c))
    ensures f.listed && TryGC(env, c).job.None? ==> c.job.value.nodesDelivered - {f.me} <= f.acks
  {
    var j := c.job.value;
    var c' := TryGC(env, c);
    if j.state == Acked {
      var confirmed := if j.nodesConfirmed.Some? then j.nodesConfirmed.value else {env.me};
      var j1 := j.(nodesConfirmed := Some(confirmed));
      SameLogOk(c, c');
      if f.listed && c'.job.None? { SameSizes(j1, f); }
    }
  }

  lemma {:induction false} CountedOk(j: Job, sender: NodeId, known: bool, f: Facts)
    requires CopyOk(f.me, j, f.acks) && sender in f.acks
    ensures CopyOk(f.me, Counted(j, sender, known), f.acks)
  {
  }

  lemma {:induction false} CountAckKeeps(env: Env, c: Ctx, sender: NodeId, known: bool, f: Facts)
    requires c.job.Some? && CtxOk(f, c) && sender in f.acks && c.job.value.state == Acked
    ensures Keeps(f, c, CountAck(env, c, sender, known))
    ensures f.listed && CountAck(env, c, sender, known).job.None? ==> c.job.value.nodesDelivered - {f.me} <= f.acks
  {
    var j := Counted(c.job.value, sender, known);
    if f.listed { CountedOk(c.job.value, sender, known, f); }
    var c1 := Set(c, j);
    SameLogOk(c, c1);
    if j.nodesConfirmed.Some? && |j.nodesConfirmed.value| >= |j.nodesDelivered| {
      DeleteKeeps(env, c1, f);
      if f.listed { SameSizes(j, f); }
    }
  }

  lemma {:induction false} DummyGotAckKeeps(env: Env, c: Ctx, sender: NodeId, known: bool, f: Facts)
    requires c.job.Some? && CtxOk(f, c) && !f.listed && c.job.value.state == Acked
    ensures Keeps(f, c, DummyGotAck(env, c, sender, known))
  {
    SameLogOk(c, DummyGotAck(env, c, sender, known));
  }

  lemma {:induction false} GotAckKeeps(env: Env, c: Ctx, sender: NodeId, known: bool, f: Facts)
    requires c.job.Some? && CtxOk(f, c) && sender in f.acks
    ensures Keeps(f, c, GotAckReceived(env, c, sender, known))
    ensures f.listed && GotAckReceived(env, c, sender, known).job.None? ==>
            c.job.value.nodesDelivered - {f.me} <= f.acks
  {
    if c.job.value.state == Acked {
      if |c.job.value.nodesDelivered| == 0 {
        DummyGotAckKeeps(env, c, sender, known, f);
      } else {
        CountAckKeeps(env, c, sender, known, f);
      }
    }
  }

  /** Changes to neither the state nor the confirmations. */
  predicate Minor(c: Ctx, c': Ctx)
  {
    && c.job.Some? && c'.job.Some? && c'.id == c.id && c'.log == c.log
    && var (j, j') := (c.job.value, c'.job.value);
       && j'.state == j.state && j'.nodesConfirmed == j.nodesConfirmed && j'.client == j.client
       && j'.etime == j.etime && j.nodesDelivered <= j'.nodesDelivered
  }

  lemma {:induction false} MinorKeeps(c: Ctx, c': Ctx, f: Facts)
    requires CtxOk(f, c) && Minor(c, c')
    ensures Keeps(f, c, c')
  {
    SameLogOk(c, c');
  }

  /** New receivers are candidates. */
  lemma {:induction false} ReceiversFrom(delivered: set<NodeId>, candidates: seq<NodeId>, repl: nat)
    ensures forall n :: n in AddReceivers(delivered, candidates, repl) ==> n in delivered || n in candidates
    decreases |candidates|
  {
    if repl > 0 && candidates != [] {
      if candidates[0] in delivered {
        ReceiversFrom(delivered, candidates[1..], repl);
      } else {
        ReceiversFrom(delivered + {candidates[0]}, candidates[1..], repl - 1);
      }
    }
  }

  lemma {:induction false} ReceiversGrow(delivered: set<NodeId>, candidates: seq<NodeId>, repl: nat)
    ensures delivered <= AddReceivers(delivered, candidates, repl)
    decreases |candidates|
  {
    if repl > 0 && candidates != [] {
      if candidates[0] in delivered {
        ReceiversGrow(delivered, candidates[1..], repl);
      } else {
        ReceiversGrow(delivered + {candidates[0]}, candidates[1..], repl - 1);
      }
    }
  }

  /** As many new receivers as asked for, or all candidates. */
  lemma {:induction false} ReceiversExact(delivered: set<NodeId>, candidates: seq<NodeId>, repl: nat)
    ensures var r := AddReceivers(delivered, candidates, repl);
            && |r| <= |delivered| + repl
            && (|r| == |delivered| + repl || forall n :: n in candidates ==> n in r)
    decreases |candidates|
  {
    if repl > 0 && candidates != [] {
      var n, rest := candidates[0], candidates[1..];
      var d, k := if n in delivered then delivered else delivered + {n}, if n in delivered then repl else repl - 1;
      ReceiversExact(d, rest, k);
      ReceiversGrow(d, rest, k);
      var r := AddReceivers(d, rest, k);
      if |r| != |delivered| + repl {
        forall m | m in candidates ensures m in r {
          assert m == n || m in rest;
        }
      }
    }
  }

  lemma {:induction false} ReplicateKeeps(env: Env, c: Ctx, repl: nat, noreply: bool, candidates: seq<NodeId>,
      quiet: set<NodeId>, f: Facts)
    requires c.job.Some? && CtxOk(f, c)
    ensures Keeps(f, c, Replicate(env, c, repl, noreply, candidates, quiet))
  {
    ReceiversGrow(c.job.value.nodesDelivered, candidates, repl);
    MinorKeeps(c, Replicate(env, c, repl, noreply, candidates, quiet), f);
  }

  lemma {:induction false} AchievedKeeps(env: Env, c: Ctx, target: Option<NodeId>, f: Facts)
    requires c.job.Some? && CtxOk(f, c) && c.job.value.state == WaitRepl && f.me == env.me
    ensures Keeps(f, c, ReplicationAchieved(env, c, target))
    ensures f.listed ==>
            ReplicationAchieved(env, c, target).job.Some?
            && ReplicationAchieved(env, c, target).job.value.nodesDelivered == c.job.value.nodesDelivered
  {
    var c' := ReplicationAchieved(env, c, target);
    if env.me !in c.job.value.nodesDelivered { DeletedLogOk(c, c'); } else { LoadedLogOk(c, c'); }
  }

  /** A waiting copy with one more confirmation. */
  lemma {:induction false} GotJobKeeps(env: Env, c: Ctx, sender: NodeId, target: Option<NodeId>, f: Facts)
    requires c.job.Some? && CtxOk(f, c) && f.me == env.me && sender in f.holders && sender != env.me
    ensures Keeps(f, c, OnGotJob(env, c, sender, target))
  {
    var j := c.job.value;
    if j.state == WaitRepl {
      var c1 := Set(c, j.(nodesConfirmed := Some(j.nodesConfirmed.value + {sender})));
      SameLogOk(c, c1);
      if |j.nodesConfirmed.value + {sender}| == j.repl { AchievedKeeps(env, c1, target, f); }
    }
  }

  lemma {:induction false} AckAndAnswerKeeps(env: Env, c: Ctx, sender: NodeId, mayhave: nat, f: Facts)
    requires c.job.Some? && CtxOk(f, c) && f.me == env.me
    ensures Keeps(f, c, AckAndAnswer(env, c, sender, mayhave))
    ensures f.listed && AckAndAnswer(env, c, sender, mayhave).job.None? ==>
            c.job.value.nodesDelivered - {f.me} <= f.acks
  {
    var c1 := Acknowledge(c);
    AcknowledgeKeeps(c, f);
    var c2 := Send(env, c1, sender, GotAck(true));
    MinorKeeps(c1, c2, f);
    TryGCKeeps(env, c1, f);
    TryGCKeeps(env, c2, f);
  }

  lemma {:induction false} SetAckKeeps(env: Env, c: Ctx, sender: NodeId, mayhave: nat, target: Option<NodeId>, f: Facts)
    requires CtxOk(f, c) && f.me == env.me
    ensures Keeps(f, c, OnSetAck(env, c, sender, mayhave, target))
    ensures f.listed && c.job.Some? && OnSetAck(env, c, sender, mayhave, target).job.None? ==>
            c.job.value.nodesDelivered - {f.me} <= f.acks
  {
    if c.job.None? {
      SameLogOk(c, Send(env, c, sender, GotAck(false)));
    } else if c.job.value.state == WaitRepl {
      var c1 := ReplicationAchieved(env, c, target);
      AchievedKeeps(env, c, target, f);
      if c1.job.Some? { AckAndAnswerKeeps(env, c1, sender, mayhave, f); }
    } else {
      AckAndAnswerKeeps(env, c, sender, mayhave, f);
    }
  }

  lemma {:induction false} OnEnqueueKeeps(env: Env, c: Ctx, after: nat, f: Facts)
    requires c.job.Some? && CtxOk(f, c) && c.job.value.state != WaitRepl
    ensures Keeps(f, c, OnEnqueue(env, c, after))
  {
    var j := c.job.value;
    if j.state == Active {
      var c1 := Set(c, j.(bcastQueued := false));
      MinorKeeps(c, c1, f);
      EnqueueKeeps(env, c1, false, f);
      MinorKeeps(c, Set(c1, Requeue(c1.job.value, env.now + after * 1000)), f);
    }
  }

  lemma {:induction false} OnQueuedKeeps(env: Env, c: Ctx, sender: NodeId, working: bool, f: Facts)
    requires c.job.Some? && CtxOk(f, c)
    ensures Keeps(f, c, OnQueued(env, c, sender, working))
  {
    var c' := OnQueued(env, c, sender, working);
    if c.job.value.state == Acked {
      MinorKeeps(c, c', f);
    } else {
      DequeueKeeps(c, f);
      MinorKeeps(if working || sender in env.greater then DequeueJob(c) else c, c', f);
    }
  }

  lemma {:induction false} OnWillQueueKeeps(env: Env, c: Ctx, sender: NodeId, f: Facts)
    requires c.job.Some? && CtxOk(f, c)
    ensures Keeps(f, c, OnWillQueue(env, c, sender))
  {
    MinorKeeps(c, OnWillQueue(env, c, sender), f);
  }

  lemma {:induction false} ReplJobKeeps(env: Env, c: Ctx, sender: NodeId, m: Message, f: Facts)
    requires m.ReplJob? && CtxOk(f, c) && (c.job.None? && f.listed ==> f.me in m.nodes)
    ensures CtxOk(f, OnReplJob(env, c, sender, m))
    ensures Originates(OnReplJob(env, c, sender, m)) ==> Originates(c)
  {
    var c' := OnReplJob(env, c, sender, m);
    if c'.job.Some? {
      if c.job.Some? { MinorKeeps(c, c', f); } else { LoadedLogOk(c, c'); }
    }
  }

  /** Every message keeps what must be kept. */
  lemma {:induction false} HandleKeeps(env: Env, c: Ctx, sender: NodeId, m: Message, target: Option<NodeId>, f: Facts)
    requires CtxOk(f, c) && f.me == env.me && sender != env.me
    requires m.GotAck? ==> sender in f.acks
    requires m.GotJob? ==> sender in f.holders
    requires m.Enqueue? && c.job.Some? ==> c.job.value.state != WaitRepl
    requires m.ReplJob? && c.job.None? && f.listed ==> f.me in m.nodes
    ensures CtxOk(f, Handle(env, c, sender, m, target))
    ensures Originates(Handle(env, c, sender, m, target)) ==> Originates(c)
    ensures !m.ReplJob? && NotLive(c) ==> NotLive(Handle(env, c, sender, m, target))
  {
    if m.ReplJob? { ReplJobKeeps(env, c, sender, m, f); }
    else if m.SetAck? { SetAckKeeps(env, c, sender, m.mayhave, target, f); }
    else if c.job.None? {}
    else if m.GotJob? { GotJobKeeps(env, c, sender, target, f); }
    else if m.GotAck? { GotAckKeeps(env, c, sender, m.known, f); }
    else if m.DelJob? { UnregisterKeeps(env, c, f); }
    else if m.Enqueue? { OnEnqueueKeeps(env, c, m.after, f); }
    else if m.WillQueue? { OnWillQueueKeeps(env, c, sender, f); }
    else { OnQueuedKeeps(env, c, sender, m.Working?, f); }
  }

  lemma {:induction false} ProcessKeeps(env: Env, c: Ctx, f: Facts)
    requires c.job.Some? && CtxOk(f, c) && f.me == env.me
    ensures Keeps(f, c, Process(env, c))
    ensures f.listed && c.job.value.etime > env.unixtime && Process(env, c).job.None? ==>
            c.job.value.nodesDelivered - {f.me} <= f.acks
  {
    if c.job.value.etime <= env.unixtime {
      UnregisterKeeps(env, c, f);
    } else {
      var c1 := ProcessWillQueue(env, c);
      MinorKeeps(c, c1, f);
      RequeueKeeps(env, c1, f);
      TryGCKeeps(env, ProcessRequeue(env, c1), f);
    }
  }

  lemma {:induction false} RequeueKeeps(env: Env, c: Ctx, f: Facts)
    requires c.job.Some? && CtxOk(f, c)
    ensures Keeps(f, c, ProcessRequeue(env, c))
    ensures ProcessRequeue(env, c).job.value.nodesDelivered == c.job.value.nodesDelivered
  {
    var j := c.job.value;
    var c' := ProcessRequeue(env, c);
    if j.state == Active {
      var c1 := EnqueueJob(env, c, false);
      EnqueueKeeps(env, c, false, f);
      if c'.job.value.state == JobState.Queued { MinorKeeps(c1, c', f); } else { MinorKeeps(c, c', f); }
    } else {
      MinorKeeps(c, c', f);
    }
  }

  lemma {:induction false} AckJobKeeps(env: Env, c: Ctx, minutes: nat, f: Facts)
    requires CtxOk(f, c) && f.me == env.me && (c.job.None? ==> !f.listed)
    ensures Keeps(f, c, AckJob(env, c, minutes))
    ensures f.listed && c.job.Some? && AckJob(env, c, minutes).job.None? ==>
            c.job.value.nodesDelivered - {f.me} <= f.acks
  {
    if c.job.None? {
      var c1 := Set(c, DummyAck(env, minutes));
      SameLogOk(c, c1);
      TryGCKeeps(env, c1, f);
    } else {
      AcknowledgeKeeps(c, f);
      TryGCKeeps(env, Acknowledge(c), f);
    }
  }

  lemma {:induction false} TimeoutKeeps(env: Env, c: Ctx, f: Facts)
    requires c.job.Some? && CtxOk(f, c)
    ensures Keeps(f, c, Timeout(env, c))
  {
    if c.job.value.state == WaitRepl { DeletedLogOk(c, Timeout(env, c)); } else { SameLogOk(c, Timeout(env, c)); }
  }

  lemma {:induction false} AddJobKeeps(env: Env, c: Ctx, a: AddArgs, f: Facts)
    requires CtxOk(f, c) && c.job.None? && f.me == env.me && f.me in f.holders && env.now > 0
             && (f.listed ==> !Refuses(env))
    ensures CtxOk(f, AddJob(env, c, a))
  {
    var additional := if Refuses(env) then a.replicate else a.replicate - 1;
    var c' := AddJob(env, c, a);
    if additional > a.reachable || env.paused {
      SameLogOk(c, c');
    } else {
      var c1 := Set(c, NewJob(env, a));
      if (a.replicate > 1 || Refuses(env)) && !a.async {
        var c2 := Set(c1, c1.job.value.(client := true, nodesConfirmed := Some(if Refuses(env) then {} else {env.me})));
        SameLogOk(c, c2);
        if additional > 0 { ReplicateKeeps(env, c2, additional, a.async, a.candidates, a.quiet, f); }
      } else if Refuses(env) {
        SameLogOk(c, c');
      } else {
        var c2 := AddedAtOnce(env, c1, a);
        LoadedLogOk(c, c2);
        if additional > 0 { ReplicateKeeps(env, c2, additional, a.async, a.candidates, a.quiet, f); }
      }
    }
  }

  lemma {:induction false} ActKeeps(env: Env, c: Ctx, a: Action, f: Facts)
    requires CtxOk(f, c) && f.me == env.me
    requires a.DoAddJob? ==> c.job.None? && f.me in f.holders && env.now > 0 && (f.listed ==> !Refuses(env))
    requires a.DoAckJob? && c.job.None? ==> !f.listed
    ensures CtxOk(f, Act(env, c, a))
    ensures !a.DoAddJob? && Originates(Act(env, c, a)) ==> Originates(c)
    ensures !a.DoAddJob? && NotLive(c) ==> NotLive(Act(env, c, a))
  {
    if a.DoAddJob? { AddJobKeeps(env, c, a.args, f); }
    else if a.DoAckJob? { AckJobKeeps(env, c, a.minutes, f); }
    else if a.DoFastAck? {
      if c.job.Some? { DeleteKeeps(env, c, f); } else { SameLogOk(c, FastAck(env, c)); }
    }
    else if c.job.None? {}
    else if a.DoDelJob? { UnregisterKeeps(env, c, f); }
    else if a.DoProcess? { ProcessKeeps(env, c, f); }
    else if a.DoTimeout? { TimeoutKeeps(env, c, f); }
    else if a.DoMoreReceivers? { ReplicateKeeps(env, c, 1, false, a.candidates, a.quiet, f); }
    else if a.DoFetch? { SameLogOk(c, Fetch(c)); }
    else if a.DoEnqueue? { if c.job.value.state == Active { EnqueueKeeps(env, c, a.nack, f); } }
    else if a.DoDequeue? { DequeueKeeps(c, f); }
    else {
      DequeueKeeps(c, f);
      MinorKeeps(DequeueJob(c), WorkingCommand(env, c), f);
    }
  }
}
