/** What the retry time of a job promises (README.md: RETRY): with 0 the job is handed
    to a consumer at most once in the whole cluster; otherwise every live copy goes on
    being put back in its queue.
 */
module Delivery {
  import opened Options
  import opened JobSpec
  import opened JobSteps
  import opened JobCopy
  import opened Protocol

  /** randomTimeError(DISQUE_TIME_ERR) is at least minus half of it. */
  predicate Timely(env: Env) { env.jitter >= -250 && env.now > 500 }

  /** A copy that may still be delivered, of a job that may be delivered once. */
  predicate Armed(c: Ctx)
  {
    c.job.Some? && c.job.value.retry == 0 && (c.job.value.qtime != 0 || c.job.value.state == JobState.Queued)
  }

  /** With a retry time a copy that is not acknowledged has a time to be queued at;
      without one, being queued is the last time. */
  predicate TimeOk(c: Ctx)
  {
    c.job.Some? ==>
      && (c.job.value.retry > 0 && c.job.value.state != Acked ==> c.job.value.qtime > 0)
      && (c.job.value.retry == 0 && c.job.value.state == JobState.Queued ==> c.job.value.qtime == 0)
  }

  /** From c to c' the times stay in order, and no copy is armed anew. */
  predicate Tame(c: Ctx, c': Ctx)
  {
    && TimeOk(c')
    && (Armed(c') ==> Armed(c))
    && (c.job.Some? && c'.job.Some? ==> c'.job.value.retry == c.job.value.retry)
  }

  lemma {:induction false} TameThen(c: Ctx, c1: Ctx, c2: Ctx)
    requires Tame(c, c1) && Tame(c1, c2) && c1.job.Some?
    ensures Tame(c, c2)
  {
  }

  lemma {:induction false} EnqueueTame(env: Env, c: Ctx, nack: bool)
    requires c.job.Some? && TimeOk(c) && Timely(env)
    ensures Tame(c, EnqueueJob(env, c, nack))
  {
  }

  lemma {:induction false} RequeueTame(c: Ctx, j: Job, qtime: int)
    requires c.job.Some? && TimeOk(c) && qtime > 0
    requires j.state == c.job.value.state && j.retry == c.job.value.retry && j.qtime == c.job.value.qtime
    ensures Tame(c, Set(c, Requeue(j, qtime)))
  {
  }

  lemma {:induction false} UnregisterTame(env: Env, c: Ctx)
    requires c.job.Some?
    ensures Tame(c, Unregister(env, c)) && Unregister(env, c).job.None?
  {
  }

  lemma {:induction false} TryGCTame(env: Env, c: Ctx)
    requires c.job.Some? && TimeOk(c)
    ensures Tame(c, TryGC(env, c))
  {
  }

  lemma {:induction false} GotAckTame(env: Env, c: Ctx, sender: NodeId, known: bool)
    requires c.job.Some? && TimeOk(c)
    ensures Tame(c, GotAckReceived(env, c, sender, known))
  {
    if |c.job.value.nodesDelivered| != 0 {
      assert Tame(c, CountAck(env, c, sender, known));
    }
  }

  lemma {:induction false} ReplicateTame(env: Env, c: Ctx, repl: nat, noreply: bool, candidates: seq<NodeId>,
      quiet: set<NodeId>)
    requires c.job.Some? && TimeOk(c)
    ensures Tame(c, Replicate(env, c, repl, noreply, candidates, quiet))
    ensures Replicate(env, c, repl, noreply, candidates, quiet).job.Some?
  {
  }

  lemma {:induction false} AchievedTame(env: Env, c: Ctx, target: Option<NodeId>)
    requires c.job.Some? && TimeOk(c) && Timely(env) && c.job.value.state == WaitRepl
    ensures Tame(c, ReplicationAchieved(env, c, target))
  {
  }

  lemma {:induction false} AckAndAnswerTame(env: Env, c: Ctx, sender: NodeId, mayhave: nat)
    requires c.job.Some? && TimeOk(c)
    ensures Tame(c, AckAndAnswer(env, c, sender, mayhave))
  {
    var c1 := Acknowledge(c);
    assert Tame(c, c1);
    TryGCTame(env, c1);
    TryGCTame(env, Send(env, c1, sender, GotAck(true)));
  }

  lemma {:induction false} SetAckTame(env: Env, c: Ctx, sender: NodeId, mayhave: nat, target: Option<NodeId>)
    requires TimeOk(c) && Timely(env)
    ensures Tame(c, OnSetAck(env, c, sender, mayhave, target))
  {
    if c.job.Some? {
      var c1 := if c.job.value.state == WaitRepl then ReplicationAchieved(env, c, target) else c;
      if c.job.value.state == WaitRepl { AchievedTame(env, c, target); }
      if c1.job.Some? { AckAndAnswerTame(env, c1, sender, mayhave); }
    }
  }

  lemma {:induction false} GotJobTame(env: Env, c: Ctx, sender: NodeId, target: Option<NodeId>)
    requires c.job.Some? && TimeOk(c) && Timely(env)
    ensures Tame(c, OnGotJob(env, c, sender, target))
  {
    var j := c.job.value;
    if j.state == WaitRepl {
      var s := (if j.nodesConfirmed.Some? then j.nodesConfirmed.value else {}) + {sender};
      var c1 := Set(c, j.(nodesConfirmed := Some(s)));
      AchievedTame(env, c1, target);
      TameThen(c, c1, OnGotJob(env, c, sender, target));
    }
  }

  lemma {:induction false} OnEnqueueTame(env: Env, c: Ctx, after: nat)
    requires c.job.Some? && TimeOk(c) && Timely(env)
    ensures Tame(c, OnEnqueue(env, c, after))
  {
    var c1 := Set(c, c.job.value.(bcastQueued := false));
    if after == 0 { EnqueueTame(env, c1, false); } else { RequeueTame(c1, c1.job.value, env.now + after * 1000); }
  }

  lemma {:induction false} OnQueuedTame(env: Env, c: Ctx, sender: NodeId, working: bool)
    requires c.job.Some? && TimeOk(c) && Timely(env)
    ensures Tame(c, OnQueued(env, c, sender, working))
  {
  }

  lemma {:induction false} HandleTame(env: Env, c: Ctx, sender: NodeId, m: Message, target: Option<NodeId>)
    requires TimeOk(c) && Timely(env)
    ensures Tame(c, Handle(env, c, sender, m, target))
  {
    if m.ReplJob? {
      ReplJobTame(env, c, sender, m);
    } else if m.SetAck? {
      SetAckTame(env, c, sender, m.mayhave, target);
    } else if c.job.Some? {
      HandleHeldTame(env, c, sender, m, target);
    }
  }

  lemma {:induction false} ReplJobTame(env: Env, c: Ctx, sender: NodeId, m: Message)
    requires m.ReplJob? && TimeOk(c) && Timely(env)
    ensures Tame(c, OnReplJob(env, c, sender, m))
  {
  }

  lemma {:induction false} HandleHeldTame(env: Env, c: Ctx, sender: NodeId, m: Message, target: Option<NodeId>)
    requires c.job.Some? && !m.ReplJob? && !m.SetAck? && TimeOk(c) && Timely(env)
    ensures Tame(c, Handle(env, c, sender, m, target))
  {
    if m.GotJob? {
      GotJobTame(env, c, sender, target);
    } else if m.GotAck? {
      GotAckTame(env, c, sender, m.known);
    } else if m.DelJob? {
      UnregisterTame(env, c);
    } else if m.Enqueue? {
      OnEnqueueTame(env, c, m.after);
    } else if m.WillQueue? {
      assert Tame(c, OnWillQueue(env, c, sender));
    } else {
      OnQueuedTame(env, c, sender, m.Working?);
    }
  }

  lemma {:induction false} ProcessRequeueTame(env: Env, c: Ctx)
    requires c.job.Some? && TimeOk(c) && Timely(env)
    ensures Tame(c, ProcessRequeue(env, c))
  {
  }

  lemma {:induction false} ProcessTame(env: Env, c: Ctx)
    requires c.job.Some? && TimeOk(c) && Timely(env)
    ensures Tame(c, Process(env, c))
  {
    if c.job.value.etime > env.unixtime {
      var c1 := ProcessWillQueue(env, c);
      assert Tame(c, c1);
      ProcessRequeueTame(env, c1);
      TryGCTame(env, ProcessRequeue(env, c1));
    } else {
      UnregisterTame(env, c);
    }
  }

  /** ADDJOB arms the copy of a job that may be delivered once; nothing else does. */
  lemma {:induction false} AddJobTimes(env: Env, c: Ctx, a: AddArgs)
    requires TimeOk(c) && Timely(env)
    ensures TimeOk(AddJob(env, c, a))
    ensures c.job.None? && AddJob(env, c, a).job.Some? ==> AddJob(env, c, a).job.value.retry == a.retry
  {
    var additional := if Refuses(env) then a.replicate else a.replicate - 1;
    if !(additional > a.reachable || env.paused || c.job.Some?) {
      var c1 := Set(c, NewJob(env, a));
      assert TimeOk(c1) && c1.job.value.retry == a.retry;
      AddedTimes(env, c1, a);
      var c2 :=
        if (a.replicate > 1 || Refuses(env)) && !a.async then
          Set(c1, c1.job.value.(client := true, nodesConfirmed := Some(if Refuses(env) then {} else {env.me})))
        else AddedAtOnce(env, c1, a);
      if additional > 0 { ReplicateTame(env, c2, additional, a.async, a.candidates, a.quiet); }
    }
  }

  lemma {:induction false} AddedTimes(env: Env, c: Ctx, a: AddArgs)
    requires c.job.Some? && c.job.value.state == WaitRepl && TimeOk(c) && Timely(env)
    ensures Tame(c, AddedAtOnce(env, c, a))
  {
    EnqueueTame(env, c, false);
  }

  lemma {:induction false} ActTame(env: Env, c: Ctx, a: Action)
    requires TimeOk(c) && Timely(env) && !a.DoAddJob?
    ensures Tame(c, Act(env, c, a))
  {
    if a.DoAckJob? {
      AckJobTame(env, c, a.minutes);
    } else if a.DoFastAck? {
      if c.job.Some? { UnregisterTame(env, Broadcast(env, c, c.job.value.nodesDelivered, DelJob)); }
    } else if c.job.Some? {
      ActHeldTame(env, c, a);
    }
  }

  lemma {:induction false} AckJobTame(env: Env, c: Ctx, minutes: nat)
    requires TimeOk(c)
    ensures Tame(c, AckJob(env, c, minutes))
  {
    if c.job.None? {
      var d := Set(c, DummyAck(env, minutes));
      assert TimeOk(d) && !Armed(d);
      TryGCTame(env, d);
    } else {
      assert Tame(c, Acknowledge(c));
      TryGCTame(env, Acknowledge(c));
    }
  }

  lemma {:induction false} WorkingTame(env: Env, c: Ctx)
    requires c.job.Some? && TimeOk(c) && Timely(env)
    ensures Tame(c, WorkingCommand(env, c))
  {
  }

  lemma {:induction false} TimeoutTame(env: Env, c: Ctx)
    requires c.job.Some? && TimeOk(c)
    ensures Tame(c, Timeout(env, c))
  {
  }

  lemma {:induction false} ActHeldTame(env: Env, c: Ctx, a: Action)
    requires c.job.Some? && TimeOk(c) && Timely(env) && !a.DoAddJob? && !a.DoAckJob? && !a.DoFastAck?
    ensures Tame(c, Act(env, c, a))
  {
    if a.DoDelJob? {
      UnregisterTame(env, c);
    } else if a.DoProcess? {
      ProcessTame(env, c);
    } else if a.DoTimeout? {
      TimeoutTame(env, c);
    } else if a.DoMoreReceivers? {
      ReplicateTame(env, c, 1, false, a.candidates, a.quiet);
    } else if a.DoFetch? {
      assert Tame(c, Fetch(c));
    } else if a.DoEnqueue? {
      EnqueueTame(env, c, a.nack);
    } else if a.DoDequeue? {
      assert Tame(c, DequeueJob(c));
    } else {
      WorkingTame(env, c);
    }
  }

  /** Every step but ADDJOB. */
  lemma {:induction false} StepTame(env: Env, c: Ctx, cause: Cause)
    requires TimeOk(c) && Timely(env) && !Adds(cause)
    ensures Tame(c, Step(env, c, cause))
  {
    if cause.Msg? { HandleTame(env, c, cause.sender, cause.msg, cause.target); } else { ActTame(env, c, cause.action); }
  }

  // ------------------------------------------------------- the retry time of a message

  /** No REPLJOB is sent from c to c'. */
  predicate NoRepl(c: Ctx, c': Ctx) { forall p :: p in c'.out && p.msg.ReplJob? ==> p in c.out }

  /** Every REPLJOB sent from c to c' has this retry time. */
  predicate ReplWith(retry: nat, c: Ctx, c': Ctx)
  {
    forall p :: p in c'.out && p.msg.ReplJob? ==> p in c.out || p.msg.retry == retry
  }

  lemma {:induction false} OnlyNoRepl(env: Env, c: Ctx, c': Ctx, kinds: set<Kind>)
    requires Only(env, c, c', kinds) && KRepl !in kinds
    ensures NoRepl(c, c')
  {
  }

  lemma {:induction false} SetAckNoRepl(env: Env, c: Ctx, sender: NodeId, mayhave: nat, target: Option<NodeId>)
    ensures NoRepl(c, OnSetAck(env, c, sender, mayhave, target))
  {
    if c.job.Some? {
      var c1 := if c.job.value.state == WaitRepl then ReplicationAchieved(env, c, target) else c;
      if c.job.value.state == WaitRepl {
        AchievedSends(env, c, target);
        OnlyNoRepl(env, c, c1, {KQueued, KEnqueue, KDel, KAnswer});
      }
      if c1.job.Some? { AckAndAnswerSends(env, c1, sender, mayhave); }
    }
  }

  lemma {:induction false} GotJobNoRepl(env: Env, c: Ctx, sender: NodeId, target: Option<NodeId>)
    requires c.job.Some?
    ensures NoRepl(c, OnGotJob(env, c, sender, target))
  {
    GotJobSends(env, c, sender, target);
  }

  lemma {:induction false} QueueMessageNoRepl(env: Env, c: Ctx, sender: NodeId, m: Message, target: Option<NodeId>)
    requires c.job.Some? && (m.Enqueue? || m.WillQueue? || m.Queued? || m.Working?)
    ensures NoRepl(c, Handle(env, c, sender, m, target))
  {
    if m.Enqueue? { OnEnqueueSends(env, c, m.after); }
    else if m.WillQueue? { OnWillQueueSends(env, c, sender); }
    else { OnQueuedSends(env, c, sender, m.Working?); }
  }

  lemma {:induction false} HandleNoRepl(env: Env, c: Ctx, sender: NodeId, m: Message, target: Option<NodeId>)
    ensures NoRepl(c, Handle(env, c, sender, m, target))
  {
    if m.ReplJob? { OnReplJobSends(env, c, sender, m); }
    else if m.SetAck? { SetAckNoRepl(env, c, sender, m.mayhave, target); }
    else if c.job.None? {}
    else if m.GotJob? { GotJobNoRepl(env, c, sender, target); }
    else if m.GotAck? {
      GotAckSends(env, c, sender, m.known);
      OnlyNoRepl(env, c, GotAckReceived(env, c, sender, m.known), {KDel});
    } else if m.DelJob? {
      UnregisterSends(env, c);
      OnlyNoRepl(env, c, Unregister(env, c), {KDel});
    } else { QueueMessageNoRepl(env, c, sender, m, target); }
  }

  lemma {:induction false} ReplicateWith(env: Env, c: Ctx, repl: nat, noreply: bool, candidates: seq<NodeId>,
      quiet: set<NodeId>)
    requires c.job.Some?
    ensures ReplWith(c.job.value.retry, c, Replicate(env, c, repl, noreply, candidates, quiet))
  {
  }

  lemma {:induction false} AddJobWith(env: Env, c: Ctx, a: AddArgs)
    requires c.job.None?
    ensures ReplWith(a.retry, c, AddJob(env, c, a))
  {
    var additional := if Refuses(env) then a.replicate else a.replicate - 1;
    if !(additional > a.reachable || env.paused || c.job.Some?) {
      var c1 := Set(c, NewJob(env, a));
      var c2 :=
        if (a.replicate > 1 || Refuses(env)) && !a.async then
          Set(c1, c1.job.value.(client := true, nodesConfirmed := Some(if Refuses(env) then {} else {env.me})))
        else AddedAtOnce(env, c1, a);
      assert NoRepl(c, c2) && c2.job.value.retry == a.retry;
      if additional > 0 { ReplicateWith(env, c2, additional, a.async, a.candidates, a.quiet); }
    }
  }

  lemma {:induction false} AckJobNoRepl(env: Env, c: Ctx, minutes: nat)
    ensures NoRepl(c, AckJob(env, c, minutes))
  {
    var c' := AckJob(env, c, minutes);
    AckJobSends(env, c, minutes);
    OnlyNoRepl(env, c, c', if IsAcked(c') then {KSetAck} else {});
  }

  lemma {:induction false} ProcessNoRepl(env: Env, c: Ctx)
    requires c.job.Some?
    ensures NoRepl(c, Process(env, c))
  {
    ProcessSends(env, c);
    OnlyNoRepl(env, c, Process(env, c), MaySend(Process(env, c), false, false));
  }

  /** The actions that end the job or look after it. */
  lemma {:induction false} CareWith(env: Env, c: Ctx, a: Action)
    requires c.job.Some? && (a.DoAckJob? || a.DoFastAck? || a.DoDelJob? || a.DoProcess? || a.DoTimeout?)
    ensures NoRepl(c, Act(env, c, a))
  {
    match a
    case DoAckJob(minutes) => AckJobNoRepl(env, c, minutes);
    case DoFastAck =>
      FastAckSends(env, c);
      OnlyNoRepl(env, c, FastAck(env, c), {KDel});
    case DoDelJob =>
      UnregisterSends(env, c);
      OnlyNoRepl(env, c, Unregister(env, c), {KDel});
    case DoProcess => ProcessNoRepl(env, c);
    case DoTimeout =>
      TimeoutSends(env, c);
      OnlyNoRepl(env, c, Timeout(env, c), {KDel});
  }

  lemma {:induction false} QueueWith(env: Env, c: Ctx, a: Action)
    requires c.job.Some? && (a.DoFetch? || a.DoEnqueue? || a.DoDequeue? || a.DoWorking?)
    ensures NoRepl(c, Act(env, c, a))
  {
    if a.DoEnqueue? { EnqueueSends(env, c, a.nack); } else if a.DoWorking? { WorkingSends(env, c); }
  }

  lemma {:induction false} ActWith(env: Env, c: Ctx, a: Action)
    requires c.job.Some? && !a.DoAddJob?
    ensures ReplWith(c.job.value.retry, c, Act(env, c, a))
  {
    if a.DoMoreReceivers? { ReplicateWith(env, c, 1, false, a.candidates, a.quiet); }
    else if a.DoFetch? || a.DoEnqueue? || a.DoDequeue? || a.DoWorking? { QueueWith(env, c, a); }
    else { CareWith(env, c, a); }
  }

  // --------------------------------------------------------------------- at most once

  /** A copy, and the messages of its node, of a job that may be delivered once. */
  predicate OnceCtx(c: Ctx)
  {
    && TimeOk(c)
    && (c.job.Some? ==> c.job.value.retry == 0)
    && (forall p :: p in c.out && p.msg.ReplJob? ==> p.msg.retry == 0)
  }

  predicate OnceEvent(e: Event)
  {
    Timely(e.env) && (Adds(e.cause) ==> e.cause.action.args.retry == 0)
  }

  lemma {:induction false} StepOnce(env: Env, c: Ctx, cause: Cause)
    requires OnceCtx(c) && OnceEvent(Event(env, cause))
    requires (Adds(cause) ==> c.job.None?) && (ByRepl(cause) ==> cause.msg.retry == 0)
    ensures OnceCtx(Step(env, c, cause))
    ensures !Adds(cause) && Armed(Step(env, c, cause)) ==> Armed(c)
  {
    if Adds(cause) {
      AddJobTimes(env, c, cause.action.args);
      AddJobWith(env, c, cause.action.args);
    } else {
      StepTame(env, c, cause);
      StepOnceSends(env, c, cause);
    }
  }

  lemma {:induction false} StepOnceSends(env: Env, c: Ctx, cause: Cause)
    requires OnceCtx(c) && !Adds(cause) && (ByRepl(cause) ==> cause.msg.retry == 0)
    ensures ReplWith(0, c, Step(env, c, cause))
    ensures c.job.None? && Step(env, c, cause).job.Some? ==> Step(env, c, cause).job.value.retry == 0
  {
    match cause
    case Msg(sender, m, target) => HandleNoRepl(env, c, sender, m, target);
    case Own(a) =>
      if c.job.Some? { ActWith(env, c, a); } else if a.DoAckJob? { AckJobSends(env, c, a.minutes); }
  }

  ghost predicate OnceInv(w: World)
  {
    && (forall n :: n in w.nodes ==> OnceCtx(w.nodes[n]))
    && (forall n :: n in w.nodes && Armed(w.nodes[n]) ==> w.hist.origin == Some(n))
  }

  /** The job is still to be added, or the copy of the node that added it is armed. */
  predicate Token(w: World)
  {
    w.hist.origin.None? || (w.hist.origin.value in w.nodes && Armed(w.nodes[w.hist.origin.value]))
  }

  /** A consumer gets the job. */
  predicate Delivers(w: World, e: Event)
    requires Enabled(w, e)
  {
    && e.cause == Own(DoFetch)
    && w.nodes[e.env.me].job.Some? && w.nodes[e.env.me].job.value.state == JobState.Queued
  }

  function Deliveries(w: World, evs: seq<Event>): nat
    requires CanRun(w, evs)
    decreases |evs|
  {
    if evs == [] then 0
    else (if Delivers(w, evs[0]) then 1 else 0) + Deliveries(Next(w, evs[0]), evs[1..])
  }

  /** A delivery takes the token, and no step gives one back. */
  lemma {:induction false} TokenStep(w: World, e: Event)
    requires OnceInv(w) && Enabled(w, e) && OnceEvent(e)
    ensures OnceInv(Next(w, e))
    ensures Token(Next(w, e)) ==> Token(w)
    ensures Delivers(w, e) ==> Token(w) && !Token(Next(w, e))
  {
    var c := w.nodes[e.env.me];
    if ByRepl(e.cause) {
      assert OnceCtx(w.nodes[e.cause.sender]);
      assert Packet(e.cause.sender, e.env.me, w.id, e.cause.msg).msg.ReplJob?;
    }
    StepOnce(e.env, c, e.cause);
  }

  lemma {:induction false} TokenRun(w: World, evs: seq<Event>)
    requires OnceInv(w) && CanRun(w, evs) && forall i :: 0 <= i < |evs| ==> OnceEvent(evs[i])
    ensures Deliveries(w, evs) + (if Token(Run(w, evs)) then 1 else 0) <= if Token(w) then 1 else 0
    decreases |evs|
  {
    if evs != [] {
      assert OnceEvent(evs[0]);
      TokenStep(w, evs[0]);
      TokenRun(Next(w, evs[0]), evs[1..]);
    }
  }

  /** In every run, with any loss, duplication and reordering of messages, a job added
      with a retry time of 0 is delivered at most once in the whole cluster. */
  lemma {:induction false} AtMostOnce(w: World, evs: seq<Event>)
    requires Init(w) && CanRun(w, evs) && forall i :: 0 <= i < |evs| ==> OnceEvent(evs[i])
    ensures Deliveries(w, evs) <= 1
  {
    TokenRun(w, evs);
  }

  // -------------------------------------------------------------------- at least once

  ghost predicate TimesInv(w: World) { forall n :: n in w.nodes ==> TimeOk(w.nodes[n]) }

  lemma {:induction false} StepTimes(w: World, e: Event)
    requires TimesInv(w) && Enabled(w, e) && Timely(e.env)
    ensures TimesInv(Next(w, e))
  {
    if Adds(e.cause) { AddJobTimes(e.env, w.nodes[e.env.me], e.cause.action.args); }
    else { StepTame(e.env, w.nodes[e.env.me], e.cause); }
  }

  lemma {:induction false} TimesRun(w: World, evs: seq<Event>)
    requires TimesInv(w) && CanRun(w, evs) && forall i :: 0 <= i < |evs| ==> Timely(evs[i].env)
    ensures TimesInv(Run(w, evs))
    decreases |evs|
  {
    if evs != [] {
      StepTimes(w, evs[0]);
      TimesRun(Next(w, evs[0]), evs[1..]);
    }
  }

  lemma {:induction false} ProcessQueues(env: Env, c: Ctx)
    requires IsLive(c) && c.job.value.retry > 0 && c.job.value.qtime > 0 && Timely(env)
    requires c.job.value.etime > env.unixtime && c.job.value.qtime <= env.now && !env.paused
    ensures var c' := Process(env, c);
            && c'.job.Some? && c'.job.value.state == JobState.Queued
            && c'.job.value.qtime == env.now + c.job.value.retry * 1000 + env.jitter
  {
    var c1 := ProcessWillQueue(env, c);
    assert c1.job.value.state == c.job.value.state && c1.job.value.qtime == c.job.value.qtime
      && c1.job.value.retry == c.job.value.retry;
  }

  /** A turn of the timer of node n, at a time when its live copy is due. */
  predicate DueTurn(w: World, e: Event, n: NodeId)
  {
    && e.env.me == n && e.cause == Own(DoProcess) && Timely(e.env) && !e.env.paused
    && n in w.nodes && IsLive(w.nodes[n]) && w.nodes[n].job.value.retry > 0
    && e.env.unixtime < w.nodes[n].job.value.etime && w.nodes[n].job.value.qtime <= e.env.now
  }

  predicate Fetches(e: Event, n: NodeId) { e.env.me == n && e.cause == Own(DoFetch) }

  /** It has the copy in its queue, due again a retry time later. */
  lemma {:induction false} DueIsQueued(w: World, e: Event, n: NodeId)
    requires TimesInv(w) && Enabled(w, e) && DueTurn(w, e, n)
    ensures var c' := Next(w, e).nodes[n];
            && c'.job.Some? && c'.job.value.state == JobState.Queued
            && c'.job.value.qtime == e.env.now + w.nodes[n].job.value.retry * 1000 + e.env.jitter
  {
    assert TimeOk(w.nodes[n]);
    ProcessQueues(e.env, w.nodes[n]);
  }

  predicate InQueue(w: World, n: NodeId)
  {
    n in w.nodes && w.nodes[n].job.Some? && w.nodes[n].job.value.state == JobState.Queued
  }

  /** How often a turn of the timer when the copy is due is followed by a consumer, with
      anything in between as long as the copy stays in the queue: until it is dequeued,
      acknowledged or removed.  waiting: there was such a turn, and the copy is still in
      the queue. */
  function DueFetches(w: World, evs: seq<Event>, n: NodeId, waiting: bool): nat
    requires CanRun(w, evs)
    decreases |evs|
  {
    if evs == [] then 0
    else if waiting && Fetches(evs[0], n) then 1 + DueFetches(Next(w, evs[0]), evs[1..], n, false)
    else
      var w' := Next(w, evs[0]);
      DueFetches(w', evs[1..], n, DueTurn(w, evs[0], n) || (waiting && InQueue(w', n)))
  }

  function DeliveriesAt(w: World, evs: seq<Event>, n: NodeId): nat
    requires CanRun(w, evs)
    decreases |evs|
  {
    if evs == [] then 0
    else (if evs[0].env.me == n && Delivers(w, evs[0]) then 1 else 0) + DeliveriesAt(Next(w, evs[0]), evs[1..], n)
  }

  lemma {:induction false} DueDelivered(w: World, evs: seq<Event>, n: NodeId, waiting: bool)
    requires TimesInv(w) && CanRun(w, evs) && forall i :: 0 <= i < |evs| ==> Timely(evs[i].env)
    requires waiting ==> InQueue(w, n)
    ensures DeliveriesAt(w, evs, n) >= DueFetches(w, evs, n, waiting)
    decreases |evs|
  {
    if evs != [] {
      var w' := Next(w, evs[0]);
      StepTimes(w, evs[0]);
      if waiting && Fetches(evs[0], n) {
        DueDelivered(w', evs[1..], n, false);
      } else {
        if DueTurn(w, evs[0], n) { DueIsQueued(w, evs[0], n); }
        DueDelivered(w', evs[1..], n, DueTurn(w, evs[0], n) || (waiting && InQueue(w', n)));
      }
    }
  }

  /** In every run, every turn of the timer at a time when a live copy with a retry time
      is due, followed by a consumer before the copy is dequeued, acknowledged or removed,
      is a delivery: the job is delivered as often as this happens.  And such a copy
      always has a time at which it is due. */
  lemma {:induction false} AtLeastOnce(w: World, evs: seq<Event>, n: NodeId)
    requires Init(w) && CanRun(w, evs) && forall i :: 0 <= i < |evs| ==> Timely(evs[i].env)
    ensures DeliveriesAt(w, evs, n) >= DueFetches(w, evs, n, false)
    ensures var w' := Run(w, evs);
            n in w'.nodes && IsLive(w'.nodes[n]) && w'.nodes[n].job.value.retry > 0 ==> w'.nodes[n].job.value.qtime > 0
  {
    DueDelivered(w, evs, n, false);
    TimesRun(w, evs);
    if n in Run(w, evs).nodes { assert TimeOk(Run(w, evs).nodes[n]); }
  }
}
