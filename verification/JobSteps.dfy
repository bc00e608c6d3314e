/** What every message, timer and command does at most to one node's copy of a job:
    which kinds of packets leave, and what the copy keeps.
 */
module JobSteps {
  import opened Options
  import opened JobSpec

  // ------------------------------------------------------------ kinds of packets

  datatype Kind = KRepl | KGotJob | KSetAck | KGotAck | KDel | KEnqueue | KQueued | KWorking | KWill | KAnswer

  function KindOf(m: Message): Kind
  {
    match m
    case ReplJob(_, _, _, _, _, _) => KRepl
    case GotJob => KGotJob
    case SetAck(_) => KSetAck
    case GotAck(_) => KGotAck
    case DelJob => KDel
    case Enqueue(_) => KEnqueue
    case Queued(_) => KQueued
    case Working => KWorking
    case WillQueue => KWill
  }

  predicate Mine(env: Env, c: Ctx, p: Packet) { p.src == env.me && p.dst != env.me && p.id == c.id }

  /** From c to c' log lines are only added, about this job. */
  predicate Logs(c: Ctx, c': Ctx)
  {
    c.log <= c'.log && forall i :: |c.log| <= i < |c'.log| ==> c'.log[i].id == c.id
  }

  /** From c to c' packets, replies and log lines are only added: packets of the given
      kinds, and answers to a blocked client only if KAnswer is given. */
  ghost predicate Only(env: Env, c: Ctx, c': Ctx, kinds: set<Kind>)
  {
    && c'.id == c.id
    && Logs(c, c')
    && c.out <= c'.out
    && c.replies <= c'.replies
    && (KAnswer in kinds || Answered !in c'.replies[|c.replies|..])
    && forall p :: p in c'.out ==> p in c.out || (Mine(env, c, p) && KindOf(p.msg) in kinds)
  }

  lemma {:induction false} OnlyThen(env: Env, c: Ctx, c1: Ctx, c2: Ctx, k1: set<Kind>, k2: set<Kind>)
    requires Only(env, c, c1, k1) && Only(env, c1, c2, k2)
    ensures Only(env, c, c2, k1 + k2)
  {
  }

  predicate IsAcked(c: Ctx) { c.job.Some? && c.job.value.state == Acked }

  /** No copy, or an acknowledged one. */
  predicate NotLive(c: Ctx) { c.job.Some? ==> c.job.value.state == Acked }

  predicate Originates(c: Ctx) { c.job.Some? && (c.job.value.client || c.job.value.state == WaitRepl) }

  /** What may have been sent by a step that ends in c'. */
  function MaySend(c': Ctx, origin: bool, answers: bool): set<Kind>
  {
    {KDel, KQueued, KWorking, KWill}
    + (if IsAcked(c') then {KSetAck} else {})
    + (if NotLive(c') then {KGotAck} else {})
    + (if c'.job.Some? then {KGotJob} else {})
    + (if origin then {KRepl, KEnqueue} else {})
    + (if answers then {KAnswer} else {})
  }

  /** The message completes the replication of a waiting job, or acknowledges it. */
  predicate Answers(c: Ctx, sender: NodeId, m: Message)
  {
    && c.job.Some? && c.job.value.state == WaitRepl
    && (m.SetAck? || (m.GotJob? && |WithSender(c.job.value, sender)| == c.job.value.repl))
  }

  function WithSender(j: Job, sender: NodeId): set<NodeId>
  {
    (if j.nodesConfirmed.Some? then j.nodesConfirmed.value else {}) + {sender}
  }

  lemma {:induction false} UnregisterSends(env: Env, c: Ctx)
    requires c.job.Some?
    ensures Only(env, c, Unregister(env, c), {KDel})
  {
  }

  lemma {:induction false} EnqueueSends(env: Env, c: Ctx, nack: bool)
    requires c.job.Some?
    ensures Only(env, c, EnqueueJob(env, c, nack), {KQueued})
    ensures EnqueueJob(env, c, nack).job.Some?
  {
  }

  lemma {:induction false} TryGCSends(env: Env, c: Ctx)
    requires c.job.Some?
    ensures var c' := TryGC(env, c); Only(env, c, c', if IsAcked(c') then {KSetAck} else {})
  {
  }

  lemma {:induction false} CountAckSends(env: Env, c: Ctx, sender: NodeId, known: bool)
    requires c.job.Some?
    ensures Only(env, c, CountAck(env, c, sender, known), {KDel})
  {
  }

  lemma {:induction false} DummyGotAckSends(env: Env, c: Ctx, sender: NodeId, known: bool)
    requires c.job.Some?
    ensures Only(env, c, DummyGotAck(env, c, sender, known), {KDel})
  {
  }

  lemma {:induction false} GotAckSends(env: Env, c: Ctx, sender: NodeId, known: bool)
    requires c.job.Some?
    ensures Only(env, c, GotAckReceived(env, c, sender, known), {KDel})
  {
    CountAckSends(env, c, sender, known);
    DummyGotAckSends(env, c, sender, known);
  }

  lemma {:induction false} ReplicateSends(env: Env, c: Ctx, repl: nat, noreply: bool, candidates: seq<NodeId>,
      quiet: set<NodeId>)
    requires c.job.Some?
    ensures Only(env, c, Replicate(env, c, repl, noreply, candidates, quiet), {KRepl})
  {
  }

  lemma {:induction false} AchievedSends(env: Env, c: Ctx, target: Option<NodeId>)
    requires c.job.Some?
    ensures Only(env, c, ReplicationAchieved(env, c, target), {KQueued, KEnqueue, KDel, KAnswer})
  {
  }

  lemma {:induction false} AddedSends(env: Env, c: Ctx, a: AddArgs)
    requires c.job.Some?
    ensures Only(env, c, AddedAtOnce(env, c, a), {KQueued})
  {
    EnqueueSends(env, c, false);
  }

  /** The new job, before it is replicated. */
  function Started(env: Env, c: Ctx, a: AddArgs): (r: Ctx)
    ensures r.job.Some?
  {
    var c1 := Set(c, NewJob(env, a));
    if (a.replicate > 1 || Refuses(env)) && !a.async then
      Set(c1, c1.job.value.(client := true, nodesConfirmed := Some(if Refuses(env) then {} else {env.me})))
    else AddedAtOnce(env, c1, a)
  }

  lemma {:induction false} StartedSends(env: Env, c: Ctx, a: AddArgs)
    ensures Only(env, c, Started(env, c, a), {KQueued})
  {
    AddedSends(env, Set(c, NewJob(env, a)), a);
  }

  /** The replication of the new job. */
  function Spread(env: Env, c: Ctx, a: AddArgs): (r: Ctx)
    requires c.job.Some?
    ensures r.job.Some?
  {
    var additional := if Refuses(env) then a.replicate else a.replicate - 1;
    if additional > 0 then Replicate(env, c, additional, a.async, a.candidates, a.quiet) else c
  }

  lemma {:induction false} SpreadSends(env: Env, c: Ctx, a: AddArgs)
    requires c.job.Some?
    ensures Only(env, c, Spread(env, c, a), {KRepl})
  {
    var additional := if Refuses(env) then a.replicate else a.replicate - 1;
    if additional > 0 { ReplicateSends(env, c, additional, a.async, a.candidates, a.quiet); }
  }

  lemma {:induction false} AddSends(env: Env, c: Ctx, a: AddArgs)
    ensures Only(env, c, AddJob(env, c, a), {KRepl, KEnqueue, KQueued})
  {
    var additional := if Refuses(env) then a.replicate else a.replicate - 1;
    if !(additional > a.reachable || env.paused || c.job.Some?) {
      var c2 := Started(env, c, a);
      var c3 := Spread(env, c2, a);
      StartedSends(env, c, a);
      SpreadSends(env, c2, a);
      OnlyThen(env, c, c2, c3, {KQueued}, {KRepl});
    }
  }

  lemma {:induction false} AckAndAnswerSends(env: Env, c: Ctx, sender: NodeId, mayhave: nat)
    requires c.job.Some?
    ensures var c' := AckAndAnswer(env, c, sender, mayhave);
            NotLive(c') && Only(env, c, c', if IsAcked(c') then {KGotAck, KSetAck} else {KGotAck})
  {
    var c1 := Acknowledge(c);
    var answers := |c1.job.value.nodesDelivered| <= mayhave || mayhave == 0;
    var c2 := if answers then Send(env, c1, sender, GotAck(true)) else c1;
    assert Only(env, c, c2, {KGotAck});
    TryGCSends(env, c2);
  }

  lemma {:induction false} SetAckSends(env: Env, c: Ctx, sender: NodeId, mayhave: nat, target: Option<NodeId>)
    ensures var c' := OnSetAck(env, c, sender, mayhave, target);
            Only(env, c, c', MaySend(c', Originates(c), Answers(c, sender, SetAck(mayhave))))
  {
    if c.job.Some? {
      var c1 := if c.job.value.state == WaitRepl then ReplicationAchieved(env, c, target) else c;
      var k1 := if c.job.value.state == WaitRepl then {KQueued, KEnqueue, KDel, KAnswer} else {};
      if c.job.value.state == WaitRepl { AchievedSends(env, c, target); }
      if c1.job.Some? {
        var c' := AckAndAnswer(env, c1, sender, mayhave);
        AckAndAnswerSends(env, c1, sender, mayhave);
        OnlyThen(env, c, c1, c', k1, if IsAcked(c') then {KGotAck, KSetAck} else {KGotAck});
      }
    }
  }

  lemma {:induction false} GotJobSends(env: Env, c: Ctx, sender: NodeId, target: Option<NodeId>)
    requires c.job.Some?
    ensures Only(env, c, OnGotJob(env, c, sender, target), if Answers(c, sender, GotJob)
            then {KQueued, KEnqueue, KDel, KAnswer} else {})
  {
    if c.job.value.state == WaitRepl {
      AchievedSends(env, Set(c, c.job.value.(nodesConfirmed := Some(WithSender(c.job.value, sender)))), target);
    }
  }

  lemma {:induction false} OnReplJobSends(env: Env, c: Ctx, sender: NodeId, m: Message)
    requires m.ReplJob?
    ensures var c' := OnReplJob(env, c, sender, m); Only(env, c, c', if c'.job.Some? then {KGotJob} else {})
  {
  }

  lemma {:induction false} OnEnqueueSends(env: Env, c: Ctx, after: nat)
    requires c.job.Some?
    ensures Only(env, c, OnEnqueue(env, c, after), {KQueued})
  {
    EnqueueSends(env, Set(c, c.job.value.(bcastQueued := false)), false);
  }

  lemma {:induction false} OnQueuedSends(env: Env, c: Ctx, sender: NodeId, working: bool)
    requires c.job.Some?
    ensures var c' := OnQueued(env, c, sender, working); Only(env, c, c', if IsAcked(c') then {KSetAck} else {})
  {
  }

  lemma {:induction false} OnWillQueueSends(env: Env, c: Ctx, sender: NodeId)
    requires c.job.Some?
    ensures var c' := OnWillQueue(env, c, sender); Only(env, c, c', if IsAcked(c') then {KSetAck} else {KQueued})
  {
  }

  lemma {:induction false} HandleSends(env: Env, c: Ctx, sender: NodeId, m: Message, target: Option<NodeId>)
    ensures var c' := Handle(env, c, sender, m, target);
            Only(env, c, c', MaySend(c', Originates(c), Answers(c, sender, m)))
  {
    if m.ReplJob? { OnReplJobSends(env, c, sender, m); }
    else if m.SetAck? { SetAckSends(env, c, sender, m.mayhave, target); }
    else if c.job.None? {}
    else if m.GotJob? { GotJobSends(env, c, sender, target); }
    else if m.GotAck? { GotAckSends(env, c, sender, m.known); }
    else if m.DelJob? { UnregisterSends(env, c); }
    else if m.Enqueue? { OnEnqueueSends(env, c, m.after); }
    else if m.WillQueue? { OnWillQueueSends(env, c, sender); }
    else { OnQueuedSends(env, c, sender, m.Working?); }
  }

  lemma {:induction false} WillQueueSends(env: Env, c: Ctx)
    requires c.job.Some?
    ensures Only(env, c, ProcessWillQueue(env, c), {KWill})
  {
  }

  lemma {:induction false} RequeueSends(env: Env, c: Ctx)
    requires c.job.Some?
    ensures Only(env, c, ProcessRequeue(env, c), {KQueued})
  {
    EnqueueSends(env, c, false);
  }

  lemma {:induction false} ProcessSends(env: Env, c: Ctx)
    requires c.job.Some?
    ensures var c' := Process(env, c); Only(env, c, c', MaySend(c', false, false))
  {
    if c.job.value.etime <= env.unixtime {
      UnregisterSends(env, c);
    } else {
      var c1 := ProcessWillQueue(env, c);
      var c2 := ProcessRequeue(env, c1);
      WillQueueSends(env, c);
      RequeueSends(env, c1);
      OnlyThen(env, c, c1, c2, {KWill}, {KQueued});
      if c2.job.value.state == Acked {
        var c3 := TryGC(env, c2);
        TryGCSends(env, c2);
        OnlyThen(env, c, c2, c3, {KWill, KQueued}, if IsAcked(c3) then {KSetAck} else {});
      }
    }
  }

  lemma {:induction false} AckJobSends(env: Env, c: Ctx, minutes: nat)
    ensures var c' := AckJob(env, c, minutes); Only(env, c, c', if IsAcked(c') then {KSetAck} else {})
  {
    if c.job.Some? { TryGCSends(env, Acknowledge(c)); } else { TryGCSends(env, Set(c, DummyAck(env, minutes))); }
  }

  lemma {:induction false} TimeoutSends(env: Env, c: Ctx)
    requires c.job.Some?
    ensures Only(env, c, Timeout(env, c), {KDel})
  {
  }

  lemma {:induction false} FastAckSends(env: Env, c: Ctx)
    ensures Only(env, c, FastAck(env, c), {KDel})
  {
  }

  lemma {:induction false} WorkingSends(env: Env, c: Ctx)
    requires c.job.Some?
    ensures Only(env, c, WorkingCommand(env, c), {KWorking})
  {
  }

  lemma {:induction false} ActSends(env: Env, c: Ctx, a: Action)
    ensures var c' := Act(env, c, a); Only(env, c, c', MaySend(c', a.DoAddJob? || Originates(c), false))
  {
    if a.DoAddJob? { AddSends(env, c, a.args); }
    else if a.DoAckJob? { AckJobSends(env, c, a.minutes); }
    else if a.DoFastAck? { FastAckSends(env, c); }
    else if c.job.None? {}
    else if a.DoDelJob? { UnregisterSends(env, c); }
    else if a.DoProcess? { ProcessSends(env, c); }
    else if a.DoTimeout? { TimeoutSends(env, c); }
    else if a.DoMoreReceivers? { ReplicateSends(env, c, 1, false, a.candidates, a.quiet); }
    else if a.DoFetch? {}
    else if a.DoEnqueue? { EnqueueSends(env, c, a.nack); }
    else if a.DoDequeue? {}
    else { WorkingSends(env, c); }
  }
}
