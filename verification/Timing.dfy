/** When a job is in its queue: what the timer of a node (processJob of src/job.c), DELAY,
    RETRY, WORKING and the messages about queues make of a live copy, over any number of
    turns of the timer.
 */
module Timing {
  import opened Options
  import opened JobSpec
  import opened JobSteps
  import opened JobCopy
  import Rounds

  // --------------------------------------------------------------- turns of the timer

  /** The turns of the timer for one copy. */
  function Turns(c: Ctx, envs: seq<Env>): Ctx
    decreases |envs|
  {
    if envs == [] || c.job.None? then c else Turns(Process(envs[0], c), envs[1..])
  }

  /** A turn at a time when the copy is neither due nor expired. */
  predicate Early(env: Env, me: NodeId, j: Job) { env.me == me && env.unixtime < j.etime && env.now < j.qtime }

  predicate AllEarly(envs: seq<Env>, me: NodeId, j: Job)
  {
    forall i :: 0 <= i < |envs| ==> Early(envs[i], me, j)
  }

  /** Half a second before it is due, or later. */
  predicate Near(env: Env, j: Job) { env.now >= j.qtime - 500 }

  predicate SomeNear(envs: seq<Env>, j: Job) { exists i :: 0 <= i < |envs| && Near(envs[i], j) }

  /** c' is c after early turns: nothing but the announcement has changed, which is made
      once, to every other node listed, when the time is near. */
  predicate Announced(me: NodeId, c: Ctx, c': Ctx, near: bool)
    requires c.job.Some?
  {
    var j := c.job.value;
    && c'.id == c.id && c'.log == c.log && c'.replies == c.replies
    && c'.job == Some(j.(bcastWillQueue := j.bcastWillQueue && !near))
    && c'.out == c.out + if near && j.bcastWillQueue && j.state == Active
                         then (set n | n in j.nodesDelivered && n != me :: Packet(me, n, c.id, WillQueue)) else {}
  }

  lemma {:induction false} EarlyTurn(env: Env, c: Ctx)
    requires IsLive(c) && Early(env, env.me, c.job.value)
    ensures Announced(env.me, c, Process(env, c), Near(env, c.job.value))
  {
  }

  lemma {:induction false} AnnouncedThen(me: NodeId, c: Ctx, c1: Ctx, c2: Ctx, near: bool, later: bool)
    requires c.job.Some? && Announced(me, c, c1, near) && c1.job.Some? && Announced(me, c1, c2, later)
    ensures Announced(me, c, c2, near || later)
  {
  }

  lemma {:induction false} FirstNear(envs: seq<Env>, j: Job, j1: Job)
    requires envs != [] && j1.qtime == j.qtime
    ensures SomeNear(envs, j) == (Near(envs[0], j) || SomeNear(envs[1..], j1))
  {
    if SomeNear(envs, j) {
      var i :| 0 <= i < |envs| && Near(envs[i], j);
      if i > 0 { assert Near(envs[1..][i - 1], j1); }
    }
    if SomeNear(envs[1..], j1) {
      var i :| 0 <= i < |envs[1..]| && Near(envs[1..][i], j1);
      assert Near(envs[i + 1], j);
    }
  }

  /** Before it is due a copy stays where it is, in its queue or not, however often the
      timer comes by; and the others are told half a second ahead that it will be queued. */
  lemma {:induction false} EarlyTurns(me: NodeId, c: Ctx, envs: seq<Env>)
    requires IsLive(c) && AllEarly(envs, me, c.job.value)
    ensures Announced(me, c, Turns(c, envs), SomeNear(envs, c.job.value))
    decreases |envs|
  {
    if envs != [] {
      assert Early(envs[0], me, c.job.value);
      EarlyTurn(envs[0], c);
      var c1 := Process(envs[0], c);
      assert AllEarly(envs[1..], me, c1.job.value);
      EarlyTurns(me, c1, envs[1..]);
      FirstNear(envs, c.job.value, c1.job.value);
      AnnouncedThen(me, c, c1, Turns(c1, envs[1..]), Near(envs[0], c.job.value), SomeNear(envs[1..], c1.job.value));
    }
  }

  /** A copy is due, and not expired; the next time would be later. */
  predicate Due(env: Env, j: Job)
  {
    0 < j.qtime <= env.now && env.unixtime < j.etime && (j.retry > 0 ==> j.retry * 1000 + env.jitter > 0)
  }

  /** The announcement that comes first changes nothing but its own flag. */
  lemma {:induction false} AnnouncesFirst(env: Env, c: Ctx)
    requires c.job.Some?
    ensures var (c', j) := (ProcessWillQueue(env, c), c.job.value);
            && c'.job.Some? && c'.id == c.id && c'.log == c.log && c'.replies == c.replies
            && c'.job.value == j.(bcastWillQueue := c'.job.value.bcastWillQueue)
  {
  }

  /** What c' is after a turn at which the copy in c is due. */
  predicate DueDone(env: Env, c: Ctx, c': Ctx)
    requires c.job.Some?
  {
    var j := c.job.value;
    && c'.job.Some? && c'.log == c.log && c'.replies == c.replies
    && (c'.job.value.state == JobState.Queued <==> if j.retry > 0 then !env.paused else !j.delivered)
    && (c'.job.value.state != JobState.Queued ==> c'.job.value.state == Active)
    && (j.retry > 0 ==> c'.job.value.qtime == env.now + j.retry * 1000 + env.jitter)
    && (j.retry == 0 && !j.delivered ==> c'.job.value.qtime == 0)
  }

  lemma {:induction false} RequeueWithRetry(env: Env, c: Ctx)
    requires c.job.Some? && c.job.value.state == Active && Due(env, c.job.value) && c.job.value.retry > 0
    ensures DueDone(env, c, ProcessRequeue(env, c))
  {
  }

  lemma {:induction false} RequeueOnce(env: Env, c: Ctx)
    requires c.job.Some? && c.job.value.state == Active && Due(env, c.job.value) && c.job.value.retry == 0
    ensures DueDone(env, c, ProcessRequeue(env, c))
  {
  }

  /** When it is due a copy that is in no queue is put in it; but a job that may be
      delivered once and was is not, and for a paused queue a retry time is waited for. */
  lemma {:induction false} DueTurn(env: Env, c: Ctx)
    requires c.job.Some? && c.job.value.state == Active && Due(env, c.job.value)
    ensures DueDone(env, c, Process(env, c))
  {
    AnnouncesFirst(env, c);
    var c1 := ProcessWillQueue(env, c);
    if c.job.value.retry > 0 { RequeueWithRetry(env, c1); } else { RequeueOnce(env, c1); }
  }

  /** A copy that is put in its queue: the others listed are told, unless this is the first
      time and nobody else has queued it; from then on they always are, and with a retry
      time they will be told ahead. */
  lemma {:induction false} QueuedIsTold(env: Env, c: Ctx, nack: bool)
    requires c.job.Some? && EnqueueJob(env, c, nack) != c
    ensures var (c', j) := (EnqueueJob(env, c, nack), c.job.value);
            && c'.job.Some? && c'.job.value.state == JobState.Queued && c'.log == c.log && c'.replies == c.replies
            && c'.out == c.out + (if j.bcastQueued || nack
              then (set n | n in j.nodesDelivered && n != env.me :: Packet(env.me, n, c.id, Message.Queued(nack)))
                else {})
            && (c'.job.value.bcastQueued || nack) && (j.retry > 0 ==> c'.job.value.bcastWillQueue)
  {
  }

  /** A job that is in its queue and due again stays there, a retry time longer. */
  lemma {:induction false} QueuedTurn(env: Env, c: Ctx)
    requires c.job.Some? && c.job.value.state == JobState.Queued && c.job.value.retry > 0 && Due(env, c.job.value)
    ensures var (c', j) := (Process(env, c), c.job.value);
            && c'.job.Some? && c'.job.value.state == JobState.Queued && c'.log == c.log && c'.replies == c.replies
            && c'.job.value.qtime == env.now + j.retry * 1000 + env.jitter && c'.job.value.bcastWillQueue
  {
  }

  /** An expired job is removed at the next turn, whatever its state; a client that waits
      for it is told, and so are the nodes that may have a copy. */
  lemma {:induction false} ExpiredTurn(env: Env, c: Ctx)
    requires c.job.Some? && c.job.value.etime <= env.unixtime
    ensures var (c', j) := (Process(env, c), c.job.value);
            && c'.job.None? && c'.log == c.log + (if IsLive(c) then [DelJobCommand(c.id)] else [])
            && c'.replies == c.replies + (if j.state == WaitRepl then [NoRepl] else [])
            && c'.out == c.out + if j.state == WaitRepl
                                 then (set n | n in j.nodesDelivered && n != env.me :: Packet(env.me, n, c.id, DelJob))
                                   else {}
  {
  }

  // ---------------------------------------------------------------------- what is added

  /** A job added with a delay is in no queue before the delay is over, and is in its queue
      with the first turn of the timer from then on, also a job that may be delivered once. */
  lemma {:induction false} DelayedJob(env: Env, c: Ctx, a: AddArgs, envs: seq<Env>, env': Env)
    requires Rounds.Adds(env, c, a) && (a.replicate == 1 || a.async) && a.delay > 0
    requires forall i :: 0 <= i < |envs| ==>
               && envs[i].me == env.me && envs[i].unixtime < env.unixtime + a.ttl
               && envs[i].now < env.now + a.delay * 1000
    requires env'.now >= env.now + a.delay * 1000 && env'.unixtime < env.unixtime + a.ttl
    requires a.retry > 0 ==> !env'.paused && a.retry * 1000 + env'.jitter > 0
    ensures var c1 := Turns(AddJob(env, c, a), envs);
            && c1.job.Some? && c1.job.value.state == Active
            && Process(env', c1).job.Some? && Process(env', c1).job.value.state == JobState.Queued
  {
    Rounds.AddJobAtOnce(env, c, a);
    var c0 := AddJob(env, c, a);
    EarlyTurns(env.me, c0, envs);
    DueTurn(env', Turns(c0, envs));
  }

  /** A job handed to a consumer is in no queue until its retry time is over, and is in its
      queue again with the first turn from then on. */
  lemma {:induction false} RetriedJob(me: NodeId, c: Ctx, envs: seq<Env>, env': Env)
    requires c.job.Some? && c.job.value.state == JobState.Queued && c.job.value.retry > 0
    requires AllEarly(envs, me, c.job.value) && Due(env', c.job.value) && !env'.paused
    ensures var c1 := Turns(Fetch(c), envs);
            && c1.job.Some? && c1.job.value.state == Active && c1.job.value.delivered
            && Process(env', c1).job.Some? && Process(env', c1).job.value.state == JobState.Queued
            && (c.job.value.bcastQueued ==> forall n :: n in c.job.value.nodesDelivered && n != env'.me ==>
              Packet(env'.me, n, c.id, Message.Queued(false)) in Process(env', c1).out)
  {
    assert AllEarly(envs, me, Fetch(c).job.value);
    EarlyTurns(me, Fetch(c), envs);
    DueTurn(env', Turns(Fetch(c), envs));
  }

  // ------------------------------------------------------------------------- WORKING

  /** The copy is in no queue, and due a retry time from now. */
  predicate PutOff(env: Env, j: Job, j': Job)
  {
    && j'.state == (if j.state == JobState.Queued then Active else j.state)
    && j'.retry == j.retry && j'.etime == j.etime && j'.nodesDelivered == j.nodesDelivered
    && j'.delivered == j.delivered
    && j'.qtime == (if j.retry > 0 && j.qtime != 0 then env.now + j.retry * 1000 + env.jitter else j.qtime)
    && (j.retry > 0 ==> j'.bcastWillQueue)
  }

  /** WORKING takes the job out of its queue and puts off its next time, and tells every
      other node listed; each of them does the same with a live copy. */
  lemma {:induction false} WorkingTold(env: Env, c: Ctx)
    requires c.job.Some?
    ensures var (c', j) := (WorkingCommand(env, c), c.job.value);
            && c'.job.Some? && PutOff(env, j, c'.job.value) && c'.log == c.log && c'.replies == c.replies
            && c'.out == c.out + set n | n in j.nodesDelivered && n != env.me :: Packet(env.me, n, c.id, Working)
  {
  }

  lemma {:induction false} WorkingHeard(env: Env, c: Ctx, sender: NodeId, target: Option<NodeId>)
    requires IsLive(c)
    ensures var c' := Handle(env, c, sender, Working, target);
            && c'.job.Some? && PutOff(env, c.job.value, c'.job.value) && c'.out == c.out && c'.log == c.log
  {
  }

  /** After WORKING no turn of the timer queues the job for a retry time. */
  lemma {:induction false} WorkingLasts(env: Env, c: Ctx, envs: seq<Env>)
    requires IsLive(c) && c.job.value.retry > 0 && c.job.value.qtime > 0
    requires forall i :: 0 <= i < |envs| ==>
               && envs[i].me == env.me && envs[i].unixtime < c.job.value.etime
               && envs[i].now < env.now + c.job.value.retry * 1000 + env.jitter
    ensures var c1 := Turns(WorkingCommand(env, c), envs); c1.job.Some? && c1.job.value.state == Active
  {
    WorkingTold(env, c);
    EarlyTurns(env.me, WorkingCommand(env, c), envs);
  }

  // ------------------------------------------------------------- messages about queues

  /** QUEUED takes the copy out of the queue exactly if the sender is preferred, and puts
      off its next time; an acknowledged copy answers with SETACK. */
  lemma {:induction false} QueuedHeard(env: Env, c: Ctx, sender: NodeId, nack: bool, target: Option<NodeId>)
    requires c.job.Some? && c.job.value.state != WaitRepl && sender != env.me
    ensures var (c', j) := (Handle(env, c, sender, Message.Queued(nack), target), c.job.value);
            && c'.job.Some? && c'.log == c.log && c'.replies == c.replies
            && if j.state == Acked then
                 c' == c.(out := c.out + {Packet(env.me, sender, c.id, SetAck(|j.nodesDelivered|))})
               else
                 && c'.out == c.out
                 && (c'.job.value.state == JobState.Queued <==> j.state == JobState.Queued && sender !in env.greater)
                 && c'.job.value.state != WaitRepl && c'.job.value.state != Acked
                 && (j.retry > 0 && j.qtime != 0 ==> c'.job.value.qtime == env.now + j.retry * 1000 + env.jitter)
                 && (j.retry == 0 ==> c'.job.value.qtime == j.qtime)
  {
  }

  /** WILLQUEUE makes a live copy list the sender; one that is in its queue says so to all it
      lists, so that the sender does not queue the job; an acknowledged one answers SETACK. */
  lemma {:induction false} WillQueueHeard(env: Env, c: Ctx, sender: NodeId, target: Option<NodeId>)
    requires c.job.Some? && sender != env.me
    ensures var (c', j) := (Handle(env, c, sender, WillQueue, target), c.job.value);
            && c'.log == c.log && c'.replies == c.replies
            && c'.job == Some(if IsLive(c) then j.(nodesDelivered := j.nodesDelivered + {sender}) else j)
            && c'.out == c.out +
              match j.state
              case WaitRepl => {}
              case Active => {}
              case Queued => (set n | n in j.nodesDelivered + {sender} && n != env.me ::
                Packet(env.me, n, c.id, Message.Queued(false)))
              case Acked => {Packet(env.me, sender, c.id, SetAck(|j.nodesDelivered|))}
  {
  }

  /** ENQUEUE puts an active copy in its queue, or makes it due after a delay; but not a
      copy that is never to be queued, nor for a paused queue. */
  lemma {:induction false} EnqueueHeard(env: Env, c: Ctx, sender: NodeId, after: nat, target: Option<NodeId>)
    requires c.job.Some? && c.job.value.state == Active
    ensures var (c', j) := (Handle(env, c, sender, Enqueue(after), target), c.job.value);
            && c'.job.Some? && c'.log == c.log && c'.replies == c.replies && c'.out == c.out
            && (c'.job.value.state == JobState.Queued <==>
              !env.paused && after == 0 && j.qtime != 0 && (j.retry > 0 || !j.delivered))
            && (c'.job.value.state != JobState.Queued ==> c'.job.value.state == Active)
            && (!env.paused && after > 0 && j.retry > 0 && j.qtime != 0 ==>
              c'.job.value.qtime == env.now + after * 1000)
  {
  }

  // ----------------------------------------------- jobs their own node has no room for

  /** ADDJOB of a new job on a node that keeps no copy, and has to wait for others. */
  predicate AddsElsewhere(env: Env, c: Ctx, a: AddArgs)
  {
    && c.job.None? && Refuses(env) && !env.paused && env.now > 0 && 1 <= a.replicate <= a.reachable && !a.async
    && env.me !in a.candidates
  }

  /** It waits, unlogged, and lists only other nodes; each is sent the job. */
  lemma {:induction false} ElsewhereWaits(env: Env, c: Ctx, a: AddArgs)
    requires AddsElsewhere(env, c, a)
    ensures var c1 := AddJob(env, c, a);
            && Rounds.Waiting(c1) && c1.id == c.id && c1.replies == c.replies && c1.log == c.log
            && c1.job.value.nodesConfirmed == Some({}) && env.me !in c1.job.value.nodesDelivered
            && Rounds.NewJobOf(env, a, c1.job.value)
            && forall n :: n in c1.job.value.nodesDelivered ==>
              Packet(env.me, n, c.id, Rounds.ReplFor(a, a.ttl + 1, c1.job.value.nodesDelivered, n in a.quiet)) in c1.out
  {
    ReceiversFrom({}, a.candidates, a.replicate);
  }

  /** With ASYNC such a node answers at once, sends the job out without waiting for answers,
      tells one of the receivers to queue it, and keeps nothing. */
  lemma {:induction false} ElsewhereAtOnce(env: Env, c: Ctx, a: AddArgs)
    requires c.job.None? && Refuses(env) && !env.paused && 1 <= a.replicate <= a.reachable && a.async
    requires a.target.Some? && a.target.value != env.me
    ensures var c' := AddJob(env, c, a);
            && c'.job.None? && c'.log == c.log && c'.replies == c.replies + [Direct]
            && Packet(env.me, a.target.value, c.id, Enqueue(a.delay)) in c'.out
            && var nodes := AddReceivers({}, a.candidates, a.replicate);
               forall n :: n in nodes && n != env.me ==>
                 Packet(env.me, n, c.id, Rounds.ReplFor(a, a.ttl + 1, nodes, true)) in c'.out
  {
  }

  /** The last GOTJOB answers the client, removes the copy, and tells one node to queue it. */
  lemma {:induction false} ElsewhereAnswered(env: Env, c: Ctx, sender: NodeId, target: NodeId)
    requires c.job.Some? && c.job.value.state == WaitRepl && c.job.value.nodesConfirmed.Some?
    requires env.me !in c.job.value.nodesDelivered && target != env.me
    requires |c.job.value.nodesConfirmed.value + {sender}| == c.job.value.repl
    ensures var c' := Handle(env, c, sender, GotJob, Some(target));
            && c'.job.None? && c'.replies == c.replies + [Answered]
            && Packet(env.me, target, c.id, Enqueue(c.job.value.delay)) in c'.out
  {
  }

  /** A copy of a job that may be delivered once, made by a REPLJOB, is never queued: not by
      the ENQUEUE of the node that added it, nor by any turn of the timer. */
  lemma {:induction false} NeverQueued(c: Ctx, envs: seq<Env>)
    requires c.job.Some? && c.job.value.state == Active && c.job.value.retry == 0 && c.job.value.qtime == 0
    ensures var c' := Turns(c, envs);
            c'.job.None? || (c'.job.value.state == Active && c'.job.value.retry == 0 && c'.job.value.qtime == 0)
    decreases |envs|
  {
    if envs != [] {
      var c1 := Process(envs[0], c);
      if c1.job.Some? { NeverQueued(c1, envs[1..]); }
    }
  }

  /** The node that is told to queue such a job does so if and only if the job has a retry
      time: a job that may be delivered once is then delivered never. */
  lemma {:induction false} ElsewhereQueued(env: Env, c: Ctx, sender: NodeId, m: Message, env': Env, envs: seq<Env>)
    requires m.ReplJob? && c.job.None? && sender != env.me && !Refuses(env) && !env.paused && env.now > 0
    requires env'.me == env.me && !env'.paused && (m.retry > 0 ==> m.retry * 1000 + env.jitter > 0)
    ensures var c1 := Handle(env', Handle(env, c, sender, m, None), sender, Enqueue(m.delay), None);
            && c1.job.Some?
            && (c1.job.value.state == JobState.Queued <==> m.delay == 0 && m.retry > 0)
            && (m.delay > 0 && m.retry > 0 ==>
              c1.job.value.state == Active && c1.job.value.qtime == env'.now + m.delay * 1000)
            && (m.retry == 0 ==>
              c1.job.value.state == Active
              && (Turns(c1, envs).job.None? || Turns(c1, envs).job.value.state == Active))
  {
    Rounds.ReplJobAccepted(env, c, sender, m);
    var p := Handle(env, c, sender, m, None);
    EnqueueHeard(env', p, sender, m.delay, None);
    var c1 := Handle(env', p, sender, Enqueue(m.delay), None);
    if m.retry == 0 { NeverQueued(c1, envs); }
  }

  // ---------------------------------------------------------------- how a job is ended

  /** FASTACK removes the job, and tells every node that may have it, or every node there is
      when it does not know the job. */
  lemma {:induction false} FastAckTold(env: Env, c: Ctx)
    ensures var c' := FastAck(env, c);
            var to := if c.job.Some? then c.job.value.nodesDelivered else env.nodes;
            && c'.job.None? && c'.log == c.log + (if IsLive(c) then [DelJobCommand(c.id)] else [])
            && c'.out == c.out + set n | n in to && n != env.me :: Packet(env.me, n, c.id, DelJob)
  {
  }

  /** When the client of a job that waits is gone, so is the job, here and wherever it was
      sent to. */
  lemma {:induction false} TimeoutTold(env: Env, c: Ctx)
    requires c.job.Some?
    ensures var (c', j) := (Timeout(env, c), c.job.value);
            && c'.replies == c.replies
            && if j.state == WaitRepl then
                 && c'.job.None?
                 && c'.out == c.out + set n | n in j.nodesDelivered && n != env.me :: Packet(env.me, n, c.id, DelJob)
               else c'.job == Some(j.(client := false)) && c'.out == c.out && c'.log == c.log
  {
  }

  /** An acknowledge of a job that this node does not know is kept, for the life in its ID,
      and every other node is asked to acknowledge it; unless the node is alone or leaving,
      or the job may be delivered once. */
  lemma {:induction false} UnknownAcked(env: Env, c: Ctx, minutes: nat)
    requires c.job.None?
    ensures var c' := AckJob(env, c, minutes);
            && c'.log == c.log && c'.replies == c.replies
            && if env.size > 1 && !env.leaving && minutes % 2 == 1 then
                 && IsAcked(c') && c'.job.value.nodesDelivered == {}
                   && c'.job.value.etime == env.unixtime + minutes * 60
                 && c'.out == c.out + set n | n in env.nodes && n != env.me :: Packet(env.me, n, c.id, SetAck(0))
               else c' == c
  {
  }

  /** Such an acknowledge is dropped as soon as a node that knows the job answers, or when
      all nodes have answered that they do not. */
  lemma {:induction false} UnknownAnswered(env: Env, c: Ctx, sender: NodeId, known: bool, target: Option<NodeId>)
    requires IsAcked(c) && c.job.value.nodesDelivered == {}
    ensures var c' := Handle(env, c, sender, GotAck(known), target);
            var had := if c.job.value.nodesConfirmed.Some? then c.job.value.nodesConfirmed.value else {};
            && c'.out == c.out && c'.log == c.log && c'.replies == c.replies
            && (c'.job.None? <==> known || |had + {sender}| >= |env.nodes|)
            && (c'.job.Some? ==> c'.job.value == c.job.value.(nodesConfirmed := Some(had + {sender})))
  {
  }

  /** A turn of the timer for such an acknowledge: it is dropped when there is no other node,
      and otherwise every node that has not answered is asked. */
  lemma {:induction false} UnknownTurn(env: Env, c: Ctx)
    requires IsAcked(c) && c.job.value.nodesDelivered == {} && env.unixtime < c.job.value.etime
    ensures var c' := Process(env, c);
            var had := if c.job.value.nodesConfirmed.Some? then c.job.value.nodesConfirmed.value else {env.me};
            && c'.log == c.log && c'.replies == c.replies
            && (c'.job.None? <==> env.size == 1)
            && (c'.job.Some? ==>
              && c'.job.value == c.job.value.(nodesConfirmed := Some(had))
              && c'.out == c.out + set n | n in env.nodes - had && n != env.me :: Packet(env.me, n, c.id, SetAck(0)))
  {
  }
}
