/** What one node does with its copy of one job: the job table entry, packets
    sent, the lines it appends to the AOF and the replies to clients, for every
    cluster message, timer and command of src/job.c, src/ack.c, src/cluster.c and
    the job part of src/queue.c.

    Clocks, jitter, the choice of receivers and the answers of parts that are not
    modelled (memory pressure, paused queues) are parameters.
 */
module JobSpec {
  import opened Options

  type NodeId = nat
  type JobId = nat

  datatype JobState = WaitRepl | Active | Queued | Acked

  datatype Job = Job(
    state: JobState,
    repl: nat,
    etime: nat,                        // seconds
    delay: nat,
    retry: nat,
    qtime: int,                        // milliseconds, 0: never queue again
    bcastQueued: bool,
    bcastWillQueue: bool,
    delivered: bool,                   // JOB_FLAG_DELIVERED
    nodesDelivered: set<NodeId>,
    nodesConfirmed: Option<set<NodeId>>,
    client: bool)                      // an ADDJOB client is blocked on it

  datatype Message =
    | ReplJob(repl: nat, ttl: nat, delay: nat, retry: nat, nodes: set<NodeId>, noreply: bool)
    | GotJob
    | SetAck(mayhave: nat)
    | GotAck(known: bool)
    | DelJob
    | Enqueue(after: nat)
    | Queued(nack: bool)
    | Working
    | WillQueue

  datatype Packet = Packet(src: NodeId, dst: NodeId, id: JobId, msg: Message)

  /** The two commands the AOF holds. */
  datatype Command = LoadJob(id: JobId, etime: nat) | DelJobCommand(id: JobId)

  /** Answered: a client blocked in ADDJOB gets its job ID. */
  datatype Reply = Answered | Direct | NoRepl | Refused | Known(count: nat)

  datatype Ctx = Ctx(id: JobId, job: Option<Job>, out: set<Packet>, log: seq<Command>, replies: seq<Reply>)

  /** What a handler reads of its node. */
  datatype Env = Env(
    me: NodeId,
    nodes: set<NodeId>,                // server.cluster->nodes
    size: nat,                         // server.cluster->size
    now: int,                          // server.mstime
    unixtime: nat,
    jitter: int,
    leaving: bool,                     // this node is leaving the cluster
    lowMemory: bool,
    paused: bool,                      // the queue of the job is paused in input
    greater: set<NodeId>)              // nodes that win against this one for the job

  /** No new copies here. */
  predicate Refuses(env: Env) { env.leaving || env.lowMemory }

  function Set(c: Ctx, j: Job): Ctx { c.(job := Some(j)) }

  // ------------------------------------------------------------------ sending

  function Send(env: Env, c: Ctx, dst: NodeId, msg: Message): Ctx
  {
    if dst == env.me then c else c.(out := c.out + {Packet(env.me, dst, c.id, msg)})
  }

  function ToAll(me: NodeId, id: JobId, nodes: set<NodeId>, msg: Message): set<Packet>
  {
    set n | n in nodes && n != me :: Packet(me, n, id, msg)
  }

  /** clusterBroadcastJobIDMessage */
  function Broadcast(env: Env, c: Ctx, nodes: set<NodeId>, msg: Message): Ctx
  {
    c.(out := c.out + ToAll(env.me, c.id, nodes, msg))
  }

  function Reply1(c: Ctx, r: Reply): Ctx { c.(replies := c.replies + [r]) }

  function Log1(c: Ctx, cmd: Command): Ctx { c.(log := c.log + [cmd]) }

  // ------------------------------------------------------------------- queues

  /** enqueueJob */
  function EnqueueJob(env: Env, c: Ctx, nack: bool): Ctx
    requires c.job.Some?
  {
    var j := c.job.value;
    if j.state == JobState.Queued || j.qtime == 0 || (j.retry == 0 && j.delivered) then c
    else
      var j1 := j.(state := JobState.Queued,
                   bcastWillQueue := j.bcastWillQueue || j.retry > 0,
                   qtime := if j.retry > 0 then env.now + j.retry * 1000 + env.jitter else 0);
      if j.bcastQueued || nack then Broadcast(env, Set(c, j1), j.nodesDelivered, Message.Queued(nack))
      else Set(c, j1.(bcastQueued := true))
  }

  /** dequeueJob */
  function DequeueJob(c: Ctx): Ctx
    requires c.job.Some?
  {
    if c.job.value.state == JobState.Queued then Set(c, c.job.value.(state := Active)) else c
  }

  /** updateJobRequeueTime */
  function Requeue(j: Job, qtime: int): Job
  {
    if j.retry == 0 || j.qtime == 0 then j else j.(qtime := qtime)
  }

  // -------------------------------------------------------------- registration

  /** unregisterJob, followed by freeJob */
  function Unregister(env: Env, c: Ctx): Ctx
    requires c.job.Some?
  {
    var j := c.job.value;
    var c1 := if j.state == Active || j.state == JobState.Queued then Log1(c, DelJobCommand(c.id)) else c;
    var c2 := if j.state == WaitRepl then Broadcast(env, Reply1(c1, NoRepl), j.nodesDelivered, DelJob) else c1;
    c2.(job := None)
  }

  /** deleteJobFromCluster */
  function DeleteFromCluster(env: Env, c: Ctx): Ctx
    requires c.job.Some?
  {
    Unregister(env, Broadcast(env, c, c.job.value.nodesDelivered, DelJob))
  }

  // --------------------------------------------------------------- acknowledges

  /** acknowledgeJob */
  function Acknowledge(c: Ctx): Ctx
    requires c.job.Some?
  {
    if c.job.value.state == Acked then c
    else Log1(Set(c, c.job.value.(state := Acked, nodesConfirmed := None)), DelJobCommand(c.id))
  }

  /** tryJobGC */
  function TryGC(env: Env, c: Ctx): Ctx
    requires c.job.Some?
  {
    var j := c.job.value;
    if j.state != Acked then c
    else
      var dummy := |j.nodesDelivered| == 0;
      var confirmed := if j.nodesConfirmed.Some? then j.nodesConfirmed.value else {env.me};
      var c1 := Set(c, j.(nodesConfirmed := Some(confirmed)));
      if (!dummy && |j.nodesDelivered| == |confirmed|) || (dummy && env.size == 1) then Unregister(env, c1)
      else Broadcast(env, c1, (if dummy then env.nodes else j.nodesDelivered) - confirmed, SetAck(|j.nodesDelivered|))
  }

  /** gotAckReceived */
  function GotAckReceived(env: Env, c: Ctx, sender: NodeId, known: bool): Ctx
    requires c.job.Some?
  {
    if c.job.value.state != Acked then c
    else if |c.job.value.nodesDelivered| == 0 then DummyGotAck(env, c, sender, known)
    else CountAck(env, c, sender, known)
  }

  /** The copy is just an acknowledge: a node that knows the job takes over, and when
      no node of the cluster knows it there is nothing to do. */
  function DummyGotAck(env: Env, c: Ctx, sender: NodeId, known: bool): Ctx
    requires c.job.Some?
  {
    var j := c.job.value;
    if known then Unregister(env, c)
    else
      var all := (if j.nodesConfirmed.Some? then j.nodesConfirmed.value else {}) + {sender};
      var c1 := Set(c, j.(nodesConfirmed := Some(all)));
      if |all| >= |env.nodes| then Unregister(env, c1) else c1
  }

  /** A sender that knows the job, or is listed, counts. */
  function Counted(j: Job, sender: NodeId, known: bool): Job
  {
    if known || sender in j.nodesDelivered then
      j.(nodesDelivered := j.nodesDelivered + {sender},
         nodesConfirmed := if j.nodesConfirmed.Some? then Some(j.nodesConfirmed.value + {sender}) else None)
    else j
  }

  /** One more node has acknowledged; the last one ends the garbage collection. */
  function CountAck(env: Env, c: Ctx, sender: NodeId, known: bool): Ctx
    requires c.job.Some?
  {
    var j := Counted(c.job.value, sender, known);
    if j.nodesConfirmed.Some? && |j.nodesConfirmed.value| >= |j.nodesDelivered| then DeleteFromCluster(env, Set(c, j))
    else Set(c, j)
  }

  // --------------------------------------------------------------- replication

  /** The first loop of clusterReplicateJob: up to repl new receivers. */
  function AddReceivers(delivered: set<NodeId>, candidates: seq<NodeId>, repl: nat): set<NodeId>
    decreases |candidates|
  {
    if repl == 0 || candidates == [] then delivered
    else if candidates[0] in delivered then AddReceivers(delivered, candidates[1..], repl)
    else AddReceivers(delivered + {candidates[0]}, candidates[1..], repl - 1)
  }

  /** serializeJob for a message */
  function Serialized(env: Env, j: Job, noreply: bool): Message
  {
    ReplJob(j.repl, (if j.etime >= env.unixtime then j.etime - env.unixtime else 0) + 1, j.delay, j.retry,
      j.nodesDelivered, noreply)
  }

  /** clusterReplicateJob.  quiet: the nodes told not to reply. */
  function Replicate(env: Env, c: Ctx, repl: nat, noreply: bool, candidates: seq<NodeId>, quiet: set<NodeId>): Ctx
    requires c.job.Some?
  {
    if repl == 0 then c
    else
      var j := c.job.value.(nodesDelivered := AddReceivers(c.job.value.nodesDelivered, candidates, repl));
      var loud := if noreply then {} else j.nodesDelivered - quiet;
      Broadcast(env, Broadcast(env, Set(c, j), j.nodesDelivered - loud, Serialized(env, j, true)), loud,
        Serialized(env, j, false))
  }

  /** jobReplicationAchieved; target: the node chosen to queue a job not kept here */
  function ReplicationAchieved(env: Env, c: Ctx, target: Option<NodeId>): Ctx
    requires c.job.Some?
  {
    var j := c.job.value.(state := Active, client := false);
    var c1 := Reply1(Set(c, j), Answered);
    if env.me !in j.nodesDelivered then
      Unregister(env, if target.Some? then Send(env, c1, target.value, Enqueue(j.delay)) else c1)
    else
      var c2 := Set(c1, j.(nodesConfirmed := None));
      var c3 := if j.delay == 0 then EnqueueJob(env, c2, false) else c2;
      Log1(c3, LoadJob(c.id, j.etime))
  }

  /** The arguments of ADDJOB, after parsing. */
  datatype AddArgs = AddArgs(
    replicate: nat, ttl: nat, delay: nat, retry: nat, async: bool,
    reachable: nat, candidates: seq<NodeId>, quiet: set<NodeId>, target: Option<NodeId>)

  /** The job ADDJOB creates. */
  function NewJob(env: Env, a: AddArgs): Job
  {
    Job(WaitRepl, a.replicate, env.unixtime + a.ttl, a.delay, a.retry,
        env.now + (if a.delay > 0 then a.delay else a.retry) * 1000,
        false, false, false, if Refuses(env) then {} else {env.me}, None, false)
  }

  /** The job is registered, and its client waits or is answered. */
  function Created(env: Env, c: Ctx, a: AddArgs): (r: Ctx)
    ensures r.job.Some?
  {
    var c1 := Set(c, NewJob(env, a));
    if (a.replicate > 1 || Refuses(env)) && !a.async then
      Set(c1, c1.job.value.(client := true, nodesConfirmed := Some(if Refuses(env) then {} else {env.me})))
    else AddedAtOnce(env, c1, a)
  }

  /** addjobCommand, from the checks on */
  function AddJob(env: Env, c: Ctx, a: AddArgs): Ctx
  {
    var additional := if Refuses(env) then a.replicate else a.replicate - 1;
    if additional > a.reachable || env.paused || c.job.Some? then Reply1(c, Refused)
    else
      var c2 := Created(env, c, a);
      var c3 := if additional > 0 then Replicate(env, c2, additional, a.async, a.candidates, a.quiet) else c2;
      if a.async && Refuses(env) then
        (if a.target.Some? then Send(env, c3, a.target.value, Enqueue(a.delay)) else c3).(job := None)
      else c3
  }

  /** Nothing to wait for. */
  function AddedAtOnce(env: Env, c: Ctx, a: AddArgs): (r: Ctx)
    requires c.job.Some?
    ensures r.job.Some?
  {
    var c1 :=
      if a.delay > 0 then Set(c, c.job.value.(state := Active))
      else if Refuses(env) then c else EnqueueJob(env, c, false);
    if Refuses(env) then Reply1(c1, Direct) else Log1(Reply1(c1, Direct), LoadJob(c.id, c.job.value.etime))
  }

  // ------------------------------------------------------------------ messages

  /** The job a REPLJOB message describes, at its receiver. */
  function Received(env: Env, m: Message): Job
    requires m.ReplJob?
  {
    Job(Active, m.repl, env.unixtime + m.ttl, m.delay, m.retry,
        if m.retry > 0 then env.now + m.delay * 1000 + m.retry * 1000 + env.jitter else 0,
        true, m.retry > 0, false, m.nodes, None, false)
  }

  function OnReplJob(env: Env, c: Ctx, sender: NodeId, m: Message): Ctx
    requires m.ReplJob?
  {
    if Refuses(env) || env.paused then c
    else
      var c1 :=
        if c.job.Some? then Set(c, c.job.value.(nodesDelivered := c.job.value.nodesDelivered + m.nodes))
        else Log1(Set(c, Received(env, m)), LoadJob(c.id, Received(env, m).etime));
      if m.noreply then c1 else Send(env, c1, sender, GotJob)
  }

  function OnGotJob(env: Env, c: Ctx, sender: NodeId, target: Option<NodeId>): Ctx
    requires c.job.Some?
  {
    var j := c.job.value;
    if j.state != WaitRepl then c
    else
      var confirmed := (if j.nodesConfirmed.Some? then j.nodesConfirmed.value else {}) + {sender};
      var c1 := Set(c, j.(nodesConfirmed := Some(confirmed)));
      if |confirmed| == j.repl then ReplicationAchieved(env, c1, target) else c1
  }

  function OnSetAck(env: Env, c: Ctx, sender: NodeId, mayhave: nat, target: Option<NodeId>): Ctx
  {
    if c.job.None? then Send(env, c, sender, GotAck(false))
    else if c.job.value.state == WaitRepl then
      // acknowledged before it was replicated enough
      var c1 := ReplicationAchieved(env, c, target);
      if c1.job.None? then c1 else AckAndAnswer(env, c1, sender, mayhave)
    else AckAndAnswer(env, c, sender, mayhave)
  }

  /** Acknowledge our copy, and confirm it unless we know more holders than the sender. */
  function AckAndAnswer(env: Env, c: Ctx, sender: NodeId, mayhave: nat): Ctx
    requires c.job.Some?
  {
    var c1 := Acknowledge(c);
    if |c1.job.value.nodesDelivered| <= mayhave then Send(env, c1, sender, GotAck(true))
    else TryGC(env, if mayhave == 0 then Send(env, c1, sender, GotAck(true)) else c1)
  }

  function OnEnqueue(env: Env, c: Ctx, after: nat): Ctx
    requires c.job.Some?
  {
    var j := c.job.value;
    if (j.state == WaitRepl || j.state == Active) && !env.paused then
      var c1 := Set(c, j.(bcastQueued := false));
      if after == 0 then EnqueueJob(env, c1, false) else Set(c1, Requeue(c1.job.value, env.now + after * 1000))
    else c
  }

  /** QUEUED, and WORKING, which always dequeues */
  function OnQueued(env: Env, c: Ctx, sender: NodeId, working: bool): Ctx
    requires c.job.Some?
  {
    if c.job.value.state == Acked then Send(env, c, sender, SetAck(|c.job.value.nodesDelivered|))
    else
      var c1 := if working || sender in env.greater then DequeueJob(c) else c;
      var j := c1.job.value;
      if j.retry > 0 then Set(c1, Requeue(j.(bcastWillQueue := true), env.now + j.retry * 1000 + env.jitter)) else c1
  }

  function OnWillQueue(env: Env, c: Ctx, sender: NodeId): Ctx
    requires c.job.Some?
  {
    var j := c.job.value;
    match j.state
    case WaitRepl => c
    case Active => Set(c, j.(nodesDelivered := j.nodesDelivered + {sender}))
    case Queued =>
      var c1 := Set(c, j.(nodesDelivered := j.nodesDelivered + {sender}));
      Broadcast(env, c1, c1.job.value.nodesDelivered, Message.Queued(false))
    case Acked => Send(env, c, sender, SetAck(|j.nodesDelivered|))
  }

  /** The job messages of clusterProcessPacket */
  function Handle(env: Env, c: Ctx, sender: NodeId, m: Message, target: Option<NodeId>): Ctx
  {
    if m.ReplJob? then OnReplJob(env, c, sender, m)
    else if m.SetAck? then OnSetAck(env, c, sender, m.mayhave, target)
    else if c.job.None? then c
    else if m.GotJob? then OnGotJob(env, c, sender, target)
    else if m.GotAck? then GotAckReceived(env, c, sender, m.known)
    else if m.DelJob? then Unregister(env, c)
    else if m.Enqueue? then OnEnqueue(env, c, m.after)
    else if m.WillQueue? then OnWillQueue(env, c, sender)
    else OnQueued(env, c, sender, m.Working?)
  }

  // ---------------------------------------------------------- timers, commands

  /** processJob */
  function Process(env: Env, c: Ctx): Ctx
    requires c.job.Some?
  {
    if c.job.value.etime <= env.unixtime then Unregister(env, c)
    else
      var c1 := ProcessWillQueue(env, c);
      var c2 := ProcessRequeue(env, c1);
      if c2.job.value.state == Acked then TryGC(env, c2) else c2
  }

  const WILLQUEUE_ADVANCE: int := 500

  function ProcessWillQueue(env: Env, c: Ctx): (r: Ctx)
    requires c.job.Some?
    ensures r.job.Some?
  {
    var j := c.job.value;
    if (j.state == Active || j.state == JobState.Queued) && j.bcastWillQueue
      && j.qtime - WILLQUEUE_ADVANCE <= env.now then
      Set(if j.state == Active then Broadcast(env, c, j.nodesDelivered, WillQueue) else c, j.(bcastWillQueue := false))
    else c
  }

  function ProcessRequeue(env: Env, c: Ctx): (r: Ctx)
    requires c.job.Some?
    ensures r.job.Some?
  {
    var j := c.job.value;
    var c1 :=
      if j.state == Active && j.qtime <= env.now then
        if j.retry > 0 && env.paused then Set(c, Requeue(j, env.now + j.retry * 1000 + env.jitter))
        else EnqueueJob(env, c, false)
      else c;
    var j1 := c1.job.value;
    if j1.state == JobState.Queued && j1.qtime <= env.now && j1.retry > 0 then
      Set(c1, j1.(bcastWillQueue := true, qtime := env.now + j1.retry * 1000 + env.jitter))
    else c1
  }

  /** ackjobCommand for one ID; minutes: the TTL in the ID, even for at most once jobs */
  function AckJob(env: Env, c: Ctx, minutes: nat): Ctx
  {
    if c.job.None? then
      if env.size > 1 && !env.leaving && minutes % 2 == 1 then TryGC(env, Set(c, DummyAck(env, minutes))) else c
    else
      TryGC(env, Acknowledge(c))
  }

  /** A job that only holds an acknowledge. */
  function DummyAck(env: Env, minutes: nat): Job
  {
    Job(Acked, 0, env.unixtime + minutes * 60, 0, 0, 0, false, false, false, {}, None, false)
  }

  /** unblockClientWaitingJobRepl: the client went away or timed out */
  function Timeout(env: Env, c: Ctx): Ctx
    requires c.job.Some?
  {
    if c.job.value.state == WaitRepl then DeleteFromCluster(env, Set(c, c.job.value.(state := Active, client := false)))
    else Set(c, c.job.value.(client := false))
  }

  /** fastackCommand for one ID */
  function FastAck(env: Env, c: Ctx): Ctx
  {
    if c.job.None? then Broadcast(env, c, env.nodes, DelJob) else DeleteFromCluster(env, c)
  }

  /** queueFetchJob */
  function Fetch(c: Ctx): Ctx
    requires c.job.Some?
  {
    if c.job.value.state == JobState.Queued then Set(c, c.job.value.(state := Active, delivered := true)) else c
  }

  /** workingCommand */
  function WorkingCommand(env: Env, c: Ctx): Ctx
    requires c.job.Some?
  {
    var c1 := DequeueJob(c);
    var j := c1.job.value;
    Broadcast(env, Set(c1, Requeue(j.(bcastWillQueue := true), env.now + j.retry * 1000 + env.jitter)),
      j.nodesDelivered, Working)
  }

  datatype Action =
    | DoAddJob(args: AddArgs)
    | DoAckJob(minutes: nat)
    | DoFastAck
    | DoDelJob
    | DoProcess
    | DoTimeout
    | DoMoreReceivers(candidates: seq<NodeId>, quiet: set<NodeId>)
    | DoFetch
    | DoEnqueue(nack: bool)
    | DoDequeue
    | DoWorking

  /** What a node does of its own or for a client. */
  function Act(env: Env, c: Ctx, a: Action): Ctx
  {
    if a.DoAddJob? then AddJob(env, c, a.args)
    else if a.DoAckJob? then AckJob(env, c, a.minutes)
    else if a.DoFastAck? then FastAck(env, c)
    else if c.job.None? then c
    else if a.DoDelJob? then Unregister(env, c)
    else if a.DoProcess? then Process(env, c)
    else if a.DoTimeout? then (if c.job.value.client then Timeout(env, c) else c)
    else if a.DoMoreReceivers?
      then (if c.job.value.client then Replicate(env, c, 1, false, a.candidates, a.quiet) else c)
    else if a.DoFetch? then Fetch(c)
    else if a.DoEnqueue? then (if c.job.value.state == Active then EnqueueJob(env, c, a.nack) else c)
    else if a.DoDequeue? then DequeueJob(c)
    else WorkingCommand(env, c)
  }
}
