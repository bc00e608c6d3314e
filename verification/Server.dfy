/** The job table of a node, updated in place: the functions of src/job.c, src/ack.c
    and src/queue.c that change a job, and the job messages of src/cluster.c.

    Whatever arrives, the log always replays to exactly the active and queued jobs, the
    confirmations counted are those that came, and nothing happens to other jobs.
 */
module Server {
  import opened Options
  import opened JobSpec
  import opened JobTable
  import JobCopy
  import Rounds
  import Timing

  /** What WORKING replies. */
  datatype WorkingReply = NoJob | TooLate | PutOffBy(retry: nat)

  /** More than half of the life of a job is over. */
  predicate TooLateAt(now: int, etime: nat, created: nat)
    ensures TooLateAt(now, etime, created) <==> created < etime * 1000 && etime * 1000 - created < 2 * (now - created)
  {
    var ttl, elapsed := etime * 1000 - created, now - created;
    ttl > 0 && elapsed > ttl / 2
  }

  class Server {
    const me: NodeId
    var jobs: map<JobId, Job>
    var out: set<Packet>
    var log: seq<Command>
    var replies: seq<Reply>
    ghost var notes: Notes

    ghost function View(id: JobId): Ctx
      reads this
    {
      Ctx(id, if id in jobs then Some(jobs[id]) else None, out, log, replies)
    }

    ghost function Others(id: JobId): map<JobId, Job>
      reads this
    {
      jobs - {id}
    }

    /** The log replays to the live jobs at any time, and the jobs count what was told. */
    ghost predicate Valid()
      reads this
    {
      TableOk(me, jobs, log, notes)
    }

    /** The nodes whose acknowledge of a job was received. */
    ghost function Acks(id: JobId): set<NodeId>
      reads this
    {
      NodesAt(notes.acks, id)
    }

    /** The nodes known to have the job: they confirmed it, or this one added it. */
    ghost function Holders(id: JobId): set<NodeId>
      reads this
    {
      NodesAt(notes.holders, id)
    }

    constructor (me: NodeId)
      ensures Valid() && this.me == me && forall id :: View(id) == Ctx(id, None, {}, [], [])
    {
      this.me := me;
      jobs, out, log, replies, notes := map[], {}, [], [], Notes(map[], map[], {});
    }

    // ------------------------------------------------------------- steps of handlers

    /** clusterSendJobIDMessage */
    method SendMessage(env: Env, dst: NodeId, id: JobId, msg: Message)
      modifies this`out
      ensures View(id) == Send(env, old(View(id)), dst, msg)
    {
      if dst != env.me { out := out + {Packet(env.me, dst, id, msg)}; }
    }

    /** clusterBroadcastJobIDMessage */
    method BroadcastMessage(env: Env, nodes: set<NodeId>, id: JobId, msg: Message)
      modifies this`out
      ensures View(id) == Broadcast(env, old(View(id)), nodes, msg)
    {
      var left := nodes;
      while left != {}
        invariant left <= nodes
        invariant out == old(out) + ToAll(env.me, id, nodes - left, msg)
        decreases |left|
      {
        var n :| n in left;
        left := left - {n};
        if n != env.me { out := out + {Packet(env.me, n, id, msg)}; }
      }
    }

    /** enqueueJob */
    method QueueJob(env: Env, id: JobId, nack: bool)
      requires id in jobs
      modifies this`jobs, this`out, this`log, this`replies
      ensures View(id) == EnqueueJob(env, old(View(id)), nack) && Others(id) == old(Others(id))
    {
      var j := jobs[id];
      if j.state == JobState.Queued || j.qtime == 0 { return; }
      if j.retry == 0 && j.delivered { return; }
      j := j.(state := JobState.Queued);
      if j.retry > 0 {
        j := j.(bcastWillQueue := true, qtime := env.now + j.retry * 1000 + env.jitter);
      } else {
        j := j.(qtime := 0);
      }
      if j.bcastQueued || nack {
        BroadcastMessage(env, j.nodesDelivered, id, Message.Queued(nack));
      } else {
        j := j.(bcastQueued := true);
      }
      jobs := jobs[id := j];
    }

    /** dequeueJob */
    method UnqueueJob(id: JobId)
      requires id in jobs
      modifies this`jobs, this`out, this`log, this`replies
      ensures View(id) == DequeueJob(old(View(id))) && Others(id) == old(Others(id))
    {
      if jobs[id].state == JobState.Queued { jobs := jobs[id := jobs[id].(state := Active)]; }
    }

    /** unregisterJob and freeJob */
    method UnregisterJob(env: Env, id: JobId)
      requires id in jobs
      modifies this`jobs, this`out, this`log, this`replies
      ensures View(id) == Unregister(env, old(View(id))) && Others(id) == old(Others(id))
    {
      var j := jobs[id];
      if j.state == Active || j.state == JobState.Queued { log := log + [DelJobCommand(id)]; }
      if j.state == WaitRepl {
        replies := replies + [NoRepl];
        BroadcastMessage(env, j.nodesDelivered, id, DelJob);
      }
      jobs := jobs - {id};
    }

    /** deleteJobFromCluster */
    method DeleteJobFromCluster(env: Env, id: JobId)
      requires id in jobs
      modifies this`jobs, this`out, this`log, this`replies
      ensures View(id) == DeleteFromCluster(env, old(View(id))) && Others(id) == old(Others(id))
    {
      BroadcastMessage(env, jobs[id].nodesDelivered, id, DelJob);
      UnregisterJob(env, id);
    }

    /** acknowledgeJob */
    method AcknowledgeJob(id: JobId)
      requires id in jobs
      modifies this`jobs, this`out, this`log, this`replies
      ensures View(id) == Acknowledge(old(View(id))) && Others(id) == old(Others(id))
    {
      if jobs[id].state == Acked { return; }
      UnqueueJob(id);
      jobs := jobs[id := jobs[id].(state := Acked)];
      if jobs[id].nodesConfirmed.Some? { jobs := jobs[id := jobs[id].(nodesConfirmed := None)]; }
      log := log + [DelJobCommand(id)];
    }

    /** tryJobGC */
    method TryJobGC(env: Env, id: JobId)
      requires id in jobs
      modifies this`jobs, this`out, this`log, this`replies
      ensures View(id) == TryGC(env, old(View(id))) && Others(id) == old(Others(id))
    {
      if jobs[id].state != Acked { return; }
      var dummy := |jobs[id].nodesDelivered| == 0;
      if jobs[id].nodesConfirmed.None? { jobs := jobs[id := jobs[id].(nodesConfirmed := Some({env.me}))]; }
      var j := jobs[id];
      var confirmed := j.nodesConfirmed.value;
      if (!dummy && |j.nodesDelivered| == |confirmed|) || (dummy && env.size == 1) {
        UnregisterJob(env, id);
        return;
      }
      var targets := if dummy then env.nodes else j.nodesDelivered;
      BroadcastMessage(env, targets - confirmed, id, SetAck(|j.nodesDelivered|));
    }

    /** gotAckReceived */
    method AckReceived(env: Env, sender: NodeId, id: JobId, known: bool)
      requires id in jobs
      modifies this`jobs, this`out, this`log, this`replies
      ensures View(id) == GotAckReceived(env, old(View(id)), sender, known) && Others(id) == old(Others(id))
    {
      if jobs[id].state != Acked { return; }
      if |jobs[id].nodesDelivered| == 0 {
        DummyAckReceived(env, sender, id, known);
      } else {
        CountAckReceived(env, sender, id, known);
      }
    }

    method DummyAckReceived(env: Env, sender: NodeId, id: JobId, known: bool)
      requires id in jobs
      modifies this`jobs, this`out, this`log, this`replies
      ensures View(id) == DummyGotAck(env, old(View(id)), sender, known) && Others(id) == old(Others(id))
    {
      if known {
        UnregisterJob(env, id);
        return;
      }
      var j := jobs[id];
      var all := (if j.nodesConfirmed.Some? then j.nodesConfirmed.value else {}) + {sender};
      jobs := jobs[id := j.(nodesConfirmed := Some(all))];
      if |all| >= |env.nodes| { UnregisterJob(env, id); }
    }

    method CountAckReceived(env: Env, sender: NodeId, id: JobId, known: bool)
      requires id in jobs
      modifies this`jobs, this`out, this`log, this`replies
      ensures View(id) == CountAck(env, old(View(id)), sender, known) && Others(id) == old(Others(id))
    {
      var j := jobs[id];
      if known || sender in j.nodesDelivered {
        j := j.(nodesDelivered := j.nodesDelivered + {sender});
        if j.nodesConfirmed.Some? { j := j.(nodesConfirmed := Some(j.nodesConfirmed.value + {sender})); }
      }
      jobs := jobs[id := j];
      if j.nodesConfirmed.Some? && |j.nodesConfirmed.value| >= |j.nodesDelivered| { DeleteJobFromCluster(env, id); }
    }

    /** The loop of clusterReplicateJob that chooses new receivers. */
    static method ChooseReceivers(delivered0: set<NodeId>, candidates: seq<NodeId>, repl0: nat)
      returns (delivered: set<NodeId>)
      requires repl0 > 0
      ensures delivered == AddReceivers(delivered0, candidates, repl0)
    {
      delivered := delivered0;
      var repl, i := repl0, 0;
      while i < |candidates|
        invariant i <= |candidates| && repl > 0
        invariant AddReceivers(delivered, candidates[i..], repl) == AddReceivers(delivered0, candidates, repl0)
      {
        assert candidates[i..][1..] == candidates[i + 1..];
        if candidates[i] !in delivered {
          delivered := delivered + {candidates[i]};
          repl := repl - 1;
          if repl == 0 { return; }
        }
        i := i + 1;
      }
    }

    /** clusterReplicateJob */
    method ReplicateJob(env: Env, id: JobId, repl: nat, noreply: bool, candidates: seq<NodeId>, quiet: set<NodeId>)
      requires id in jobs
      modifies this`jobs, this`out, this`log, this`replies
      ensures View(id) == Replicate(env, old(View(id)), repl, noreply, candidates, quiet)
              && Others(id) == old(Others(id))
    {
      if repl == 0 { return; }
      var delivered := ChooseReceivers(jobs[id].nodesDelivered, candidates, repl);
      var j := jobs[id].(nodesDelivered := delivered);
      jobs := jobs[id := j];
      var loud := if noreply then {} else delivered - quiet;
      BroadcastMessage(env, delivered - loud, id, Serialized(env, j, true));
      BroadcastMessage(env, loud, id, Serialized(env, j, false));
    }

    /** jobReplicationAchieved */
    method JobReplicationAchieved(env: Env, id: JobId, target: Option<NodeId>)
      requires id in jobs
      modifies this`jobs, this`out, this`log, this`replies
      ensures View(id) == ReplicationAchieved(env, old(View(id)), target) && Others(id) == old(Others(id))
    {
      jobs := jobs[id := jobs[id].(state := Active, client := false)];
      replies := replies + [Answered];
      if env.me !in jobs[id].nodesDelivered {
        if target.Some? { SendMessage(env, target.value, id, Enqueue(jobs[id].delay)); }
        UnregisterJob(env, id);
        return;
      }
      jobs := jobs[id := jobs[id].(nodesConfirmed := None)];
      var etime := jobs[id].etime;
      if jobs[id].delay == 0 { QueueJob(env, id, false); }
      log := log + [LoadJob(id, etime)];
    }

    /** REPLJOB */
    method ReplJobReceived(env: Env, sender: NodeId, id: JobId, m: Message)
      requires m.ReplJob?
      modifies this`jobs, this`out, this`log, this`replies
      ensures View(id) == OnReplJob(env, old(View(id)), sender, m) && Others(id) == old(Others(id))
    {
      if Refuses(env) || env.paused { return; }
      if id in jobs {
        jobs := jobs[id := jobs[id].(nodesDelivered := jobs[id].nodesDelivered + m.nodes)];
      } else {
        jobs := jobs[id := Received(env, m)];
        log := log + [LoadJob(id, jobs[id].etime)];
      }
      if !m.noreply { SendMessage(env, sender, id, GotJob); }
    }

    /** GOTJOB */
    method GotJobReceived(env: Env, sender: NodeId, id: JobId, target: Option<NodeId>)
      requires id in jobs
      modifies this`jobs, this`out, this`log, this`replies
      ensures View(id) == OnGotJob(env, old(View(id)), sender, target) && Others(id) == old(Others(id))
    {
      var j := jobs[id];
      if j.state != WaitRepl { return; }
      var confirmed := (if j.nodesConfirmed.Some? then j.nodesConfirmed.value else {}) + {sender};
      jobs := jobs[id := j.(nodesConfirmed := Some(confirmed))];
      if |confirmed| == j.repl { JobReplicationAchieved(env, id, target); }
    }

    /** SETACK */
    method SetAckReceived(env: Env, sender: NodeId, id: JobId, mayhave: nat, target: Option<NodeId>)
      modifies this`jobs, this`out, this`log, this`replies
      ensures View(id) == OnSetAck(env, old(View(id)), sender, mayhave, target) && Others(id) == old(Others(id))
    {
      if id !in jobs {
        SendMessage(env, sender, id, GotAck(false));
        return;
      }
      if jobs[id].state == WaitRepl {
        JobReplicationAchieved(env, id, target);
        if id !in jobs { return; }
      }
      AcknowledgeJob(id);
      if |jobs[id].nodesDelivered| <= mayhave {
        SendMessage(env, sender, id, GotAck(true));
      } else {
        if mayhave == 0 { SendMessage(env, sender, id, GotAck(true)); }
        TryJobGC(env, id);
      }
    }

    /** ENQUEUE */
    method EnqueueReceived(env: Env, id: JobId, after: nat)
      requires id in jobs
      modifies this`jobs, this`out, this`log, this`replies
      ensures View(id) == OnEnqueue(env, old(View(id)), after) && Others(id) == old(Others(id))
    {
      if (jobs[id].state == WaitRepl || jobs[id].state == Active) && !env.paused {
        jobs := jobs[id := jobs[id].(bcastQueued := false)];
        if after == 0 {
          QueueJob(env, id, false);
        } else {
          jobs := jobs[id := Requeue(jobs[id], env.now + after * 1000)];
        }
      }
    }

    /** QUEUED and WORKING */
    method QueuedReceived(env: Env, sender: NodeId, id: JobId, working: bool)
      requires id in jobs
      modifies this`jobs, this`out, this`log, this`replies
      ensures View(id) == OnQueued(env, old(View(id)), sender, working) && Others(id) == old(Others(id))
    {
      if jobs[id].state != Acked {
        if jobs[id].state == JobState.Queued && (working || sender in env.greater) { UnqueueJob(id); }
        if jobs[id].retry > 0 {
          var j := jobs[id].(bcastWillQueue := true);
          jobs := jobs[id := Requeue(j, env.now + j.retry * 1000 + env.jitter)];
        }
      } else {
        SendMessage(env, sender, id, SetAck(|jobs[id].nodesDelivered|));
      }
    }

    /** WILLQUEUE */
    method WillQueueReceived(env: Env, sender: NodeId, id: JobId)
      requires id in jobs
      modifies this`jobs, this`out, this`log, this`replies
      ensures View(id) == OnWillQueue(env, old(View(id)), sender) && Others(id) == old(Others(id))
    {
      if jobs[id].state == Active || jobs[id].state == JobState.Queued {
        jobs := jobs[id := jobs[id].(nodesDelivered := jobs[id].nodesDelivered + {sender})];
      }
      if jobs[id].state == JobState.Queued {
        BroadcastMessage(env, jobs[id].nodesDelivered, id, Message.Queued(false));
      } else if jobs[id].state == Acked {
        SendMessage(env, sender, id, SetAck(|jobs[id].nodesDelivered|));
      }
    }

    method Dispatch(env: Env, sender: NodeId, id: JobId, m: Message, target: Option<NodeId>)
      modifies this`jobs, this`out, this`log, this`replies
      ensures View(id) == Handle(env, old(View(id)), sender, m, target) && Others(id) == old(Others(id))
    {
      if m.ReplJob? { ReplJobReceived(env, sender, id, m); return; }
      if m.SetAck? { SetAckReceived(env, sender, id, m.mayhave, target); return; }
      if id !in jobs { return; }
      match m {
        case GotJob => GotJobReceived(env, sender, id, target);
        case GotAck(known) => AckReceived(env, sender, id, known);
        case DelJob => UnregisterJob(env, id);
        case Enqueue(after) => EnqueueReceived(env, id, after);
        case Queued(nack) => QueuedReceived(env, sender, id, false);
        case Working => QueuedReceived(env, sender, id, true);
        case WillQueue => WillQueueReceived(env, sender, id);
      }
    }

    method TimerTurn(env: Env, id: JobId)
      requires id in jobs
      modifies this`jobs, this`out, this`log, this`replies
      ensures View(id) == Process(env, old(View(id))) && Others(id) == old(Others(id))
    {
      if jobs[id].etime <= env.unixtime {
        UnregisterJob(env, id);
        return;
      }
      SendWillQueue(env, id);
      RequeueJob(env, id);
      if jobs[id].state == Acked { TryJobGC(env, id); }
    }

    method SendWillQueue(env: Env, id: JobId)
      requires id in jobs
      modifies this`jobs, this`out, this`log, this`replies
      ensures View(id) == ProcessWillQueue(env, old(View(id))) && Others(id) == old(Others(id))
    {
      var j := jobs[id];
      if (j.state == Active || j.state == JobState.Queued) && j.bcastWillQueue
        && j.qtime - WILLQUEUE_ADVANCE <= env.now {
        if j.state != JobState.Queued { BroadcastMessage(env, j.nodesDelivered, id, WillQueue); }
        jobs := jobs[id := j.(bcastWillQueue := false)];
      }
    }

    method RequeueJob(env: Env, id: JobId)
      requires id in jobs
      modifies this`jobs, this`out, this`log, this`replies
      ensures View(id) == ProcessRequeue(env, old(View(id))) && Others(id) == old(Others(id))
    {
      if jobs[id].state == Active && jobs[id].qtime <= env.now {
        if jobs[id].retry != 0 && env.paused {
          jobs := jobs[id := Requeue(jobs[id], env.now + jobs[id].retry * 1000 + env.jitter)];
        } else {
          QueueJob(env, id, false);
        }
      }
      var j := jobs[id];
      if j.state == JobState.Queued && j.qtime <= env.now && j.retry > 0 {
        jobs := jobs[id := j.(bcastWillQueue := true, qtime := env.now + j.retry * 1000 + env.jitter)];
      }
    }

    method AckOne(env: Env, id: JobId, minutes: nat) returns (known: bool)
      modifies this`jobs, this`out, this`log, this`replies
      ensures View(id) == AckJob(env, old(View(id)), minutes) && Others(id) == old(Others(id))
      ensures known == (id in old(jobs) && old(jobs)[id].state != Acked)
    {
      known := false;
      if id !in jobs {
        if env.size > 1 && !env.leaving && minutes % 2 == 1 { jobs := jobs[id := DummyAck(env, minutes)]; }
      } else if jobs[id].state != Acked {
        UnqueueJob(id);
        AcknowledgeJob(id);
        known := true;
      }
      if id in jobs { TryJobGC(env, id); }
    }

    method DropClient(env: Env, id: JobId)
      requires id in jobs
      modifies this`jobs, this`out, this`log, this`replies
      ensures View(id) == Timeout(env, old(View(id))) && Others(id) == old(Others(id))
    {
      var waiting := jobs[id].state == WaitRepl;
      jobs := jobs[id := jobs[id].(client := false)];
      if waiting {
        jobs := jobs[id := jobs[id].(state := Active)];
        DeleteJobFromCluster(env, id);
      }
    }

    method AddOne(env: Env, id: JobId, a: AddArgs)
      modifies this`jobs, this`out, this`log, this`replies
      ensures View(id) == AddJob(env, old(View(id)), a) && Others(id) == old(Others(id))
    {
      var extrepl := Refuses(env);
      var additional := if extrepl then a.replicate else a.replicate - 1;
      if additional > a.reachable || env.paused || id in jobs {
        replies := replies + [Refused];
        return;
      }
      CreateJob(env, id, a);
      if additional > 0 { ReplicateJob(env, id, additional, a.async, a.candidates, a.quiet); }
      if a.async && extrepl {
        if a.target.Some? { SendMessage(env, a.target.value, id, Enqueue(a.delay)); }
        jobs := jobs - {id};
      }
    }

    method CreateJob(env: Env, id: JobId, a: AddArgs)
      modifies this`jobs, this`out, this`log, this`replies
      ensures id in jobs && View(id) == Created(env, old(View(id)), a) && Others(id) == old(Others(id))
    {
      jobs := jobs[id := NewJob(env, a)];
      if (a.replicate > 1 || Refuses(env)) && !a.async {
        jobs := jobs[id := jobs[id].(client := true, nodesConfirmed := Some(if Refuses(env) then {} else {env.me}))];
      } else {
        AddAtOnce(env, id, a);
      }
    }

    method AddAtOnce(env: Env, id: JobId, a: AddArgs)
      requires id in jobs
      modifies this`jobs, this`out, this`log, this`replies
      ensures View(id) == AddedAtOnce(env, old(View(id)), a) && Others(id) == old(Others(id))
    {
      var etime := jobs[id].etime;
      if a.delay == 0 {
        if !Refuses(env) { QueueJob(env, id, false); }
      } else {
        jobs := jobs[id := jobs[id].(state := Active)];
      }
      replies := replies + [Direct];
      if !Refuses(env) { log := log + [LoadJob(id, etime)]; }
    }

    method PutOff(env: Env, id: JobId)
      requires id in jobs
      modifies this`jobs, this`out, this`log, this`replies
      ensures View(id) == WorkingCommand(env, old(View(id))) && Others(id) == old(Others(id))
    {
      UnqueueJob(id);
      var j := jobs[id].(bcastWillQueue := true);
      jobs := jobs[id := Requeue(j, env.now + j.retry * 1000 + env.jitter)];
      BroadcastMessage(env, j.nodesDelivered, id, Working);
    }

    // --------------------------------------------------------------- what may happen

    /** The job messages of clusterProcessPacket.  A listed copy is collected only after
        the GOTACKs of all other nodes that may have the job; a waiting client is answered
        only by a SETACK, or when as many different nodes as it asked for have the job. */
    method ProcessPacket(env: Env, sender: NodeId, id: JobId, m: Message, target: Option<NodeId>)
      requires Valid() && env.me == me && Expected(me, View(id), sender, m)
      modifies this
      ensures Valid() && Others(id) == old(Others(id))
      ensures View(id) == Handle(env, old(View(id)), sender, m, target)
      ensures notes == NotesAfter(me, old(notes), old(View(id)), View(id), sender, m)
      ensures (m.GotAck? || m.SetAck?) && id in old(notes.listed) && id !in jobs ==>
                old(jobs)[id].nodesDelivered - {me} <= Acks(id)
      ensures old(replies) <= replies
      ensures Answered in replies[|old(replies)|..] ==>
                m.SetAck? || (id in old(jobs) && |old(Holders(id)) + {sender}| >= old(jobs)[id].repl)
      ensures id in old(jobs) && old(jobs)[id].state == Acked && id in jobs ==> jobs[id].state == Acked
    {
      ghost var c := View(id);
      MessageMeans(env, jobs, notes, c, Handle(env, c, sender, m, target), sender, m, target);
      Dispatch(env, sender, id, m, target);
      SamePut(jobs, old(jobs), View(id));
      notes := NotesAfter(me, notes, c, View(id), sender, m);
    }

    /** processJob.  An expired job goes; another is collected only when all other nodes
        that may have it have acknowledged. */
    method ProcessJob(env: Env, id: JobId)
      requires Valid() && env.me == me && env.now > 0 && id in jobs
      modifies this
      ensures Valid() && Others(id) == old(Others(id)) && View(id) == Process(env, old(View(id)))
      ensures old(jobs)[id].etime <= env.unixtime ==> id !in jobs
      ensures old(jobs)[id].etime > env.unixtime && id in old(notes.listed) && id !in jobs ==>
                old(jobs)[id].nodesDelivered - {me} <= Acks(id)
    {
      ghost var c := View(id);
      ActionKeeps(env, jobs, notes, c, DoProcess);
      TableCtx(me, jobs, notes, c);
      JobCopy.ProcessKeeps(env, c, FactsAt(me, notes, id));
      TimerTurn(env, id);
      Done(env, c, old(jobs), DoProcess);
    }

    /** ackjobCommand for one ID; true when the job was known and not acknowledged yet.
        A job that stays is acknowledged, and a listed one is gone only when all other
        nodes that may have it have acknowledged. */
    method AckJobCommand(env: Env, id: JobId, minutes: nat) returns (known: bool)
      requires Valid() && env.me == me && env.now > 0
      modifies this
      ensures Valid() && Others(id) == old(Others(id)) && View(id) == AckJob(env, old(View(id)), minutes)
      ensures known == (id in old(jobs) && old(jobs)[id].state != Acked)
      ensures id in jobs ==> jobs[id].state == Acked
      ensures id in old(notes.listed) && id !in jobs ==> old(jobs)[id].nodesDelivered - {me} <= Acks(id)
    {
      ghost var c := View(id);
      ActionKeeps(env, jobs, notes, c, DoAckJob(minutes));
      TableCtx(me, jobs, notes, c);
      JobCopy.AckJobKeeps(env, c, minutes, FactsAt(me, notes, id));
      known := AckOne(env, id, minutes);
      Done(env, c, old(jobs), DoAckJob(minutes));
    }

    /** addjobCommand, from the checks on.  A job that is kept here is logged exactly if
        its client need not wait, and is then in its queue exactly if it has no delay. */
    method AddJobCommand(env: Env, id: JobId, a: AddArgs)
      requires Valid() && env.me == me && env.now > 0
      modifies this
      ensures Valid() && Others(id) == old(Others(id)) && View(id) == AddJob(env, old(View(id)), a)
      ensures id !in old(jobs) && id in jobs && !Refuses(env) ==>
                if jobs[id].state == WaitRepl then log == old(log) else log == old(log) + [LoadJob(id, jobs[id].etime)]
      ensures Rounds.Adds(env, old(View(id)), a) ==> id in jobs
      ensures Rounds.Adds(env, old(View(id)), a) && (a.replicate == 1 || a.async) ==>
                && (jobs[id].state == JobState.Queued <==> a.delay == 0)
                && (a.delay > 0 ==> jobs[id].state == Active && jobs[id].qtime == env.now + a.delay * 1000)
      ensures Rounds.AddsAndWaits(env, old(View(id)), a) ==> Rounds.Waiting(View(id))
    {
      ghost var c := View(id);
      if Rounds.AddsAndWaits(env, c, a) { Rounds.AddJobWaits(env, c, a); }
      else if Rounds.Adds(env, c, a) { Rounds.AddJobAtOnce(env, c, a); }
      ActionKeeps(env, jobs, notes, c, DoAddJob(a));
      if id !in jobs && !Refuses(env) { AddJobLogs(env, c, a); }
      AddOne(env, id, a);
      Done(env, c, old(jobs), DoAddJob(a));
    }

    /** unblockClientWaitingJobRepl: nobody waits for the job any more */
    method UnblockClient(env: Env, id: JobId)
      requires Valid() && env.me == me && env.now > 0 && id in jobs && jobs[id].client
      modifies this
      ensures Valid() && Others(id) == old(Others(id)) && View(id) == Timeout(env, old(View(id)))
      ensures old(jobs)[id].state == WaitRepl ==> id !in jobs
      ensures id in jobs ==> !jobs[id].client && jobs[id].state == old(jobs)[id].state
    {
      ghost var c := View(id);
      ActionKeeps(env, jobs, notes, c, DoTimeout);
      DropClient(env, id);
      Done(env, c, old(jobs), DoTimeout);
    }

    /** clientsCronHandleDelayedJobReplication: one more receiver for a waiting client */
    method MoreReceivers(env: Env, id: JobId, candidates: seq<NodeId>, quiet: set<NodeId>)
      requires Valid() && env.me == me && env.now > 0 && id in jobs && jobs[id].client
      modifies this
      ensures Valid() && Others(id) == old(Others(id))
      ensures View(id) == Replicate(env, old(View(id)), 1, false, candidates, quiet)
      ensures id in jobs && Rounds.MoreListed(old(jobs)[id], jobs[id], candidates)
      ensures out == old(out) + Rounds.ReplPackets(env, id, jobs[id], Rounds.Left(env, old(jobs)[id]) + 1, quiet)
    {
      ghost var c := View(id);
      Rounds.MoreReceiversSent(env, c, candidates, quiet);
      ActionKeeps(env, jobs, notes, c, DoMoreReceivers(candidates, quiet));
      ReplicateJob(env, id, 1, false, candidates, quiet);
      Done(env, c, old(jobs), DoMoreReceivers(candidates, quiet));
    }

    /** fastackCommand for one ID */
    method FastAckCommand(env: Env, id: JobId)
      requires Valid() && env.me == me && env.now > 0
      modifies this
      ensures Valid() && Others(id) == old(Others(id)) && View(id) == FastAck(env, old(View(id))) && id !in jobs
      ensures var to := if id in old(jobs) then old(jobs)[id].nodesDelivered else env.nodes;
              out == old(out) + set n | n in to && n != me :: Packet(me, n, id, DelJob)
    {
      ghost var c := View(id);
      Timing.FastAckTold(env, c);
      ActionKeeps(env, jobs, notes, c, DoFastAck);
      if id in jobs { DeleteJobFromCluster(env, id); } else { BroadcastMessage(env, env.nodes, id, DelJob); }
      Done(env, c, old(jobs), DoFastAck);
    }

    /** deljobCommand for one ID */
    method DeleteJobCommand(env: Env, id: JobId)
      requires Valid() && env.me == me && env.now > 0 && id in jobs
      modifies this
      ensures Valid() && Others(id) == old(Others(id)) && View(id) == Unregister(env, old(View(id))) && id !in jobs
    {
      ghost var c := View(id);
      ActionKeeps(env, jobs, notes, c, DoDelJob);
      UnregisterJob(env, id);
      Done(env, c, old(jobs), DoDelJob);
    }

    /** queueFetchJob: true when the job was in its queue */
    method FetchJob(env: Env, id: JobId) returns (fetched: bool)
      requires Valid() && env.me == me && env.now > 0 && id in jobs
      modifies this
      ensures Valid() && Others(id) == old(Others(id)) && View(id) == Fetch(old(View(id)))
      ensures fetched == (old(jobs)[id].state == JobState.Queued)
      ensures id in jobs && jobs[id].state != JobState.Queued
    {
      ghost var c := View(id);
      ActionKeeps(env, jobs, notes, c, DoFetch);
      fetched := jobs[id].state == JobState.Queued;
      if fetched { jobs := jobs[id := jobs[id].(state := Active, delivered := true)]; }
      Done(env, c, old(jobs), DoFetch);
    }

    /** enqueueGenericCommand for one ID, and NACK: an active job with a time to be queued at
        is queued, unless it may be delivered once and has been */
    method EnqueueCommand(env: Env, id: JobId, nack: bool)
      requires Valid() && env.me == me && env.now > 0 && id in jobs && jobs[id].state == Active
      modifies this
      ensures Valid() && Others(id) == old(Others(id)) && View(id) == EnqueueJob(env, old(View(id)), nack)
      ensures id in jobs && jobs[id].etime == old(jobs)[id].etime && log == old(log)
      ensures jobs[id].state == JobState.Queued <==>
                old(jobs)[id].qtime != 0 && !(old(jobs)[id].retry == 0 && old(jobs)[id].delivered)
    {
      ghost var c := View(id);
      ActionKeeps(env, jobs, notes, c, DoEnqueue(nack));
      QueueJob(env, id, nack);
      Done(env, c, old(jobs), DoEnqueue(nack));
    }

    /** dequeueCommand for one ID */
    method DequeueCommand(env: Env, id: JobId)
      requires Valid() && env.me == me && env.now > 0 && id in jobs
      modifies this
      ensures Valid() && Others(id) == old(Others(id)) && View(id) == DequeueJob(old(View(id)))
      ensures id in jobs && jobs[id].state != JobState.Queued
    {
      ghost var c := View(id);
      ActionKeeps(env, jobs, notes, c, DoDequeue);
      UnqueueJob(id);
      Done(env, c, old(jobs), DoDequeue);
    }

    /** workingCommand: the job is in no queue, here and where the message arrives, and its
        next time is put off; but not when less than half of its life is left.
        created: the creation time of the job, in milliseconds. */
    method WorkingOn(env: Env, id: JobId, created: nat) returns (r: WorkingReply)
      requires Valid() && env.me == me && env.now > 0
      modifies this
      ensures Valid() && Others(id) == old(Others(id))
      ensures r == if id !in old(jobs) then NoJob else if TooLateAt(env.now, old(jobs)[id].etime, created) then TooLate
                   else PutOffBy(old(jobs)[id].retry)
      ensures r.PutOffBy? ==> View(id) == WorkingCommand(env, old(View(id))) && id in jobs
                              && Timing.PutOff(env, old(jobs)[id], jobs[id])
      ensures !r.PutOffBy? ==> unchanged(this)
    {
      if id !in jobs { return NoJob; }
      if TooLateAt(env.now, jobs[id].etime, created) { return TooLate; }
      r := PutOffBy(jobs[id].retry);
      ghost var c := View(id);
      Timing.WorkingTold(env, c);
      ActionKeeps(env, jobs, notes, c, DoWorking);
      PutOff(env, id);
      Done(env, c, old(jobs), DoWorking);
    }

    /** Note what the node knows after an action. */
    ghost method Done(env: Env, c: Ctx, before: map<JobId, Job>, a: Action)
      requires env.me == me && View(c.id) == Act(env, c, a) && Others(c.id) == before - {c.id}
      requires TableOk(me, Put(before, Act(env, c, a)), Act(env, c, a).log, NotesDone(env, notes, c, Act(env, c, a), a))
      modifies this`notes
      ensures Valid() && notes.acks == old(notes).acks
    {
      SamePut(jobs, before, View(c.id));
      notes := NotesDone(env, notes, c, View(c.id), a);
    }
  }
}
