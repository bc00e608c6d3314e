/** What the exchanges between nodes achieve when the messages do arrive, in any
    order and any number of times: an acknowledged job is collected everywhere, and a
    client waiting in ADDJOB is answered.
 */
module Rounds {
  import opened Options
  import opened JobSpec
  import opened JobSteps
  import JobCopy

  datatype Arrival = Arrival(env: Env, sender: NodeId, msg: Message, target: Option<NodeId>)

  /** The messages a node receives, one after the other. */
  function Receive(c: Ctx, ms: seq<Arrival>): Ctx
    decreases |ms|
  {
    if ms == [] then c else Receive(Handle(ms[0].env, c, ms[0].sender, ms[0].msg, ms[0].target), ms[1..])
  }

  function Senders(ms: seq<Arrival>): set<NodeId> { set i | 0 <= i < |ms| :: ms[i].sender }

  lemma {:induction false} FirstSender(ms: seq<Arrival>)
    requires ms != []
    ensures Senders(ms) == {ms[0].sender} + Senders(ms[1..])
  {
    forall n | n in Senders(ms) ensures n in {ms[0].sender} + Senders(ms[1..]) {
      var i :| 0 <= i < |ms| && ms[i].sender == n;
      if i > 0 { assert ms[1..][i - 1].sender == n; }
    }
    forall n | n in Senders(ms[1..]) ensures n in Senders(ms) {
      var i :| 0 <= i < |ms[1..]| && ms[1..][i].sender == n;
      assert ms[i + 1].sender == n;
    }
  }

  predicate AllGotAck(me: NodeId, ms: seq<Arrival>)
  {
    forall i :: 0 <= i < |ms| ==> ms[i].env.me == me && ms[i].msg.GotAck?
  }

  predicate AllGotJob(me: NodeId, ms: seq<Arrival>)
  {
    forall i :: 0 <= i < |ms| ==> ms[i].env.me == me && ms[i].msg.GotJob?
  }

  // ------------------------------------------------------------- garbage collection

  /** The nodes that have acknowledged, as a collection that starts now counts them. */
  function Confirmed(me: NodeId, j: Job): set<NodeId>
  {
    if j.nodesConfirmed.Some? then j.nodesConfirmed.value else {me}
  }

  /** An acknowledged copy that lists its own node and counts listed nodes only. */
  predicate Collectable(me: NodeId, c: Ctx)
  {
    IsAcked(c) && me in Confirmed(me, c.job.value) && Confirmed(me, c.job.value) <= c.job.value.nodesDelivered
  }

  /** The listed nodes whose acknowledge is missing. */
  function Missing(me: NodeId, c: Ctx): set<NodeId>
    requires c.job.Some?
  {
    c.job.value.nodesDelivered - Confirmed(me, c.job.value)
  }

  predicate Collecting(me: NodeId, c: Ctx)
  {
    Collectable(me, c) && c.job.value.nodesConfirmed.Some? && Missing(me, c) != {}
  }

  predicate ToldToDelete(me: NodeId, id: JobId, nodes: set<NodeId>, out: set<Packet>)
  {
    forall m :: m in nodes && m != me ==> Packet(me, m, id, DelJob) in out
  }

  lemma {:induction false} Sizes(a: set<NodeId>, b: set<NodeId>)
    requires a <= b
    ensures |a| >= |b| <==> b - a == {}
    ensures |a| == |b| <==> b - a == {}
  {
    assert |b - a| == |b| - |a|;
  }

  /** tryJobGC asks exactly the nodes whose acknowledge is missing, and is done exactly
      when there are none. */
  lemma {:induction false} AsksMissing(env: Env, c: Ctx)
    requires Collectable(env.me, c)
    ensures var c' := TryGC(env, c);
            && (c'.job.None? <==> Missing(env.me, c) == {})
            && (c'.job.Some? ==>
              && Collecting(env.me, c') && Missing(env.me, c') == Missing(env.me, c) && c'.id == c.id
              && c'.job.value.nodesDelivered == c.job.value.nodesDelivered
              && c'.out == c.out + ToAll(env.me, c.id, Missing(env.me, c), SetAck(|c.job.value.nodesDelivered|)))
  {
    Sizes(Confirmed(env.me, c.job.value), c.job.value.nodesDelivered);
  }

  /** One GOTACK: its sender is missing no more, and the last one ends the collection. */
  lemma {:induction false} OneAck(me: NodeId, c: Ctx, a: Arrival)
    requires Collecting(me, c) && a.env.me == me && a.msg.GotAck?
    ensures var c' := Handle(a.env, c, a.sender, a.msg, a.target);
            && c'.id == c.id
            && if Missing(me, c) <= {a.sender}
               then c'.job.None? && ToldToDelete(me, c.id, c.job.value.nodesDelivered, c'.out)
               else && Collecting(me, c') && Missing(me, c') == Missing(me, c) - {a.sender}
                    && c.job.value.nodesDelivered <= c'.job.value.nodesDelivered
  {
    var j := Counted(c.job.value, a.sender, a.msg.known);
    var before := c.job.value;
    assert |before.nodesDelivered| != 0;
    Sizes(j.nodesConfirmed.value, j.nodesDelivered);
    assert j.nodesDelivered - j.nodesConfirmed.value == Missing(me, c) - {a.sender};
    assert Missing(me, c) <= {a.sender} <==> Missing(me, c) - {a.sender} == {};
  }

  lemma {:induction false} NothingLeft(me: NodeId, c: Ctx, ms: seq<Arrival>)
    requires c.job.None? && AllGotAck(me, ms)
    ensures Receive(c, ms) == c
    decreases |ms|
  {
    if ms != [] { NothingLeft(me, c, ms[1..]); }
  }

  /** A collection ends exactly when every missing node has sent its GOTACK, in any
      order and with any repetition; every listed node is then told to delete the job. */
  lemma {:induction false} AcksExact(me: NodeId, c: Ctx, ms: seq<Arrival>)
    requires Collecting(me, c) && AllGotAck(me, ms)
    ensures var c' := Receive(c, ms);
            && (c'.job.None? <==> Missing(me, c) <= Senders(ms))
            && (c'.job.None? ==> ToldToDelete(me, c.id, c.job.value.nodesDelivered, c'.out))
            && (c'.job.Some? ==> Collecting(me, c') && Missing(me, c') == Missing(me, c) - Senders(ms))
    decreases |ms|
  {
    if ms != [] {
      FirstSender(ms);
      OneAck(me, c, ms[0]);
      var c1 := Handle(ms[0].env, c, ms[0].sender, ms[0].msg, ms[0].target);
      if c1.job.None? {
        NothingLeft(me, c1, ms[1..]);
      } else {
        AcksExact(me, c1, ms[1..]);
        assert Missing(me, c1) <= Senders(ms[1..]) <==> Missing(me, c) <= Senders(ms);
      }
    }
  }

  /** A node asked with SETACK has no live copy afterwards, and confirms it unless it
      knows of more holders than the sender, which then cannot finish without it. */
  lemma {:induction false} SetAckAnswered(env: Env, c: Ctx, sender: NodeId, mayhave: nat, target: Option<NodeId>)
    requires sender != env.me && (c.job.Some? && c.job.value.state == WaitRepl ==> env.me in c.job.value.nodesDelivered)
    ensures var c' := OnSetAck(env, c, sender, mayhave, target);
            && NotLive(c') && c'.id == c.id
            && (c.job.None? || |c.job.value.nodesDelivered| <= mayhave || mayhave == 0 ==>
              Packet(env.me, sender, c.id, GotAck(c.job.Some?)) in c'.out)
            && (c.job.Some? && |c.job.value.nodesDelivered| <= mayhave ==> IsAcked(c'))
  {
    if c.job.Some? {
      var c1 := if c.job.value.state == WaitRepl then ReplicationAchieved(env, c, target) else c;
      assert c1.job.Some? && c1.id == c.id && c1.job.value.nodesDelivered == c.job.value.nodesDelivered;
      AnsweredBy(env, c1, sender, mayhave);
    }
  }

  lemma {:induction false} AnsweredBy(env: Env, c: Ctx, sender: NodeId, mayhave: nat)
    requires c.job.Some? && sender != env.me
    ensures var c' := AckAndAnswer(env, c, sender, mayhave);
            && NotLive(c') && c'.id == c.id
            && (|c.job.value.nodesDelivered| <= mayhave || mayhave == 0 ==>
              Packet(env.me, sender, c.id, GotAck(true)) in c'.out)
            && (|c.job.value.nodesDelivered| <= mayhave ==> IsAcked(c'))
  {
  }

  /** A peer of the collection, and the answer of its own it has to give. */
  datatype Peer = Peer(env: Env, ctx: Ctx)

  predicate PeerOk(me: NodeId, c: Ctx, m: NodeId, p: Peer)
    requires c.job.Some?
  {
    && p.env.me == m && m != me && p.ctx.id == c.id
    && (p.ctx.job.Some? ==>
      && |p.ctx.job.value.nodesDelivered| <= |c.job.value.nodesDelivered|
      && (p.ctx.job.value.state == WaitRepl ==> m in p.ctx.job.value.nodesDelivered))
  }

  function Asked(me: NodeId, c: Ctx, p: Peer): Ctx
    requires c.job.Some?
  {
    OnSetAck(p.env, p.ctx, me, |c.job.value.nodesDelivered|, None)
  }

  /** A whole round: the collector asks, the listed nodes answer, the answers arrive in
      any order and any number of times, and so do the DELJOBs.  Then no node that may
      have had the job has it. */
  lemma {:induction false} CollectedEverywhere(env: Env, c: Ctx, peers: map<NodeId, Peer>, ms: seq<Arrival>)
    requires Collectable(env.me, c) && Missing(env.me, c) != {}
    requires peers.Keys == c.job.value.nodesDelivered - {env.me}
    requires forall m :: m in peers ==> PeerOk(env.me, c, m, peers[m])
    requires AllGotAck(env.me, ms)
    requires Senders(ms) == set m | m in Missing(env.me, c)
             && Packet(m, env.me, c.id, GotAck(peers[m].ctx.job.Some?)) in Asked(env.me, c, peers[m]).out
    ensures var c' := Receive(TryGC(env, c), ms);
            && c'.job.None?
            && forall m :: m in peers ==>
              && Packet(env.me, m, c.id, DelJob) in c'.out
              && Handle(peers[m].env, Asked(env.me, c, peers[m]), env.me, DelJob, None).job.None?
  {
    AsksMissing(env, c);
    forall m | m in Missing(env.me, c) ensures m in Senders(ms) {
      SetAckAnswered(peers[m].env, peers[m].ctx, env.me, |c.job.value.nodesDelivered|, None);
      assert PeerOk(env.me, c, m, peers[m]);
    }
    AcksExact(env.me, TryGC(env, c), ms);
  }

  /** The acknowledge of a client: the copy is acknowledged, and every other node listed is
      asked; with no other node the job is gone at once. */
  lemma {:induction false} AckJobAsks(env: Env, c: Ctx, minutes: nat)
    requires c.job.Some? && env.me in c.job.value.nodesDelivered && c.job.value.state != Acked
    ensures var (c', nodes) := (AckJob(env, c, minutes), c.job.value.nodesDelivered);
            && (c'.job.None? <==> nodes == {env.me})
            && (c'.job.Some? ==>
              && Collecting(env.me, c') && Missing(env.me, c') == nodes - {env.me}
                && c'.job.value.nodesDelivered == nodes
              && c'.out == c.out + ToAll(env.me, c.id, nodes - {env.me}, SetAck(|nodes|)))
  {
    AsksMissing(env, Acknowledge(c));
  }

  /** Every turn of the timer asks the nodes that are still missing again. */
  lemma {:induction false} TimerAsks(env: Env, c: Ctx)
    requires Collectable(env.me, c) && env.unixtime < c.job.value.etime
    ensures var c' := Process(env, c);
            && (c'.job.None? <==> Missing(env.me, c) == {})
            && (c'.job.Some? ==>
              && Collecting(env.me, c') && Missing(env.me, c') == Missing(env.me, c)
              && c'.out == c.out + ToAll(env.me, c.id, Missing(env.me, c), SetAck(|c.job.value.nodesDelivered|)))
  {
    AsksMissing(env, c);
  }

  /** The copy as it is before its node asks the others. */
  function Overtaken(env: Env, c: Ctx, sender: NodeId, mayhave: nat): Ctx
    requires c.job.Some?
  {
    if mayhave == 0 then Send(env, Acknowledge(c), sender, GotAck(true)) else Acknowledge(c)
  }

  lemma {:induction false} Overtakes(env: Env, c: Ctx, sender: NodeId, mayhave: nat, target: Option<NodeId>, c1: Ctx)
    requires JobCopy.IsLive(c) && env.me in c.job.value.nodesDelivered && sender != env.me
    requires mayhave < |c.job.value.nodesDelivered| && c1 == Overtaken(env, c, sender, mayhave)
    ensures OnSetAck(env, c, sender, mayhave, target) == TryGC(env, c1) && Collectable(env.me, c1) && c1.id == c.id
    ensures c1.job.value.nodesDelivered == c.job.value.nodesDelivered && c1.job.value.nodesConfirmed.None?
    ensures c1.out == c.out + if mayhave == 0 then {Packet(env.me, sender, c.id, GotAck(true))} else {}
  {
  }

  /** A node that knows of more holders than the one that asks it takes the collection over:
      it asks them all. */
  lemma {:induction false} SetAckTakesOver(env: Env, c: Ctx, sender: NodeId, mayhave: nat, target: Option<NodeId>)
    requires JobCopy.IsLive(c) && env.me in c.job.value.nodesDelivered && sender != env.me
    requires mayhave < |c.job.value.nodesDelivered|
    ensures var (c', nodes) := (OnSetAck(env, c, sender, mayhave, target), c.job.value.nodesDelivered);
            && (c'.job.None? <==> nodes == {env.me})
            && (c'.job.Some? ==>
              && Collecting(env.me, c') && Missing(env.me, c') == nodes - {env.me}
              && c'.out == c.out + (if mayhave == 0 then {Packet(env.me, sender, c.id, GotAck(true))} else {})
                 + ToAll(env.me, c.id, nodes - {env.me}, SetAck(|nodes|)))
  {
    var c1 := Overtaken(env, c, sender, mayhave);
    Overtakes(env, c, sender, mayhave, target, c1);
    AsksMissing(env, c1);
  }

  /** From the acknowledge of a client to the end: when the messages arrive, in any order and
      any number of times, no node that may have had the job has it. */
  lemma {:induction false} AckedEverywhere(env: Env, c: Ctx, minutes: nat, peers: map<NodeId, Peer>, ms: seq<Arrival>)
    requires c.job.Some? && env.me in c.job.value.nodesDelivered && c.job.value.state != Acked
    requires peers.Keys == c.job.value.nodesDelivered - {env.me} != {}
    requires forall m :: m in peers ==> PeerOk(env.me, c, m, peers[m])
    requires AllGotAck(env.me, ms)
    requires Senders(ms) == set m | m in peers
             && Packet(m, env.me, c.id, GotAck(peers[m].ctx.job.Some?)) in Asked(env.me, c, peers[m]).out
    ensures var c' := Receive(AckJob(env, c, minutes), ms);
            && c'.job.None?
            && forall m :: m in peers ==>
              && Packet(env.me, m, c.id, DelJob) in c'.out
              && Handle(peers[m].env, Asked(env.me, c, peers[m]), env.me, DelJob, None).job.None?
  {
    var c1 := Acknowledge(c);
    assert Missing(env.me, c1) == peers.Keys;
    assert forall m :: m in peers ==>
      PeerOk(env.me, c1, m, peers[m]) && Asked(env.me, c1, peers[m]) == Asked(env.me, c, peers[m]);
    CollectedEverywhere(env, c1, peers, ms);
  }

  // --------------------------------------------------------------------- replication

  /** An ADDJOB client waits for more copies. */
  predicate Waiting(c: Ctx)
  {
    && c.job.Some? && c.job.value.state == WaitRepl
    && c.job.value.nodesConfirmed.Some? && |c.job.value.nodesConfirmed.value| < c.job.value.repl
  }

  /** A new copy is put in its queue at once unless it has a delay; then it is due when the
      delay is over. */
  predicate OnTime(j: Job, j': Job)
  {
    && j'.delay == j.delay && j'.retry == j.retry && j'.etime == j.etime && j'.repl == j.repl
    && (j.delay > 0 ==> j'.state == Active && j'.qtime == j.qtime)
    && (j.delay == 0 && j.qtime > 0 && !j.delivered ==> j'.state == JobState.Queued)
  }

  /** c' is c with the client answered; a copy that is kept is live, on time and logged. */
  predicate AnsweredFrom(me: NodeId, c: Ctx, c': Ctx)
    requires c.job.Some?
  {
    && c'.replies == c.replies + [Answered]
    && if me in c.job.value.nodesDelivered
       then && JobCopy.IsLive(c') && OnTime(c.job.value, c'.job.value) && !c'.job.value.client
            && c'.log == c.log + [LoadJob(c.id, c.job.value.etime)]
       else c'.job.None?
  }

  predicate SameJob(c: Ctx, c': Ctx)
    requires c.job.Some? && c'.job.Some?
  {
    && c'.id == c.id && c'.replies == c.replies && c'.log == c.log
    && c'.job.value.(nodesConfirmed := None) == c.job.value.(nodesConfirmed := None)
  }

  lemma {:induction false} OneGotJob(me: NodeId, c: Ctx, a: Arrival)
    requires Waiting(c) && a.env.me == me && a.msg.GotJob?
    ensures var c' := Handle(a.env, c, a.sender, a.msg, a.target);
            var s := c.job.value.nodesConfirmed.value + {a.sender};
            if |s| >= c.job.value.repl then AnsweredFrom(me, c, c')
            else Waiting(c') && SameJob(c, c') && c'.job.value.nodesConfirmed == Some(s)
  {
    var s := c.job.value.nodesConfirmed.value + {a.sender};
    assert |s| <= |c.job.value.nodesConfirmed.value| + 1;
  }

  lemma {:induction false} NoLongerWaiting(me: NodeId, c: Ctx, ms: seq<Arrival>)
    requires (c.job.Some? ==> c.job.value.state != WaitRepl) && AllGotJob(me, ms)
    ensures Receive(c, ms) == c
    decreases |ms|
  {
    if ms != [] { NoLongerWaiting(me, c, ms[1..]); }
  }

  /** The client is answered, once, exactly when enough different nodes have sent their
      GOTJOB, in any order and with any repetition. */
  lemma {:induction false} GotJobsExact(me: NodeId, c: Ctx, ms: seq<Arrival>)
    requires Waiting(c) && AllGotJob(me, ms)
    ensures var c' := Receive(c, ms);
            if |c.job.value.nodesConfirmed.value + Senders(ms)| >= c.job.value.repl then AnsweredFrom(me, c, c')
            else
              && Waiting(c') && SameJob(c, c')
              && c'.job.value.nodesConfirmed == Some(c.job.value.nodesConfirmed.value + Senders(ms))
    decreases |ms|
  {
    var s := c.job.value.nodesConfirmed.value;
    if ms == [] {
      assert s + Senders(ms) == s;
    } else {
      FirstSender(ms);
      OneGotJob(me, c, ms[0]);
      var c1 := Handle(ms[0].env, c, ms[0].sender, ms[0].msg, ms[0].target);
      assert s + {ms[0].sender} + Senders(ms[1..]) == s + Senders(ms);
      if |s + {ms[0].sender}| >= c.job.value.repl {
        Larger(s + {ms[0].sender}, s + Senders(ms));
        NoLongerWaiting(me, c1, ms[1..]);
      } else {
        GotJobsExact(me, c1, ms[1..]);
      }
    }
  }

  lemma {:induction false} Larger(a: set<NodeId>, b: set<NodeId>)
    requires a <= b
    ensures |a| <= |b|
  {
    assert |b - a| == |b| - |a|;
  }

  /** What the copy of a receiver is, when the REPLJOB of a job arrives there for the first
      time: not queued, but due when the delay and one retry time are over. */
  predicate CopyOf(env: Env, m: Message, j: Job)
    requires m.ReplJob?
  {
    && j.state == Active && j.repl == m.repl && j.delay == m.delay && j.retry == m.retry
    && j.etime == env.unixtime + m.ttl && j.nodesDelivered == m.nodes && j.nodesConfirmed.None? && !j.delivered
    && j.bcastQueued
    && (m.retry > 0 ==> j.qtime == env.now + (m.delay + m.retry) * 1000 + env.jitter && j.bcastWillQueue)
    && (m.retry == 0 ==> j.qtime == 0)
  }

  /** A REPLJOB is refused, or leaves a copy that knows the nodes listed, live and
      logged when it is new, and confirms it unless told not to. */
  lemma {:induction false} ReplJobAccepted(env: Env, c: Ctx, sender: NodeId, m: Message)
    requires m.ReplJob? && sender != env.me
    ensures var c' := OnReplJob(env, c, sender, m);
            if Refuses(env) || env.paused then c' == c
            else
              && c'.out == c.out + (if m.noreply then {} else {Packet(env.me, sender, c.id, GotJob)})
              && c'.job.Some?
              && (c.job.None? ==>
                CopyOf(env, m, c'.job.value) && c'.log == c.log + [LoadJob(c.id, env.unixtime + m.ttl)])
              && (c.job.Some? ==>
                && c'.job.value.nodesDelivered == c.job.value.nodesDelivered + m.nodes && c'.log == c.log
                && c'.job.value.(nodesDelivered := {}) == c.job.value.(nodesDelivered := {}))
  {
  }

  /** The REPLJOB of a job for a time to live. */
  function ReplFor(a: AddArgs, ttl: nat, nodes: set<NodeId>, noreply: bool): Message
  {
    ReplJob(a.replicate, ttl, a.delay, a.retry, nodes, noreply)
  }

  /** ADDJOB of a new job, that this node keeps a copy of. */
  predicate Adds(env: Env, c: Ctx, a: AddArgs)
  {
    c.job.None? && !Refuses(env) && !env.paused && env.now > 0 && 1 <= a.replicate <= a.reachable + 1
  }

  /** ADDJOB that has to wait: more than one copy is asked for. */
  predicate AddsAndWaits(env: Env, c: Ctx, a: AddArgs) { Adds(env, c, a) && a.replicate > 1 && !a.async }

  /** The receivers of a new job: this node, and as many others as asked for, or all
      candidates; each of the others is sent the job, to live one second longer there. */
  predicate SentOut(env: Env, c: Ctx, a: AddArgs, c1: Ctx)
    requires c1.job.Some?
  {
    var nodes := c1.job.value.nodesDelivered;
    && env.me in nodes && |nodes| <= a.replicate && (forall n :: n in nodes && n != env.me ==> n in a.candidates)
    && (|nodes| == a.replicate || forall n :: n in a.candidates ==> n in nodes)
    && (forall n :: n in nodes && n != env.me ==>
      Packet(env.me, n, c.id, ReplFor(a, a.ttl + 1, nodes, a.async || n in a.quiet)) in c1.out)
  }

  /** The receivers are chosen among the candidates, and are sent the job. */
  lemma {:induction false} AddJobNodes(env: Env, c: Ctx, a: AddArgs, nodes: set<NodeId>)
    requires Adds(env, c, a) && nodes == AddReceivers({env.me}, a.candidates, a.replicate - 1)
    ensures AddJob(env, c, a).job.Some? && AddJob(env, c, a).job.value.nodesDelivered == nodes
    ensures forall n :: n in nodes && n != env.me ==>
              Packet(env.me, n, c.id, ReplFor(a, a.ttl + 1, nodes, a.async || n in a.quiet)) in AddJob(env, c, a).out
  {
  }

  lemma {:induction false} AddJobSent(env: Env, c: Ctx, a: AddArgs)
    requires Adds(env, c, a)
    ensures AddJob(env, c, a).job.Some? && SentOut(env, c, a, AddJob(env, c, a))
  {
    var nodes := AddReceivers({env.me}, a.candidates, a.replicate - 1);
    AddJobNodes(env, c, a, nodes);
    JobCopy.ReceiversExact({env.me}, a.candidates, a.replicate - 1);
    JobCopy.ReceiversGrow({env.me}, a.candidates, a.replicate - 1);
    JobCopy.ReceiversFrom({env.me}, a.candidates, a.replicate - 1);
  }

  /** The job that ADDJOB makes: its numbers, and when it is due. */
  predicate NewJobOf(env: Env, a: AddArgs, j: Job)
  {
    && j.repl == a.replicate && j.etime == env.unixtime + a.ttl && j.delay == a.delay && j.retry == a.retry
    && !j.delivered
  }

  /** The job goes to as many other nodes as asked for, or to all candidates, and waits
      unlogged and in no queue. */
  lemma {:induction false} AddJobWaits(env: Env, c: Ctx, a: AddArgs)
    requires AddsAndWaits(env, c, a)
    ensures var c1 := AddJob(env, c, a);
            && Waiting(c1) && c1.id == c.id && c1.replies == c.replies && c1.log == c.log && SentOut(env, c, a, c1)
            && NewJobOf(env, a, c1.job.value) && c1.job.value.nodesConfirmed == Some({env.me})
            && c1.job.value.qtime == env.now + (if a.delay > 0 then a.delay else a.retry) * 1000
  {
    AddJobSent(env, c, a);
  }

  /** With one copy, or without waiting for the others, the client is answered and the job
      logged at once; and the job is in its queue if and only if it has no delay. */
  lemma {:induction false} AddJobAtOnce(env: Env, c: Ctx, a: AddArgs)
    requires Adds(env, c, a) && (a.replicate == 1 || a.async)
    ensures var c1 := AddJob(env, c, a);
            && c1.job.Some? && SentOut(env, c, a, c1) && NewJobOf(env, a, c1.job.value) && !c1.job.value.client
            && c1.replies == c.replies + [Direct] && c1.log == c.log + [LoadJob(c.id, env.unixtime + a.ttl)]
            && (c1.job.value.state == JobState.Queued <==> a.delay == 0)
            && (a.delay > 0 ==> c1.job.value.state == Active && c1.job.value.qtime == env.now + a.delay * 1000)
            && (a.delay == 0 ==> c1.job.value.qtime == if a.retry > 0 then env.now + a.retry * 1000 + env.jitter else 0)
  {
    AddJobSent(env, c, a);
  }

  /** The client is answered exactly when enough other nodes confirm; the job is then
      live here and logged, and in its queue if and only if it has no delay. */
  lemma {:induction false} AddJobAnswered(env: Env, c: Ctx, a: AddArgs, ms: seq<Arrival>)
    requires AddsAndWaits(env, c, a) && AllGotJob(env.me, ms) && env.me !in Senders(ms)
    ensures var c' := Receive(AddJob(env, c, a), ms);
            if |Senders(ms)| >= a.replicate - 1
            then
              && c'.replies == c.replies + [Answered] && JobCopy.IsLive(c') && NewJobLives(env, a, c'.job.value)
              && c'.log == c.log + [LoadJob(c.id, env.unixtime + a.ttl)]
            else Waiting(c') && c'.replies == c.replies && c'.log == c.log
  {
    AddJobWaits(env, c, a);
    AnsweredWhenEnough(env.me, AddJob(env, c, a), ms);
  }

  predicate NewJobLives(env: Env, a: AddArgs, j: Job)
  {
    && j.repl == a.replicate && j.etime == env.unixtime + a.ttl && j.delay == a.delay && j.retry == a.retry
    && (j.state == JobState.Queued <==> a.delay == 0)
    && (a.delay > 0 ==> j.state == Active && j.qtime == env.now + a.delay * 1000)
  }

  lemma {:induction false} AnsweredWhenEnough(me: NodeId, c: Ctx, ms: seq<Arrival>)
    requires Waiting(c) && c.job.value.nodesConfirmed == Some({me}) && AllGotJob(me, ms) && me !in Senders(ms)
    ensures var c' := Receive(c, ms);
            if |Senders(ms)| >= c.job.value.repl - 1 then AnsweredFrom(me, c, c') else Waiting(c') && SameJob(c, c')
  {
    GotJobsExact(me, c, ms);
    assert |{me} + Senders(ms)| == 1 + |Senders(ms)|;
  }

  /** A node that takes the job and is asked to confirm it. */
  predicate Takes(me: NodeId, c: Ctx, a: AddArgs, m: NodeId, p: Peer)
  {
    && p.env.me == m && m != me && p.ctx.id == c.id && p.ctx.job.None?
    && !Refuses(p.env) && !p.env.paused && m !in a.quiet
  }

  /** A receiver after a REPLJOB. */
  function Told(me: NodeId, p: Peer, m: Message): Ctx
    requires m.ReplJob?
  {
    OnReplJob(p.env, p.ctx, me, m)
  }

  /** A whole round: the job is added and sent to as many nodes as asked for, these take it
      and confirm it, and the confirmations arrive in any order and any number of times.
      Then every one of them has a live, logged copy that lists all of them and lives, by
      its clock, a second longer than asked for; and the client is answered. */
  lemma {:induction false} ReplicatedEverywhere(env: Env, c: Ctx, a: AddArgs, peers: map<NodeId, Peer>,
      ms: seq<Arrival>)
    requires AddsAndWaits(env, c, a) && AddJob(env, c, a).job.Some?
    requires |AddJob(env, c, a).job.value.nodesDelivered| == a.replicate
    requires peers.Keys == AddJob(env, c, a).job.value.nodesDelivered - {env.me}
    requires forall m :: m in peers ==> Takes(env.me, c, a, m, peers[m])
    requires AllGotJob(env.me, ms)
    requires var repl := ReplFor(a, a.ttl + 1, AddJob(env, c, a).job.value.nodesDelivered, false);
             Senders(ms) == set m | m in peers && Packet(m, env.me, c.id, GotJob) in Told(env.me, peers[m], repl).out
    ensures var c1 := AddJob(env, c, a);
            var repl := ReplFor(a, a.ttl + 1, c1.job.value.nodesDelivered, false);
            var c' := Receive(c1, ms);
            && c'.replies == c.replies + [Answered] && JobCopy.IsLive(c') && NewJobLives(env, a, c'.job.value)
            && forall m :: m in peers ==>
              var p' := Told(env.me, peers[m], repl);
              && Packet(env.me, m, c.id, repl) in c1.out
              && p'.job.Some? && CopyOf(peers[m].env, repl, p'.job.value)
              && p'.job.value.etime == peers[m].env.unixtime + a.ttl + 1
              && (peers[m].env.unixtime >= env.unixtime ==> p'.job.value.etime > c'.job.value.etime)
              && p'.log == peers[m].ctx.log + [LoadJob(c.id, p'.job.value.etime)]
  {
    var c1 := AddJob(env, c, a);
    var repl := ReplFor(a, a.ttl + 1, c1.job.value.nodesDelivered, false);
    AddJobWaits(env, c, a);
    forall m | m in peers
      ensures var p' := Told(env.me, peers[m], repl);
              && Packet(m, env.me, c.id, GotJob) in p'.out && Packet(env.me, m, c.id, repl) in c1.out
              && p'.job.Some? && CopyOf(peers[m].env, repl, p'.job.value)
              && p'.log == peers[m].ctx.log + [LoadJob(c.id, p'.job.value.etime)]
    {
      assert Takes(env.me, c, a, m, peers[m]);
      ReplJobAccepted(peers[m].env, peers[m].ctx, env.me, repl);
    }
    assert Senders(ms) == peers.Keys;
    assert |peers.Keys| == a.replicate - 1;
    AddJobAnswered(env, c, a, ms);
  }

  lemma {:induction false} NoNewReceiver(delivered: set<NodeId>, candidates: seq<NodeId>, repl: nat)
    requires forall n :: n in candidates ==> n in delivered
    ensures AddReceivers(delivered, candidates, repl) == delivered
    decreases |candidates|
  {
    if candidates != [] { NoNewReceiver(delivered, candidates[1..], repl); }
  }

  /** One more receiver, unless all candidates are. */
  lemma {:induction false} OneReceiver(delivered: set<NodeId>, candidates: seq<NodeId>)
    ensures var r := AddReceivers(delivered, candidates, 1);
            && delivered <= r && |r - delivered| <= 1 && (forall n :: n in r - delivered ==> n in candidates)
            && (r == delivered <==> forall n :: n in candidates ==> n in delivered)
  {
    var r := AddReceivers(delivered, candidates, 1);
    JobCopy.ReceiversExact(delivered, candidates, 1);
    JobCopy.ReceiversGrow(delivered, candidates, 1);
    JobCopy.ReceiversFrom(delivered, candidates, 1);
    assert |r - delivered| == |r| - |delivered|;
    if forall n :: n in candidates ==> n in delivered { NoNewReceiver(delivered, candidates, 1); }
  }

  /** What every listed node but this one is sent. */
  function ReplPackets(env: Env, id: JobId, j: Job, ttl: nat, quiet: set<NodeId>): set<Packet>
  {
    set n | n in j.nodesDelivered && n != env.me ::
      Packet(env.me, n, id, ReplJob(j.repl, ttl, j.delay, j.retry, j.nodesDelivered, n in quiet))
  }

  /** One more receiver for a job whose client waits: every node listed, the new one and the
      others, is sent the job with what is left of its life and a second more. */
  lemma {:induction false} MoreReceiversSent(env: Env, c: Ctx, candidates: seq<NodeId>, quiet: set<NodeId>)
    requires c.job.Some?
    ensures var c' := Replicate(env, c, 1, false, candidates, quiet);
            && c'.job.Some? && c'.replies == c.replies && c'.log == c.log
            && MoreListed(c.job.value, c'.job.value, candidates)
            && c'.out == c.out + ReplPackets(env, c.id, c'.job.value, Left(env, c.job.value) + 1, quiet)
  {
    OneReceiver(c.job.value.nodesDelivered, candidates);
    var c' := Replicate(env, c, 1, false, candidates, quiet);
    var sent := ReplPackets(env, c.id, c'.job.value, Left(env, c.job.value) + 1, quiet);
    forall p ensures p in c'.out <==> p in c.out + sent {}
  }

  /** What is left of the life of a job, in seconds. */
  function Left(env: Env, j: Job): nat { if j.etime > env.unixtime then j.etime - env.unixtime else 0 }

  predicate MoreListed(j: Job, j': Job, candidates: seq<NodeId>)
  {
    && j' == j.(nodesDelivered := j'.nodesDelivered)
    && j.nodesDelivered <= j'.nodesDelivered && |j'.nodesDelivered - j.nodesDelivered| <= 1
    && (forall n :: n in j'.nodesDelivered - j.nodesDelivered ==> n in candidates)
    && (j'.nodesDelivered == j.nodesDelivered <==> forall n :: n in candidates ==> n in j.nodesDelivered)
  }
}
