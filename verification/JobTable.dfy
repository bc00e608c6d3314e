/** The whole job table of a node: what holds of all its jobs and of its one log, and
    why a step that is about one job keeps it.
 */
module JobTable {
  import opened Options
  import opened JobSpec
  import opened JobSteps
  import opened JobCopy
  import opened JobLog

  /** What a node was told, job by job.  acks: the senders of the GOTACKs it handled.
      holders: the senders of the GOTJOBs, and the node itself for a job it added.
      listed: the jobs whose copy began as one that lists this node. */
  datatype Notes = Notes(acks: map<JobId, set<NodeId>>, holders: map<JobId, set<NodeId>>, listed: set<JobId>)

  function NodesAt(m: map<JobId, set<NodeId>>, id: JobId): set<NodeId> { if id in m then m[id] else {} }

  function FactsAt(me: NodeId, notes: Notes, id: JobId): Facts
  {
    Facts(me, NodesAt(notes.acks, id), NodesAt(notes.holders, id), id in notes.listed)
  }

  /** Replaying the log gives exactly the active and queued jobs that are not expired; a
      job that waits counts nodes that confirmed it; an acknowledged copy of a listed job
      counts listed nodes that acknowledged. */
  ghost predicate TableOk(me: NodeId, jobs: map<JobId, Job>, log: seq<Command>, notes: Notes)
  {
    && (forall u :: Replay(log, u) == Survivors(jobs, u))
    && notes.listed <= jobs.Keys
    && (forall id :: id in jobs ==> JobOk(FactsAt(me, notes, id), jobs[id]))
  }

  predicate JobOk(f: Facts, j: Job)
  {
    WaitOk(f.me, j, f.holders) && (f.listed ==> CopyOk(f.me, j, f.acks))
  }

  function JobAt(jobs: map<JobId, Job>, id: JobId): Option<Job> { if id in jobs then Some(jobs[id]) else None }

  /** The table with the job a step is about as the step leaves it. */
  function Put(jobs: map<JobId, Job>, c: Ctx): map<JobId, Job>
  {
    if c.job.Some? then jobs[c.id := c.job.value] else jobs - {c.id}
  }

  lemma {:induction false} SamePut(jobs: map<JobId, Job>, before: map<JobId, Job>, c: Ctx)
    requires jobs - {c.id} == before - {c.id} && JobAt(jobs, c.id) == c.job
    ensures jobs == Put(before, c)
  {
    forall id ensures id in jobs <==> id in Put(before, c) {
      assert id in jobs - {c.id} <==> id in before - {c.id};
    }
    forall id | id in jobs ensures jobs[id] == Put(before, c)[id] {
      if id != c.id { assert (jobs - {c.id})[id] == (before - {c.id})[id]; }
    }
  }

  /** Every job by itself is as its part of the log says. */
  lemma {:induction false} TableCtx(me: NodeId, jobs: map<JobId, Job>, notes: Notes, c: Ctx)
    requires TableOk(me, jobs, c.log, notes) && c.job == JobAt(jobs, c.id)
    ensures CtxOk(FactsAt(me, notes, c.id), c)
  {
    forall u ensures LogAt(c, u) {
      assert Replay(c.log, u) == Survivors(jobs, u);
      ReplayLoaded(c.log, c.id, u);
    }
  }

  /** Lines about one job change nothing for another. */
  lemma {:induction false} OtherJob(log: seq<Command>, log': seq<Command>, id: JobId, other: JobId, u: nat)
    requires log <= log' && other != id && forall i :: |log| <= i < |log'| ==> log'[i].id == id
    ensures Loaded(log', other, u) == Loaded(log, other, u)
    decreases |log'|
  {
    if |log'| > |log| {
      var init := log'[..|log'| - 1];
      assert log <= init && forall i :: |log| <= i < |init| ==> init[i] == log'[i];
      OtherJob(log, init, id, other, u);
      assert log'[|log'| - 1].id == id;
    } else {
      assert log' == log;
    }
  }

  /** What the other jobs wrote is untouched by a step that is about one job. */
  ghost predicate SameElsewhere(a: Notes, b: Notes, id: JobId)
  {
    forall other :: other != id ==>
      && NodesAt(a.acks, other) == NodesAt(b.acks, other) && NodesAt(a.holders, other) == NodesAt(b.holders, other)
      && (other in a.listed <==> other in b.listed)
  }

  /** A step that is about one job, adds only lines about it to the log, and keeps what
      must be kept of it, keeps the whole table. */
  lemma {:induction false} CtxTable(me: NodeId, jobs: map<JobId, Job>, notes: Notes, c: Ctx, c': Ctx, notes': Notes)
    requires TableOk(me, jobs, c.log, notes) && c.job == JobAt(jobs, c.id)
    requires c'.id == c.id && Logs(c, c') && CtxOk(FactsAt(me, notes', c.id), c')
    requires SameElsewhere(notes, notes', c.id) && (c.id in notes'.listed ==> c'.job.Some?)
    ensures TableOk(me, Put(jobs, c'), c'.log, notes')
  {
    var jobs' := Put(jobs, c');
    forall u ensures Replay(c'.log, u) == Survivors(jobs', u) {
      forall id ensures SameAt(Replay(c'.log, u), Survivors(jobs', u), id) {
        OneReplayed(me, jobs, notes, c, c', id, u);
      }
      SameMaps(Replay(c'.log, u), Survivors(jobs', u));
    }
    forall id | id in jobs' ensures JobOk(FactsAt(me, notes', id), jobs'[id]) {
      if id != c.id { assert JobOk(FactsAt(me, notes, id), jobs[id]); }
    }
  }

  lemma {:induction false} OneReplayed(
    me: NodeId, jobs: map<JobId, Job>, notes: Notes, c: Ctx, c': Ctx, id: JobId, u: nat)
    requires TableOk(me, jobs, c.log, notes) && c'.id == c.id && Logs(c, c') && LogOk(c')
    ensures SameAt(Replay(c'.log, u), Survivors(Put(jobs, c'), u), id)
  {
    ReplayLoaded(c'.log, id, u);
    if id == c.id {
      assert LogAt(c', u);
    } else {
      assert Replay(c.log, u) == Survivors(jobs, u);
      ReplayLoaded(c.log, id, u);
      OtherJob(c.log, c'.log, c.id, id, u);
    }
  }

  // ------------------------------------------------------------------------- messages

  function Noted(m: map<JobId, set<NodeId>>, id: JobId, n: NodeId): map<JobId, set<NodeId>>
  {
    m[id := NodesAt(m, id) + {n}]
  }

  function Listed(listed: set<JobId>, c: Ctx, c': Ctx, lists: bool): set<JobId>
  {
    if c'.job.None? then listed - {c.id}
    else if c.job.Some? then listed
    else if lists then listed + {c.id}
    else listed - {c.id}
  }

  /** What the node knows after handling a message. */
  function NotesAfter(me: NodeId, notes: Notes, c: Ctx, c': Ctx, sender: NodeId, m: Message): Notes
  {
    Notes(
      if m.GotAck? then Noted(notes.acks, c.id, sender) else notes.acks,
      if m.GotJob? then Noted(notes.holders, c.id, sender) else notes.holders,
      Listed(notes.listed, c, c', m.ReplJob? && me in m.nodes))
  }

  /** ENQUEUE comes from the node that added the job, so no copy that waits gets one. */
  predicate Expected(me: NodeId, c: Ctx, sender: NodeId, m: Message)
  {
    sender != me && (m.Enqueue? && c.job.Some? ==> c.job.value.state != WaitRepl)
  }

  /** What is known when the copy is looked at: of a copy that is there, whether it is
      listed already. */
  function FactsFor(me: NodeId, notes: Notes, notes': Notes, c: Ctx): Facts
  {
    FactsAt(me, notes', c.id).(listed := if c.job.Some? then c.id in notes.listed else c.id in notes'.listed)
  }

  lemma {:induction false} MessageFacts(
    me: NodeId, jobs: map<JobId, Job>, notes: Notes, c: Ctx, notes': Notes)
    requires TableOk(me, jobs, c.log, notes) && c.job == JobAt(jobs, c.id)
    requires NodesAt(notes.acks, c.id) <= NodesAt(notes'.acks, c.id)
    requires NodesAt(notes.holders, c.id) <= NodesAt(notes'.holders, c.id)
    ensures CtxOk(FactsFor(me, notes, notes', c), c)
  {
    TableCtx(me, jobs, notes, c);
    FactsGrow(FactsAt(me, notes, c.id), FactsFor(me, notes, notes', c), c);
  }

  /** Every job message keeps the whole table. */
  lemma {:induction false} MessageKeeps(
    env: Env, jobs: map<JobId, Job>, notes: Notes, c: Ctx, sender: NodeId, m: Message, target: Option<NodeId>)
    requires TableOk(env.me, jobs, c.log, notes) && c.job == JobAt(jobs, c.id) && Expected(env.me, c, sender, m)
    ensures var c' := Handle(env, c, sender, m, target);
            TableOk(env.me, Put(jobs, c'), c'.log, NotesAfter(env.me, notes, c, c', sender, m))
  {
    var c' := Handle(env, c, sender, m, target);
    var notes' := NotesAfter(env.me, notes, c, c', sender, m);
    var f := FactsFor(env.me, notes, notes', c);
    MessageFacts(env.me, jobs, notes, c, notes');
    HandleKeeps(env, c, sender, m, target, f);
    HandleSends(env, c, sender, m, target);
    CtxTable(env.me, jobs, notes, c, c', notes');
  }

  /** A message that collects a listed copy comes after the GOTACKs of all other nodes
      that may have the job. */
  lemma {:induction false} MessageCollects(
    env: Env, jobs: map<JobId, Job>, notes: Notes, c: Ctx, sender: NodeId, m: Message, target: Option<NodeId>)
    requires TableOk(env.me, jobs, c.log, notes) && c.job == JobAt(jobs, c.id) && Expected(env.me, c, sender, m)
    requires (m.GotAck? || m.SetAck?) && c.job.Some? && c.id in notes.listed
    requires Handle(env, c, sender, m, target).job.None?
    ensures var c' := Handle(env, c, sender, m, target);
            c.job.value.nodesDelivered - {env.me} <= NodesAt(NotesAfter(env.me, notes, c, c', sender, m).acks, c.id)
  {
    var notes' := NotesAfter(env.me, notes, c, Handle(env, c, sender, m, target), sender, m);
    var f := FactsFor(env.me, notes, notes', c);
    MessageFacts(env.me, jobs, notes, c, notes');
    if m.GotAck? {
      GotAckKeeps(env, c, sender, m.known, f);
    } else {
      SetAckKeeps(env, c, sender, m.mayhave, target, f);
    }
  }

  lemma {:induction false} OnlyAnswers(env: Env, c: Ctx, c': Ctx, origin: bool, answers: bool)
    requires Only(env, c, c', MaySend(c', origin, answers))
    ensures c.replies <= c'.replies && (Answered in c'.replies[|c.replies|..] ==> answers)
  {
  }

  lemma {:induction false} EnoughHolders(me: NodeId, jobs: map<JobId, Job>, notes: Notes, id: JobId, sender: NodeId)
    requires id in jobs && JobOk(FactsAt(me, notes, id), jobs[id]) && jobs[id].state == WaitRepl
    ensures |NodesAt(Noted(notes.holders, id, sender), id)| >= |WithSender(jobs[id], sender)|
  {
    var holders, confirmed := NodesAt(Noted(notes.holders, id, sender), id), WithSender(jobs[id], sender);
    assert confirmed <= holders;
    assert |holders - confirmed| == |holders| - |confirmed|;
  }

  /** A message that answers a waiting client is a SETACK, or the last of as many
      confirmations, from different nodes, as the client asked for. */
  lemma {:induction false} MessageAnswers(
    env: Env, jobs: map<JobId, Job>, notes: Notes, c: Ctx, sender: NodeId, m: Message, target: Option<NodeId>)
    requires TableOk(env.me, jobs, c.log, notes) && c.job == JobAt(jobs, c.id)
    ensures var c' := Handle(env, c, sender, m, target);
            && c.replies <= c'.replies
            && (Answered in c'.replies[|c.replies|..] ==>
              m.SetAck? || (c.id in jobs && |NodesAt(Noted(notes.holders, c.id, sender), c.id)| >= jobs[c.id].repl))
  {
    HandleSends(env, c, sender, m, target);
    OnlyAnswers(env, c, Handle(env, c, sender, m, target), Originates(c), Answers(c, sender, m));
    if Answers(c, sender, m) {
      assert JobOk(FactsAt(env.me, notes, c.id), jobs[c.id]);
      EnoughHolders(env.me, jobs, notes, c.id, sender);
    }
  }

  // -------------------------------------------------------------- timers and commands

  function NotesDone(env: Env, notes: Notes, c: Ctx, c': Ctx, a: Action): Notes
  {
    Notes(notes.acks, if a.DoAddJob? && c.job.None? then Noted(notes.holders, c.id, env.me) else notes.holders,
          Listed(notes.listed, c, c', a.DoAddJob? && !Refuses(env)))
  }

  /** Every timer and command keeps the whole table. */
  lemma {:induction false} ActionKeeps(env: Env, jobs: map<JobId, Job>, notes: Notes, c: Ctx, a: Action)
    requires TableOk(env.me, jobs, c.log, notes) && c.job == JobAt(jobs, c.id) && env.now > 0
    ensures var c' := Act(env, c, a); TableOk(env.me, Put(jobs, c'), c'.log, NotesDone(env, notes, c, c', a))
  {
    var c' := Act(env, c, a);
    var notes' := NotesDone(env, notes, c, c', a);
    var f := FactsFor(env.me, notes, notes', c);
    MessageFacts(env.me, jobs, notes, c, notes');
    if a.DoAddJob? && c.job.Some? { MinorKeeps(c, c', f); } else { ActKeeps(env, c, a, f); }
    ActSends(env, c, a);
    CtxTable(env.me, jobs, notes, c, c', notes');
  }

  /** An acknowledged copy stays acknowledged, or goes. */
  lemma {:induction false} AckedStays(env: Env, c: Ctx, sender: NodeId, m: Message, target: Option<NodeId>)
    requires IsAcked(c)
    ensures var c' := Handle(env, c, sender, m, target); c'.job.Some? ==> IsAcked(c')
  {
    if m.GotAck? {
      GotAckStays(env, c, sender, m.known);
    } else if m.SetAck? {
      AckAndAnswerSends(env, c, sender, m.mayhave);
    }
  }

  lemma {:induction false} GotAckStays(env: Env, c: Ctx, sender: NodeId, known: bool)
    requires IsAcked(c)
    ensures var c' := GotAckReceived(env, c, sender, known); c'.job.Some? ==> IsAcked(c')
  {
  }

  /** All that a message does to the table. */
  lemma {:induction false} MessageMeans(
    env: Env, jobs: map<JobId, Job>, notes: Notes, c: Ctx, c': Ctx, sender: NodeId, m: Message, target: Option<NodeId>)
    requires TableOk(env.me, jobs, c.log, notes) && c.job == JobAt(jobs, c.id) && Expected(env.me, c, sender, m)
    requires c' == Handle(env, c, sender, m, target)
    ensures TableOk(env.me, Put(jobs, c'), c'.log, NotesAfter(env.me, notes, c, c', sender, m))
    ensures (m.GotAck? || m.SetAck?) && c.job.Some? && c.id in notes.listed && c'.job.None? ==>
              c.job.value.nodesDelivered - {env.me} <= NodesAt(NotesAfter(env.me, notes, c, c', sender, m).acks, c.id)
    ensures c.replies <= c'.replies
    ensures Answered in c'.replies[|c.replies|..] ==>
              m.SetAck? || (c.id in jobs && |NodesAt(notes.holders, c.id) + {sender}| >= jobs[c.id].repl)
    ensures IsAcked(c) && c'.job.Some? ==> IsAcked(c')
  {
    MessageKeeps(env, jobs, notes, c, sender, m, target);
    MessageAnswers(env, jobs, notes, c, sender, m, target);
    if IsAcked(c) { AckedStays(env, c, sender, m, target); }
    if (m.GotAck? || m.SetAck?) && c.job.Some? && c.id in notes.listed && c'.job.None? {
      MessageCollects(env, jobs, notes, c, sender, m, target);
    }
  }

  /** A new job that is kept is logged exactly if its client need not wait. */
  lemma {:induction false} AddJobLogs(env: Env, c: Ctx, a: AddArgs)
    requires c.job.None? && !Refuses(env) && env.now > 0
    ensures var c' := AddJob(env, c, a);
            c'.job.Some? ==>
              if c'.job.value.state == WaitRepl then c'.log == c.log
              else c'.log == c.log + [LoadJob(c.id, c'.job.value.etime)]
  {
  }
}
