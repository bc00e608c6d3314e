/** Replaying the whole AOF of a node: the commands of all its jobs, in the order they
    were logged, whatever the jobs went through in the cluster.
 */
module JobLog {
  import opened Options
  import opened JobSpec
  import opened JobSteps
  import opened JobCopy
  import opened Protocol

  /** The jobs a log leaves when loaded at time u, with their expire times. */
  function Replay(log: seq<Command>, u: nat): map<JobId, nat>
    decreases |log|
  {
    if log == [] then map[]
    else
      var m := Replay(log[..|log| - 1], u);
      match log[|log| - 1]
      case LoadJob(id, etime) => if etime <= u || id in m then m else m[id := etime]
      case DelJobCommand(id) => m - {id}
  }

  lemma {:induction false} ReplayLoaded(log: seq<Command>, id: JobId, u: nat)
    ensures Loaded(log, id, u) == if id in Replay(log, u) then Some(Replay(log, u)[id]) else None
    decreases |log|
  {
    if log != [] { ReplayLoaded(log[..|log| - 1], id, u); }
  }

  /** The part of a log that is about one job. */
  function About(log: seq<Command>, id: JobId): seq<Command>
    decreases |log|
  {
    if log == [] then []
    else About(log[..|log| - 1], id) + (if log[|log| - 1].id == id then [log[|log| - 1]] else [])
  }

  lemma {:induction false} LoadedAbout(log: seq<Command>, id: JobId, u: nat)
    ensures Loaded(log, id, u) == Loaded(About(log, id), id, u)
    decreases |log|
  {
    if log != [] {
      var before, cmd := log[..|log| - 1], log[|log| - 1];
      LoadedAbout(before, id, u);
      if cmd.id == id {
        LoadedSnoc(About(before, id), cmd, id, u);
      } else {
        assert About(log, id) == About(before, id);
      }
    }
  }

  /** The part of node n in the history of every job: its copy, and what it logged. */
  ghost predicate Assembles(n: NodeId, jobs: map<JobId, Job>, log: seq<Command>, worlds: map<JobId, World>)
  {
    && (forall id :: id in worlds ==>
          && Reachable(worlds[id]) && worlds[id].id == id && n in worlds[id].nodes
          && worlds[id].nodes[n].log == About(log, id)
          && worlds[id].nodes[n].job == if id in jobs then Some(jobs[id]) else None)
    && (forall id :: id in jobs ==> id in worlds)
    && (forall i :: 0 <= i < |log| ==> log[i].id in worlds)
  }

  /** The jobs that should survive a restart at time u. */
  function Survivors(jobs: map<JobId, Job>, u: nat): map<JobId, nat>
  {
    map id | id in jobs && (jobs[id].state == Active || jobs[id].state == JobState.Queued)
      && jobs[id].etime > u :: jobs[id].etime
  }

  lemma {:induction false} ReplayNames(log: seq<Command>, u: nat, id: JobId)
    requires id in Replay(log, u)
    ensures exists i :: 0 <= i < |log| && log[i].id == id
    decreases |log|
  {
    if log != [] {
      var before := log[..|log| - 1];
      if id in Replay(before, u) {
        ReplayNames(before, u, id);
        var i :| 0 <= i < |before| && before[i].id == id;
        assert log[i].id == id;
      } else {
        assert log[|log| - 1].id == id;
      }
    }
  }

  lemma {:induction false} OneJob(n: NodeId, jobs: map<JobId, Job>, log: seq<Command>, worlds: map<JobId, World>,
      u: nat, id: JobId)
    requires Assembles(n, jobs, log, worlds)
    ensures Loaded(log, id, u) == if id in Survivors(jobs, u) then Some(Survivors(jobs, u)[id]) else None
  {
    if id in worlds {
      LoadedAbout(log, id, u);
      LogFollowsCopy(worlds[id], n, u);
    } else {
      ReplayLoaded(log, id, u);
      if id in Replay(log, u) { ReplayNames(log, u, id); }
    }
  }

  lemma {:induction false} AssembledReplays(
    n: NodeId, jobs: map<JobId, Job>, log: seq<Command>, worlds: map<JobId, World>, u: nat)
    requires Assembles(n, jobs, log, worlds)
    ensures Replay(log, u) == Survivors(jobs, u)
  {
    forall id ensures SameAt(Replay(log, u), Survivors(jobs, u), id) {
      ReplayLoaded(log, id, u);
      OneJob(n, jobs, log, worlds, u, id);
    }
    SameMaps(Replay(log, u), Survivors(jobs, u));
  }

  predicate SameAt(a: map<JobId, nat>, b: map<JobId, nat>, id: JobId)
  {
    (id in a <==> id in b) && (id in a ==> a[id] == b[id])
  }

  lemma {:induction false} SameMaps(a: map<JobId, nat>, b: map<JobId, nat>)
    requires forall id :: SameAt(a, b, id)
    ensures a == b
  {
    forall id ensures id in a <==> id in b { assert SameAt(a, b, id); }
    forall id | id in a ensures a[id] == b[id] { assert SameAt(a, b, id); }
  }

  // ---------------------------------------------------------------- clusters and jobs

  /** A cluster with all its jobs: what happened to each job, and one log per node, to
      which the steps about all jobs append. */
  datatype Cluster = Cluster(nodes: set<NodeId>, worlds: map<JobId, World>, logs: map<NodeId, seq<Command>>)

  /** A step of one of the nodes, about one of the jobs. */
  datatype JobEvent = JobEvent(id: JobId, event: Event)

  /** A job nothing has happened to yet. */
  function Unheard(id: JobId, nodes: set<NodeId>): World
  {
    World(id, map n | n in nodes :: Ctx(id, None, {}, [], []), History(None, {}, {}, {}, {}, {}))
  }

  function WorldOf(k: Cluster, id: JobId): World { if id in k.worlds then k.worlds[id] else Unheard(id, k.nodes) }

  function NewCluster(nodes: set<NodeId>): Cluster { Cluster(nodes, map[], map n | n in nodes :: []) }

  predicate Possible(k: Cluster, e: JobEvent)
  {
    Enabled(WorldOf(k, e.id), e.event) && e.event.env.me in k.logs
  }

  /** The lines a step appends. */
  function NewLines(c: Ctx, c': Ctx): seq<Command> { if c.log <= c'.log then c'.log[|c.log|..] else [] }

  function Happen(k: Cluster, e: JobEvent): Cluster
    requires Possible(k, e)
  {
    var n, w := e.event.env.me, WorldOf(k, e.id);
    var w' := Next(w, e.event);
    Cluster(k.nodes, k.worlds[e.id := w'], k.logs[n := k.logs[n] + NewLines(w.nodes[n], w'.nodes[n])])
  }

  predicate CanHappen(k: Cluster, evs: seq<JobEvent>)
    decreases |evs|
  {
    evs == [] || (Possible(k, evs[0]) && CanHappen(Happen(k, evs[0]), evs[1..]))
  }

  function HappenAll(k: Cluster, evs: seq<JobEvent>): Cluster
    requires CanHappen(k, evs)
    decreases |evs|
  {
    if evs == [] then k else HappenAll(Happen(k, evs[0]), evs[1..])
  }

  /** The job table of a node. */
  function JobsOf(k: Cluster, n: NodeId): map<JobId, Job>
  {
    map id | id in k.worlds && n in k.worlds[id].nodes && k.worlds[id].nodes[n].job.Some? ::
      k.worlds[id].nodes[n].job.value
  }

  ghost predicate WorldOk(k: Cluster, id: JobId)
  {
    var w := WorldOf(k, id);
    Reachable(w) && w.id == id && w.nodes.Keys == k.nodes
  }

  /** The log of node n is made of the lines of its jobs. */
  predicate LogAbout(k: Cluster, n: NodeId, id: JobId)
  {
    n in k.logs && n in WorldOf(k, id).nodes && About(k.logs[n], id) == WorldOf(k, id).nodes[n].log
  }

  predicate NamesKnown(k: Cluster, log: seq<Command>) { forall i :: 0 <= i < |log| ==> log[i].id in k.worlds }

  ghost predicate ClusterOk(k: Cluster)
  {
    && k.logs.Keys == k.nodes
    && (forall id :: WorldOk(k, id))
    && (forall n, id :: n in k.nodes ==> LogAbout(k, n, id))
    && (forall n :: n in k.nodes ==> NamesKnown(k, k.logs[n]))
  }

  lemma {:induction false} RunSnoc(w: World, evs: seq<Event>, e: Event)
    requires CanRun(w, evs) && Enabled(Run(w, evs), e)
    ensures CanRun(w, evs + [e]) && Run(w, evs + [e]) == Next(Run(w, evs), e)
    decreases |evs|
  {
    if evs == [] {
      assert evs + [e] == [e];
    } else {
      assert (evs + [e])[1..] == evs[1..] + [e];
      RunSnoc(Next(w, evs[0]), evs[1..], e);
    }
  }

  lemma {:induction false} StaysReachable(w: World, e: Event)
    requires Reachable(w) && Enabled(w, e)
    ensures Reachable(Next(w, e))
  {
    var w0, evs :| Init(w0) && CanRun(w0, evs) && Run(w0, evs) == w;
    RunSnoc(w0, evs, e);
    assert Init(w0) && CanRun(w0, evs + [e]) && Run(w0, evs + [e]) == Next(w, e);
  }

  lemma {:induction false} UnheardReachable(id: JobId, nodes: set<NodeId>)
    ensures Reachable(Unheard(id, nodes))
  {
    var w := Unheard(id, nodes);
    assert Init(w) && CanRun(w, []) && Run(w, []) == w;
  }

  /** Lines about one job are all of what is appended about it, and nothing of another. */
  lemma {:induction false} AboutLines(log: seq<Command>, lines: seq<Command>, id: JobId, other: JobId)
    requires forall i :: 0 <= i < |lines| ==> lines[i].id == id
    ensures About(log + lines, other) == About(log, other) + if other == id then lines else []
    decreases |lines|
  {
    if lines == [] {
      assert log + lines == log && About(log, other) + [] == About(log, other);
    } else {
      var init, last := lines[..|lines| - 1], lines[|lines| - 1];
      AboutLines(log, init, id, other);
      assert (log + lines)[..|log + lines| - 1] == log + init && (log + lines)[|log + lines| - 1] == last;
      assert lines == init + [last];
    }
  }

  /** What a step appends is about its job. */
  lemma {:induction false} StepLines(env: Env, c: Ctx, cause: Cause)
    ensures var c' := Step(env, c, cause);
            && c.log + NewLines(c, c') == c'.log
            && forall i :: 0 <= i < |NewLines(c, c')| ==> NewLines(c, c')[i].id == c.id
  {
    StepSends(env, c, cause);
    LinesOf(c, Step(env, c, cause));
  }

  lemma {:induction false} LinesOf(c: Ctx, c': Ctx)
    requires Logs(c, c')
    ensures c.log + NewLines(c, c') == c'.log
    ensures forall i :: 0 <= i < |NewLines(c, c')| ==> NewLines(c, c')[i].id == c.id
  {
    forall i | 0 <= i < |NewLines(c, c')| ensures NewLines(c, c')[i].id == c.id {
      assert NewLines(c, c')[i] == c'.log[|c.log| + i];
    }
  }

  /** The lines of a step, as the node logs them. */
  lemma {:induction false} HappenLines(k: Cluster, e: JobEvent) returns (lines: seq<Command>)
    requires ClusterOk(k) && Possible(k, e)
    ensures var n, w := e.event.env.me, WorldOf(k, e.id);
            && n in w.nodes && n in Happen(k, e).logs && n in Happen(k, e).worlds[e.id].nodes
            && Happen(k, e).logs[n] == k.logs[n] + lines
            && Happen(k, e).worlds[e.id].nodes[n].log == w.nodes[n].log + lines
    ensures forall i :: 0 <= i < |lines| ==> lines[i].id == e.id
  {
    var n, w := e.event.env.me, WorldOf(k, e.id);
    assert WorldOk(k, e.id);
    ReachableInv(w);
    assert NodeOk(w, n);
    StepLines(e.event.env, w.nodes[n], e.event.cause);
    lines := NewLines(w.nodes[n], Next(w, e.event).nodes[n]);
  }

  /** The log of the node that takes a step. */
  lemma {:induction false} HappenLogHere(k: Cluster, e: JobEvent, id: JobId)
    requires ClusterOk(k) && Possible(k, e)
    ensures LogAbout(Happen(k, e), e.event.env.me, id)
  {
    var n := e.event.env.me;
    var lines := HappenLines(k, e);
    assert WorldOk(k, id) && LogAbout(k, n, id);
    AboutLines(k.logs[n], lines, e.id, id);
    assert About(k.logs[n], id) + [] == About(k.logs[n], id);
  }

  /** The logs of the nodes after a step. */
  lemma {:induction false} HappenLog(k: Cluster, e: JobEvent, n: NodeId, id: JobId)
    requires ClusterOk(k) && Possible(k, e) && n in k.nodes
    ensures LogAbout(Happen(k, e), n, id)
  {
    if n == e.event.env.me {
      HappenLogHere(k, e, id);
    } else {
      assert WorldOk(k, e.id) && WorldOk(k, id) && LogAbout(k, n, id);
    }
  }

  lemma {:induction false} HappenNames(k: Cluster, e: JobEvent, n: NodeId)
    requires ClusterOk(k) && Possible(k, e) && n in k.nodes
    ensures NamesKnown(Happen(k, e), Happen(k, e).logs[n])
  {
    var k' := Happen(k, e);
    assert NamesKnown(k, k.logs[n]);
    if n == e.event.env.me { var lines := HappenLines(k, e); }
    forall i | 0 <= i < |k'.logs[n]| ensures k'.logs[n][i].id in k'.worlds {
      if i < |k.logs[n]| { assert k'.logs[n][i] == k.logs[n][i]; }
    }
  }

  lemma {:induction false} HappenOk(k: Cluster, e: JobEvent)
    requires ClusterOk(k) && Possible(k, e)
    ensures ClusterOk(Happen(k, e))
  {
    var k' := Happen(k, e);
    forall id ensures WorldOk(k', id) {
      assert WorldOk(k, id);
      if id == e.id { StaysReachable(WorldOf(k, id), e.event); }
    }
    forall n, id | n in k'.nodes ensures LogAbout(k', n, id) { HappenLog(k, e, n, id); }
    forall n | n in k'.nodes ensures NamesKnown(k', k'.logs[n]) { HappenNames(k, e, n); }
  }

  lemma {:induction false} HappenAllOk(k: Cluster, evs: seq<JobEvent>)
    requires ClusterOk(k) && CanHappen(k, evs)
    ensures ClusterOk(HappenAll(k, evs))
    decreases |evs|
  {
    if evs != [] {
      HappenOk(k, evs[0]);
      HappenAllOk(Happen(k, evs[0]), evs[1..]);
    }
  }

  lemma {:induction false} NewClusterOk(nodes: set<NodeId>)
    ensures ClusterOk(NewCluster(nodes))
  {
    var k := NewCluster(nodes);
    forall id ensures WorldOk(k, id) { UnheardReachable(id, nodes); }
  }

  /** In every run of a cluster with many jobs, a node's table and log are made up of
      its part in the history of every job. */
  lemma {:induction false} RunAssembles(k: Cluster, n: NodeId)
    requires ClusterOk(k) && n in k.nodes
    ensures Assembles(n, JobsOf(k, n), k.logs[n], k.worlds)
  {
    assert NamesKnown(k, k.logs[n]);
    forall id | id in k.worlds
      ensures && Reachable(k.worlds[id]) && k.worlds[id].id == id && n in k.worlds[id].nodes
              && k.worlds[id].nodes[n].log == About(k.logs[n], id)
              && k.worlds[id].nodes[n].job == if id in JobsOf(k, n) then Some(JobsOf(k, n)[id]) else None
    {
      assert WorldOk(k, id) && LogAbout(k, n, id);
    }
  }

  /** In every run of a cluster, with any number of jobs whose steps interleave and any
      loss, duplication and reordering of messages, the log of every node replays at any
      time to exactly its active and queued jobs that are not expired. */
  lemma {:induction false} ReplayIsLiveJobs(nodes: set<NodeId>, evs: seq<JobEvent>, n: NodeId, u: nat)
    requires CanHappen(NewCluster(nodes), evs) && n in nodes
    ensures var k := HappenAll(NewCluster(nodes), evs);
            n in k.logs && Replay(k.logs[n], u) == Survivors(JobsOf(k, n), u)
  {
    NewClusterOk(nodes);
    HappenAllOk(NewCluster(nodes), evs);
    var k := HappenAll(NewCluster(nodes), evs);
    NodesStay(NewCluster(nodes), evs);
    RunAssembles(k, n);
    AssembledReplays(n, JobsOf(k, n), k.logs[n], k.worlds, u);
  }

  lemma {:induction false} NodesStay(k: Cluster, evs: seq<JobEvent>)
    requires CanHappen(k, evs)
    ensures HappenAll(k, evs).nodes == k.nodes
    decreases |evs|
  {
    if evs != [] { NodesStay(Happen(k, evs[0]), evs[1..]); }
  }
}
