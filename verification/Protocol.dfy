/** The life of one job in a cluster: nodes that take the steps of JobSpec, and a
    network that loses, duplicates and reorders packets.

    Every packet ever sent stays available for delivery, and none has to be
    delivered.  Jobs do not interact, so the cluster is followed job by job; the ID of
    a job is new when ADDJOB creates it.
 */
module Protocol {
  import opened Options
  import opened JobSpec
  import opened JobSteps
  import opened JobCopy

  /** What happened so far, beyond what the nodes remember.
      listed: nodes whose copy began as ADDJOB with a local copy, or as a REPLJOB that
      lists them.  registered: nodes that ever registered the job.  heldAcked: nodes
      that ever held it acknowledged.  stale: nodes that handled a REPLJOB after their
      first GOTACK.  ended: sender and receiver of every DELJOB that ended the garbage
      collection of a listed copy. */
  datatype History = History(
    origin: Option<NodeId>,
    listed: set<NodeId>,
    registered: set<NodeId>,
    heldAcked: set<NodeId>,
    stale: set<NodeId>,
    ended: set<(NodeId, NodeId)>)

  datatype World = World(id: JobId, nodes: map<NodeId, Ctx>, hist: History)

  datatype Event = Event(env: Env, cause: Cause)

  function Holders(h: History): set<NodeId> { h.registered + h.heldAcked }

  predicate Blank(w: World) { forall n :: n in w.nodes ==> w.nodes[n].job.None? && w.nodes[n].out == {} }

  predicate Enabled(w: World, e: Event)
  {
    && e.env.me in w.nodes && e.env.now > 0
    && (e.cause.Msg? ==>
      e.cause.sender in w.nodes && Packet(e.cause.sender, e.env.me, w.id, e.cause.msg) in w.nodes[e.cause.sender].out)
    && (Adds(e.cause) ==> w.hist.origin.None? && Blank(w) && e.env.me !in e.cause.action.args.candidates)
  }

  predicate ByRepl(cause: Cause) { cause.Msg? && cause.msg.ReplJob? }
  predicate ByGotAck(cause: Cause) { cause.Msg? && cause.msg.GotAck? }

  predicate SentAnyGotAck(c: Ctx) { exists p :: p in c.out && p.msg.GotAck? }

  /** The nodes a copy lists once a GOTACK is counted, the node itself apart. */
  function EndReceivers(n: NodeId, c: Ctx, cause: Cause): set<NodeId>
    requires ByGotAck(cause)
  {
    if c.job.None? then {} else Counted(c.job.value, cause.sender, cause.msg.known).nodesDelivered - {n}
  }

  function Remember(h: History, n: NodeId, c: Ctx, c': Ctx, cause: Cause): History
  {
    var created := c.job.None? && c'.job.Some?;
    History(
      if Adds(cause) then Some(n) else h.origin,
      if c'.job.None? then h.listed - {n}
      else if !created then h.listed
      else if (Adds(cause) || ByRepl(cause)) && n in c'.job.value.nodesDelivered then h.listed + {n}
      else h.listed - {n},
      if created && (Adds(cause) || ByRepl(cause)) then h.registered + {n} else h.registered,
      if IsAcked(c') then h.heldAcked + {n} else h.heldAcked,
      if ByRepl(cause) && SentAnyGotAck(c) then h.stale + {n} else h.stale,
      if ByGotAck(cause) && n in h.listed && c'.job.None? then
        h.ended + (set m | m in EndReceivers(n, c, cause) :: (n, m))
      else h.ended)
  }

  function Next(w: World, e: Event): World
    requires Enabled(w, e)
  {
    var n := e.env.me;
    var c := w.nodes[n];
    var c' := Step(e.env, c, e.cause);
    w.(nodes := w.nodes[n := c'], hist := Remember(w.hist, n, c, c', e.cause))
  }

  predicate CanRun(w: World, evs: seq<Event>)
    decreases |evs|
  {
    evs == [] || (Enabled(w, evs[0]) && CanRun(Next(w, evs[0]), evs[1..]))
  }

  function Run(w: World, evs: seq<Event>): World
    requires CanRun(w, evs)
    decreases |evs|
  {
    if evs == [] then w else Run(Next(w, evs[0]), evs[1..])
  }

  predicate Init(w: World)
  {
    && (forall n :: n in w.nodes ==> w.nodes[n] == Ctx(w.id, None, {}, [], []))
    && w.hist == History(None, {}, {}, {}, {}, {})
  }

  // -------------------------------------------------------------------- invariant

  /** Node m sent node n a GOTACK. */
  predicate SentGotAck(w: World, m: NodeId, n: NodeId)
  {
    m in w.nodes && (Packet(m, n, w.id, GotAck(true)) in w.nodes[m].out
      || Packet(m, n, w.id, GotAck(false)) in w.nodes[m].out)
  }

  function Ackers(w: World, n: NodeId): set<NodeId>
  {
    set m | m in w.nodes && SentGotAck(w, m, n)
  }

  function FactsOf(w: World, n: NodeId): Facts
  {
    Facts(n, Ackers(w, n), Holders(w.hist), n in w.hist.listed)
  }

  predicate PacketOk(h: History, n: NodeId, m: Message)
  {
    && (m.GotJob? ==> n in Holders(h))
    && (m.SetAck? ==> n in h.heldAcked)
    && (m.ReplJob? || m.Enqueue? ==> h.origin == Some(n))
  }

  predicate WireOk(h: History, id: JobId, n: NodeId, out: set<Packet>)
  {
    forall p :: p in out ==> p.src == n && p.dst != n && p.id == id && PacketOk(h, n, p.msg)
  }

  predicate PlaceOk(h: History, id: JobId, n: NodeId, c: Ctx)
  {
    && c.id == id
    && WireOk(h, id, n, c.out)
    && (n in h.listed ==> c.job.Some?)
    && (c.job.Some? ==> n in Holders(h))
    && (Originates(c) ==> h.origin == Some(n))
    && (n !in h.stale && SentAnyGotAck(c) ==> NotLive(c))
  }

  ghost predicate NodeOk(w: World, n: NodeId)
  {
    n in w.nodes && PlaceOk(w.hist, w.id, n, w.nodes[n]) && CtxOk(FactsOf(w, n), w.nodes[n])
  }

  ghost predicate EndedOk(w: World)
  {
    forall n, m :: (n, m) in w.hist.ended ==> SentGotAck(w, m, n)
  }

  ghost predicate Inv(w: World)
  {
    (forall n :: n in w.nodes ==> NodeOk(w, n)) && EndedOk(w)
  }

  // ------------------------------------------------------------------------ one step

  /** What a step needs to know holds in every world. */
  lemma {:induction false} StepReady(w: World, e: Event)
    requires Inv(w) && Enabled(w, e)
    ensures var c := w.nodes[e.env.me];
            e.cause.Msg? ==>
              && e.cause.sender != e.env.me
              && (e.cause.msg.GotAck? ==> e.cause.sender in Ackers(w, e.env.me))
              && (e.cause.msg.GotJob? ==> e.cause.sender in Holders(w.hist))
              && (e.cause.msg.SetAck? ==> e.cause.sender in w.hist.heldAcked)
              && (e.cause.msg.Enqueue? && c.job.Some? ==> c.job.value.state != WaitRepl)
  {
    if e.cause.Msg? {
      assert NodeOk(w, e.cause.sender) && NodeOk(w, e.env.me);
      var p := Packet(e.cause.sender, e.env.me, w.id, e.cause.msg);
      assert p in w.nodes[e.cause.sender].out;
    }
  }

  /** The facts a step at n ends with, before its own packets count. */
  function FactsAfter(w: World, e: Event): Facts
    requires Enabled(w, e)
  {
    Facts(e.env.me, Ackers(w, e.env.me), Holders(Next(w, e).hist), e.env.me in Next(w, e).hist.listed)
  }

  lemma {:induction false} StepCopy(w: World, e: Event)
    requires Inv(w) && Enabled(w, e)
    ensures CtxOk(FactsAfter(w, e), Next(w, e).nodes[e.env.me])
    ensures !Adds(e.cause) && !ByRepl(e.cause) && NotLive(w.nodes[e.env.me]) ==> NotLive(Next(w, e).nodes[e.env.me])
    ensures !Adds(e.cause) && Originates(Next(w, e).nodes[e.env.me]) ==> Originates(w.nodes[e.env.me])
  {
    var n, c := e.env.me, w.nodes[e.env.me];
    var f, f' := FactsOf(w, n), FactsAfter(w, e);
    assert NodeOk(w, n);
    StepReady(w, e);
    StepFrom(e, c, f, f');
  }

  lemma {:induction false} StepFrom(e: Event, c: Ctx, f: Facts, f': Facts)
    requires CtxOk(f, c) && f.me == e.env.me && f'.me == f.me && f'.acks == f.acks && f.holders <= f'.holders
             && e.env.now > 0
    requires var c' := Step(e.env, c, e.cause);
             && (c.job.Some? && c'.job.Some? ==> f'.listed == f.listed)
             && (c'.job.None? ==> !f'.listed)
             && (c.job.None? && c'.job.Some? ==>
               f'.listed == ((Adds(e.cause) || ByRepl(e.cause)) && f.me in c'.job.value.nodesDelivered))
             && (c.job.None? && c'.job.Some? && Adds(e.cause) ==> f.me in f'.holders)
    requires Adds(e.cause) ==> c.job.None? && f.me !in e.cause.action.args.candidates
    requires e.cause.Msg? ==>
               && e.cause.sender != e.env.me
               && (e.cause.msg.GotAck? ==> e.cause.sender in f.acks)
               && (e.cause.msg.GotJob? ==> e.cause.sender in f.holders)
               && (e.cause.msg.Enqueue? && c.job.Some? ==> c.job.value.state != WaitRepl)
    ensures var c' := Step(e.env, c, e.cause);
            && CtxOk(f', c')
            && (!Adds(e.cause) && !ByRepl(e.cause) && NotLive(c) ==> NotLive(c'))
            && (!Adds(e.cause) && Originates(c') ==> Originates(c))
  {
    match e.cause
    case Msg(sender, m, target) =>
      FactsGrow(f, f', c);
      HandleKeeps(e.env, c, sender, m, target, f');
    case Own(a) =>
      var g := f'.(holders := f'.holders + {f.me});
      FactsGrow(f, g, c);
      if a.DoAddJob? && Refuses(e.env) { AddJobLists(e.env, c, a.args); }
      ActKeeps(e.env, c, a, g);
      if !a.DoAddJob? { FactsGrow(f, f', c); ActKeeps(e.env, c, a, f'); }
  }

  /** ADDJOB lists its own node only when it keeps a copy. */
  lemma {:induction false} AddJobLists(env: Env, c: Ctx, a: AddArgs)
    requires c.job.None? && env.me !in a.candidates && Refuses(env)
    ensures AddJob(env, c, a).job.Some? ==> env.me !in AddJob(env, c, a).job.value.nodesDelivered
  {
    ReceiversFrom({}, a.candidates, a.replicate);
  }

  lemma {:induction false} StepWire(w: World, e: Event)
    requires Inv(w) && Enabled(w, e)
    ensures Only(e.env, w.nodes[e.env.me], Next(w, e).nodes[e.env.me],
                 MaySend(Next(w, e).nodes[e.env.me], Adds(e.cause) || Originates(w.nodes[e.env.me]),
                         e.cause.Msg? && Answers(w.nodes[e.env.me], e.cause.sender, e.cause.msg)))
  {
    StepSends(e.env, w.nodes[e.env.me], e.cause);
  }

  /** A step makes its node a holder if it leaves a copy there. */
  lemma {:induction false} StepHolder(w: World, e: Event)
    requires Inv(w) && Enabled(w, e) && Next(w, e).nodes[e.env.me].job.Some?
    ensures e.env.me in Holders(Next(w, e).hist)
  {
    var c := w.nodes[e.env.me];
    assert NodeOk(w, e.env.me);
    if c.job.None? && !Adds(e.cause) && !ByRepl(e.cause) { StepCopy(w, e); }
  }

  lemma {:induction false} NewPacket(w: World, e: Event, p: Packet)
    requires Inv(w) && Enabled(w, e) && p in Next(w, e).nodes[e.env.me].out && p !in w.nodes[e.env.me].out
    ensures p.src == e.env.me && p.dst != e.env.me && p.id == w.id && PacketOk(Next(w, e).hist, e.env.me, p.msg)
  {
    var c, c' := w.nodes[e.env.me], Next(w, e).nodes[e.env.me];
    assert NodeOk(w, e.env.me);
    StepWire(w, e);
    if c'.job.Some? { StepHolder(w, e); }
    NewPacketOf(w.hist, e.env, c, c', e.cause, p);
  }

  lemma {:induction false} NewPacketOf(h: History, env: Env, c: Ctx, c': Ctx, cause: Cause, p: Packet)
    requires Only(env, c, c',
             MaySend(c', Adds(cause) || Originates(c), cause.Msg? && Answers(c, cause.sender, cause.msg)))
    requires Originates(c) ==> h.origin == Some(env.me)
    requires c'.job.Some? ==> env.me in Holders(Remember(h, env.me, c, c', cause))
    requires p in c'.out && p !in c.out
    ensures p.src == env.me && p.dst != env.me && p.id == c.id
            && PacketOk(Remember(h, env.me, c, c', cause), env.me, p.msg)
  {
  }

  lemma {:induction false} StepWireOk(w: World, e: Event)
    requires Inv(w) && Enabled(w, e)
    ensures var w' := Next(w, e); WireOk(w'.hist, w.id, e.env.me, w'.nodes[e.env.me].out)
  {
    var n, w' := e.env.me, Next(w, e);
    forall p | p in w'.nodes[n].out ensures p.src == n && p.dst != n && p.id == w.id && PacketOk(w'.hist, n, p.msg) {
      if p in w.nodes[n].out { OldPacket(w, e, n, p); } else { NewPacket(w, e, p); }
    }
  }

  /** A packet that was in order stays so. */
  lemma {:induction false} OldPacket(w: World, e: Event, n: NodeId, p: Packet)
    requires Inv(w) && Enabled(w, e) && n in w.nodes && p in w.nodes[n].out
    ensures p.src == n && p.dst != n && p.id == w.id && PacketOk(Next(w, e).hist, n, p.msg)
  {
    assert NodeOk(w, n);
  }

  lemma {:induction false} GotAckSent(env: Env, c: Ctx, c': Ctx, origin: bool, answers: bool)
    requires Only(env, c, c', MaySend(c', origin, answers)) && SentAnyGotAck(c') && !SentAnyGotAck(c)
    ensures NotLive(c')
  {
    var p :| p in c'.out && p.msg.GotAck?;
    assert KindOf(p.msg) == KGotAck;
  }

  /** A node that sent a GOTACK has no live copy, unless it handled a REPLJOB since. */
  lemma {:induction false} StepGotAck(w: World, e: Event)
    requires Inv(w) && Enabled(w, e)
    requires e.env.me !in Next(w, e).hist.stale && SentAnyGotAck(Next(w, e).nodes[e.env.me])
    ensures NotLive(Next(w, e).nodes[e.env.me])
  {
    var n, w' := e.env.me, Next(w, e);
    var c, c' := w.nodes[n], w'.nodes[n];
    assert NodeOk(w, n);
    if SentAnyGotAck(c) {
      StepCopy(w, e);
    } else {
      StepWire(w, e);
      GotAckSent(e.env, c, c', Adds(e.cause) || Originates(c),
        e.cause.Msg? && Answers(c, e.cause.sender, e.cause.msg));
    }
  }

  lemma {:induction false} StepPlace(w: World, e: Event)
    requires Inv(w) && Enabled(w, e)
    ensures var w' := Next(w, e); PlaceOk(w'.hist, w.id, e.env.me, w'.nodes[e.env.me])
  {
    var n, w' := e.env.me, Next(w, e);
    var c, c' := w.nodes[n], w'.nodes[n];
    assert c'.id == w.id by { assert NodeOk(w, n); StepWire(w, e); }
    StepWireOk(w, e);
    if c'.job.Some? { StepHolder(w, e); }
    if n !in w'.hist.stale && SentAnyGotAck(c') { StepGotAck(w, e); }
    if Originates(c') && !Adds(e.cause) {
      StepCopy(w, e);
      assert NodeOk(w, n);
    }
    assert NodeOk(w, n);
  }

  lemma {:induction false} AckersGrow(w: World, e: Event, n: NodeId)
    requires Inv(w) && Enabled(w, e)
    ensures Ackers(w, n) <= Ackers(Next(w, e), n)
    ensures forall m :: SentGotAck(w, m, n) ==> SentGotAck(Next(w, e), m, n)
  {
    StepWire(w, e);
  }

  lemma {:induction false} StepElsewhere(w: World, e: Event, k: NodeId)
    requires Inv(w) && Enabled(w, e) && k in w.nodes && k != e.env.me
    ensures NodeOk(Next(w, e), k)
  {
    var w' := Next(w, e);
    assert NodeOk(w, k);
    AckersGrow(w, e, k);
    FactsGrow(FactsOf(w, k), FactsOf(w', k), w.nodes[k]);
    forall p | p in w.nodes[k].out ensures p.src == k && p.dst != k && p.id == w.id && PacketOk(w'.hist, k, p.msg) {
      OldPacket(w, e, k, p);
    }
    if Adds(e.cause) { assert w.nodes[k].job.None?; }
  }

  lemma {:induction false} StepEnded(w: World, e: Event)
    requires Inv(w) && Enabled(w, e)
    ensures EndedOk(Next(w, e))
  {
    var w' := Next(w, e);
    forall n, m | (n, m) in w'.hist.ended ensures SentGotAck(w', m, n) {
      AckersGrow(w, e, n);
      if (n, m) !in w.hist.ended { EndsAcked(w, e, m); }
    }
  }

  /** The DELJOBs that end a garbage collection go to nodes that acknowledged. */
  lemma {:induction false} EndsAcked(w: World, e: Event, m: NodeId)
    requires Inv(w) && Enabled(w, e) && ByGotAck(e.cause) && e.env.me in w.hist.listed
    requires Next(w, e).nodes[e.env.me].job.None? && m in EndReceivers(e.env.me, w.nodes[e.env.me], e.cause)
    ensures SentGotAck(w, m, e.env.me)
  {
    var n, sender := e.env.me, e.cause.sender;
    assert NodeOk(w, n);
    StepReady(w, e);
    GotAckKeeps(e.env, w.nodes[n], sender, e.cause.msg.known, FactsOf(w, n));
    assert m in Ackers(w, n);
  }

  lemma {:induction false} StepInv(w: World, e: Event)
    requires Inv(w) && Enabled(w, e)
    ensures Inv(Next(w, e))
  {
    var w' := Next(w, e);
    StepCopy(w, e);
    StepPlace(w, e);
    AckersGrow(w, e, e.env.me);
    FactsGrow(FactsAfter(w, e), FactsOf(w', e.env.me), w'.nodes[e.env.me]);
    forall k | k in w'.nodes ensures NodeOk(w', k) {
      if k != e.env.me { StepElsewhere(w, e, k); }
    }
    StepEnded(w, e);
  }

  // -------------------------------------------------------------------- whole runs

  lemma {:induction false} InitInv(w: World)
    requires Init(w)
    ensures Inv(w)
  {
    forall n | n in w.nodes ensures NodeOk(w, n) {
      var c := w.nodes[n];
      forall u ensures LogAt(c, u) {}
    }
  }

  lemma {:induction false} RunInv(w: World, evs: seq<Event>)
    requires Inv(w) && CanRun(w, evs)
    ensures Inv(Run(w, evs))
    decreases |evs|
  {
    if evs != [] {
      StepInv(w, evs[0]);
      RunInv(Next(w, evs[0]), evs[1..]);
    }
  }

  /** Some run from the start leads to w. */
  ghost predicate Reachable(w: World)
  {
    exists w0, evs :: Init(w0) && CanRun(w0, evs) && Run(w0, evs) == w
  }

  lemma {:induction false} ReachableInv(w: World)
    requires Reachable(w)
    ensures Inv(w)
  {
    var w0, evs :| Init(w0) && CanRun(w0, evs) && Run(w0, evs) == w;
    InitInv(w0);
    RunInv(w0, evs);
  }

  /** In every run, an acknowledged copy that began listed counts only its own node and
      nodes that sent it a GOTACK, all of them among its receivers. */
  lemma {:induction false} ConfirmationsAreAcks(w: World, n: NodeId)
    requires Reachable(w) && n in w.nodes && n in w.hist.listed && IsAcked(w.nodes[n])
    ensures var j := w.nodes[n].job.value;
            && n in j.nodesDelivered
            && (j.nodesConfirmed.Some? ==>
              && j.nodesConfirmed.value <= j.nodesDelivered
              && (forall m :: m in j.nodesConfirmed.value && m != n ==> SentGotAck(w, m, n))
              && (|j.nodesConfirmed.value| == |j.nodesDelivered| <==> j.nodesConfirmed.value == j.nodesDelivered))
  {
    ReachableInv(w);
    assert NodeOk(w, n);
    var j := w.nodes[n].job.value;
    if j.nodesConfirmed.Some? {
      forall m | m in j.nodesConfirmed.value && m != n ensures SentGotAck(w, m, n) {
        assert m in j.nodesConfirmed.value - {n};
        assert m in Ackers(w, n);
      }
      if |j.nodesConfirmed.value| == |j.nodesDelivered| { SameSize(j.nodesConfirmed.value, j.nodesDelivered); }
    }
  }

  /** The steps that garbage collect: a GOTACK or SETACK, an ACKJOB, the job timer
      before the job expires. */
  predicate Collects(w: World, e: Event)
    requires Enabled(w, e)
  {
    var c := w.nodes[e.env.me];
    && c.job.Some?
    && match e.cause
       case Msg(_, m, _) => m.GotAck? || m.SetAck?
       case Own(a) => a.DoAckJob? || (a.DoProcess? && c.job.value.etime > e.env.unixtime)
  }

  /** In every run, garbage collection removes a copy that began listed only after
      every other node it lists has sent it a GOTACK. */
  lemma {:induction false} CollectsWhenAllAcked(w: World, e: Event, m: NodeId)
    requires Reachable(w) && Enabled(w, e) && Collects(w, e) && e.env.me in w.hist.listed
    requires Next(w, e).nodes[e.env.me].job.None?
    requires m in w.nodes[e.env.me].job.value.nodesDelivered && m != e.env.me
    ensures SentGotAck(w, m, e.env.me)
  {
    ReachableInv(w);
    var n := e.env.me;
    var c, f := w.nodes[n], FactsOf(w, n);
    assert NodeOk(w, n);
    StepReady(w, e);
    match e.cause {
      case Msg(sender, msg, target) =>
        if msg.GotAck? {
          GotAckKeeps(e.env, c, sender, msg.known, f);
        } else {
          SetAckKeeps(e.env, c, sender, msg.mayhave, target, f);
        }
      case Own(a) =>
        if a.DoAckJob? { AckJobKeeps(e.env, c, a.minutes, f); } else { ProcessKeeps(e.env, c, f); }
    }
    assert m in c.job.value.nodesDelivered - {n};
    assert m in Ackers(w, n);
  }

  /** In every run, a copy once acknowledged is never active or queued until removed. */
  lemma {:induction false} AckedUntilRemoved(w: World, e: Event, n: NodeId)
    requires Reachable(w) && Enabled(w, e) && n in w.nodes && IsAcked(w.nodes[n])
    ensures Next(w, e).nodes[n].job.None? || IsAcked(Next(w, e).nodes[n])
  {
    ReachableInv(w);
    if n == e.env.me && !ByRepl(e.cause) { StepCopy(w, e); }
  }

  lemma {:induction false} EndBroadcasts(env: Env, c: Ctx, sender: NodeId, known: bool)
    requires c.job.Some? && env.me in c.job.value.nodesDelivered && GotAckReceived(env, c, sender, known).job.None?
    ensures GotAckReceived(env, c, sender, known).out
            == c.out + ToAll(env.me, c.id, Counted(c.job.value, sender, known).nodesDelivered, DelJob)
  {
  }

  /** In every run, the pairs recorded as ended are exactly the sender and receivers of
      the DELJOBs of the steps that end the garbage collection of a listed copy. */
  lemma {:induction false} EndedAreDelJobs(w: World, e: Event)
    requires Reachable(w) && Enabled(w, e) && ByGotAck(e.cause) && e.env.me in w.hist.listed
    requires Next(w, e).nodes[e.env.me].job.None?
    ensures var (n, c, to) := (e.env.me, w.nodes[e.env.me], EndReceivers(e.env.me, w.nodes[e.env.me], e.cause));
            && Next(w, e).nodes[n].out == c.out + (set m | m in to :: Packet(n, m, w.id, DelJob))
            && Next(w, e).hist.ended == w.hist.ended + (set m | m in to :: (n, m))
  {
    ReachableInv(w);
    assert NodeOk(w, e.env.me);
    EndBroadcasts(e.env, w.nodes[e.env.me], e.cause.sender, e.cause.msg.known);
  }

  /** In every run, a DELJOB that ends the garbage collection of a listed copy finds
      no copy to delete but an acknowledged one, at every receiver that handled no
      REPLJOB after its first GOTACK. */
  lemma {:induction false} EndDeletesAcked(w: World, n: NodeId, m: NodeId)
    requires Reachable(w) && (n, m) in w.hist.ended && m !in w.hist.stale
    ensures m in w.nodes && (w.nodes[m].job.None? || IsAcked(w.nodes[m]))
  {
    ReachableInv(w);
    assert SentGotAck(w, m, n);
    assert NodeOk(w, m);
    assert SentAnyGotAck(w.nodes[m]);
  }

  /** In every run, when a client blocked in ADDJOB gets its job ID, either a node that
      held the job acknowledged sent a SETACK, or as many distinct nodes as the client
      asked for have the job: each registered it, or held it acknowledged when it was
      asked to register it; its own node is counted only if it keeps a copy. */
  lemma {:induction false} AnswerMeansReplicated(w: World, e: Event) returns (copies: set<NodeId>)
    requires Reachable(w) && Enabled(w, e)
    requires var (c, c') := (w.nodes[e.env.me], Next(w, e).nodes[e.env.me]);
             |c.replies| <= |c'.replies| && Answered in c'.replies[|c.replies|..]
    ensures e.cause.Msg?
    ensures var c := w.nodes[e.env.me];
            || (e.cause.msg.SetAck? && e.cause.sender in w.hist.heldAcked)
            || (&& c.job.Some? && |copies| == c.job.value.repl && copies <= w.hist.registered + w.hist.heldAcked
                && (e.env.me in copies ==> e.env.me in c.job.value.nodesDelivered))
  {
    ReachableInv(w);
    var n := e.env.me;
    assert NodeOk(w, n);
    StepReady(w, e);
    AnswersOnly(w, e);
    copies := WithSender(w.nodes[n].job.value, e.cause.sender);
  }

  lemma {:induction false} AnsweredOnly(env: Env, c: Ctx, c': Ctx, origin: bool, answers: bool)
    requires Only(env, c, c', MaySend(c', origin, answers)) && Answered in c'.replies[|c.replies|..]
    ensures answers
  {
  }

  lemma {:induction false} AnswersOnly(w: World, e: Event)
    requires Inv(w) && Enabled(w, e)
    requires var (c, c') := (w.nodes[e.env.me], Next(w, e).nodes[e.env.me]);
             |c.replies| <= |c'.replies| && Answered in c'.replies[|c.replies|..]
    ensures e.cause.Msg? && Answers(w.nodes[e.env.me], e.cause.sender, e.cause.msg)
  {
    var c, c' := w.nodes[e.env.me], Next(w, e).nodes[e.env.me];
    StepWire(w, e);
    AnsweredOnly(e.env, c, c', Adds(e.cause) || Originates(c),
      e.cause.Msg? && Answers(c, e.cause.sender, e.cause.msg));
  }

  /** In every run, replaying what a node logged about the job at any time u leaves the
      job exactly when the node has it active or queued and unexpired. */
  lemma {:induction false} LogFollowsCopy(w: World, n: NodeId, u: nat)
    requires Reachable(w) && n in w.nodes
    ensures Loaded(w.nodes[n].log, w.id, u) ==
            if IsLive(w.nodes[n]) && w.nodes[n].job.value.etime > u then Some(w.nodes[n].job.value.etime) else None
  {
    ReachableInv(w);
    assert NodeOk(w, n);
    assert LogAt(w.nodes[n], u);
  }
}
