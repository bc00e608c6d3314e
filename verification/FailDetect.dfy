/** How the nodes of a cluster decide that one of them is failing (src/cluster.c): each
    may suspect it alone (PFAIL), tells the others, and calls it failing (FAIL) when
    enough others suspect it too.  Nodes are judged independently, so this follows the
    judgement of one target.
 */
module FailDetect {
  import opened Options

  type NodeId = nat

  /** clusterNodeFailReport */
  datatype Report = Report(node: NodeId, time: int)

  /** What a node holds about the target. */
  datatype View = View(pfail: bool, fail: bool, reports: seq<Report>)

  // ------------------------------------------------------------------ failure reports

  function Find(l: seq<Report>, sender: NodeId): (i: nat)
    ensures i <= |l| && (i < |l| ==> l[i].node == sender)
    ensures forall k :: 0 <= k < i ==> l[k].node != sender
  {
    if l == [] then 0 else if l[0].node == sender then 0 else 1 + Find(l[1..], sender)
  }

  /** clusterNodeAddFailureReport */
  function AddReport(l: seq<Report>, sender: NodeId, now: int): seq<Report>
  {
    var i := Find(l, sender);
    if i < |l| then l[i := Report(sender, now)] else l + [Report(sender, now)]
  }

  /** clusterNodeCleanupFailureReports */
  function Cleanup(l: seq<Report>, now: int, maxtime: int): seq<Report>
  {
    if l == [] then []
    else if now - l[0].time > maxtime then Cleanup(l[1..], now, maxtime)
    else [l[0]] + Cleanup(l[1..], now, maxtime)
  }

  /** clusterNodeDelFailureReport */
  function DelReport(l: seq<Report>, sender: NodeId, now: int, maxtime: int): seq<Report>
  {
    var i := Find(l, sender);
    if i < |l| then Cleanup(l[..i] + l[i + 1..], now, maxtime) else l
  }

  function Reporters(l: seq<Report>): set<NodeId> { set i | 0 <= i < |l| :: l[i].node }

  predicate Distinct(l: seq<Report>) { forall i, k :: 0 <= i < k < |l| ==> l[i].node != l[k].node }

  predicate Recent(l: seq<Report>, now: int, maxtime: int) { forall i :: 0 <= i < |l| ==> now - l[i].time <= maxtime }

  /** One report for each sender: as many reports as nodes that sent one. */
  lemma {:induction false} DistinctCount(l: seq<Report>)
    requires Distinct(l)
    ensures |Reporters(l)| == |l|
    decreases |l|
  {
    if l == [] {
      assert Reporters(l) == {};
    } else {
      var init, last := l[..|l| - 1], l[|l| - 1];
      DistinctCount(init);
      assert forall i :: 0 <= i < |init| ==> init[i] == l[i];
      assert Reporters(l) == Reporters(init) + {last.node};
      assert last.node !in Reporters(init);
    }
  }

  lemma {:induction false} AddReportKeeps(l: seq<Report>, sender: NodeId, now: int)
    requires Distinct(l)
    ensures Distinct(AddReport(l, sender, now))
    ensures Reporters(AddReport(l, sender, now)) == Reporters(l) + {sender}
    ensures forall r :: r in AddReport(l, sender, now) <==> r == Report(sender, now) || (r in l && r.node != sender)
  {
    AddReportExact(l, sender, now);
    var i, r := Find(l, sender), AddReport(l, sender, now);
    if i < |l| {
      assert forall k :: 0 <= k < |l| ==> r[k].node == l[k].node;
      assert Reporters(r) == Reporters(l);
      assert l[i].node in Reporters(l);
    } else {
      assert forall k :: 0 <= k < |l| ==> r[k] == l[k];
      assert r[|l|].node == sender;
      assert Reporters(r) == Reporters(l) + {sender};
    }
  }

  /** The report of the sender is new, and the others are as they were. */
  lemma {:induction false} AddReportExact(l: seq<Report>, sender: NodeId, now: int)
    requires Distinct(l)
    ensures forall r :: r in AddReport(l, sender, now) <==> r == Report(sender, now) || (r in l && r.node != sender)
  {
    var i, a := Find(l, sender), AddReport(l, sender, now);
    if i < |l| {
      forall r ensures r in a <==> r == Report(sender, now) || (r in l && r.node != sender) {
        if r in l && r.node != sender {
          var k :| 0 <= k < |l| && l[k] == r;
          assert a[k] == r;
        }
        assert a[i] == Report(sender, now);
      }
    }
  }

  lemma {:induction false} CleanupKeeps(l: seq<Report>, now: int, maxtime: int)
    requires Distinct(l)
    ensures Distinct(Cleanup(l, now, maxtime)) && Recent(Cleanup(l, now, maxtime), now, maxtime)
    ensures Reporters(Cleanup(l, now, maxtime)) <= Reporters(l)
    ensures forall r :: r in Cleanup(l, now, maxtime) <==> r in l && now - r.time <= maxtime
    decreases |l|
  {
    if l != [] {
      CleanupKeeps(l[1..], now, maxtime);
      var c := Cleanup(l[1..], now, maxtime);
      TailReporters(l);
      if now - l[0].time <= maxtime {
        var r := [l[0]] + c;
        forall k | 1 <= k < |r| ensures r[k].node != l[0].node && r[k].node in Reporters(l) {
          assert r[k] == c[k - 1];
          assert c[k - 1].node in Reporters(c);
        }
      }
    }
  }

  lemma {:induction false} TailReporters(l: seq<Report>)
    requires l != []
    ensures Reporters(l[1..]) <= Reporters(l)
    ensures Distinct(l) ==> l[0].node !in Reporters(l[1..])
  {
    forall n | n in Reporters(l[1..]) ensures n in Reporters(l) {
      var i :| 0 <= i < |l[1..]| && l[1..][i].node == n;
      assert l[i + 1].node == n;
    }
  }

  lemma {:induction false} RemovedAt(l: seq<Report>, i: nat)
    requires Distinct(l) && i < |l|
    ensures var r := l[..i] + l[i + 1..];
            Distinct(r) && forall x :: x in r <==> x in l && x.node != l[i].node
  {
    var r := l[..i] + l[i + 1..];
    assert forall k :: 0 <= k < |r| ==> r[k] == l[if k < i then k else k + 1];
    forall x ensures x in r <==> x in l && x.node != l[i].node {
      if x in l && x.node != l[i].node {
        var k :| 0 <= k < |l| && l[k] == x;
        assert r[if k < i then k else k - 1] == x;
      }
    }
  }

  lemma {:induction false} ReporterOf(l: seq<Report>, n: NodeId)
    ensures n in Reporters(l) <==> Find(l, n) < |l|
    ensures n in Reporters(l) <==> exists r :: r in l && r.node == n
  {
    if n in Reporters(l) {
      var i :| 0 <= i < |l| && l[i].node == n;
      assert l[i] in l;
    }
  }

  /** What is left is recent, and not of the sender; without a report of the sender
      nothing is touched. */
  lemma {:induction false} DelReportExact(l: seq<Report>, sender: NodeId, now: int, maxtime: int)
    requires Distinct(l)
    ensures Distinct(DelReport(l, sender, now, maxtime))
    ensures forall r :: r in DelReport(l, sender, now, maxtime) <==>
              r in l && r.node != sender && (sender in Reporters(l) ==> now - r.time <= maxtime)
  {
    ReporterOf(l, sender);
    var i := Find(l, sender);
    if i < |l| {
      RemovedAt(l, i);
      CleanupKeeps(l[..i] + l[i + 1..], now, maxtime);
    }
  }

  lemma {:induction false} DelReportKeeps(l: seq<Report>, sender: NodeId, now: int, maxtime: int)
    requires Distinct(l)
    ensures Distinct(DelReport(l, sender, now, maxtime))
    ensures Reporters(DelReport(l, sender, now, maxtime)) <= Reporters(l) - {sender}
  {
    var d := DelReport(l, sender, now, maxtime);
    DelReportExact(l, sender, now, maxtime);
    forall n | n in Reporters(d) ensures n in Reporters(l) - {sender} {
      ReporterOf(d, n);
      ReporterOf(l, n);
    }
  }

  // ------------------------------------------------------------------------ judgements

  /** markNodeAsFailingIfNeeded */
  function Mark(v: View, now: int, maxtime: int, size: nat): View
  {
    if !v.pfail || v.fail then v
    else
      var l := Cleanup(v.reports, now, maxtime);
      if |l| + 1 < size / 2 + 1 then v.(reports := l) else View(false, true, l)
  }

  /** The nodes whose report has not expired. */
  function Accusers(l: seq<Report>, now: int, maxtime: int): set<NodeId>
  {
    set r | r in l && now - r.time <= maxtime :: r.node
  }

  /** The target is called failing exactly when this node suspects it and the nodes
      whose reports have not expired are, with this one, more than half the cluster. */
  lemma {:induction false} MarksOnQuorum(v: View, now: int, maxtime: int, size: nat)
    requires Distinct(v.reports) && !(v.pfail && v.fail)
    ensures var v' := Mark(v, now, maxtime, size);
            && (v'.fail <==> v.fail || (v.pfail && |Accusers(v.reports, now, maxtime)| + 1 >= size / 2 + 1))
            && (v'.pfail <==> v.pfail && !v'.fail)
            && if v.pfail && !v.fail then forall r :: r in v'.reports <==> r in v.reports && now - r.time <= maxtime
               else v'.reports == v.reports
  {
    var l := Cleanup(v.reports, now, maxtime);
    CleanupKeeps(v.reports, now, maxtime);
    DistinctCount(l);
    assert Reporters(l) == Accusers(v.reports, now, maxtime) by {
      forall n | n in Accusers(v.reports, now, maxtime) ensures n in Reporters(l) {
        var r :| r in v.reports && now - r.time <= maxtime && r.node == n;
        assert r in l;
      }
    }
  }

  /** A gossip entry of sender about the target. */
  function Gossip(v: View, sender: NodeId, flagged: bool, now: int, maxtime: int, size: nat): View
  {
    if flagged then Mark(v.(reports := AddReport(v.reports, sender, now)), now, maxtime, size)
    else v.(reports := DelReport(v.reports, sender, now, maxtime))
  }

  /** With a report of just now, the sender is among the accusers. */
  lemma {:induction false} AccusersAdded(l: seq<Report>, sender: NodeId, now: int, maxtime: int)
    requires Distinct(l) && maxtime >= 0
    ensures Accusers(AddReport(l, sender, now), now, maxtime) == Accusers(l, now, maxtime) + {sender}
  {
    var a := AddReport(l, sender, now);
    AddReportKeeps(l, sender, now);
    assert Report(sender, now) in a;
    forall n | n in Accusers(l, now, maxtime) ensures n in Accusers(a, now, maxtime) {
      var r :| r in l && now - r.time <= maxtime && r.node == n;
      if n != sender { assert r in a; }
    }
  }

  /** After a gossip entry the sender has a report exactly if the entry was flagged. */
  lemma {:induction false} GossipReports(v: View, sender: NodeId, flagged: bool, now: int, maxtime: int, size: nat)
    requires Distinct(v.reports) && maxtime >= 0
    ensures var v' := Gossip(v, sender, flagged, now, maxtime, size);
            Distinct(v'.reports) && (flagged <==> sender in Reporters(v'.reports))
    ensures Accusers(AddReport(v.reports, sender, now), now, maxtime) == Accusers(v.reports, now, maxtime) + {sender}
    ensures Distinct(AddReport(v.reports, sender, now))
  {
    var l := AddReport(v.reports, sender, now);
    AccusersAdded(v.reports, sender, now, maxtime);
    AddReportKeeps(v.reports, sender, now);
    CleanupKeeps(l, now, maxtime);
    DelReportKeeps(v.reports, sender, now, maxtime);
    ReporterOf(l, sender);
    var c := Cleanup(l, now, maxtime);
    assert Report(sender, now) in c;
    ReporterOf(c, sender);
  }

  /** clusterCron, when a ping is not answered in time */
  function TimedOut(v: View): View { if v.pfail || v.fail then v else v.(pfail := true) }

  /** A PONG of the target, with clearNodeFailureIfNeeded */
  function Pong(v: View): View { if v.pfail then v.(pfail := false) else v.(fail := false) }

  /** A FAIL message about the target */
  function FailMessage(v: View): View { if v.fail then v else v.(fail := true, pfail := false) }

  // ------------------------------------------------------------------------ the cluster

  /** A node found a quorum: it suspected the target, and had recent reports. */
  datatype Verdict = Verdict(node: NodeId, pfail: bool, reports: seq<Report>, now: int, maxtime: int, size: nat)

  /** A FAIL message names the verdict it tells. */
  datatype Packet = GossipFrom(src: NodeId, flagged: bool) | FailFrom(src: NodeId, verdict: Verdict)

  /** views: what every node but the target holds.  net: every packet ever sent.
      suspected: the nodes that ever suspected the target.  verdicts: every quorum found.
      causes: for every node whose FAIL flag is set, the verdict it was set for. */
  datatype World = World(
    views: map<NodeId, View>, net: set<Packet>, suspected: set<NodeId>, verdicts: set<Verdict>,
    causes: map<NodeId, Verdict>)

  datatype What = Ping | Answer | Tell | Receive(p: Packet, maxtime: int, size: nat)

  datatype Event = Event(node: NodeId, what: What, now: int)

  predicate Enabled(w: World, e: Event)
  {
    e.node in w.views && (e.what.Receive? ==> e.what.p in w.net && e.what.p.src != e.node)
  }

  function After(v: View, e: Event): View
  {
    match e.what
    case Ping => TimedOut(v)
    case Answer => Pong(v)
    case Tell => v
    case Receive(p, maxtime, size) =>
      match p
      case GossipFrom(src, flagged) => Gossip(v, src, flagged, e.now, maxtime, size)
      case FailFrom(src, verdict) => FailMessage(v)
  }

  /** The node finds a quorum in this event. */
  predicate Decides(v: View, e: Event) { e.what.Receive? && e.what.p.GossipFrom? && !v.fail && After(v, e).fail }

  function Sent(v: View, e: Event): set<Packet>
  {
    if e.what.Tell? then {GossipFrom(e.node, v.pfail || v.fail)}
    else if Decides(v, e) then {FailFrom(e.node, VerdictOf(v, e))}
    else {}
  }

  function VerdictOf(v: View, e: Event): Verdict
    requires e.what.Receive?
  {
    Verdict(e.node, v.pfail, After(v, e).reports, e.now, e.what.maxtime, e.what.size)
  }

  /** The verdict an event may set the flag for: the node's own, or that of a message. */
  function CauseOf(v: View, e: Event): Option<Verdict>
  {
    if Decides(v, e) then Some(VerdictOf(v, e))
    else if e.what.Receive? && e.what.p.FailFrom? then Some(e.what.p.verdict)
    else None
  }

  /** A cause is noted when the flag is set, and forgotten when it is cleared. */
  function Noted(causes: map<NodeId, Verdict>, v: View, e: Event): map<NodeId, Verdict>
  {
    if After(v, e).fail && v.fail then causes
    else if After(v, e).fail && CauseOf(v, e).Some? then causes[e.node := CauseOf(v, e).value]
    else causes - {e.node}
  }

  function Next(w: World, e: Event): World
    requires Enabled(w, e)
  {
    var v := w.views[e.node];
    var v' := After(v, e);
    World(w.views[e.node := v'], w.net + Sent(v, e),
          if v'.pfail || v'.fail then w.suspected + {e.node} else w.suspected,
          if Decides(v, e) then w.verdicts + {VerdictOf(v, e)} else w.verdicts,
          Noted(w.causes, v, e))
  }

  /** A verdict is sound: the node suspected the target itself, and at least half the
      cluster, other nodes all of them, had told it recently that they did. */
  predicate Sound(v: Verdict, suspected: set<NodeId>)
  {
    && v.pfail
    && Distinct(v.reports) && |Reporters(v.reports)| == |v.reports| && |v.reports| >= v.size / 2
    && v.node !in Reporters(v.reports)
    && Recent(v.reports, v.now, v.maxtime)
    && Reporters(v.reports) <= suspected
  }

  predicate ViewOk(w: World, n: NodeId)
    requires n in w.views
  {
    var v := w.views[n];
    && !(v.pfail && v.fail)
    && Distinct(v.reports) && n !in Reporters(v.reports) && Reporters(v.reports) <= w.suspected
    && ((v.pfail || v.fail) ==> n in w.suspected)
    && (v.fail ==> n in w.causes && Founded(w, n, w.causes[n]))
  }

  /** The cause of the flag of node n: a sound verdict, its own or told by the node that
      found it. */
  predicate Founded(w: World, n: NodeId, d: Verdict)
  {
    && d in w.verdicts && Sound(d, w.suspected)
    && (d.node == n || FailFrom(d.node, d) in w.net)
  }

  predicate PacketOk(w: World, p: Packet)
  {
    match p
    case GossipFrom(src, flagged) => flagged ==> src in w.suspected
    case FailFrom(src, d) => d in w.verdicts && d.node == src
  }

  predicate Inv(w: World)
  {
    && (forall n :: n in w.views ==> ViewOk(w, n))
    && (forall p :: p in w.net ==> PacketOk(w, p))
    && (forall d :: d in w.verdicts ==> Sound(d, w.suspected) && FailFrom(d.node, d) in w.net)
  }

  /** What a gossip entry does, in terms of what must be kept. */
  lemma {:induction false} GossipKeeps(v: View, me: NodeId, sender: NodeId, flagged: bool, now: int, maxtime: int,
      size: nat, suspected: set<NodeId>)
    requires !(v.pfail && v.fail) && Distinct(v.reports) && me !in Reporters(v.reports)
             && Reporters(v.reports) <= suspected
    requires sender != me && (flagged ==> sender in suspected)
    ensures var v' := Gossip(v, sender, flagged, now, maxtime, size);
            && !(v'.pfail && v'.fail) && Distinct(v'.reports) && me !in Reporters(v'.reports)
              && Reporters(v'.reports) <= suspected
            && (v'.pfail ==> v.pfail)
            && (v'.fail && !v.fail ==>
              Sound(Verdict(me, v.pfail, v'.reports, now, maxtime, size), suspected))
  {
    if flagged {
      var l := AddReport(v.reports, sender, now);
      AddReportKeeps(v.reports, sender, now);
      CleanupKeeps(l, now, maxtime);
      DistinctCount(Cleanup(l, now, maxtime));
    } else {
      DelReportKeeps(v.reports, sender, now, maxtime);
    }
  }

  /** More is known afterwards, and nothing less. */
  lemma {:induction false} StillFounded(w: World, e: Event, n: NodeId, d: Verdict)
    requires Enabled(w, e) && Founded(w, n, d)
    ensures Founded(Next(w, e), n, d)
  {
  }

  /** Whenever the flag of a node is set, it has found a quorum itself, or has a message
      from a node that did. */
  lemma {:induction false} FlagIsSet(w: World, e: Event)
    requires Inv(w) && Enabled(w, e) && !w.views[e.node].fail && Next(w, e).views[e.node].fail
    ensures var v := w.views[e.node];
            || (Decides(v, e) && Sound(VerdictOf(v, e), w.suspected))
            || (&& e.what.Receive? && e.what.p.FailFrom? && e.what.p.verdict in w.verdicts
                && e.what.p.verdict.node == e.what.p.src && Sound(e.what.p.verdict, w.suspected))
    ensures Founded(Next(w, e), e.node, Next(w, e).causes[e.node])
  {
    var v := w.views[e.node];
    assert ViewOk(w, e.node);
    assert PacketOk(w, e.what.p);
    if e.what.p.GossipFrom? {
      GossipKeeps(v, e.node, e.what.p.src, e.what.p.flagged, e.now, e.what.maxtime, e.what.size, w.suspected);
    }
  }

  /** The view of the node that takes a step. */
  lemma {:induction false} StepView(w: World, e: Event)
    requires Inv(w) && Enabled(w, e)
    ensures ViewOk(Next(w, e), e.node)
    ensures Decides(w.views[e.node], e) ==> Sound(VerdictOf(w.views[e.node], e), w.suspected)
  {
    var v := w.views[e.node];
    assert ViewOk(w, e.node);
    if v.fail {
      StillFounded(w, e, e.node, w.causes[e.node]);
    } else if After(v, e).fail {
      FlagIsSet(w, e);
    }
    if e.what.Receive? {
      assert PacketOk(w, e.what.p);
      if e.what.p.GossipFrom? {
        GossipKeeps(v, e.node, e.what.p.src, e.what.p.flagged, e.now, e.what.maxtime, e.what.size, w.suspected);
      }
    }
  }

  lemma {:induction false} StepInv(w: World, e: Event)
    requires Inv(w) && Enabled(w, e)
    ensures Inv(Next(w, e))
  {
    var w' := Next(w, e);
    StepView(w, e);
    forall n | n in w'.views ensures ViewOk(w', n) {
      if n != e.node {
        assert ViewOk(w, n);
        if w.views[n].fail { StillFounded(w, e, n, w.causes[n]); }
      }
    }
    forall p | p in w'.net ensures PacketOk(w', p) {
      if p in w.net {
        assert PacketOk(w, p);
      } else {
        assert ViewOk(w, e.node);
      }
    }
    forall d | d in w'.verdicts ensures Sound(d, w'.suspected) && FailFrom(d.node, d) in w'.net {
      if d in w.verdicts { assert Sound(d, w.suspected); }
    }
  }

  predicate CanRun(w: World, evs: seq<Event>)
    decreases |evs|
  {
    evs == [] || (Enabled(w, evs[0]) && CanRun(Next(w, evs[0]), evs[1..]))
  }

  function Run(w: World, evs: seq<Event>): World
    requires CanRun(w, evs)
    decreases |evs|
  {
    if evs == [] then w else Run(Next(w, evs[0]), evs[1..])
  }

  /** Nobody is called failing, nothing was sent and reported. */
  predicate Init(w: World)
  {
    && (forall n :: n in w.views ==> w.views[n] == View(false, false, []))
    && w.net == {} && w.suspected == {} && w.verdicts == {} && w.causes == map[]
  }

  lemma {:induction false} RunInv(w: World, evs: seq<Event>)
    requires Inv(w) && CanRun(w, evs)
    ensures Inv(Run(w, evs))
    decreases |evs|
  {
    if evs != [] {
      StepInv(w, evs[0]);
      RunInv(Next(w, evs[0]), evs[1..]);
    }
  }

  /** In every run, with packets lost, duplicated and reordered, every time a node sets
      its FAIL flag it has found a quorum, or handles the FAIL of a node that found one. */
  lemma {:induction false} FailTurnsOn(w0: World, evs: seq<Event>, e: Event)
    requires Init(w0) && CanRun(w0, evs) && Enabled(Run(w0, evs), e)
    requires !Run(w0, evs).views[e.node].fail && Next(Run(w0, evs), e).views[e.node].fail
    ensures var w := Run(w0, evs);
            var v := w.views[e.node];
            || (Decides(v, e) && Sound(VerdictOf(v, e), w.suspected))
            || (&& e.what.Receive? && e.what.p.FailFrom? && e.what.p.verdict in w.verdicts
                && e.what.p.verdict.node == e.what.p.src && Sound(e.what.p.verdict, w.suspected))
  {
    RunInv(w0, evs);
    FlagIsSet(Run(w0, evs), e);
  }

  /** In every run PFAIL and FAIL are never both set, and every set FAIL flag has its own
      cause: a node, this one or the sender of a FAIL message, that suspected the target
      itself and had recent reports from at least half as many other nodes as the
      cluster has, each of which suspected it too. */
  lemma {:induction false} FailIsFounded(w0: World, evs: seq<Event>, n: NodeId)
    requires Init(w0) && CanRun(w0, evs) && n in Run(w0, evs).views
    ensures var w := Run(w0, evs);
            && !(w.views[n].pfail && w.views[n].fail)
            && (w.views[n].fail ==> n in w.causes && Founded(w, n, w.causes[n]))
  {
    RunInv(w0, evs);
    assert ViewOk(Run(w0, evs), n);
  }

  // ------------------------------------------------------- from the cause to the flag

  /** What the event of a node does to its two flags and its reports about the target,
      and which packets it sends. */
  ghost predicate Exactly(v: View, v': View, sent: set<Packet>, e: Event)
  {
    match e.what
    case Ping => v'.pfail == !v.fail && v'.fail == v.fail && v'.reports == v.reports && sent == {}
    case Answer => !v'.pfail && !v'.fail && v'.reports == v.reports && sent == {}
    case Tell => v' == v && sent == {GossipFrom(e.node, v.pfail || v.fail)}
    case Receive(p, maxtime, size) =>
      match p
      case FailFrom(_, _) => v'.fail && !v'.pfail && v'.reports == v.reports && sent == {}
      case GossipFrom(src, flagged) =>
        var quorum := flagged && v.pfail && |Accusers(v.reports, e.now, maxtime) + {src}| + 1 >= size / 2 + 1;
        && v'.fail == (v.fail || quorum) && v'.pfail == (v.pfail && !quorum)
        && (src in Reporters(v'.reports) <==> flagged)
        && (if quorum then sent == {FailFrom(e.node, Verdict(e.node, true, v'.reports, e.now, maxtime, size))}
            else sent == {})
  }

  lemma {:induction false} GossipExactly(v: View, e: Event)
    requires Distinct(v.reports) && !(v.pfail && v.fail)
    requires e.what.Receive? && e.what.p.GossipFrom? && e.what.maxtime >= 0
    ensures Exactly(v, After(v, e), Sent(v, e), e)
  {
    var (p, maxtime, size) := (e.what.p, e.what.maxtime, e.what.size);
    GossipReports(v, p.src, p.flagged, e.now, maxtime, size);
    if p.flagged { MarksOnQuorum(v.(reports := AddReport(v.reports, p.src, e.now)), e.now, maxtime, size); }
  }

  lemma {:induction false} ExactlyAfter(v: View, e: Event)
    requires Distinct(v.reports) && !(v.pfail && v.fail) && (e.what.Receive? ==> e.what.maxtime >= 0)
    ensures Exactly(v, After(v, e), Sent(v, e), e)
  {
    if e.what.Receive? && e.what.p.GossipFrom? { GossipExactly(v, e); }
  }

  /** In every run, exactly what an event does.  An unanswered ping sets PFAIL unless FAIL
      is set, a PONG leaves no flag, a FAIL message leaves FAIL alone whatever was set, and
      a gossip entry sets FAIL, and sends it to all, exactly when it completes a quorum of
      a node that suspects the target.  What the other nodes hold stays. */
  lemma {:induction false} EventsAreExact(w0: World, evs: seq<Event>, e: Event) returns (sent: set<Packet>)
    requires Init(w0) && CanRun(w0, evs) && Enabled(Run(w0, evs), e) && (e.what.Receive? ==> e.what.maxtime >= 0)
    ensures var w := Run(w0, evs);
            var w' := Next(w, e);
            && w'.views == w.views[e.node := w'.views[e.node]] && w'.net == w.net + sent
            && Exactly(w.views[e.node], w'.views[e.node], sent, e)
  {
    RunInv(w0, evs);
    var w := Run(w0, evs);
    var v := w.views[e.node];
    assert ViewOk(w, e.node);
    ExactlyAfter(v, e);
    sent := Sent(v, e);
  }

  predicate AnswersAt(evs: seq<Event>, n: NodeId)
  {
    exists i :: 0 <= i < |evs| && evs[i].node == n && evs[i].what.Answer?
  }

  /** FAIL stays until the target answers. */
  lemma {:induction false} FailStays(w: World, evs: seq<Event>, n: NodeId)
    requires Inv(w) && CanRun(w, evs) && n in w.views && w.views[n].fail && !AnswersAt(evs, n)
    ensures n in Run(w, evs).views && Run(w, evs).views[n].fail && !Run(w, evs).views[n].pfail
    decreases |evs|
  {
    assert ViewOk(w, n);
    if evs != [] {
      var e, rest := evs[0], evs[1..];
      assert e.node == n ==> !e.what.Answer?;
      assert Next(w, e).views[n].fail;
      forall i | 0 <= i < |rest| ensures !(rest[i].node == n && rest[i].what.Answer?) {
        assert rest[i] == evs[i + 1];
      }
      StepInv(w, e);
      FailStays(Next(w, e), rest, n);
    }
  }

  /** In every run, whoever handles the FAIL message of a node that found a quorum calls
      the target failing from then on, until the target answers it. */
  lemma {:induction false} FailSpreads(w0: World, evs: seq<Event>, e: Event, later: seq<Event>)
    requires Init(w0) && CanRun(w0, evs) && Enabled(Run(w0, evs), e) && e.what.Receive? && e.what.p.FailFrom?
    requires CanRun(Next(Run(w0, evs), e), later) && !AnswersAt(later, e.node)
    ensures var w := Run(Next(Run(w0, evs), e), later);
            e.node in w.views && w.views[e.node].fail && !w.views[e.node].pfail
  {
    RunInv(w0, evs);
    StepInv(Run(w0, evs), e);
    FailStays(Next(Run(w0, evs), e), later, e.node);
  }

  /** In every run, the FAIL of every quorum that was found is there to be received, by
      every node but the one that found it. */
  lemma {:induction false} VerdictIsSent(w0: World, evs: seq<Event>, d: Verdict, n: NodeId, now: int, maxtime: int,
      size: nat)
    requires Init(w0) && CanRun(w0, evs) && d in Run(w0, evs).verdicts && n in Run(w0, evs).views && n != d.node
    ensures Enabled(Run(w0, evs), Event(n, Receive(FailFrom(d.node, d), maxtime, size), now))
  {
    RunInv(w0, evs);
  }

  // ------------------------------------------------------------------------ the object

  /** What a node keeps about another: its two flags and the reports about it. */
  class Node {
    var pfail: bool
    var fail: bool
    var failReports: seq<Report>

    ghost function Model(): View
      reads this
    {
      View(pfail, fail, failReports)
    }

    ghost predicate Valid()
      reads this
    {
      Distinct(failReports) && !(pfail && fail)
    }

    constructor ()
      ensures Valid() && Model() == View(false, false, [])
    {
      pfail, fail, failReports := false, false, [];
    }

    /** clusterNodeAddFailureReport: true when there was no report of the sender */
    method AddFailureReport(sender: NodeId, now: int) returns (added: bool)
      requires Valid()
      modifies this`failReports
      ensures Valid() && failReports == AddReport(old(failReports), sender, now)
      ensures Reporters(failReports) == Reporters(old(failReports)) + {sender}
      ensures added == (sender !in Reporters(old(failReports)))
    {
      AddReportKeeps(failReports, sender, now);
      ReporterOf(failReports, sender);
      var i := Position(sender);
      if i < |failReports| {
        failReports := failReports[i := Report(sender, now)];
        return false;
      }
      failReports := failReports + [Report(sender, now)];
      return true;
    }

    method Position(sender: NodeId) returns (i: nat)
      ensures i == Find(failReports, sender)
    {
      i := 0;
      while i < |failReports| && failReports[i].node != sender
        invariant i <= |failReports| && Find(failReports, sender) == i + Find(failReports[i..], sender)
      {
        assert failReports[i..][1..] == failReports[i + 1..];
        i := i + 1;
      }
    }

    /** clusterNodeCleanupFailureReports */
    method CleanupFailureReports(now: int, maxtime: int)
      requires Valid()
      modifies this`failReports
      ensures Valid() && failReports == Cleanup(old(failReports), now, maxtime)
      ensures forall r :: r in failReports <==> r in old(failReports) && now - r.time <= maxtime
    {
      CleanupKeeps(failReports, now, maxtime);
      var l, kept := failReports, [];
      while l != []
        invariant kept + Cleanup(l, now, maxtime) == Cleanup(old(failReports), now, maxtime)
        decreases |l|
      {
        if now - l[0].time <= maxtime { kept := kept + [l[0]]; }
        l := l[1..];
      }
      assert kept + [] == kept;
      failReports := kept;
    }

    /** clusterNodeDelFailureReport */
    method DelFailureReport(sender: NodeId, now: int, maxtime: int) returns (found: bool)
      requires Valid()
      modifies this`failReports
      ensures Valid() && failReports == DelReport(old(failReports), sender, now, maxtime)
      ensures Reporters(failReports) <= Reporters(old(failReports)) - {sender}
      ensures found == (sender in Reporters(old(failReports)))
    {
      var i := Position(sender);
      ReporterOf(failReports, sender);
      DelReportKeeps(failReports, sender, now, maxtime);
      if i == |failReports| { return false; }
      RemovedAt(failReports, i);
      failReports := failReports[..i] + failReports[i + 1..];
      CleanupFailureReports(now, maxtime);
      return true;
    }

    /** markNodeAsFailingIfNeeded: true when the node is found failing, which is then
        broadcast */
    method MarkAsFailingIfNeeded(now: int, maxtime: int, size: nat) returns (decided: bool)
      requires Valid()
      modifies this
      ensures Valid() && Model() == Mark(old(Model()), now, maxtime, size)
      ensures decided <==> old(pfail) && |Accusers(old(failReports), now, maxtime)| + 1 >= size / 2 + 1
      ensures fail == (old(fail) || decided) && pfail == (old(pfail) && !decided)
    {
      MarksOnQuorum(Model(), now, maxtime, size);
      var neededQuorum := size / 2 + 1;
      if !pfail { return false; }
      if fail { return false; }
      CleanupFailureReports(now, maxtime);
      var failures := |failReports|;
      failures := failures + 1;
      if failures < neededQuorum { return false; }
      pfail := false;
      fail := true;
      return true;
    }

    /** One entry of clusterProcessGossipSection, about a node that is not this one */
    method ProcessGossip(sender: NodeId, flagged: bool, now: int, maxtime: int, size: nat) returns (decided: bool)
      requires Valid() && maxtime >= 0
      modifies this
      ensures Valid() && Model() == Gossip(old(Model()), sender, flagged, now, maxtime, size)
      ensures flagged <==> sender in Reporters(failReports)
      ensures decided <==>
                flagged && old(pfail) && |Accusers(old(failReports), now, maxtime) + {sender}| + 1 >= size / 2 + 1
      ensures fail == (old(fail) || decided) && pfail == (old(pfail) && !decided)
    {
      GossipReports(Model(), sender, flagged, now, maxtime, size);
      decided := false;
      if flagged {
        var _ := AddFailureReport(sender, now);
        decided := MarkAsFailingIfNeeded(now, maxtime, size);
      } else {
        var _ := DelFailureReport(sender, now, maxtime);
      }
    }

    /** clusterCron, when a ping is not answered in time: true when that is news */
    method PingTimedOut() returns (news: bool)
      requires Valid()
      modifies this`pfail
      ensures Valid() && news == !(old(pfail) || fail) && pfail == !fail && Model() == TimedOut(old(Model()))
    {
      if pfail || fail { return false; }
      pfail := true;
      return true;
    }

    /** A PONG of the node, with clearNodeFailureIfNeeded */
    method PongReceived()
      requires Valid()
      modifies this`pfail, this`fail
      ensures Valid() && !pfail && !fail && Model() == Pong(old(Model()))
    {
      if pfail { pfail := false; } else if fail { fail := false; }
    }

    /** A FAIL message about the node */
    method FailReceived()
      requires Valid()
      modifies this`pfail, this`fail
      ensures Valid() && fail && !pfail && Model() == FailMessage(old(Model()))
    {
      if !fail {
        fail := true;
        pfail := false;
      }
    }
  }
}
