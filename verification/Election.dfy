/** Which node keeps a job queued when several have it queued: compareNodeIDsByJob of
    src/job.c and the QUEUED message of src/cluster.c.
 */
module Election {
  import opened JobSpec

  const NAME_LEN: nat := 40

  type Name = s: seq<bv8> | |s| == NAME_LEN witness seq(NAME_LEN, i => 0)

  /** The pseudo random part of a job ID: 24 bytes from offset 11 on. */
  type Salt = s: seq<bv8> | |s| == 24 witness seq(24, i => 0)

  function Mix(x: bv8, k: bv8): bv8 { x ^ k }

  lemma {:induction false} MixInjective(x: bv8, y: bv8, k: bv8)
    requires Mix(x, k) == Mix(y, k)
    ensures x == y
  {
    assert (x ^ k) ^ k == x;
    assert (y ^ k) ^ k == y;
  }

  /** The byte of the job that byte i of a name is mixed with. */
  function SaltAt(salt: Salt, i: nat): bv8 { salt[i % 24] }

  /** A name mixed with the job. */
  function Mixed(a: Name, salt: Salt): (m: Name)
    ensures forall i :: 0 <= i < NAME_LEN ==> m[i] == Mix(a[i], SaltAt(salt, i))
  {
    seq(NAME_LEN, i requires 0 <= i < NAME_LEN => Mix(a[i], SaltAt(salt, i)))
  }

  lemma {:induction false} SameByte(a: Name, b: Name, salt: Salt, i: nat)
    requires i < NAME_LEN && Mixed(a, salt)[i] == Mixed(b, salt)[i]
    ensures a[i] == b[i]
  {
    MixInjective(a[i], b[i], SaltAt(salt, i));
  }

  lemma {:induction false} MixedInjective(a: Name, b: Name, salt: Salt)
    requires Mixed(a, salt) == Mixed(b, salt)
    ensures a == b
  {
    forall i | 0 <= i < NAME_LEN ensures a[i] == b[i] { SameByte(a, b, salt, i); }
  }

  /** memcmp from position i on: a is less than b */
  predicate Less(a: Name, b: Name, i: nat)
    requires i <= NAME_LEN
    decreases |a| - i
  {
    i < NAME_LEN && (a[i] < b[i] || (a[i] == b[i] && Less(a, b, i + 1)))
  }

  lemma {:induction false} LessTotal(a: Name, b: Name, i: nat)
    requires i <= NAME_LEN && a[i..] != b[i..]
    ensures Less(a, b, i) || Less(b, a, i)
    decreases NAME_LEN - i
  {
    if i < NAME_LEN && a[i] == b[i] {
      assert a[i..] == [a[i]] + a[i + 1..] && b[i..] == [b[i]] + b[i + 1..];
      LessTotal(a, b, i + 1);
    }
  }

  lemma {:induction false} LessAsymmetric(a: Name, b: Name, i: nat)
    requires i <= NAME_LEN && Less(a, b, i)
    ensures !Less(b, a, i)
    decreases NAME_LEN - i
  {
    if a[i] == b[i] { LessAsymmetric(a, b, i + 1); }
  }

  lemma {:induction false} LessTransitive(a: Name, b: Name, c: Name, i: nat)
    requires i <= NAME_LEN && Less(a, b, i) && Less(b, c, i)
    ensures Less(a, c, i)
    decreases NAME_LEN - i
  {
    if a[i] == b[i] && b[i] == c[i] { LessTransitive(a, b, c, i + 1); }
  }

  /** compareNodeIDsByJob(a, b, job) > 0 */
  predicate Beats(a: Name, b: Name, salt: Salt) { Less(Mixed(b, salt), Mixed(a, salt), 0) }

  /** For every job, the comparison is a strict total order on distinct nodes. */
  lemma {:induction false} BeatsIsTotalOrder(a: Name, b: Name, c: Name, salt: Salt)
    ensures !Beats(a, a, salt)
    ensures !(Beats(a, b, salt) && Beats(b, a, salt))
    ensures a != b ==> Beats(a, b, salt) || Beats(b, a, salt)
    ensures Beats(a, b, salt) && Beats(b, c, salt) ==> Beats(a, c, salt)
  {
    var x, y, z := Mixed(a, salt), Mixed(b, salt), Mixed(c, salt);
    if Less(x, x, 0) { LessAsymmetric(x, x, 0); }
    if Less(x, y, 0) { LessAsymmetric(x, y, 0); }
    if a != b {
      if x == y { MixedInjective(a, b, salt); }
      assert x[0..] == x && y[0..] == y;
      LessTotal(x, y, 0);
    }
    if Less(z, y, 0) && Less(y, x, 0) { LessTransitive(z, y, x, 0); }
  }

  /** compareNodeIDsByJob */
  method CompareNodeIDsByJob(a: Name, b: Name, salt: Salt) returns (r: int)
    ensures r > 0 <==> Beats(a, b, salt)
    ensures r < 0 <==> Beats(b, a, salt)
  {
    var ida, idb := new bv8[NAME_LEN], new bv8[NAME_LEN];
    var i := 0;
    while i < NAME_LEN
      invariant 0 <= i <= NAME_LEN
      invariant forall k :: 0 <= k < i ==> ida[k] == Mixed(a, salt)[k] && idb[k] == Mixed(b, salt)[k]
    {
      ida[i] := Mix(a[i], SaltAt(salt, i));
      idb[i] := Mix(b[i], SaltAt(salt, i));
      i := i + 1;
    }
    ghost var x, y := Mixed(a, salt), Mixed(b, salt);
    var j := 0;
    while j < NAME_LEN && ida[j] == idb[j]
      invariant 0 <= j <= NAME_LEN
      invariant Less(x, y, j) == Less(x, y, 0) && Less(y, x, j) == Less(y, x, 0)
    {
      j := j + 1;
    }
    r := if j == NAME_LEN then 0 else if ida[j] < idb[j] then -1 else 1;
  }

  // --------------------------------------------------------------------- the election

  /** The names of the nodes, each its own. */
  ghost predicate Named(names: map<NodeId, Name>)
  {
    forall m, n :: m in names && n in names && m != n ==> names[m] != names[n]
  }

  function Winners(names: map<NodeId, Name>, salt: Salt, n: NodeId): set<NodeId>
    requires n in names
  {
    set m | m in names && Beats(names[m], names[n], salt)
  }

  /** A QUEUED message of sender reaches receiver. */
  datatype Delivery = Delivery(sender: NodeId, receiver: NodeId, env: Env)

  predicate DeliveryOk(names: map<NodeId, Name>, salt: Salt, d: Delivery)
  {
    d.sender in names && d.receiver in names && d.env.me == d.receiver
      && d.env.greater == Winners(names, salt, d.receiver)
  }

  predicate Holds(nodes: map<NodeId, Ctx>, n: NodeId)
  {
    n in nodes && nodes[n].job.Some? && nodes[n].job.value.state != Acked
  }

  predicate HasQueued(nodes: map<NodeId, Ctx>, n: NodeId)
  {
    n in nodes && nodes[n].job.Some? && nodes[n].job.value.state == JobState.Queued
  }

  function Deliver(nodes: map<NodeId, Ctx>, d: Delivery): map<NodeId, Ctx>
  {
    if Holds(nodes, d.receiver) then nodes[d.receiver := OnQueued(d.env, nodes[d.receiver], d.sender, false)] else nodes
  }

  function DeliverAll(nodes: map<NodeId, Ctx>, ds: seq<Delivery>): map<NodeId, Ctx>
    decreases |ds|
  {
    if ds == [] then nodes else DeliverAll(Deliver(nodes, ds[0]), ds[1..])
  }

  /** A node drops the job exactly when the message is from a node that beats it. */
  lemma {:induction false} DeliverOne(names: map<NodeId, Name>, salt: Salt, nodes: map<NodeId, Ctx>, d: Delivery,
      n: NodeId)
    requires DeliveryOk(names, salt, d) && n in names && Holds(nodes, n)
    ensures Holds(Deliver(nodes, d), n)
    ensures HasQueued(Deliver(nodes, d), n) <==>
            HasQueued(nodes, n) && !(d.receiver == n && Beats(names[d.sender], names[n], salt))
  {
  }

  predicate BeatenIn(names: map<NodeId, Name>, salt: Salt, ds: seq<Delivery>, n: NodeId)
    requires n in names
  {
    exists i :: 0 <= i < |ds| && ds[i].receiver == n && ds[i].sender in names
      && Beats(names[ds[i].sender], names[n], salt)
  }

  lemma {:induction false} DeliverMany(names: map<NodeId, Name>, salt: Salt, nodes: map<NodeId, Ctx>, ds: seq<Delivery>,
      n: NodeId)
    requires (forall i :: 0 <= i < |ds| ==> DeliveryOk(names, salt, ds[i])) && n in names && Holds(nodes, n)
    ensures HasQueued(DeliverAll(nodes, ds), n) <==> HasQueued(nodes, n) && !BeatenIn(names, salt, ds, n)
    decreases |ds|
  {
    if ds != [] {
      DeliverOne(names, salt, nodes, ds[0], n);
      DeliverMany(names, salt, Deliver(nodes, ds[0]), ds[1..], n);
      BeatenSplit(names, salt, ds, n);
    }
  }

  lemma {:induction false} BeatenSplit(names: map<NodeId, Name>, salt: Salt, ds: seq<Delivery>, n: NodeId)
    requires ds != [] && n in names
    ensures BeatenIn(names, salt, ds, n) <==>
            (ds[0].receiver == n && ds[0].sender in names && Beats(names[ds[0].sender], names[n], salt))
              || BeatenIn(names, salt, ds[1..], n)
  {
    var rest := ds[1..];
    if BeatenIn(names, salt, rest, n) {
      var i :| 0 <= i < |rest| && rest[i].receiver == n && rest[i].sender in names
        && Beats(names[rest[i].sender], names[n], salt);
      assert ds[i + 1] == rest[i];
    }
    if BeatenIn(names, salt, ds, n) {
      var i :| 0 <= i < |ds| && ds[i].receiver == n && ds[i].sender in names
        && Beats(names[ds[i].sender], names[n], salt);
      if i > 0 { assert rest[i - 1] == ds[i]; }
    }
  }

  /** The greatest of a set of nodes. */
  ghost predicate Greatest(names: map<NodeId, Name>, salt: Salt, nodes: set<NodeId>, w: NodeId)
    requires nodes <= names.Keys
  {
    w in nodes && forall n :: n in nodes && n != w ==> Beats(names[w], names[n], salt)
  }

  /** Whoever beats the greatest is the greatest. */
  lemma {:induction false} NewGreatest(names: map<NodeId, Name>, salt: Salt, nodes: set<NodeId>, v: NodeId, n: NodeId)
    requires nodes <= names.Keys && n in names && Greatest(names, salt, nodes, v) && Beats(names[n], names[v], salt)
    ensures Greatest(names, salt, nodes + {n}, n)
  {
    forall m | m in nodes && m != n ensures Beats(names[n], names[m], salt) {
      BeatsIsTotalOrder(names[n], names[v], names[m], salt);
    }
  }

  lemma {:induction false} OneBeats(names: map<NodeId, Name>, salt: Salt, v: NodeId, n: NodeId)
    requires Named(names) && v in names && n in names && v != n
    ensures Beats(names[v], names[n], salt) || Beats(names[n], names[v], salt)
  {
    BeatsIsTotalOrder(names[v], names[n], names[n], salt);
  }

  lemma {:induction false} GreatestExists(names: map<NodeId, Name>, salt: Salt, nodes: set<NodeId>) returns (w: NodeId)
    requires Named(names) && nodes <= names.Keys && nodes != {}
    ensures Greatest(names, salt, nodes, w)
    decreases |nodes|
  {
    var n :| n in nodes;
    var rest := nodes - {n};
    assert rest + {n} == nodes;
    if rest == {} {
      w := n;
    } else {
      w := GreatestExists(names, salt, rest);
      OneBeats(names, salt, w, n);
      if !Beats(names[w], names[n], salt) {
        NewGreatest(names, salt, rest, w, n);
        w := n;
      }
    }
  }

  /** Every node of the set has heard of every other. */
  predicate AllHeard(nodes: set<NodeId>, ds: seq<Delivery>)
  {
    forall s, r :: s in nodes && r in nodes && s != r ==>
      exists i :: 0 <= i < |ds| && ds[i].sender == s && ds[i].receiver == r
  }

  /** Any set of nodes have a job queued, and the QUEUED message of each reaches the
      others, in any order and any number of times, with nobody queueing it again: then
      exactly one node keeps the job queued, the one that beats all others. */
  lemma {:induction false} OneKeepsIt(names: map<NodeId, Name>, salt: Salt, nodes: map<NodeId, Ctx>,
      ds: seq<Delivery>)
    returns (w: NodeId)
    requires Named(names) && nodes.Keys == names.Keys && names.Keys != {}
    requires forall n :: n in nodes ==> HasQueued(nodes, n)
    requires (forall i :: 0 <= i < |ds| ==> DeliveryOk(names, salt, ds[i])) && AllHeard(names.Keys, ds)
    ensures Greatest(names, salt, names.Keys, w)
    ensures forall n :: n in names ==> (HasQueued(DeliverAll(nodes, ds), n) <==> n == w)
  {
    w := GreatestExists(names, salt, names.Keys);
    forall n | n in names ensures HasQueued(DeliverAll(nodes, ds), n) <==> n == w {
      assert HasQueued(nodes, n);
      DeliverMany(names, salt, nodes, ds, n);
      if n == w {
        NotBeaten(names, salt, ds, w);
      } else {
        var i :| 0 <= i < |ds| && ds[i].sender == w && ds[i].receiver == n;
        assert BeatenIn(names, salt, ds, n);
      }
    }
  }

  lemma {:induction false} NotBeaten(names: map<NodeId, Name>, salt: Salt, ds: seq<Delivery>, w: NodeId)
    requires w in names && Greatest(names, salt, names.Keys, w)
    ensures !BeatenIn(names, salt, ds, w)
  {
    forall i | 0 <= i < |ds| && ds[i].sender in names ensures !Beats(names[ds[i].sender], names[w], salt) {
      BeatsIsTotalOrder(names[w], names[ds[i].sender], names[w], salt);
    }
  }
}
