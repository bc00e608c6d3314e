/** Jobs as bytes, for messages and for the AOF: serializeJob and deserializeJob of
    src/job.c on a little endian host.
 */
module JobCodec {
  import opened Decimal
  import opened Layout

  const ID_LEN: nat := 40
  const NAME_LEN: nat := 40
  const STRUCT_LEN: nat := 68

  /** The part of a job that is serialized.  nodes: the names of the nodes that may have
      a copy, in the order of the dictionary. */
  datatype JobData = JobData(
    id: Bytes, state: nat, gcRetry: nat, flags: Flags, repl: nat, etime: nat, ctime: nat,
    delay: nat, retry: nat, nacks: nat, deliv: nat, queue: Bytes, body: Bytes, nodes: seq<Bytes>)

  /** JOB_FLAG_BCAST_QUEUED, JOB_FLAG_BCAST_WILLQUEUE, JOB_FLAG_DELIVERED */
  datatype Flags = Flags(bcastQueued: bool, bcastWillQueue: bool, delivered: bool)

  datatype Kind = Message | Storage

  const STATE_ACTIVE: nat := 1

  predicate Fits(j: JobData)
  {
    && |j.id| == ID_LEN && j.state < 16 && j.gcRetry < 16 && j.repl < 0x1_0000
    && j.etime < 0x1_0000_0000 && j.ctime < 0x1_0000_0000_0000_0000
    && j.delay < 0x1_0000_0000 && j.retry < 0x1_0000_0000
    && j.nacks < 0x1_0000 && j.deliv < 0x1_0000
    && |j.queue| < 0x1_0000_0000 && |j.body| < 0x1_0000_0000 && |j.nodes| < 0x1_0000_0000
    && (forall i :: 0 <= i < |j.nodes| ==> |j.nodes[i]| == NAME_LEN)
    && |Body(j)| < 0x1_0000_0000
  }

  // ------------------------------------------------------------ little endian numbers

  function Pow256(k: nat): nat { if k == 0 then 1 else 256 * Pow256(k - 1) }

  function Little(n: nat, k: nat): (s: Bytes)
    ensures |s| == k
  {
    if k == 0 then [] else [n % 256] + Little(n / 256, k - 1)
  }

  /** The number in the bytes from pos to end. */
  function Value(file: Bytes, pos: nat, end: nat): nat
    requires pos <= end <= |file|
    decreases end - pos
  {
    if pos == end then 0 else file[pos] + 256 * Value(file, pos + 1, end)
  }

  lemma {:induction false} ReadLittle(file: Bytes, pos: nat, n: nat, k: nat)
    requires At(file, pos, Little(n, k)) && n < Pow256(k)
    ensures Value(file, pos, pos + k) == n
    decreases k
  {
    if k > 0 {
      AtTail(file, pos, Little(n, k));
      assert Little(n, k)[1..] == Little(n / 256, k - 1);
      ReadLittle(file, pos + 1, n / 256, k - 1);
    }
  }

  // ------------------------------------------------------------------- serialization

  function FlagByte(f: Flags): byte
  {
    (if f.bcastQueued then 1 else 0) + (if f.bcastWillQueue then 2 else 0) + (if f.delivered then 4 else 0)
  }

  function FlagsOf(b: byte): Flags { Flags(b % 2 == 1, b / 2 % 2 == 1, b / 4 % 2 == 1) }

  /** The expire time and the flags that are written. */
  function Stamped(j: JobData, kind: Kind, now: nat): JobData
  {
    if kind == Storage then j
    else j.(etime := if j.etime >= now then j.etime - now + 1 else 1, flags := j.flags.(delivered := false))
  }

  function Head(j: JobData): Bytes
    requires j.state < 16 && j.gcRetry < 16
  {
    j.id + ([j.state + 16 * j.gcRetry, FlagByte(j.flags)]
      + (Little(j.repl, 2) + (Little(j.etime, 4) + (Little(j.ctime, 8)
    + (Little(j.delay, 4) + (Little(j.retry, 4) + (Little(j.nacks, 2) + Little(j.deliv, 2))))))))
  }

  function Text(s: Bytes): Bytes { Little(|s|, 4) + s }

  function Names(nodes: seq<Bytes>): Bytes
  {
    if nodes == [] then [] else nodes[0] + Names(nodes[1..])
  }

  function NodeList(nodes: seq<Bytes>): (r: Bytes)
    ensures |r| >= 4
  {
    Little(|nodes|, 4) + Names(nodes)
  }

  /** What follows the struct. */
  function Rest(j: JobData): Bytes { Text(j.queue) + (Text(j.body) + NodeList(j.nodes)) }

  /** Everything but the length that comes first. */
  function Body(j: JobData): Bytes
  {
    if j.state < 16 && j.gcRetry < 16 then Head(j) + Rest(j) else []
  }

  /** serializeJob */
  function Encode(j: JobData, kind: Kind, now: nat): Bytes
  {
    var b := Body(Stamped(j, kind, now));
    Little(|b|, 4) + b
  }

  // ----------------------------------------------------------------- deserialization

  datatype Decoded = Malformed | Decoded(job: JobData, next: nat)

  /** The names at pos that the receiver knows, each once. */
  function ReadNames(file: Bytes, pos: nat, n: nat, known: set<Bytes>, have: seq<Bytes>): seq<Bytes>
    requires pos + n * NAME_LEN <= |file|
    decreases n
  {
    if n == 0 then have
    else
      var name := file[pos..pos + NAME_LEN];
      ReadNames(file, pos + NAME_LEN, n - 1, known, if name in known && name !in have then have + [name] else have)
  }

  /** The struct at pos, with the expire time made absolute, the state of a received job,
      no garbage collection attempts, and a requeue to announce. */
  function ReadStruct(file: Bytes, pos: nat, kind: Kind, now: nat): JobData
    requires pos + STRUCT_LEN <= |file|
  {
    var flags := FlagsOf(file[pos + 41]);
    var etime := Value(file, pos + 44, pos + 48);
    var retry := Value(file, pos + 60, pos + 64);
    JobData(file[pos..pos + 40],
            if kind == Message then STATE_ACTIVE else file[pos + 40] % 16,
            0,
            if retry > 0 then flags.(bcastWillQueue := true) else flags,
            Value(file, pos + 42, pos + 44),
            if kind == Message then now + etime else etime,
            Value(file, pos + 48, pos + 56),
            Value(file, pos + 56, pos + 60),
            retry,
            Value(file, pos + 64, pos + 66),
            Value(file, pos + 66, pos + 68),
            [], [], [])
  }

  /** deserializeJob at a position of a buffer */
  function Decode(file: Bytes, pos: nat, kind: Kind, now: nat, known: set<Bytes>): Decoded
    requires pos <= |file|
  {
    if |file| - pos < 4 + STRUCT_LEN + 4 + 4 + 4 then Malformed
    else
      var joblen := Value(file, pos, pos + 4);
      if |file| - pos - 4 < joblen then Malformed
      else
        var j := ReadStruct(file, pos + 4, kind, now);
        DecodeRest(file, pos + 4 + STRUCT_LEN, j, known, pos + 4 + joblen)
  }

  /** The queue name, the body and the nodes; end: where the job must end. */
  function DecodeRest(file: Bytes, pos: nat, j: JobData, known: set<Bytes>, end: nat): Decoded
    requires pos <= |file|
  {
    if |file| - pos < 4 then Malformed
    else
      var qlen := Value(file, pos, pos + 4);
      var q := pos + 4;
      if |file| - q < qlen + 4 then Malformed
      else
        var blen := Value(file, q + qlen, q + qlen + 4);
        var b := q + qlen + 4;
        if |file| - b < blen + 4 then Malformed
        else DecodeNodes(file, b + blen, j.(queue := file[q..q + qlen], body := file[b..b + blen]), known, end)
  }

  function DecodeNodes(file: Bytes, pos: nat, j: JobData, known: set<Bytes>, end: nat): Decoded
    requires pos + 4 <= |file|
  {
    var count := Value(file, pos, pos + 4);
    if |file| - (pos + 4) < count * NAME_LEN || pos + 4 + count * NAME_LEN != end then Malformed
    else Decoded(j.(nodes := ReadNames(file, pos + 4, count, known, [])), end)
  }

  // ---------------------------------------------------------------------- round trip

  lemma {:induction false} Powers()
    ensures Pow256(1) == 0x100 && Pow256(2) == 0x1_0000 && Pow256(4) == 0x1_0000_0000
            && Pow256(8) == 0x1_0000_0000_0000_0000
  {
    assert Pow256(3) == 0x100_0000;
    assert Pow256(5) == 0x100_0000_0000;
    assert Pow256(7) == 0x100_0000_0000_0000;
  }

  lemma {:induction false} FlagsRead(f: Flags)
    ensures FlagsOf(FlagByte(f)) == f
  {
  }

  /** A number that is in the buffer is read, and what follows it is next. */
  lemma {:induction false} ReadField(file: Bytes, pos: nat, n: nat, k: nat, y: Bytes)
    requires At(file, pos, Little(n, k) + y) && n < Pow256(k)
    ensures Value(file, pos, pos + k) == n && At(file, pos + k, y)
  {
    AtSplit(file, pos, Little(n, k), y);
    ReadLittle(file, pos, n, k);
  }

  /** The two bytes and the small numbers of the struct. */
  lemma {:induction false} ReadHeadStart(file: Bytes, pos: nat, j: JobData, y: Bytes)
    requires |j.id| == ID_LEN && j.state < 16 && j.gcRetry < 16
    requires At(file, pos, j.id + ([j.state + 16 * j.gcRetry, FlagByte(j.flags)] + y))
    ensures file[pos..pos + 40] == j.id && file[pos + 40] % 16 == j.state && FlagsOf(file[pos + 41]) == j.flags
    ensures At(file, pos + 42, y)
  {
    var two := [j.state + 16 * j.gcRetry, FlagByte(j.flags)];
    AtSplit(file, pos, j.id, two + y);
    AtSlice(file, pos, j.id);
    AtSplit(file, pos + 40, two, y);
    AtByte(file, pos + 40, two, 0);
    AtByte(file, pos + 40, two, 1);
    FlagsRead(j.flags);
  }

  lemma {:induction false} ReadHeadNumbers(file: Bytes, pos: nat, j: JobData)
    requires Fits(j)
    requires At(file, pos, Little(j.repl, 2) + (Little(j.etime, 4) + (Little(j.ctime, 8)
               + (Little(j.delay, 4) + (Little(j.retry, 4) + (Little(j.nacks, 2) + Little(j.deliv, 2)))))))
    ensures Value(file, pos, pos + 2) == j.repl && Value(file, pos + 2, pos + 6) == j.etime
    ensures Value(file, pos + 6, pos + 14) == j.ctime && Value(file, pos + 14, pos + 18) == j.delay
    ensures Value(file, pos + 18, pos + 22) == j.retry && Value(file, pos + 22, pos + 24) == j.nacks
    ensures Value(file, pos + 24, pos + 26) == j.deliv
  {
    Powers();
    var y7 := Little(j.deliv, 2);
    var y6 := Little(j.nacks, 2) + y7;
    var y5 := Little(j.retry, 4) + y6;
    var y4 := Little(j.delay, 4) + y5;
    var y3 := Little(j.ctime, 8) + y4;
    var y2 := Little(j.etime, 4) + y3;
    ReadField(file, pos, j.repl, 2, y2);
    ReadField(file, pos + 2, j.etime, 4, y3);
    ReadField(file, pos + 6, j.ctime, 8, y4);
    ReadField(file, pos + 14, j.delay, 4, y5);
    ReadField(file, pos + 18, j.retry, 4, y6);
    ReadField(file, pos + 22, j.nacks, 2, y7);
    ReadLittle(file, pos + 24, j.deliv, 2);
  }

  /** What the receiver makes of the struct. */
  function Restored(j: JobData, kind: Kind, now: nat): JobData
  {
    j.(state := if kind == Message then STATE_ACTIVE else j.state,
       gcRetry := 0,
       flags := if j.retry > 0 then j.flags.(bcastWillQueue := true) else j.flags,
       etime := if kind == Message then now + j.etime else j.etime)
  }

  lemma {:induction false} ReadHead(file: Bytes, pos: nat, j: JobData, kind: Kind, now: nat)
    requires Fits(j) && At(file, pos, Head(j))
    ensures |Head(j)| == STRUCT_LEN
    ensures ReadStruct(file, pos, kind, now) == Restored(j, kind, now).(queue := [], body := [], nodes := [])
  {
    var y := Little(j.repl, 2) + (Little(j.etime, 4) + (Little(j.ctime, 8)
               + (Little(j.delay, 4) + (Little(j.retry, 4) + (Little(j.nacks, 2) + Little(j.deliv, 2))))));
    ReadHeadStart(file, pos, j, y);
    ReadHeadNumbers(file, pos + 42, j);
  }

  lemma {:induction false} ReadText(file: Bytes, pos: nat, s: Bytes, y: Bytes)
    requires At(file, pos, Text(s) + y) && |s| < 0x1_0000_0000
    ensures Value(file, pos, pos + 4) == |s| && At(file, pos + 4, s) && At(file, pos + 4 + |s|, y)
  {
    Powers();
    AtSplit(file, pos, Text(s), y);
    AtSplit(file, pos, Little(|s|, 4), s);
    ReadLittle(file, pos, |s|, 4);
  }

  predicate Distinct(nodes: seq<Bytes>) { forall i, k :: 0 <= i < k < |nodes| ==> nodes[i] != nodes[k] }

  predicate AllNames(nodes: seq<Bytes>) { forall i :: 0 <= i < |nodes| ==> |nodes[i]| == NAME_LEN }

  /** The nodes the receiver knows, in the order they were written. */
  function OnlyKnown(nodes: seq<Bytes>, known: set<Bytes>): seq<Bytes>
  {
    if nodes == [] then []
    else if nodes[0] in known then [nodes[0]] + OnlyKnown(nodes[1..], known)
    else OnlyKnown(nodes[1..], known)
  }

  /** A receiver that knows all the nodes drops none; otherwise exactly the others. */
  lemma {:induction false} OnlyKnownExact(nodes: seq<Bytes>, known: set<Bytes>)
    ensures forall n :: n in OnlyKnown(nodes, known) <==> n in nodes && n in known
    ensures (forall n :: n in nodes ==> n in known) ==> OnlyKnown(nodes, known) == nodes
    decreases |nodes|
  {
    if nodes != [] {
      OnlyKnownExact(nodes[1..], known);
      assert nodes == [nodes[0]] + nodes[1..];
    }
  }

  lemma {:induction false} NamesLength(nodes: seq<Bytes>)
    requires AllNames(nodes)
    ensures |Names(nodes)| == |nodes| * NAME_LEN
    decreases |nodes|
  {
    if nodes != [] { NamesLength(nodes[1..]); }
  }

  predicate Apart(have: seq<Bytes>, nodes: seq<Bytes>) { forall i :: 0 <= i < |nodes| ==> nodes[i] !in have }

  lemma {:induction false} ApartNext(have: seq<Bytes>, nodes: seq<Bytes>)
    requires nodes != [] && Distinct(nodes) && Apart(have, nodes)
    ensures Distinct(nodes[1..]) && Apart(have, nodes[1..]) && Apart(have + [nodes[0]], nodes[1..])
  {
    assert forall i :: 0 <= i < |nodes[1..]| ==> nodes[1..][i] == nodes[i + 1];
  }

  lemma {:induction false} NameAt(file: Bytes, pos: nat, nodes: seq<Bytes>)
    requires nodes != [] && AllNames(nodes) && At(file, pos, Names(nodes))
    ensures pos + NAME_LEN <= |file| && file[pos..pos + NAME_LEN] == nodes[0]
    ensures At(file, pos + NAME_LEN, Names(nodes[1..]))
  {
    AtSplit(file, pos, nodes[0], Names(nodes[1..]));
    AtSlice(file, pos, nodes[0]);
  }

  /** One name more is kept, if the receiver knows the node. */
  lemma {:induction false} KeepsName(nodes: seq<Bytes>, known: set<Bytes>, have: seq<Bytes>, have': seq<Bytes>)
    requires nodes != [] && have' == if nodes[0] in known then have + [nodes[0]] else have
    ensures have + OnlyKnown(nodes, known) == have' + OnlyKnown(nodes[1..], known)
  {
  }

  /** The first of the names is read, and reading goes on with the others. */
  lemma {:induction false} FirstName(file: Bytes, pos: nat, nodes: seq<Bytes>, known: set<Bytes>, have: seq<Bytes>)
      returns (have': seq<Bytes>)
    requires nodes != [] && AllNames(nodes) && Distinct(nodes) && Apart(have, nodes) && At(file, pos, Names(nodes))
    requires pos + |nodes| * NAME_LEN <= |file|
    ensures At(file, pos + NAME_LEN, Names(nodes[1..]))
    ensures AllNames(nodes[1..]) && Distinct(nodes[1..]) && Apart(have', nodes[1..])
    ensures ReadNames(file, pos, |nodes|, known, have)
            == ReadNames(file, pos + NAME_LEN, |nodes| - 1, known, have')
    ensures have + OnlyKnown(nodes, known) == have' + OnlyKnown(nodes[1..], known)
  {
    have' := if nodes[0] in known then have + [nodes[0]] else have;
    ApartNext(have, nodes);
    KeepsName(nodes, known, have, have');
    NameAt(file, pos, nodes);
  }

  lemma {:induction false} ReadAllNames(file: Bytes, pos: nat, nodes: seq<Bytes>, known: set<Bytes>, have: seq<Bytes>)
    requires AllNames(nodes) && Distinct(nodes) && Apart(have, nodes) && At(file, pos, Names(nodes))
    ensures pos + |nodes| * NAME_LEN <= |file|
    ensures ReadNames(file, pos, |nodes|, known, have) == have + OnlyKnown(nodes, known)
    decreases |nodes|
  {
    NamesLength(nodes);
    if nodes == [] {
      assert have + [] == have;
    } else {
      var have' := FirstName(file, pos, nodes, known, have);
      ReadAllNames(file, pos + NAME_LEN, nodes[1..], known, have');
    }
  }

  /** A node list that can be written is in the buffer from pos to end. */
  predicate NodesAt(file: Bytes, pos: nat, nodes: seq<Bytes>, end: nat)
  {
    && AllNames(nodes) && |nodes| < 0x1_0000_0000 && Distinct(nodes)
    && At(file, pos, NodeList(nodes)) && end == pos + |NodeList(nodes)|
  }

  lemma {:induction false} ReadNodes(file: Bytes, pos: nat, nodes: seq<Bytes>, h: JobData, known: set<Bytes>, end: nat)
    requires NodesAt(file, pos, nodes, end)
    ensures pos + 4 <= |file|
    ensures DecodeNodes(file, pos, h, known, end) == Decoded(h.(nodes := OnlyKnown(nodes, known)), end)
  {
    Powers();
    ReadField(file, pos, |nodes|, 4, Names(nodes));
    NamesLength(nodes);
    assert [] + OnlyKnown(nodes, known) == OnlyKnown(nodes, known);
    ReadAllNames(file, pos + 4, nodes, known, []);
  }

  /** Two texts are in the buffer at pos, and then a number. */
  predicate TextsAt(file: Bytes, pos: nat, q: Bytes, b: Bytes)
  {
    && pos + 4 + |q| + 4 + |b| + 4 <= |file|
    && Value(file, pos, pos + 4) == |q| && At(file, pos + 4, q)
    && var p := pos + 4 + |q|; Value(file, p, p + 4) == |b| && At(file, p + 4, b)
  }

  lemma {:induction false} ReadTexts(file: Bytes, pos: nat, q: Bytes, b: Bytes, h: JobData, known: set<Bytes>, end: nat)
    requires TextsAt(file, pos, q, b)
    ensures DecodeRest(file, pos, h, known, end)
            == DecodeNodes(file, pos + 4 + |q| + 4 + |b|, h.(queue := q, body := b), known, end)
  {
    AtSlice(file, pos + 4, q);
    AtSlice(file, pos + 4 + |q| + 4, b);
  }

  lemma {:induction false} RestLength(j: JobData)
    ensures |Rest(j)| == 4 + |j.queue| + 4 + |j.body| + |NodeList(j.nodes)|
  {
  }

  lemma {:induction false} QueueAt(file: Bytes, pos: nat, j: JobData)
    requires Fits(j) && At(file, pos, Rest(j))
    ensures Value(file, pos, pos + 4) == |j.queue| && At(file, pos + 4, j.queue)
    ensures At(file, pos + 4 + |j.queue|, Text(j.body) + NodeList(j.nodes))
  {
    ReadText(file, pos, j.queue, Text(j.body) + NodeList(j.nodes));
  }

  /** Where the texts and the node list of a job are. */
  lemma {:induction false} RestAt(file: Bytes, pos: nat, j: JobData) returns (p: nat)
    requires Fits(j) && Distinct(j.nodes) && At(file, pos, Rest(j))
    ensures TextsAt(file, pos, j.queue, j.body) && p == pos + 4 + |j.queue| + 4 + |j.body|
    ensures NodesAt(file, p, j.nodes, pos + |Rest(j)|)
  {
    p := pos + 4 + |j.queue| + 4 + |j.body|;
    QueueAt(file, pos, j);
    ReadText(file, pos + 4 + |j.queue|, j.body, NodeList(j.nodes));
    RestLength(j);
  }

  lemma {:induction false} ReadParts(file: Bytes, pos: nat, p: nat, j: JobData, h: JobData, known: set<Bytes>, end: nat)
    requires TextsAt(file, pos, j.queue, j.body) && p == pos + 4 + |j.queue| + 4 + |j.body|
    requires NodesAt(file, p, j.nodes, end)
    ensures DecodeRest(file, pos, h, known, end)
            == Decoded(h.(queue := j.queue, body := j.body, nodes := OnlyKnown(j.nodes, known)), end)
  {
    ReadNodes(file, p, j.nodes, h.(queue := j.queue, body := j.body), known, end);
    ReadTexts(file, pos, j.queue, j.body, h, known, end);
  }

  lemma {:induction false} ReadRest(file: Bytes, pos: nat, j: JobData, h: JobData, known: set<Bytes>)
    requires Fits(j) && Distinct(j.nodes) && At(file, pos, Rest(j))
    ensures DecodeRest(file, pos, h, known, pos + |Rest(j)|)
            == Decoded(h.(queue := j.queue, body := j.body, nodes := OnlyKnown(j.nodes, known)), pos + |Rest(j)|)
  {
    var p := RestAt(file, pos, j);
    ReadParts(file, pos, p, j, h, known, pos + |Rest(j)|);
  }

  /** What a job written at one time is read as at another, by a receiver that knows
      some nodes. */
  function ReadBack(j: JobData, kind: Kind, now: nat, now': nat, known: set<Bytes>): JobData
  {
    Restored(Stamped(j, kind, now), kind, now').(nodes := OnlyKnown(j.nodes, known))
  }

  /** A job that is in a buffer, whatever is around it, is read back. */
  lemma {:induction false} DecodeEncoded(file: Bytes, pos: nat, j: JobData, kind: Kind, now: nat, now': nat,
      known: set<Bytes>)
    requires Fits(Stamped(j, kind, now)) && Distinct(j.nodes)
    requires At(file, pos, Encode(j, kind, now))
    ensures Decode(file, pos, kind, now', known)
            == Decoded(ReadBack(j, kind, now, now', known), pos + |Encode(j, kind, now)|)
  {
    var s := Stamped(j, kind, now);
    Powers();
    ReadField(file, pos, |Body(s)|, 4, Body(s));
    AtSplit(file, pos + 4, Head(s), Rest(s));
    ReadHead(file, pos + 4, s, kind, now');
    ReadRest(file, pos + 4 + STRUCT_LEN, s, ReadStruct(file, pos + 4, kind, now'), known);
  }

  /** At the same clock a message gives the job active, not delivered, with one second
      more of life and at least one; storage keeps state and times.  Both forget the
      garbage collection attempts. */
  lemma {:induction false} RestoredMeans(j: JobData, kind: Kind, now: nat)
    ensures var r := Restored(Stamped(j, kind, now), kind, now);
            && r.gcRetry == 0
            && (kind == Message ==>
              r.etime == (if j.etime > now then j.etime else now) + 1 && r.state == STATE_ACTIVE && !r.flags.delivered)
            && (kind == Storage ==> r.etime == j.etime && r.state == j.state && r.flags.delivered == j.flags.delivered)
            && r.(state := j.state, gcRetry := j.gcRetry, flags := j.flags, etime := j.etime) == j
  {
  }

  // ------------------------------------------------------------------- every buffer

  /** A job is in the buffer at pos: the length, the struct, a queue name of q bytes, a body
      of b bytes and c node names, each with its length before it, are just as long as
      the length says, and in the buffer. */
  predicate JobShape(file: Bytes, pos: nat, q: nat, b: nat, c: nat)
  {
    && pos + 4 + STRUCT_LEN + (4 + q) + (4 + b) + (4 + c * NAME_LEN) <= |file|
    && Value(file, pos, pos + 4) == STRUCT_LEN + (4 + q) + (4 + b) + (4 + c * NAME_LEN)
    && var p := pos + 4 + STRUCT_LEN;
       && Value(file, p, p + 4) == q && Value(file, p + 4 + q, p + 8 + q) == b
       && Value(file, p + 8 + q + b, p + 12 + q + b) == c
  }

  predicate NameIs(file: Bytes, pos: nat, name: Bytes) { pos + NAME_LEN <= |file| && file[pos..pos + NAME_LEN] == name }

  /** One of n names at pos. */
  predicate Lists(file: Bytes, pos: nat, n: nat, name: Bytes)
    decreases n
  {
    n > 0 && (NameIs(file, pos, name) || Lists(file, pos + NAME_LEN, n - 1, name))
  }

  /** The names so far, with the next one. */
  function Taken(name: Bytes, known: set<Bytes>, have: seq<Bytes>): seq<Bytes>
  {
    if name in known && name !in have then have + [name] else have
  }

  lemma {:induction false} ReadNamesNext(file: Bytes, pos: nat, n: nat, known: set<Bytes>, have: seq<Bytes>,
      next: seq<Bytes>)
    requires n > 0 && pos + n * NAME_LEN <= |file| && next == Taken(file[pos..pos + NAME_LEN], known, have)
    ensures ReadNames(file, pos, n, known, have) == ReadNames(file, pos + NAME_LEN, n - 1, known, next)
  {
  }

  lemma {:induction false} ReadNamesDistinct(file: Bytes, pos: nat, n: nat, known: set<Bytes>, have: seq<Bytes>)
    requires pos + n * NAME_LEN <= |file| && Distinct(have)
    ensures Distinct(ReadNames(file, pos, n, known, have))
    decreases n
  {
    if n > 0 {
      var next := Taken(file[pos..pos + NAME_LEN], known, have);
      ReadNamesNext(file, pos, n, known, have, next);
      ReadNamesDistinct(file, pos + NAME_LEN, n - 1, known, next);
    }
  }

  lemma {:induction false} ReadNamesHas(file: Bytes, pos: nat, n: nat, known: set<Bytes>, have: seq<Bytes>, x: Bytes)
    requires pos + n * NAME_LEN <= |file|
    ensures x in ReadNames(file, pos, n, known, have) <==> x in have || (x in known && Lists(file, pos, n, x))
    decreases n
  {
    if n > 0 {
      var name := file[pos..pos + NAME_LEN];
      var next := Taken(name, known, have);
      assert x in next <==> x in have || (x in known && x == name);
      ReadNamesNext(file, pos, n, known, have, next);
      ReadNamesHas(file, pos + NAME_LEN, n - 1, known, next, x);
      assert NameIs(file, pos, x) <==> x == name;
    }
  }

  /** The names that are read are those that are there and known, each once. */
  lemma {:induction false} ReadNamesExact(file: Bytes, pos: nat, n: nat, known: set<Bytes>, have: seq<Bytes>)
    requires pos + n * NAME_LEN <= |file| && Distinct(have)
    ensures Distinct(ReadNames(file, pos, n, known, have))
    ensures forall x :: x in ReadNames(file, pos, n, known, have) <==>
            x in have || (x in known && Lists(file, pos, n, x))
  {
    ReadNamesDistinct(file, pos, n, known, have);
    forall x ensures x in ReadNames(file, pos, n, known, have) <==>
      x in have || (x in known && Lists(file, pos, n, x)) {
      ReadNamesHas(file, pos, n, known, have, x);
    }
  }

  lemma {:induction false} DecodedHasShape(file: Bytes, pos: nat, kind: Kind, now: nat, known: set<Bytes>)
      returns (q: nat, b: nat, c: nat)
    requires pos <= |file| && Decode(file, pos, kind, now, known).Decoded?
    ensures JobShape(file, pos, q, b, c)
  {
    var p := pos + 4 + STRUCT_LEN;
    q := Value(file, p, p + 4);
    b := Value(file, p + 4 + q, p + 8 + q);
    c := Value(file, p + 8 + q + b, p + 12 + q + b);
  }

  lemma {:induction false} NodesDecoded(file: Bytes, pos: nat, j: JobData, known: set<Bytes>, end: nat, c: nat)
    requires pos + 4 + c * NAME_LEN == end <= |file| && Value(file, pos, pos + 4) == c
    ensures var d := DecodeNodes(file, pos, j, known, end);
            d.Decoded? && d.next == end && d.job.nodes == ReadNames(file, pos + 4, c, known, [])
  {
  }

  lemma {:induction false} RestDecoded(file: Bytes, p: nat, j: JobData, known: set<Bytes>, end: nat, q: nat, b: nat,
      c: nat)
    requires p + 12 + q + b + c * NAME_LEN == end <= |file| && Value(file, p, p + 4) == q
    requires Value(file, p + 4 + q, p + 8 + q) == b && Value(file, p + 8 + q + b, p + 12 + q + b) == c
    ensures var d := DecodeRest(file, p, j, known, end);
            d.Decoded? && d.next == end && d.job.nodes == ReadNames(file, p + 12 + q + b, c, known, [])
  {
    var at := p + 4;
    var body := at + q + 4;
    NodesDecoded(file, body + b, j.(queue := file[at..at + q], body := file[body..body + b]), known, end, c);
  }

  lemma {:induction false} ShapeIsDecoded(file: Bytes, pos: nat, kind: Kind, now: nat, known: set<Bytes>, q: nat,
      b: nat,
      c: nat)
    requires JobShape(file, pos, q, b, c)
    ensures var d := Decode(file, pos, kind, now, known);
            && d.Decoded? && d.next == pos + 4 + STRUCT_LEN + (4 + q) + (4 + b) + (4 + c * NAME_LEN)
            && d.job.nodes == ReadNames(file, d.next - c * NAME_LEN, c, known, [])
  {
    var p := pos + 4 + STRUCT_LEN;
    var end := p + 12 + q + b + c * NAME_LEN;
    RestDecoded(file, p, ReadStruct(file, pos + 4, kind, now), known, end, q, b, c);
  }

  /** Where a job ends, and its nodes. */
  ghost predicate DecodedAs(file: Bytes, pos: nat, q: nat, b: nat, c: nat, known: set<Bytes>, d: Decoded)
  {
    && d.Decoded? && d.next == pos + 4 + STRUCT_LEN + (4 + q) + (4 + b) + (4 + c * NAME_LEN)
    && Distinct(d.job.nodes)
    && forall x :: x in d.job.nodes <==> x in known && Lists(file, d.next - c * NAME_LEN, c, x)
  }

  lemma {:induction false} ShapeIsRead(file: Bytes, pos: nat, kind: Kind, now: nat, known: set<Bytes>, q: nat, b: nat,
      c: nat)
    requires JobShape(file, pos, q, b, c)
    ensures DecodedAs(file, pos, q, b, c, known, Decode(file, pos, kind, now, known))
  {
    ShapeIsDecoded(file, pos, kind, now, known, q, b, c);
    ReadNamesExact(file, pos + 4 + STRUCT_LEN + (4 + q) + (4 + b) + 4, c, known, []);
  }

  /** For every buffer: a job is read exactly if one is there; it ends where its length says,
      and its nodes are those that are written and known, each once. */
  lemma {:induction false} DecodeExact(file: Bytes, pos: nat, kind: Kind, now: nat, known: set<Bytes>)
    requires pos <= |file|
    ensures Decode(file, pos, kind, now, known).Decoded? <==>
            exists q: nat, b: nat, c: nat :: JobShape(file, pos, q, b, c)
    ensures forall q: nat, b: nat, c: nat :: JobShape(file, pos, q, b, c) ==>
              DecodedAs(file, pos, q, b, c, known, Decode(file, pos, kind, now, known))
  {
    if Decode(file, pos, kind, now, known).Decoded? {
      var q, b, c := DecodedHasShape(file, pos, kind, now, known);
    }
    forall q: nat, b: nat, c: nat | JobShape(file, pos, q, b, c)
      ensures DecodedAs(file, pos, q, b, c, known, Decode(file, pos, kind, now, known)) {
      ShapeIsRead(file, pos, kind, now, known, q, b, c);
    }
  }

  // ------------------------------------------------------------------- lists of jobs

  function EncodeAll(jobs: seq<JobData>, kind: Kind, now: nat): Bytes
  {
    if jobs == [] then [] else Encode(jobs[0], kind, now) + EncodeAll(jobs[1..], kind, now)
  }

  datatype Parsed = Parsed(ok: bool, jobs: seq<JobData>)

  /** Parsing a buffer one job at a time, as long as there is something left. */
  function DecodeAll(file: Bytes, pos: nat, kind: Kind, now: nat, known: set<Bytes>, have: seq<JobData>): Parsed
    requires pos <= |file|
    decreases |file| - pos
  {
    if pos == |file| then Parsed(true, have)
    else
      var r := Decode(file, pos, kind, now, known);
      if r.Malformed? || !(pos < r.next <= |file|) then Parsed(false, have)
      else DecodeAll(file, r.next, kind, now, known, have + [r.job])
  }

  /** Some job is in the buffer at pos. */
  ghost predicate SomeJob(file: Bytes, pos: nat) { exists q: nat, b: nat, c: nat :: JobShape(file, pos, q, b, c) }

  /** Jobs, one after the other, go from pos to the end of the buffer. */
  ghost predicate OnlyJobs(file: Bytes, pos: nat)
    requires pos <= |file|
    decreases |file| - pos
  {
    pos == |file| || (SomeJob(file, pos) && OnlyJobs(file, pos + 4 + Value(file, pos, pos + 4)))
  }

  lemma {:induction false} NextJob(file: Bytes, pos: nat, kind: Kind, now: nat, known: set<Bytes>)
    requires pos <= |file|
    ensures var d := Decode(file, pos, kind, now, known);
            && (d.Decoded? <==> SomeJob(file, pos))
            && (d.Decoded? ==> pos < d.next == pos + 4 + Value(file, pos, pos + 4) <= |file|)
  {
    DecodeExact(file, pos, kind, now, known);
    var d := Decode(file, pos, kind, now, known);
    if d.Decoded? {
      var q: nat, b: nat, c: nat :| JobShape(file, pos, q, b, c);
      assert DecodedAs(file, pos, q, b, c, known, d);
    }
  }

  lemma {:induction false} OnlyJobsNext(file: Bytes, pos: nat, next: nat)
    requires pos < |file| && SomeJob(file, pos) && next == pos + 4 + Value(file, pos, pos + 4) && next <= |file|
    ensures OnlyJobs(file, pos) <==> OnlyJobs(file, next)
  {
  }

  lemma {:induction false} DecodeAllNext(file: Bytes, pos: nat, kind: Kind, now: nat, known: set<Bytes>,
      have: seq<JobData>,
      d: Decoded)
    requires pos < |file| && d == Decode(file, pos, kind, now, known) && (d.Decoded? ==> pos < d.next <= |file|)
    ensures DecodeAll(file, pos, kind, now, known, have)
            == if d.Decoded? then DecodeAll(file, d.next, kind, now, known, have + [d.job]) else Parsed(false, have)
  {
  }

  /** For every buffer: it is parsed to its end exactly if there are only jobs in it. */
  lemma {:induction false} DecodeAllExact(file: Bytes, pos: nat, kind: Kind, now: nat, known: set<Bytes>,
      have: seq<JobData>)
    requires pos <= |file|
    ensures DecodeAll(file, pos, kind, now, known, have).ok <==> OnlyJobs(file, pos)
    decreases |file| - pos
  {
    if pos < |file| {
      var d := Decode(file, pos, kind, now, known);
      NextJob(file, pos, kind, now, known);
      DecodeAllNext(file, pos, kind, now, known, have, d);
      if d.Decoded? {
        OnlyJobsNext(file, pos, d.next);
        DecodeAllExact(file, d.next, kind, now, known, have + [d.job]);
      }
    }
  }

  function AllReadBack(jobs: seq<JobData>, kind: Kind, now: nat, now': nat, known: set<Bytes>): seq<JobData>
  {
    if jobs == [] then []
    else [ReadBack(jobs[0], kind, now, now', known)] + AllReadBack(jobs[1..], kind, now, now', known)
  }

  predicate AllFit(jobs: seq<JobData>, kind: Kind, now: nat)
  {
    forall i :: 0 <= i < |jobs| ==> Fits(Stamped(jobs[i], kind, now)) && Distinct(jobs[i].nodes)
  }

  /** Jobs that can be written, glued together, are in the file at pos. */
  predicate JobsAt(file: Bytes, pos: nat, jobs: seq<JobData>, kind: Kind, now: nat)
  {
    AllFit(jobs, kind, now) && At(file, pos, EncodeAll(jobs, kind, now))
  }

  function JobsEnd(pos: nat, jobs: seq<JobData>, kind: Kind, now: nat): nat { pos + |EncodeAll(jobs, kind, now)| }

  /** A job that can be written is in the file from pos to next. */
  predicate JobAt(file: Bytes, pos: nat, j: JobData, kind: Kind, now: nat, next: nat)
  {
    && Fits(Stamped(j, kind, now)) && Distinct(j.nodes)
    && At(file, pos, Encode(j, kind, now)) && next == pos + |Encode(j, kind, now)|
  }

  lemma {:induction false} FitNext(jobs: seq<JobData>, kind: Kind, now: nat)
    requires jobs != [] && AllFit(jobs, kind, now)
    ensures Fits(Stamped(jobs[0], kind, now)) && Distinct(jobs[0].nodes) && AllFit(jobs[1..], kind, now)
  {
  }

  lemma {:induction false} EncodedNext(file: Bytes, pos: nat, jobs: seq<JobData>, kind: Kind, now: nat)
    requires jobs != [] && At(file, pos, EncodeAll(jobs, kind, now))
    ensures var next := pos + |Encode(jobs[0], kind, now)|;
            && At(file, pos, Encode(jobs[0], kind, now)) && pos < next <= |file|
            && At(file, next, EncodeAll(jobs[1..], kind, now))
            && JobsEnd(next, jobs[1..], kind, now) == JobsEnd(pos, jobs, kind, now)
  {
    AtSplit(file, pos, Encode(jobs[0], kind, now), EncodeAll(jobs[1..], kind, now));
  }

  /** The first of the jobs is at pos, and the others follow. */
  lemma {:induction false} JobsAtNext(file: Bytes, pos: nat, jobs: seq<JobData>, kind: Kind, now: nat)
      returns (next: nat)
    requires jobs != [] && JobsAt(file, pos, jobs, kind, now)
    ensures JobAt(file, pos, jobs[0], kind, now, next) && pos < next <= |file|
    ensures JobsAt(file, next, jobs[1..], kind, now)
    ensures JobsEnd(next, jobs[1..], kind, now) == JobsEnd(pos, jobs, kind, now)
  {
    next := pos + |Encode(jobs[0], kind, now)|;
    FitNext(jobs, kind, now);
    EncodedNext(file, pos, jobs, kind, now);
  }

  lemma {:induction false} DecodeOne(file: Bytes, pos: nat, j: JobData, kind: Kind, now: nat, now': nat,
      known: set<Bytes>, next: nat)
    requires JobAt(file, pos, j, kind, now, next)
    ensures Decode(file, pos, kind, now', known) == Decoded(ReadBack(j, kind, now, now', known), next)
  {
    DecodeEncoded(file, pos, j, kind, now, now', known);
  }

  /** The first of the jobs is read, and parsing goes on with the others. */
  lemma {:induction false} DecodeNext(file: Bytes, pos: nat, jobs: seq<JobData>, kind: Kind, now: nat, now': nat,
      known: set<Bytes>, have: seq<JobData>) returns (next: nat, have': seq<JobData>)
    requires jobs != [] && JobsAt(file, pos, jobs, kind, now)
    ensures next <= |file| && JobsAt(file, next, jobs[1..], kind, now)
    ensures JobsEnd(next, jobs[1..], kind, now) == JobsEnd(pos, jobs, kind, now)
    ensures DecodeAll(file, pos, kind, now', known, have) == DecodeAll(file, next, kind, now', known, have')
    ensures AfterAll(have, jobs, kind, now, now', known) == AfterAll(have', jobs[1..], kind, now, now', known)
  {
    var r := ReadBack(jobs[0], kind, now, now', known);
    have' := have + [r];
    AfterAllNext(have, jobs, kind, now, now', known);
    next := JobsAtNext(file, pos, jobs, kind, now);
    DecodeOne(file, pos, jobs[0], kind, now, now', known, next);
    DecodeMore(file, pos, next, r, kind, now', known, have);
  }

  lemma {:induction false} DecodeMore(file: Bytes, pos: nat, next: nat, j: JobData, kind: Kind, now: nat,
      known: set<Bytes>, have: seq<JobData>)
    requires pos < next <= |file| && Decode(file, pos, kind, now, known) == Decoded(j, next)
    ensures DecodeAll(file, pos, kind, now, known, have) == DecodeAll(file, next, kind, now, known, have + [j])
  {
  }

  /** What parsing jobs gives, after those it has. */
  function AfterAll(have: seq<JobData>, jobs: seq<JobData>, kind: Kind, now: nat, now': nat, known: set<Bytes>): Parsed
  {
    Parsed(true, have + AllReadBack(jobs, kind, now, now', known))
  }

  lemma {:induction false} AfterAllNext(have: seq<JobData>, jobs: seq<JobData>, kind: Kind, now: nat, now': nat,
      known: set<Bytes>)
    requires jobs != []
    ensures AfterAll(have, jobs, kind, now, now', known)
            == AfterAll(have + [ReadBack(jobs[0], kind, now, now', known)], jobs[1..], kind, now, now', known)
  {
    var r, rest := ReadBack(jobs[0], kind, now, now', known), AllReadBack(jobs[1..], kind, now, now', known);
    assert have + [r] + rest == have + ([r] + rest);
  }

  /** Any list of jobs, glued together, is parsed back one job at a time. */
  lemma {:induction false} DecodeAllEncoded(file: Bytes, pos: nat, jobs: seq<JobData>, kind: Kind, now: nat, now': nat,
      known: set<Bytes>, have: seq<JobData>)
    requires JobsAt(file, pos, jobs, kind, now) && JobsEnd(pos, jobs, kind, now) == |file|
    ensures DecodeAll(file, pos, kind, now', known, have) == AfterAll(have, jobs, kind, now, now', known)
    decreases |jobs|
  {
    if jobs == [] {
      assert have + [] == have;
    } else {
      var next, have' := DecodeNext(file, pos, jobs, kind, now, now', known, have);
      DecodeAllEncoded(file, next, jobs[1..], kind, now, now', known, have');
    }
  }

  // ------------------------------------------------------------------------ the loops

  /** serializeJob: append the job to a buffer. */
  method SerializeJob(jobs: Bytes, j: JobData, kind: Kind, now: nat) returns (out: Bytes)
    requires j.state < 16 && j.gcRetry < 16
    ensures out == jobs + Encode(j, kind, now)
  {
    var s := Stamped(j, kind, now);
    var names := WriteNames(s.nodes);
    var rest := Text(s.queue) + (Text(s.body) + (Little(|s.nodes|, 4) + names));
    var msg := Head(s) + rest;
    out := jobs + (Little(|msg|, 4) + msg);
  }

  method WriteNames(nodes: seq<Bytes>) returns (p: Bytes)
    ensures p == Names(nodes)
  {
    p := [];
    var i := 0;
    assert nodes[0..] == nodes;
    while i < |nodes|
      invariant i <= |nodes| && p + Names(nodes[i..]) == Names(nodes)
    {
      assert nodes[i..][1..] == nodes[i + 1..] && nodes[i..][0] == nodes[i];
      p := p + nodes[i];
      i := i + 1;
    }
  }

  /** The loop of deserializeJob over the names. */
  method ReadNodeNames(file: Bytes, pos0: nat, n: nat, known: set<Bytes>) returns (nodes: seq<Bytes>)
    requires pos0 + n * NAME_LEN <= |file|
    ensures nodes == ReadNames(file, pos0, n, known, [])
  {
    nodes := [];
    var pos: nat, aux: nat := pos0, n;
    while aux > 0
      invariant pos + aux * NAME_LEN <= |file|
      invariant ReadNames(file, pos, aux, known, nodes) == ReadNames(file, pos0, n, known, [])
    {
      var name := file[pos..pos + NAME_LEN];
      if name in known && name !in nodes { nodes := nodes + [name]; }
      pos := pos + NAME_LEN;
      aux := aux - 1;
    }
  }

  /** memcpy of a little endian number */
  method ReadValue(file: Bytes, pos: nat, k: nat) returns (v: nat)
    requires pos + k <= |file|
    ensures v == Value(file, pos, pos + k)
  {
    v := 0;
    var i := pos + k;
    while i > pos
      invariant pos <= i <= pos + k
      invariant v == Value(file, i, pos + k)
    {
      i := i - 1;
      v := file[i] + 256 * v;
    }
  }

  /** deserializeJob */
  method DeserializeJob(file: Bytes, pos: nat, kind: Kind, now: nat, known: set<Bytes>) returns (r: Decoded)
    requires pos <= |file|
    ensures r == Decode(file, pos, kind, now, known)
  {
    if |file| - pos < 4 + STRUCT_LEN + 4 + 4 + 4 { return Malformed; }
    var joblen := ReadValue(file, pos, 4);
    if |file| - pos - 4 < joblen { return Malformed; }
    r := DeserializeRest(file, pos + 4 + STRUCT_LEN, ReadStruct(file, pos + 4, kind, now), known, pos + 4 + joblen);
  }

  method DeserializeRest(file: Bytes, pos: nat, j: JobData, known: set<Bytes>, end: nat) returns (r: Decoded)
    requires pos <= |file|
    ensures r == DecodeRest(file, pos, j, known, end)
  {
    if |file| - pos < 4 { return Malformed; }
    var qlen := ReadValue(file, pos, 4);
    var q := pos + 4;
    if |file| - q < qlen + 4 { return Malformed; }
    var blen := ReadValue(file, q + qlen, 4);
    var b := q + qlen + 4;
    if |file| - b < blen + 4 { return Malformed; }
    var count := ReadValue(file, b + blen, 4);
    var m := b + blen + 4;
    if |file| - m < count * NAME_LEN || m + count * NAME_LEN != end { return Malformed; }
    var nodes := ReadNodeNames(file, m, count, known);
    return Decoded(j.(queue := file[q..q + qlen], body := file[b..b + blen], nodes := nodes), end);
  }
}
