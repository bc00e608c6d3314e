/** The output of a client (src/networking.c): a static buffer, then a list of chunks,
    with places kept for lengths that are known later.
 */
module ReplyBuffer {
  import opened Options
  import opened Decimal

  const BUF_SIZE: nat := 16 * 1024
  const CHUNK_BYTES: nat := 16 * 1024

  // ------------------------------------------------------------- bytes and open places

  /** What is to be sent: bytes, and places for lengths not known yet. */
  datatype Sym = Byte(b: byte) | Hole

  function Syms(s: Bytes): (r: seq<Sym>)
    ensures |r| == |s|
  {
    if s == [] then [] else [Byte(s[0])] + Syms(s[1..])
  }

  predicate NoHole(x: seq<Sym>) { forall i :: 0 <= i < |x| ==> x[i] != Hole }

  lemma {:induction false} SymsClean(s: Bytes)
    ensures NoHole(Syms(s))
    decreases |s|
  {
    if s != [] { SymsClean(s[1..]); }
  }

  lemma {:induction false} SymsAppend(a: Bytes, b: Bytes)
    ensures Syms(a + b) == Syms(a) + Syms(b)
    decreases |a|
  {
    if a == [] {
      assert a + b == b;
    } else {
      assert (a + b)[1..] == a[1..] + b;
      SymsAppend(a[1..], b);
    }
  }

  lemma {:induction false} SymsCut(s: Bytes, n: nat)
    requires n <= |s|
    ensures Syms(s)[..n] == Syms(s[..n]) && Syms(s)[n..] == Syms(s[n..])
  {
    assert s == s[..n] + s[n..];
    SymsAppend(s[..n], s[n..]);
  }

  /** x in the place of hole number h. */
  function Fill(s: seq<Sym>, h: nat, x: seq<Sym>): seq<Sym>
    decreases |s|
  {
    if s == [] then []
    else if s[0] != Hole then [s[0]] + Fill(s[1..], h, x)
    else if h == 0 then x + s[1..]
    else [Hole] + Fill(s[1..], h - 1, x)
  }

  lemma {:induction false} FillAfter(a: seq<Sym>, s: seq<Sym>, h: nat, x: seq<Sym>)
    requires NoHole(a)
    ensures Fill(a + s, h, x) == a + Fill(s, h, x)
    decreases |a|
  {
    if a == [] {
      assert a + s == s;
      assert a + Fill(s, h, x) == Fill(s, h, x);
    } else {
      assert (a + s)[1..] == a[1..] + s;
      FillAfter(a[1..], s, h, x);
    }
  }

  // -------------------------------------------------------------------- list of chunks

  type Chunk = Option<Bytes>

  function ChunkSyms(x: Chunk): seq<Sym> { if x.Some? then Syms(x.value) else [Hole] }

  function ListSyms(r: seq<Chunk>): seq<Sym>
  {
    if r == [] then [] else ChunkSyms(r[0]) + ListSyms(r[1..])
  }

  lemma {:induction false} ListSymsAppend(a: seq<Chunk>, b: seq<Chunk>)
    ensures ListSyms(a + b) == ListSyms(a) + ListSyms(b)
    decreases |a|
  {
    if a == [] {
      assert a + b == b;
    } else {
      assert (a + b)[1..] == a[1..] + b;
      ListSymsAppend(a[1..], b);
    }
  }

  lemma {:induction false} ListSymsOne(x: Chunk)
    ensures ListSyms([x]) == ChunkSyms(x)
  {
    assert [x][1..] == [];
  }

  function ListBytes(r: seq<Chunk>): nat
  {
    if r == [] then 0 else (if r[0].Some? then |r[0].value| else 0) + ListBytes(r[1..])
  }

  lemma {:induction false} ListBytesAppend(a: seq<Chunk>, b: seq<Chunk>)
    ensures ListBytes(a + b) == ListBytes(a) + ListBytes(b)
    decreases |a|
  {
    if a == [] {
      assert a + b == b;
    } else {
      assert (a + b)[1..] == a[1..] + b;
      ListBytesAppend(a[1..], b);
    }
  }

  lemma {:induction false} ListBytesOne(x: Chunk)
    ensures ListBytes([x]) == if x.Some? then |x.value| else 0
  {
    assert [x][1..] == [];
  }

  function Holes(r: seq<Chunk>): nat
  {
    if r == [] then 0 else (if r[0].None? then 1 else 0) + Holes(r[1..])
  }

  /** The node of hole number h. */
  function NodeOf(r: seq<Chunk>, h: nat): (k: nat)
    requires h < Holes(r)
    ensures k < |r| && r[k].None?
    decreases |r|
  {
    if r[0].None? && h == 0 then 0 else 1 + NodeOf(r[1..], if r[0].None? then h - 1 else h)
  }

  /** Setting a node fills its hole. */
  lemma {:induction false} FillNode(r: seq<Chunk>, h: nat, len: Bytes)
    requires h < Holes(r)
    ensures ListSyms(r[NodeOf(r, h) := Some(len)]) == Fill(ListSyms(r), h, Syms(len))
    decreases |r|
  {
    var k := NodeOf(r, h);
    var r' := r[k := Some(len)];
    if r[0].None? && h == 0 {
      assert r'[1..] == r[1..];
      assert ListSyms(r)[1..] == ListSyms(r[1..]);
    } else {
      var h1 := if r[0].None? then h - 1 else h;
      assert r'[1..] == r[1..][NodeOf(r[1..], h1) := Some(len)];
      FillNode(r[1..], h1, len);
      if r[0].None? {
        assert ListSyms(r)[1..] == ListSyms(r[1..]);
      } else {
        SymsClean(r[0].value);
        FillAfter(Syms(r[0].value), ListSyms(r[1..]), h, Syms(len));
      }
    }
  }

  lemma {:induction false} FillNodeBytes(r: seq<Chunk>, k: nat, len: Bytes)
    requires k < |r| && r[k].None?
    ensures ListBytes(r[k := Some(len)]) == ListBytes(r) + |len|
    decreases |r|
  {
    var r' := r[k := Some(len)];
    if k == 0 {
      assert r'[1..] == r[1..];
    } else {
      assert r'[1..] == r[1..][k - 1 := Some(len)];
      FillNodeBytes(r[1..], k - 1, len);
    }
  }

  /** Two neighbours in one chunk. */
  function Glued(r: seq<Chunk>, k: nat): seq<Chunk>
    requires k + 1 < |r| && r[k].Some? && r[k + 1].Some?
  {
    r[..k] + [Some(r[k].value + r[k + 1].value)] + r[k + 2..]
  }

  lemma {:induction false} FirstSyms(r: seq<Chunk>, a: Bytes, rest: seq<Chunk>)
    requires r != [] && r[0] == Some(a) && r[1..] == rest
    ensures ListSyms(r) == Syms(a) + ListSyms(rest) && ListBytes(r) == |a| + ListBytes(rest)
  {
  }

  lemma {:induction false} GluedFirst(r: seq<Chunk>, g: seq<Chunk>, a: Bytes, b: Bytes, rest: seq<Chunk>)
    requires |r| >= 2 && r[0] == Some(a) && r[1] == Some(b) && r[2..] == rest
    requires g != [] && g[0] == Some(a + b) && g[1..] == rest
    ensures ListSyms(g) == ListSyms(r) && ListBytes(g) == ListBytes(r)
  {
    FirstSyms(g, a + b, rest);
    FirstSyms(r, a, r[1..]);
    FirstSyms(r[1..], b, rest);
    SymsAppend(a, b);
    assert Syms(a) + Syms(b) + ListSyms(rest) == Syms(a) + (Syms(b) + ListSyms(rest));
  }

  lemma {:induction false} GluedSame(r: seq<Chunk>, k: nat)
    requires k + 1 < |r| && r[k].Some? && r[k + 1].Some?
    ensures ListSyms(Glued(r, k)) == ListSyms(r) && ListBytes(Glued(r, k)) == ListBytes(r)
    decreases k
  {
    var g := Glued(r, k);
    if k == 0 {
      GluedFirst(r, g, r[0].value, r[1].value, r[2..]);
    } else {
      assert g[0] == r[0] && g[1..] == Glued(r[1..], k - 1);
      GluedSame(r[1..], k - 1);
    }
  }

  // ------------------------------------------------------------------ the output state

  /** buf: the used part of the static buffer.  sentlen: how much of it, or when it is
      empty of the first chunk, is sent. */
  datatype Out = Out(buf: Bytes, sentlen: nat, reply: seq<Chunk>, replyBytes: nat)

  predicate OutOk(c: Out)
  {
    && |c.buf| <= BUF_SIZE
    && c.replyBytes == ListBytes(c.reply)
    && (c.sentlen > 0 ==>
      if c.buf != [] then c.sentlen < |c.buf|
      else c.reply != [] && c.reply[0].Some? && c.sentlen < |c.reply[0].value|)
  }

  function AllSyms(c: Out): seq<Sym> { Syms(c.buf) + ListSyms(c.reply) }

  lemma {:induction false} SentWithin(c: Out)
    requires OutOk(c)
    ensures c.sentlen <= |AllSyms(c)| && NoHole(AllSyms(c)[..c.sentlen])
  {
    SymsClean(c.buf);
    if c.sentlen > 0 && c.buf == [] { SymsClean(c.reply[0].value); }
  }

  /** What is still to be sent. */
  function Pending(c: Out): seq<Sym>
    requires OutOk(c)
  {
    SentWithin(c);
    AllSyms(c)[c.sentlen..]
  }

  // -------------------------------------------------------------------- adding replies

  /** The list functions: glue to the last chunk when there is one and it stays small. */
  function AddToList(c: Out, s: Bytes): Out
  {
    var n := |c.reply|;
    if n > 0 && c.reply[n - 1].Some? && |c.reply[n - 1].value| + |s| <= CHUNK_BYTES then
      c.(reply := c.reply[..n - 1] + [Some(c.reply[n - 1].value + s)], replyBytes := c.replyBytes + |s|)
    else c.(reply := c.reply + [Some(s)], replyBytes := c.replyBytes + |s|)
  }

  /** addReply and its kin, to a client that takes replies */
  function AddReply(c: Out, s: Bytes): Out
  {
    if c.reply == [] && |s| + |c.buf| <= BUF_SIZE then c.(buf := c.buf + s) else AddToList(c, s)
  }

  lemma {:induction false} ListEnd(r: seq<Chunk>)
    requires r != []
    ensures ListSyms(r) == ListSyms(r[..|r| - 1]) + ChunkSyms(r[|r| - 1])
    ensures ListBytes(r) == ListBytes(r[..|r| - 1]) + (if r[|r| - 1].Some? then |r[|r| - 1].value| else 0)
  {
    var init, last := r[..|r| - 1], r[|r| - 1];
    assert r == init + [last];
    ListSymsAppend(init, [last]);
    ListBytesAppend(init, [last]);
    ListSymsOne(last);
    ListBytesOne(last);
  }

  lemma {:induction false} GrowLast(r: seq<Chunk>, s: Bytes)
    requires r != [] && r[|r| - 1].Some?
    ensures var r' := r[..|r| - 1] + [Some(r[|r| - 1].value + s)];
            ListSyms(r') == ListSyms(r) + Syms(s) && ListBytes(r') == ListBytes(r) + |s|
  {
    var init, v := r[..|r| - 1], r[|r| - 1].value;
    ListEnd(r);
    ListSymsAppend(init, [Some(v + s)]);
    ListBytesAppend(init, [Some(v + s)]);
    ListSymsOne(Some(v + s));
    ListBytesOne(Some(v + s));
    SymsAppend(v, s);
    Assoc(ListSyms(init), Syms(v), Syms(s));
  }

  lemma {:induction false} AddNode(r: seq<Chunk>, s: Bytes)
    ensures ListSyms(r + [Some(s)]) == ListSyms(r) + Syms(s) && ListBytes(r + [Some(s)]) == ListBytes(r) + |s|
  {
    ListSymsAppend(r, [Some(s)]);
    ListBytesAppend(r, [Some(s)]);
    ListSymsOne(Some(s));
    ListBytesOne(Some(s));
  }

  /** What the list sends grows by exactly the reply. */
  lemma {:induction false} AddToListSyms(c: Out, s: Bytes)
    ensures ListSyms(AddToList(c, s).reply) == ListSyms(c.reply) + Syms(s)
    ensures ListBytes(AddToList(c, s).reply) == ListBytes(c.reply) + |s|
  {
    var n := |c.reply|;
    if n > 0 && c.reply[n - 1].Some? && |c.reply[n - 1].value| + |s| <= CHUNK_BYTES {
      GrowLast(c.reply, s);
    } else {
      AddNode(c.reply, s);
    }
  }

  lemma {:induction false} Assoc(a: seq<Sym>, b: seq<Sym>, c: seq<Sym>)
    ensures a + b + c == a + (b + c)
  {
  }

  lemma {:induction false} DropFrom(a: seq<Sym>, x: seq<Sym>, n: nat)
    requires n <= |a|
    ensures (a + x)[n..] == a[n..] + x
  {
  }

  lemma {:induction false} AddToListOk(c: Out, s: Bytes)
    requires OutOk(c)
    ensures OutOk(AddToList(c, s)) && Pending(AddToList(c, s)) == Pending(c) + Syms(s)
  {
    SentWithin(c);
    AddToListSyms(c, s);
    if c.sentlen > 0 && c.buf == [] { FirstChunk(c, s); }
    Assoc(Syms(c.buf), ListSyms(c.reply), Syms(s));
    DropFrom(AllSyms(c), Syms(s), c.sentlen);
  }

  lemma {:induction false} AddReplyOk(c: Out, s: Bytes)
    requires OutOk(c)
    ensures OutOk(AddReply(c, s)) && Pending(AddReply(c, s)) == Pending(c) + Syms(s)
  {
    if c.reply == [] && |s| + |c.buf| <= BUF_SIZE {
      SentWithin(c);
      SymsAppend(c.buf, s);
      assert AllSyms(AddReply(c, s)) == AllSyms(c) + Syms(s);
      DropFrom(AllSyms(c), Syms(s), c.sentlen);
    } else {
      AddToListOk(c, s);
    }
  }

  /** A chunk that is partly sent only grows. */
  lemma {:induction false} FirstChunk(c: Out, s: Bytes)
    requires OutOk(c) && c.sentlen > 0 && c.buf == []
    ensures var r := AddToList(c, s).reply; r[0].Some? && c.sentlen < |r[0].value|
  {
  }

  /** addDeferredMultiBulkLength */
  function Defer(c: Out): Out { c.(reply := c.reply + [None]) }

  lemma {:induction false} DeferOk(c: Out)
    requires OutOk(c)
    ensures OutOk(Defer(c)) && Pending(Defer(c)) == Pending(c) + [Hole]
  {
    SentWithin(c);
    ListSymsAppend(c.reply, [None]);
    ListBytesAppend(c.reply, [None]);
    ListSymsOne(None);
    ListBytesOne(None);
    assert AllSyms(Defer(c)) == AllSyms(c) + [Hole];
  }

  /** setDeferredMultiBulkLength, of open place number h */
  function SetLength(c: Out, h: nat, len: Bytes): Out
    requires h < Holes(c.reply)
  {
    var k := NodeOf(c.reply, h);
    var r := c.reply[k := Some(len)];
    var r' := if k + 1 < |r| && r[k + 1].Some? then Glued(r, k) else r;
    c.(reply := r', replyBytes := c.replyBytes + |len|)
  }

  lemma {:induction false} SetLengthSyms(c: Out, h: nat, len: Bytes)
    requires h < Holes(c.reply)
    ensures ListSyms(SetLength(c, h, len).reply) == Fill(ListSyms(c.reply), h, Syms(len))
    ensures ListBytes(SetLength(c, h, len).reply) == ListBytes(c.reply) + |len|
  {
    var k := NodeOf(c.reply, h);
    var r := c.reply[k := Some(len)];
    FillNode(c.reply, h, len);
    FillNodeBytes(c.reply, k, len);
    if k + 1 < |r| && r[k + 1].Some? { GluedSame(r, k); }
  }

  lemma {:induction false} HoleAt(r: seq<Chunk>, h: nat, k: nat)
    requires k < |r| && r[k].None? && Holes(r[..k]) == h
    ensures h < Holes(r) && NodeOf(r, h) == k
    decreases k
  {
    if k > 0 {
      assert r[..k][1..] == r[1..][..k - 1];
      HoleAt(r[1..], if r[0].None? then h - 1 else h, k - 1);
    }
  }

  /** The length takes the open place; it goes into one chunk with the chunk after it. */
  lemma {:induction false} SetLengthJoins(c: Out, h: nat, len: Bytes, k: nat)
    requires k < |c.reply| && c.reply[k].None? && Holes(c.reply[..k]) == h
    ensures h < Holes(c.reply)
    ensures var r := SetLength(c, h, len).reply;
            if k + 1 < |c.reply| && c.reply[k + 1].Some?
            then |r| == |c.reply| - 1 && r[..k] == c.reply[..k] && r[k] == Some(len + c.reply[k + 1].value)
                 && r[k + 1..] == c.reply[k + 2..]
            else r == c.reply[k := Some(len)]
  {
    HoleAt(c.reply, h, k);
  }

  lemma {:induction false} FirstStays(c: Out, h: nat, len: Bytes)
    requires OutOk(c) && h < Holes(c.reply) && c.sentlen > 0 && c.buf == []
    ensures var r := SetLength(c, h, len).reply; r != [] && r[0] == c.reply[0]
  {
  }

  lemma {:induction false} FillLater(all: seq<Sym>, n: nat, h: nat, x: seq<Sym>)
    requires n <= |all| && NoHole(all[..n])
    ensures n <= |Fill(all, h, x)| && Fill(all, h, x)[n..] == Fill(all[n..], h, x)
  {
    var a, s := all[..n], all[n..];
    assert all == a + s;
    FillAfter(a, s, h, x);
    assert (a + Fill(s, h, x))[n..] == Fill(s, h, x);
  }

  lemma {:induction false} SetLengthAll(c: Out, h: nat, len: Bytes)
    requires OutOk(c) && h < Holes(c.reply)
    ensures OutOk(SetLength(c, h, len)) && AllSyms(SetLength(c, h, len)) == Fill(AllSyms(c), h, Syms(len))
  {
    SetLengthSyms(c, h, len);
    SymsClean(c.buf);
    FillAfter(Syms(c.buf), ListSyms(c.reply), h, Syms(len));
    if c.sentlen > 0 && c.buf == [] { FirstStays(c, h, len); }
  }

  lemma {:induction false} SetLengthOk(c: Out, h: nat, len: Bytes)
    requires OutOk(c) && h < Holes(c.reply)
    ensures OutOk(SetLength(c, h, len)) && Pending(SetLength(c, h, len)) == Fill(Pending(c), h, Syms(len))
  {
    SetLengthAll(c, h, len);
    SentWithin(c);
    FillLater(AllSyms(c), c.sentlen, h, Syms(len));
  }

  // --------------------------------------------------------------------------- sending

  /** What is left to send, and what was sent. */
  datatype Sent = Sent(out: Out, bytes: Bytes)

  /** write takes n bytes of the static buffer. */
  function SendBuf(c: Out, n: nat): Sent
    requires OutOk(c) && c.buf != []
  {
    var k := Min(n, |c.buf| - c.sentlen);
    Sent(if c.sentlen + k == |c.buf| then c.(buf := [], sentlen := 0) else c.(sentlen := c.sentlen + k),
         c.buf[c.sentlen..c.sentlen + k])
  }

  /** write takes n bytes of the first chunk. */
  function SendChunk(c: Out, n: nat): Sent
    requires OutOk(c) && c.buf == [] && c.reply != [] && c.reply[0].Some?
  {
    var o := c.reply[0].value;
    var k := Min(n, |o| - c.sentlen);
    Sent(if c.sentlen + k == |o| then c.(reply := c.reply[1..], sentlen := 0, replyBytes := c.replyBytes - |o|)
         else c.(sentlen := c.sentlen + k),
         o[c.sentlen..c.sentlen + k])
  }

  /** One round of writeToClient, in which write takes n bytes. */
  function Send(c: Out, n: nat): Sent
    requires OutOk(c) && Holes(c.reply) == 0 && (c.buf != [] || c.reply != [])
  {
    assert c.reply != [] ==> c.reply[0].Some?;
    if c.buf != [] then SendBuf(c, n) else SendChunk(c, n)
  }

  function Min(a: nat, b: nat): nat { if a < b then a else b }

  lemma {:induction false} NoHoles(r: seq<Chunk>)
    requires Holes(r) == 0 && r != []
    ensures r[0].Some? && Holes(r[1..]) == 0
  {
  }

  lemma {:induction false} SymsSlice(s: Bytes, from: nat, to: nat)
    requires from <= to <= |s|
    ensures |Syms(s)| == |s| && Syms(s[from..to]) == Syms(s)[from..to]
  {
    SymsCut(s, from);
    SymsCut(s[from..], to - from);
    assert s[from..][..to - from] == s[from..to];
    assert Syms(s)[from..][..to - from] == Syms(s)[from..to];
  }

  lemma {:induction false} SliceSplit<T>(x: seq<T>, rest: seq<T>, from: nat, to: nat)
    requires from <= to <= |x|
    ensures (x + rest)[from..] == x[from..to] + (x + rest)[to..]
  {
  }

  lemma {:induction false} CutSyms(s: Bytes, from: nat, to: nat, rest: seq<Sym>)
    requires from <= to <= |s|
    ensures (Syms(s) + rest)[from..] == Syms(s[from..to]) + (Syms(s) + rest)[to..]
  {
    SymsSlice(s, from, to);
    SliceSplit(Syms(s), rest, from, to);
  }

  /** What was to be sent is what is sent and then what is left to send. */
  predicate Passes(c: Out, r: Sent)
    requires OutOk(c)
  {
    OutOk(r.out) && Pending(c) == Syms(r.bytes) + Pending(r.out)
  }

  lemma {:induction false} WholeBuf(c: Out, r: Sent)
    requires OutOk(c) && c.buf != [] && r.out == c.(buf := [], sentlen := 0) && r.bytes == c.buf[c.sentlen..]
    ensures Passes(c, r)
  {
    assert c.buf[c.sentlen..|c.buf|] == c.buf[c.sentlen..];
    CutSyms(c.buf, c.sentlen, |c.buf|, ListSyms(c.reply));
    DropAll(Syms(c.buf), ListSyms(c.reply));
  }

  lemma {:induction false} PartOfBuf(c: Out, k: nat, r: Sent)
    requires OutOk(c) && c.sentlen + k < |c.buf|
    requires r.out == c.(sentlen := c.sentlen + k) && r.bytes == c.buf[c.sentlen..c.sentlen + k]
    ensures Passes(c, r)
  {
    CutSyms(c.buf, c.sentlen, c.sentlen + k, ListSyms(c.reply));
  }

  lemma {:induction false} SendBufOk(c: Out, n: nat)
    requires OutOk(c) && c.buf != []
    ensures Passes(c, SendBuf(c, n)) && SendBuf(c, n).out.reply == c.reply
  {
    var k := Min(n, |c.buf| - c.sentlen);
    if c.sentlen + k == |c.buf| {
      WholeBuf(c, SendBuf(c, n));
    } else {
      PartOfBuf(c, k, SendBuf(c, n));
    }
  }

  lemma {:induction false} DropAll(a: seq<Sym>, x: seq<Sym>)
    ensures (a + x)[|a|..] == x && [] + x == x && x[0..] == x
  {
  }

  lemma {:induction false} WholeChunk(c: Out, r: Sent)
    requires OutOk(c) && c.buf == [] && c.reply != [] && c.reply[0].Some?
    requires var o := c.reply[0].value;
             && r.out == c.(reply := c.reply[1..], sentlen := 0, replyBytes := c.replyBytes - |o|)
             && r.bytes == o[c.sentlen..]
    ensures Passes(c, r)
  {
    var o, rest := c.reply[0].value, ListSyms(c.reply[1..]);
    assert o[c.sentlen..|o|] == o[c.sentlen..];
    PendingInList(c);
    CutSyms(o, c.sentlen, |o|, rest);
    DropAll(Syms(o), rest);
    PendingInList(r.out);
  }

  lemma {:induction false} PartOfChunk(c: Out, k: nat, r: Sent)
    requires OutOk(c) && c.buf == [] && c.reply != [] && c.reply[0].Some? && c.sentlen + k < |c.reply[0].value|
    requires r.out == c.(sentlen := c.sentlen + k) && r.bytes == c.reply[0].value[c.sentlen..c.sentlen + k]
    ensures Passes(c, r)
  {
    PendingInList(c);
    CutSyms(c.reply[0].value, c.sentlen, c.sentlen + k, ListSyms(c.reply[1..]));
    PendingInList(r.out);
  }

  lemma {:induction false} SendChunkOk(c: Out, n: nat)
    requires OutOk(c) && c.buf == [] && c.reply != [] && c.reply[0].Some?
    ensures var r := SendChunk(c, n);
            Passes(c, r) && (r.out.reply == c.reply || r.out.reply == c.reply[1..])
  {
    var o := c.reply[0].value;
    var k := Min(n, |o| - c.sentlen);
    if c.sentlen + k == |o| {
      WholeChunk(c, SendChunk(c, n));
    } else {
      PartOfChunk(c, k, SendChunk(c, n));
    }
  }

  lemma {:induction false} PendingInList(c: Out)
    requires OutOk(c) && c.buf == []
    ensures c.sentlen <= |ListSyms(c.reply)| && Pending(c) == ListSyms(c.reply)[c.sentlen..]
  {
    SentWithin(c);
    assert [] + ListSyms(c.reply) == ListSyms(c.reply);
  }

  lemma {:induction false} SendOk(c: Out, n: nat)
    requires OutOk(c) && Holes(c.reply) == 0 && (c.buf != [] || c.reply != [])
    ensures var r := Send(c, n);
            Passes(c, r) && Holes(r.out.reply) == 0
  {
    if c.buf != [] {
      SendBufOk(c, n);
    } else {
      NoHoles(c.reply);
      SendChunkOk(c, n);
    }
  }

  /** Bytes and chunks that are left. */
  function Left(c: Out): nat
    requires OutOk(c)
  {
    |Pending(c)| + |c.reply|
  }

  lemma {:induction false} PassesLength(c: Out, r: Sent)
    requires OutOk(c) && Passes(c, r)
    ensures |Pending(c)| == |r.bytes| + |Pending(r.out)|
  {
    SymsClean(r.bytes);
  }

  lemma {:induction false} BufProgress(c: Out, n: nat, r: Sent)
    requires OutOk(c) && c.buf != [] && n > 0 && r == SendBuf(c, n)
    ensures OutOk(r.out) && Left(r.out) < Left(c)
  {
    SendBufOk(c, n);
    PassesLength(c, r);
    assert |r.bytes| > 0;
  }

  lemma {:induction false} ChunkTakes(c: Out, n: nat, r: Sent)
    requires OutOk(c) && c.buf == [] && c.reply != [] && c.reply[0].Some? && n > 0 && r == SendChunk(c, n)
    ensures |r.out.reply| <= |c.reply| && (|r.bytes| > 0 || |r.out.reply| < |c.reply|)
  {
  }

  lemma {:induction false} ChunkProgress(c: Out, n: nat, r: Sent)
    requires OutOk(c) && c.buf == [] && c.reply != [] && c.reply[0].Some? && n > 0 && r == SendChunk(c, n)
    ensures OutOk(r.out) && Left(r.out) < Left(c)
  {
    ChunkTakes(c, n, r);
    assert Passes(c, r) by { SendChunkOk(c, n); }
    PassesLength(c, r);
  }

  /** A round in which write takes something makes progress. */
  lemma {:induction false} SendProgress(c: Out, n: nat)
    requires OutOk(c) && Holes(c.reply) == 0 && (c.buf != [] || c.reply != []) && n > 0
    ensures var r := Send(c, n); OutOk(r.out) && Left(r.out) < Left(c)
  {
    if c.buf != [] {
      BufProgress(c, n, SendBuf(c, n));
    } else {
      NoHoles(c.reply);
      ChunkProgress(c, n, SendChunk(c, n));
    }
  }

  /** When nothing is left there is nothing to write. */
  lemma {:induction false} NothingLeft(c: Out)
    requires OutOk(c)
    ensures Left(c) == 0 <==> c.buf == [] && c.reply == []
  {
    SymsClean(c.buf);
  }

  // ----------------------------------------------------------------------- whole runs

  /** SetLen fills the open place number h. */
  datatype Event = Reply(bytes: Bytes) | DeferLen | SetLen(h: nat, bytes: Bytes) | Write(n: nat)

  predicate Enabled(c: Out, e: Event)
  {
    OutOk(c)
    && match e
       case Reply(_) => true
       case DeferLen => true
       case SetLen(h, _) => h < Holes(c.reply)
       case Write(_) => Holes(c.reply) == 0 && (c.buf != [] || c.reply != [])
  }

  /** The output after an event, and what it sent. */
  function Step(c: Out, e: Event): Sent
    requires Enabled(c, e)
  {
    match e
    case Reply(s) => Sent(AddReply(c, s), [])
    case DeferLen => Sent(Defer(c), [])
    case SetLen(h, s) => Sent(SetLength(c, h, s), [])
    case Write(n) => Send(c, n)
  }

  predicate CanRun(c: Out, evs: seq<Event>)
    decreases |evs|
  {
    evs == [] || (Enabled(c, evs[0]) && CanRun(Step(c, evs[0]).out, evs[1..]))
  }

  /** The output after the events, and everything they sent. */
  function Run(c: Out, evs: seq<Event>): Sent
    requires CanRun(c, evs)
    decreases |evs|
  {
    if evs == [] then Sent(c, [])
    else
      var first := Step(c, evs[0]);
      var rest := Run(first.out, evs[1..]);
      Sent(rest.out, first.bytes + rest.bytes)
  }

  /** What the client should get: the replies in order, every length in its place. */
  function Asked(s: seq<Sym>, evs: seq<Event>): seq<Sym>
    decreases |evs|
  {
    if evs == [] then s else Asked(AskedBy(s, evs[0]), evs[1..])
  }

  function AskedBy(s: seq<Sym>, e: Event): seq<Sym>
  {
    match e
    case Reply(x) => s + Syms(x)
    case DeferLen => s + [Hole]
    case SetLen(h, x) => Fill(s, h, Syms(x))
    case Write(_) => s
  }

  /** One event: what was sent before and what is still to be sent is what is asked. */
  lemma {:induction false} StepOk(c: Out, e: Event, before: Bytes)
    requires Enabled(c, e)
    ensures var r := Step(c, e);
            OutOk(r.out) && Syms(before + r.bytes) + Pending(r.out) == AskedBy(Syms(before) + Pending(c), e)
  {
    match e
    case Reply(s) =>
      AddReplyOk(c, s);
      Assoc(Syms(before), Pending(c), Syms(s));
      assert before + [] == before;
    case DeferLen =>
      DeferOk(c);
      Assoc(Syms(before), Pending(c), [Hole]);
      assert before + [] == before;
    case SetLen(h, s) =>
      SetLengthOk(c, h, s);
      SymsClean(before);
      FillAfter(Syms(before), Pending(c), h, Syms(s));
      assert before + [] == before;
    case Write(n) =>
      SendOk(c, n);
      var r := Send(c, n);
      SymsAppend(before, r.bytes);
      Assoc(Syms(before), Syms(r.bytes), Pending(r.out));
  }

  lemma {:induction false} BytesAssoc(a: Bytes, b: Bytes, c: Bytes)
    ensures a + b + c == a + (b + c)
  {
  }

  lemma {:induction false} RunOk(c: Out, evs: seq<Event>, before: Bytes)
    requires OutOk(c) && CanRun(c, evs)
    ensures var r := Run(c, evs);
            OutOk(r.out) && Syms(before + r.bytes) + Pending(r.out) == Asked(Syms(before) + Pending(c), evs)
    decreases |evs|
  {
    if evs == [] {
      assert before + [] == before;
    } else {
      StepOk(c, evs[0], before);
      var first := Step(c, evs[0]);
      RunOk(first.out, evs[1..], before + first.bytes);
      BytesAssoc(before, first.bytes, Run(first.out, evs[1..]).bytes);
    }
  }

  const NEW: Out := Out([], 0, [], 0)

  /** Whatever replies are added, lengths filled in and bytes the socket takes, in any
      order: what was sent, followed by what is still to be sent, is the replies in
      order, and the count of bytes in the list is exact. */
  lemma {:induction false} RepliesInOrder(evs: seq<Event>)
    requires CanRun(NEW, evs)
    ensures var r := Run(NEW, evs);
            && OutOk(r.out) && r.out.replyBytes == ListBytes(r.out.reply)
            && Syms(r.bytes) + Pending(r.out) == Asked([], evs)
  {
    RunOk(NEW, evs, []);
    assert [] + Run(NEW, evs).bytes == Run(NEW, evs).bytes;
    assert Syms([]) + Pending(NEW) == [];
  }

  // ------------------------------------------------------------------------ the object

  /** The output part of a client that takes replies, and the bytes its socket took. */
  class Output {
    const buf: array<byte>
    var bufpos: nat
    var sentlen: nat
    var reply: seq<Chunk>
    var replyBytes: nat
    var socket: Bytes

    ghost predicate Valid()
      reads this, buf
    {
      buf.Length == BUF_SIZE && bufpos <= BUF_SIZE && OutOk(Out(buf[..bufpos], sentlen, reply, replyBytes))
    }

    ghost function Model(): Out
      reads this, buf
      requires bufpos <= buf.Length
    {
      Out(buf[..bufpos], sentlen, reply, replyBytes)
    }

    constructor ()
      ensures Valid() && fresh(buf) && Model() == NEW && socket == []
    {
      buf := new byte[BUF_SIZE](_ => 0);
      bufpos, sentlen, reply, replyBytes, socket := 0, 0, [], 0, [];
    }

    /** _addReplyToBuffer: false when the reply has to go to the list */
    method AddToBuffer(s: Bytes) returns (ok: bool)
      requires Valid()
      modifies this`bufpos, buf
      ensures bufpos <= BUF_SIZE
      ensures ok == (reply == [] && |s| + old(bufpos) <= BUF_SIZE)
      ensures buf[..bufpos] == if ok then old(buf[..bufpos]) + s else old(buf[..bufpos])
    {
      if |reply| > 0 { return false; }
      if |s| > BUF_SIZE - bufpos { return false; }
      var i := 0;
      while i < |s|
        invariant 0 <= i <= |s| && bufpos == old(bufpos)
        invariant buf[..bufpos + i] == old(buf[..bufpos]) + s[..i]
      {
        buf[bufpos + i] := s[i];
        i := i + 1;
      }
      bufpos := bufpos + |s|;
      return true;
    }

    /** _addReplyStringToList */
    method AddStringToList(s: Bytes)
      requires Valid()
      modifies this`reply, this`replyBytes
      ensures Model() == AddToList(old(Model()), s)
    {
      var n := |reply|;
      if n == 0 {
        reply := [Some(s)];
      } else {
        var tail := reply[n - 1];
        if tail.Some? && |tail.value| + |s| <= CHUNK_BYTES {
          reply := reply[..n - 1] + [Some(tail.value + s)];
        } else {
          reply := reply + [Some(s)];
        }
      }
      replyBytes := replyBytes + |s|;
    }

    /** addReplyString */
    method Add(s: Bytes)
      requires Valid()
      modifies this, buf
      ensures Valid() && Model() == AddReply(old(Model()), s) && socket == old(socket)
      ensures Pending(Model()) == old(Pending(Model())) + Syms(s)
    {
      AddReplyOk(Model(), s);
      var ok := AddToBuffer(s);
      if !ok { AddStringToList(s); }
    }

    /** addDeferredMultiBulkLength */
    method AddDeferred()
      requires Valid()
      modifies this`reply
      ensures Valid() && Model() == Defer(old(Model()))
      ensures Pending(Model()) == old(Pending(Model())) + [Hole]
    {
      DeferOk(Model());
      reply := reply + [None];
    }

    /** setDeferredMultiBulkLength, of the node of open place h */
    method SetDeferred(ghost h: nat, k: nat, len: Bytes)
      requires Valid() && h < Holes(reply) && k == NodeOf(reply, h)
      modifies this`reply, this`replyBytes
      ensures Valid() && Model() == SetLength(old(Model()), h, len)
      ensures Pending(Model()) == Fill(old(Pending(Model())), h, Syms(len))
    {
      SetLengthOk(Model(), h, len);
      reply := reply[k := Some(len)];
      replyBytes := replyBytes + |len|;
      if k + 1 < |reply| {
        var next := reply[k + 1];
        if next.Some? { reply := reply[..k] + [Some(len + next.value)] + reply[k + 2..]; }
      }
    }

    /** A write of what is left of the static buffer; taken: what write returned. */
    method WriteBuffer(taken: nat) returns (ghost sent: Bytes)
      requires Valid() && bufpos > 0
      modifies this`socket, this`sentlen, this`bufpos
      ensures bufpos <= BUF_SIZE && socket == old(socket) + sent
      ensures Sent(Model(), sent) == SendBuf(old(Model()), taken)
    {
      var n := Min(taken, bufpos - sentlen);
      sent := buf[sentlen..sentlen + n];
      assert buf[..bufpos][sentlen..sentlen + n] == buf[sentlen..sentlen + n];
      socket := socket + buf[sentlen..sentlen + n];
      sentlen := sentlen + n;
      if sentlen == bufpos { bufpos, sentlen := 0, 0; }
    }

    /** A write of what is left of the first chunk. */
    method WriteChunk(taken: nat) returns (ghost sent: Bytes)
      requires Valid() && bufpos == 0 && reply != [] && reply[0].Some?
      modifies this`socket, this`sentlen, this`reply, this`replyBytes
      ensures socket == old(socket) + sent
      ensures Sent(Model(), sent) == SendChunk(old(Model()), taken)
    {
      var o := reply[0].value;
      var n := Min(taken, |o| - sentlen);
      sent := o[sentlen..sentlen + n];
      socket := socket + o[sentlen..sentlen + n];
      sentlen := sentlen + n;
      if sentlen == |o| {
        reply, sentlen := reply[1..], 0;
        replyBytes := replyBytes - |o|;
      }
    }

    /** One round of writeToClient. */
    method WriteOnce(taken: nat) returns (ghost sent: Bytes)
      requires Valid() && Holes(reply) == 0 && (bufpos > 0 || reply != [])
      modifies this
      ensures Valid() && Holes(reply) == 0 && socket == old(socket) + sent
      ensures Sent(Model(), sent) == Send(old(Model()), taken)
      ensures old(Pending(Model())) == Syms(sent) + Pending(Model())
    {
      SendOk(Model(), taken);
      if bufpos > 0 { sent := WriteBuffer(taken); } else { sent := WriteChunk(taken); }
    }

    /** writeToClient; results: what the successive writes return */
    method WriteToClient(results: seq<nat>)
      requires Valid() && Holes(reply) == 0
      modifies this
      ensures Valid() && Holes(reply) == 0 && old(socket) <= socket
      ensures Syms(old(socket)) + old(Pending(Model())) == Syms(socket) + Pending(Model())
      ensures (forall i :: 0 <= i < |results| ==> results[i] > 0) && |results| >= old(Left(Model())) ==>
                bufpos == 0 && reply == [] && Syms(socket) == Syms(old(socket)) + old(Pending(Model()))
    {
      var i := 0;
      while i < |results| && results[i] > 0 && (bufpos > 0 || reply != [])
        invariant i <= |results| && Valid() && Holes(reply) == 0 && old(socket) <= socket
        invariant Syms(old(socket)) + old(Pending(Model())) == Syms(socket) + Pending(Model())
        invariant Left(Model()) + i <= old(Left(Model()))
      {
        ghost var s0 := socket;
        SendProgress(Model(), results[i]);
        ghost var sent := WriteOnce(results[i]);
        SymsAppend(s0, sent);
        Assoc(Syms(s0), Syms(sent), Pending(Model()));
        i := i + 1;
      }
      NothingLeft(Model());
      assert Pending(Model()) == [] ==> Syms(socket) + Pending(Model()) == Syms(socket);
    }
  }
}
