/** One connection: the read loop that frames requests, the queue of responses, and the
    write loop that drains it. */
module Framing {
  import opened Wire
  import opened CacheSpec
  import opened HvSpec

  datatype State = OK | DATA_ERROR | CONNECTION_ERROR | INTERNAL_ERROR

  /** The four bytes of a `State` as it lies in memory; `handle_write` sends them as they
      are, in the byte order of a little-endian host. */
  function StateBytes(s: State): (b: seq<Byte>)
    ensures |b| == WORD_SIZE
  {
    [match s
     case OK => 0
     case DATA_ERROR => 1
     case CONNECTION_ERROR => 2
     case INTERNAL_ERROR => 3, 0, 0, 0]
  }

  datatype Reply = Reply(id: Word, state: State)

  function ReplyHeader(r: Reply): Header {
    Header(r.id, WORD_SIZE)
  }

  /** The twelve bytes of a response on the wire. */
  function ReplyBytes(r: Reply): seq<Byte> {
    HeaderBytes(ReplyHeader(r)) + StateBytes(r.state)
  }

  /** What the environment decides: whether the file cache of request number `n` and the
      memory cache of response number `n` can be created. */
  datatype Env = Env(disk: nat -> bool, mem: nat -> bool)

  ghost predicate FilesCreated(env: Env) {
    forall n: nat :: env.disk(n)
  }

  ghost predicate BlocksCreated(env: Env) {
    forall n: nat :: env.mem(n)
  }

  /** An `HV` in the response queue. The queue holds copies that share the cache;
      `serial` identifies the cache. */
  datatype Entry = Entry(hv: Hv, serial: nat)

  /** The socket as the responses see it: how many bytes it takes before a `send` fails for
      good, if one does; the bytes it has taken; and the bytes it was offered after that. */
  datatype Socket = Socket(room: Option<nat>, sent: seq<Byte>, lost: seq<Byte>)
  {
    predicate Inv() {
      lost != [] ==> room == Some(0)
    }
  }

  /** Offer bytes to the socket. */
  function Take(s: Socket, data: seq<Byte>): Socket {
    match s.room
    case None => s.(sent := s.sent + data)
    case Some(n) =>
      var k := Min(n, |data|);
      Socket(Some(n - k), s.sent + data[..k], s.lost + data[k..])
  }

  lemma TakeTwice(s: Socket, a: seq<Byte>, b: seq<Byte>)
    ensures Take(Take(s, a), b) == Take(s, a + b)
  {
    if s.room.Some? {
      var n := s.room.value;
      if n <= |a| {
        assert (a + b)[..n] == a[..n] && (a + b)[n..] == a[n..] + b;
      } else {
        var k := Min(n, |a + b|);
        assert a[..|a|] == a && a[|a|..] == [];
        assert (a + b)[..k] == a + b[..k - |a|] && (a + b)[k..] == b[k - |a|..];
      }
    }
  }

  /** Nothing offered disappears: it is taken, in order, until the socket fails. */
  lemma TakeConserves(s: Socket, data: seq<Byte>)
    requires s.Inv()
    ensures var t := Take(s, data);
            && t.Inv() && s.sent <= t.sent && t.sent + t.lost == s.sent + s.lost + data
            && (s.room.None? ==> t.room.None? && t.lost == s.lost)
  {
    if s.room.Some? {
      var k := Min(s.room.value, |data|);
      assert data[..k] + data[k..] == data;
    }
  }

  lemma TakeNothing(s: Socket)
    ensures Take(s, []) == s
  {
  }

  /** A connection. `req` and `resp` are the fields of `VirusHandler`; the rest is history:
      every reply ever queued, the request files closed so far (the bytes they accepted), the
      socket, the response caches released, the bytes received, and whether a header copy has
      left the header, after which nothing more is said. */
  datatype Conn = Conn(req: Hv, resp: seq<Entry>, replies: seq<Reply>, stored: seq<seq<Byte>>,
                       out: Socket, freed: seq<nat>, received: seq<Byte>, fault: bool)
  {
    predicate Inv() {
      req.Inv() && !req.valueComplete
    }
  }

  const START := Conn(FRESH, [], [], [], Socket(None, [], []), [], [], false)

  // ---------------------------------------------------------------- requests and responses

  function ClearReq(c: Conn): Conn
    requires c.req.to.Some?
  {
    c.(req := Clear(c.req), stored := c.stored + Closed(c.req))
  }

  function Respond(env: Env, c: Conn, state: State): Conn
    requires c.req.head.Some?
  {
    var reply := Reply(c.req.head.value.id, state);
    var n := |c.replies|;
    var hv := Store(FRESH, ReplyHeader(reply), StateBytes(state), env.mem(n)).0;
    c.(resp := c.resp + [Entry(hv, n)], replies := c.replies + [reply])
  }

  function Finish(env: Env, c: Conn, state: State): Conn
    requires c.req.to.Some? && c.req.head.Some?
  {
    Respond(env, ClearReq(c), state)
  }

  /** The part of a loop iteration that follows a successful `write`. */
  function Settle(env: Env, c: Conn): (c': Conn)
    requires c.req.Inv()
    ensures c'.Inv()
  {
    if c.req.Complete() then Finish(env, c, OK) else c
  }

  // ---------------------------------------------------------------- the read loop

  /** The loop of `handle_read` on a non-empty buffer. An iteration may use no byte, so the
      buffer alone does not shrink; the head flag breaks the tie. */
  function ReadLoop(env: Env, c: Conn, data: seq<Byte>): (c': Conn)
    requires c.Inv() && data != []
    ensures c'.Inv()
    decreases 2 * |data| + if c.req.headComplete then 1 else 0
  {
    var w := Write(c.req, data, env.disk(|c.replies|));
    match w.1
    case Stray => c.(fault := true)
    case CreateFailed => Finish(env, c.(req := w.0), INTERNAL_ERROR)
    case Wrote(n) =>
      WriteProgress(c.req, data, env.disk(|c.replies|));
      var c1 := Settle(env, c.(req := w.0));
      if n == |data| then c1 else ReadLoop(env, c1, data[n..])
  }

  /** One iteration of the loop, outcome by outcome. */
  lemma LoopStep(env: Env, c: Conn, data: seq<Byte>)
    requires c.Inv() && data != []
    ensures var w := Write(c.req, data, env.disk(|c.replies|));
            match w.1
            case Stray => w.0 == c.req && ReadLoop(env, c, data) == c.(fault := true)
            case CreateFailed =>
              && w.0.headComplete && w.0.value.None? && w.0.to.Some? && w.0.head.Some?
              && ReadLoop(env, c, data) == Finish(env, c.(req := w.0), INTERNAL_ERROR)
            case Wrote(n) =>
              && n <= |data|
              && var c1 := Settle(env, c.(req := w.0));
              && c1.Inv()
              && (n == 0 ==> c.req.headComplete && !c1.req.headComplete)
              && ReadLoop(env, c, data) == if n == |data| then c1 else ReadLoop(env, c1, data[n..])
  {
    var ok := env.disk(|c.replies|);
    WriteProgress(c.req, data, ok);
    WriteProblems(c.req, data, ok);
    hide Write, Finish;
    var w := Write(c.req, data, ok);
    if w.0.Complete() {
      SettleClearsHead(env, c.(req := w.0));
    }
    hide Settle;
  }

  lemma SettleClearsHead(env: Env, c: Conn)
    requires c.req.Inv() && c.req.Complete()
    ensures !Settle(env, c).req.headComplete
  {
  }

  /** `handle_read` for a `recv` that returned `data`; an empty `recv` changes nothing here. */
  function Read(env: Env, c: Conn, data: seq<Byte>): (c': Conn)
    requires c.Inv()
    ensures c'.Inv() && c'.received == c.received + data
  {
    if c.fault || data == [] then c.(received := c.received + data)
    else
      LoopFrame(env, c, data);
      ReadLoop(env, c, data).(received := c.received + data)
  }

  lemma {:induction false} LoopFrame(env: Env, c: Conn, data: seq<Byte>)
    requires c.Inv() && data != []
    ensures var c' := ReadLoop(env, c, data);
            && c'.out == c.out && c'.freed == c.freed && c'.received == c.received
            && c.replies <= c'.replies && c.resp <= c'.resp
            && |c'.replies| - |c.replies| == |c'.resp| - |c.resp|
    decreases 2 * |data| + if c.req.headComplete then 1 else 0
  {
    hide Write, ReadLoop, Store, Clear, Closed;
    LoopStep(env, c, data);
    var w := Write(c.req, data, env.disk(|c.replies|));
    if w.1.Wrote? && w.1.n < |data| {
      LoopFrame(env, Settle(env, c.(req := w.0)), data[w.1.n..]);
    }
  }

  // ---------------------------------------------------------------- the write loop

  predicate Emittable(e: Entry) {
    e.hv.value.Some? ==> e.hv.value.value.Valid()
  }

  /** The connection after the first response has been popped, sent and released. */
  function Shift(c: Conn): Conn
    requires c.resp != [] && Emittable(c.resp[0])
  {
    var e := c.resp[0];
    c.(resp := c.resp[1..], out := Take(c.out, Emit(e.hv)),
       freed := c.freed + if e.hv.value.Some? then [e.serial] else [])
  }

  function Drain(c: Conn): (c': Conn)
    requires forall e <- c.resp :: Emittable(e)
    ensures c'.req == c.req
    decreases |c.resp|
  {
    if c.resp == [] then c else Drain(Shift(c))
  }

  /** `handle_write` on a socket that takes everything, or only `room` more bytes. When a
      `send` fails for good the handler closes its descriptor, but the loop goes on: every
      response is popped and its cache released, and later sends fail as well. */
  function WriteOut(c: Conn, room: Option<nat>): Conn
    requires forall e <- c.resp :: Emittable(e)
  {
    if room.None? then Drain(c) else Shut(Drain(c.(out := Limit(c.out, room.value))))
  }

  function Limit(s: Socket, n: nat): Socket {
    if s.room.None? then s.(room := Some(n)) else s
  }

  function Shut(c: Conn): Conn {
    c.(out := c.out.(room := Some(0)))
  }

  // ---------------------------------------------------------------- chunk independence

  /** Between chunks the loop is never in the middle of a header unless the buffer ended
      there; a buffer that starts at a header boundary or inside a value never strays. */
  lemma {:induction false} NoStrayInside(env: Env, c: Conn, data: seq<Byte>)
    requires c.Inv() && data != [] && !c.fault && !c.req.MidHeader()
    ensures !ReadLoop(env, c, data).fault
    decreases 2 * |data| + if c.req.headComplete then 1 else 0
  {
    LoopStep(env, c, data);
    assert !Strays(c.req, data);
    var w := Write(c.req, data, env.disk(|c.replies|));
    assert !w.1.Stray?;
    if w.1.Wrote? && w.1.n < |data| {
      WriteProgress(c.req, data, env.disk(|c.replies|));
      assert Settle(env, c.(req := w.0)).req.hlen == 0;
      hide Write, ReadLoop, Settle;
      NoStrayInside(env, Settle(env, c.(req := w.0)), data[w.1.n..]);
    }
  }

  /** A write outside a header fails only for want of a cache, and otherwise does what it
      would if the cache could be created. */
  lemma WriteOutcomes(h: Hv, data: seq<Byte>, ok: bool)
    requires h.Inv() && !h.MidHeader()
    ensures Write(h, data, true).1.Wrote?
    ensures Write(h, data, ok) == Write(h, data, true) || (!ok && Write(h, data, ok).1.CreateFailed?)
  {
  }

  /** Offering `a + b` at once: if the write of `a` alone leaves bytes of `a` over, `b`
      makes no difference to it. */
  lemma WriteIgnoresRest(h: Hv, a: seq<Byte>, b: seq<Byte>, ok: bool)
    requires h.Inv() && !h.valueComplete && !h.MidHeader() && a != []
    requires Write(h, a, ok).1.Wrote? && Write(h, a, ok).0.Complete()
    ensures Write(h, a + b, ok) == Write(h, a, ok)
  {
    var n := HeadTaken(h, a);
    assert (a + b)[..n] == a[..n];
    var h1 := WriteHead(h, a);
    assert h1 == WriteHead(h, a + b);
    assert (a + b)[n..] == a[n..] + b;
    var c := ValueCache(h1);
    PushTwice(c, a[n..], b);
    assert Push(c, a[n..]).Full();
    assert Push(c, a[n..] + b) == Push(c, a[n..]);
  }

  /** If the write of `a` neither completes the message nor ends inside a header, then
      writing `b` after it is writing `a + b`. */
  lemma WriteContinues(h: Hv, a: seq<Byte>, b: seq<Byte>, ok: bool)
    requires h.Inv() && !h.valueComplete && !h.MidHeader() && a != [] && b != []
    requires var r := Write(h, a, ok); r.1.Wrote? && !r.0.Complete() && !r.0.MidHeader()
    ensures var r := Write(h, a, ok);
            var s := Write(r.0, b, ok);
            && !r.0.valueComplete && !s.1.Stray?
            && Write(h, a + b, ok) == (s.0, if s.1.Wrote? then Wrote(|a| + s.1.n) else CreateFailed)
  {
    hide ParseHeader, WriteValue;
    WriteProgress(h, a, ok);
    var n := HeadTaken(h, a);
    assert (a + b)[..n] == a[..n];
    var h1 := WriteHead(h, a);
    ValueKeepsHead(h1, a[n..], ok);
    assert h1 == WriteHead(h, a + b);
    assert (a + b)[n..] == a[n..] + b;
    ValueContinues(h1, a[n..], b, ok);
  }

  lemma ValueKeepsHead(h: Hv, data: seq<Byte>, ok: bool)
    requires h.Inv()
    ensures var r := WriteValue(h, data, ok);
            r.0.hlen == h.hlen && r.0.headComplete == h.headComplete
  {
  }

  lemma ValueContinues(h: Hv, a: seq<Byte>, b: seq<Byte>, ok: bool)
    requires h.Inv() && h.headComplete && !h.valueComplete && b != []
    requires var r := WriteValue(h, a, ok); r.1.Wrote? && !r.0.Complete()
    ensures var r := WriteValue(h, a, ok);
            var s := WriteValue(r.0, b, ok);
            && r.0.headComplete && r.0.hlen == h.hlen && !s.1.Stray?
            && WriteValue(h, a + b, ok) == (s.0, if s.1.Wrote? then Wrote(r.1.n + s.1.n) else CreateFailed)
  {
    if a == [] {
      assert a + b == b;
    } else {
      PushTwice(ValueCache(h), a, b);
    }
  }

  /** A write that is refused a cache is refused it whatever else is offered. */
  lemma WriteRefused(h: Hv, a: seq<Byte>, b: seq<Byte>, ok: bool)
    requires h.Inv() && !h.MidHeader() && Write(h, a, ok).1.CreateFailed?
    ensures Write(h, a + b, ok) == Write(h, a, ok)
  {
    var n := HeadTaken(h, a);
    assert (a + b)[..n] == a[..n];
    assert (a + b)[n..] == a[n..] + b;
  }

  /** The loop on this buffer ends because a request is refused its file cache. */
  predicate Refused(env: Env, c: Conn, data: seq<Byte>)
    requires c.Inv() && data != []
    decreases 2 * |data| + if c.req.headComplete then 1 else 0
  {
    var w := Write(c.req, data, env.disk(|c.replies|));
    match w.1
    case Stray => false
    case CreateFailed => true
    case Wrote(n) =>
      WriteProgress(c.req, data, env.disk(|c.replies|));
      n < |data| && Refused(env, Settle(env, c.(req := w.0)), data[n..])
  }

  /** An iteration that completes a request leaves the rest of the buffer to the next. */
  lemma LoopCompletes(env: Env, c: Conn, a: seq<Byte>, b: seq<Byte>)
    requires c.Inv() && a != [] && b != [] && !c.req.MidHeader()
    requires var w := Write(c.req, a, env.disk(|c.replies|)); w.1.Wrote? && w.0.Complete()
    ensures var w := Write(c.req, a, env.disk(|c.replies|));
            && w.1.n <= |a|
            && (w.1.n == 0 ==> c.req.headComplete)
            && ReadLoop(env, c, a + b) == ReadLoop(env, Settle(env, c.(req := w.0)), a[w.1.n..] + b)
  {
    hide Write, ReadLoop, Settle;
    var ok := env.disk(|c.replies|);
    WriteProgress(c.req, a, ok);
    WriteIgnoresRest(c.req, a, b, ok);
    LoopStep(env, c, a + b);
    var n := Write(c.req, a, ok).1.n;
    assert (a + b)[n..] == a[n..] + b;
  }

  /** An iteration that neither completes a request nor stops inside a header. */
  lemma LoopContinues(env: Env, c: Conn, a: seq<Byte>, b: seq<Byte>)
    requires c.Inv() && a != [] && b != [] && !c.req.MidHeader()
    requires var r := Write(c.req, a, env.disk(|c.replies|)); r.1.Wrote? && !r.0.Complete() && !r.0.MidHeader()
    ensures ReadLoop(env, c, a + b) == ReadLoop(env, c.(req := Write(c.req, a, env.disk(|c.replies|)).0), b)
  {
    hide Write, ReadLoop, Settle, Finish, Hv.Inv;
    var ok := env.disk(|c.replies|);
    WriteContinues(c.req, a, b, ok);
    var r := Write(c.req, a, ok);
    var s, c1 := Write(r.0, b, ok), c.(req := r.0);
    LoopStep(env, c, a + b);
    LoopStep(env, c1, b);
    assert c1.(req := s.0) == c.(req := s.0);
    if s.1.Wrote? {
      assert (a + b)[|a| + s.1.n..] == b[s.1.n..];
    }
  }

  /** Cutting a buffer anywhere but inside a header leaves the loop's result unchanged, as
      long as no request in the first part is refused its cache. */
  lemma {:induction false} LoopSplits(env: Env, c: Conn, a: seq<Byte>, b: seq<Byte>)
    requires c.Inv() && a != [] && b != [] && !c.req.MidHeader()
    ensures !Refused(env, c, a) && !ReadLoop(env, c, a).req.MidHeader() ==>
              ReadLoop(env, c, a + b) == ReadLoop(env, ReadLoop(env, c, a), b)
    decreases 2 * |a| + if c.req.headComplete then 1 else 0
  {
    hide Write, Settle;
    var ok := env.disk(|c.replies|);
    var w := Write(c.req, a, ok);
    WriteOutcomes(c.req, a, ok);
    LoopStep(env, c, a);
    if w.1.Wrote? {
      WriteProgress(c.req, a, ok);
      if w.0.Complete() {
        LoopCompletes(env, c, a, b);
        var c1, rest := Settle(env, c.(req := w.0)), a[w.1.n..];
        if rest == [] {
          assert rest + b == b;
        } else {
          SettleOutsideHeader(env, c.(req := w.0));
          LoopSplits(env, c1, rest, b);
        }
      } else {
        SettleIncomplete(env, c.(req := w.0));
        if !w.0.MidHeader() {
          LoopContinues(env, c, a, b);
        }
      }
    }
  }

  lemma SettleOutsideHeader(env: Env, c: Conn)
    requires c.req.Inv() && c.req.Complete()
    ensures Settle(env, c).req.hlen == 0
  {
  }

  lemma SettleIncomplete(env: Env, c: Conn)
    requires c.req.Inv() && !c.req.Complete()
    ensures Settle(env, c) == c
  {
  }

  /** After a refusal nothing is left of the message, and the bytes after it are dropped. */
  lemma {:induction false} LoopRefuses(env: Env, c: Conn, a: seq<Byte>, b: seq<Byte>)
    requires c.Inv() && a != [] && b != [] && !c.req.MidHeader() && Refused(env, c, a)
    ensures ReadLoop(env, c, a + b) == ReadLoop(env, c, a)
    ensures ReadLoop(env, c, a).req.hlen == 0
    decreases 2 * |a| + if c.req.headComplete then 1 else 0
  {
    hide Write, Settle;
    var ok := env.disk(|c.replies|);
    var w := Write(c.req, a, ok);
    LoopStep(env, c, a);
    if w.1.CreateFailed? {
      WriteRefused(c.req, a, b, ok);
      LoopStep(env, c, a + b);
    } else {
      WriteProgress(c.req, a, ok);
      LoopCompletes(env, c, a, b);
      SettleOutsideHeader(env, c.(req := w.0));
      LoopRefuses(env, Settle(env, c.(req := w.0)), a[w.1.n..], b);
    }
  }

  /** A read that starts between messages queues a reply or leaves part of a message. */
  lemma ReadMoves(env: Env, c: Conn, data: seq<Byte>)
    requires c.Inv() && !c.fault && c.req.hlen == 0 && data != []
    ensures var c' := Read(env, c, data);
            |c'.replies| > |c.replies| || c'.req.hlen > 0
  {
    var ok := env.disk(|c.replies|);
    var w := Write(c.req, data, ok);
    LoopStep(env, c, data);
    assert !w.1.Stray?;
    assert w.0.hlen > 0;
    if w.1.Wrote? && w.0.Complete() && w.1.n < |data| {
      LoopFrame(env, Settle(env, c.(req := w.0)), data[w.1.n..]);
    }
    WriteProgress(c.req, data, ok);
    hide Write, ReadLoop;
  }

  /** Chunk independence, with its exact condition, from every state and whatever caches can
      be created. Receiving `a` and then `b` leaves the same connection, response queue
      included, as receiving `a + b` at once, if and only if `a` does not end inside a header
      and no request in `a` is refused its file cache (or there is nothing to cut, or the
      connection had already faulted or was about to). */
  lemma ChunkIndependence(env: Env, c: Conn, a: seq<Byte>, b: seq<Byte>)
    requires c.Inv()
    ensures Read(env, Read(env, c, a), b) == Read(env, c, a + b)
            <==> || a == [] || b == [] || c.fault || c.req.MidHeader()
                 || (!Read(env, c, a).req.MidHeader() && !Refused(env, c, a))
  {
    hide Read, Refused;
    if a == [] || b == [] || c.fault || c.req.MidHeader() {
      CutImmaterial(env, c, a, b);
    } else if Refused(env, c, a) {
      CutAfterRefusal(env, c, a, b);
    } else if Read(env, c, a).req.MidHeader() {
      CutInsideHeader(env, c, a, b);
    } else {
      CutElsewhere(env, c, a, b);
    }
  }

  /** Nothing to cut, or nothing more to say. */
  lemma CutImmaterial(env: Env, c: Conn, a: seq<Byte>, b: seq<Byte>)
    requires c.Inv() && (a == [] || b == [] || c.fault || c.req.MidHeader())
    ensures Read(env, Read(env, c, a), b) == Read(env, c, a + b)
  {
    hide Read;
    assert c.received + a + b == c.received + (a + b);
    if c.fault {
      IdleRead(env, c, a);
      IdleRead(env, Read(env, c, a), b);
      IdleRead(env, c, a + b);
    } else if a == [] {
      assert a + b == b;
      IdleRead(env, c, a);
    } else if b == [] {
      assert a + b == a;
      IdleRead(env, Read(env, c, a), b);
    } else {
      StrayRead(env, c, a);
      StrayRead(env, c, a + b);
      IdleRead(env, Read(env, c, a), b);
    }
  }

  lemma IdleRead(env: Env, c: Conn, data: seq<Byte>)
    requires c.Inv() && (c.fault || data == [])
    ensures Read(env, c, data) == c.(received := c.received + data)
    ensures data == [] ==> Read(env, c, data) == c
  {
  }

  lemma StrayRead(env: Env, c: Conn, data: seq<Byte>)
    requires c.Inv() && !c.fault && data != [] && c.req.MidHeader()
    ensures Read(env, c, data) == c.(fault := true, received := c.received + data)
  {
    LoopStep(env, c, data);
    assert Write(c.req, data, env.disk(|c.replies|)).1.Stray?;
    hide Write, ReadLoop;
  }

  lemma CutInsideHeader(env: Env, c: Conn, a: seq<Byte>, b: seq<Byte>)
    requires c.Inv() && a != [] && b != [] && !c.fault && !c.req.MidHeader()
    requires Read(env, c, a).req.MidHeader()
    ensures Read(env, Read(env, c, a), b).fault && !Read(env, c, a + b).fault
  {
    NoStrayInside(env, c, a + b);
    var c1 := Read(env, c, a);
    assert !c1.fault ==> Write(c1.req, b, env.disk(|c1.replies|)).1.Stray?;
  }

  /** The bytes of `b` are dropped together with the refused chunk, or read after it. */
  lemma CutAfterRefusal(env: Env, c: Conn, a: seq<Byte>, b: seq<Byte>)
    requires c.Inv() && a != [] && b != [] && !c.fault && !c.req.MidHeader()
    requires Refused(env, c, a)
    ensures Read(env, Read(env, c, a), b) != Read(env, c, a + b)
  {
    LoopRefuses(env, c, a, b);
    NoStrayInside(env, c, a);
    hide ReadLoop, Refused;
    ReadMoves(env, Read(env, c, a), b);
    assert Read(env, c, a + b) == ReadLoop(env, c, a).(received := c.received + (a + b));
  }

  lemma CutElsewhere(env: Env, c: Conn, a: seq<Byte>, b: seq<Byte>)
    requires c.Inv() && a != [] && b != [] && !c.fault && !c.req.MidHeader()
    requires !Read(env, c, a).req.MidHeader() && !Refused(env, c, a)
    ensures Read(env, Read(env, c, a), b) == Read(env, c, a + b)
  {
    hide Write, Settle, ReadLoop, Refused;
    var c1 := ReadLoop(env, c, a);
    LoopSplits(env, c, a, b);
    NoStrayInside(env, c, a);
    LoopIgnoresHistory(env, c1, b, c.received + a);
    assert c.received + a + b == c.received + (a + b);
    assert Read(env, c, a + b) == ReadLoop(env, c, a + b).(received := c.received + (a + b));
  }

  /** The loop neither reads nor changes the record of received bytes. */
  lemma {:induction false} LoopIgnoresHistory(env: Env, c: Conn, data: seq<Byte>, received: seq<Byte>)
    requires c.Inv() && data != []
    ensures ReadLoop(env, c.(received := received), data) == ReadLoop(env, c, data).(received := received)
    decreases 2 * |data| + if c.req.headComplete then 1 else 0
  {
    LoopStep(env, c, data);
    LoopStep(env, c.(received := received), data);
    hide Write, ReadLoop;
    var w := Write(c.req, data, env.disk(|c.replies|));
    if w.1.Wrote? && w.1.n < |data| {
      LoopIgnoresHistory(env, Settle(env, c.(req := w.0)), data[w.1.n..], received);
    }
  }
}
