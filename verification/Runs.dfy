/** Whole runs of a connection: every interleaving of reads and writes. */
module Runs {
  import opened Wire
  import opened HvSpec
  import opened Framing
  import opened Decoder
  import opened Streams

  // ---------------------------------------------------------------- the response queue

  /** The queue entry that answers request number `n`. */
  function EntryFor(env: Env, reply: Reply, n: nat): Entry {
    Entry(Store(FRESH, ReplyHeader(reply), StateBytes(reply.state), env.mem(n)).0, n)
  }

  function Entries(env: Env, replies: seq<Reply>): (entries: seq<Entry>)
    ensures |entries| == |replies|
  {
    seq(|replies|, n requires 0 <= n < |replies| => EntryFor(env, replies[n], n))
  }

  lemma EntryEmits(env: Env, reply: Reply, n: nat)
    ensures var hv := EntryFor(env, reply, n).hv;
            && (hv.value.Some? <==> env.mem(n))
            && (hv.value.Some? ==> hv.value.value.Valid())
            && Emit(hv) == if env.mem(n) then ReplyBytes(reply) else []
  {
    if env.mem(n) {
      PopAllIsUnread(EntryFor(env, reply, n).hv.value.value, POP_SIZE);
    }
  }

  /** The bytes due for replies `from` and later: nothing for a reply whose cache could not
      be created. */
  function Due(env: Env, replies: seq<Reply>, from: nat): seq<Byte>
    requires from <= |replies|
    decreases |replies| - from
  {
    if from == |replies| then []
    else (if env.mem(from) then ReplyBytes(replies[from]) else []) + Due(env, replies, from + 1)
  }

  /** The serials of the response caches created for replies `from` up to `end`. */
  function Serials(env: Env, from: nat, end: nat): seq<nat>
    requires from <= end
    decreases end - from
  {
    if from == end then [] else (if env.mem(from) then [from] else []) + Serials(env, from + 1, end)
  }

  function AllReplyBytes(replies: seq<Reply>): seq<Byte> {
    if replies == [] then [] else ReplyBytes(replies[0]) + AllReplyBytes(replies[1..])
  }

  /** The queue is the tail of the replies ever made; what was offered to the socket and what
      was released are those of the replies before it. */
  predicate QueueInv(env: Env, c: Conn) {
    && |c.resp| <= |c.replies| && c.out.Inv()
    && c.resp == Entries(env, c.replies)[|c.replies| - |c.resp|..]
    && c.out.sent + c.out.lost + Due(env, c.replies, |c.replies| - |c.resp|) == Due(env, c.replies, 0)
    && c.freed + Serials(env, |c.replies| - |c.resp|, |c.replies|) == Serials(env, 0, |c.replies|)
  }

  lemma {:induction false} DueSnoc(env: Env, replies: seq<Reply>, r: Reply, from: nat)
    requires from <= |replies|
    ensures Due(env, replies + [r], from)
         == Due(env, replies, from) + if env.mem(|replies|) then ReplyBytes(r) else []
    decreases |replies| - from
  {
    hide ReplyBytes;
    if from < |replies| {
      DueSnoc(env, replies, r, from + 1);
    } else {
      assert Due(env, replies + [r], from + 1) == [];
    }
  }

  lemma {:induction false} SerialsSnoc(env: Env, from: nat, end: nat)
    requires from <= end
    ensures Serials(env, from, end + 1) == Serials(env, from, end) + if env.mem(end) then [end] else []
    decreases end - from
  {
    if from < end {
      SerialsSnoc(env, from + 1, end);
      var first, mid := if env.mem(from) then [from] else [], Serials(env, from + 1, end);
      var last: seq<nat> := if env.mem(end) then [end] else [];
      assert Serials(env, from, end + 1) == first + (mid + last);
      assert first + (mid + last) == first + mid + last;
    } else {
      assert Serials(env, end + 1, end + 1) == [];
    }
  }

  lemma EntriesSnoc(env: Env, replies: seq<Reply>, r: Reply)
    ensures Entries(env, replies + [r]) == Entries(env, replies) + [EntryFor(env, r, |replies|)]
  {
    hide EntryFor;
  }

  /** Queuing one more response keeps the queue in step with the replies. */
  lemma RespondKeepsQueue(env: Env, c: Conn, state: State)
    requires c.req.head.Some? && QueueInv(env, c)
    ensures QueueInv(env, Respond(env, c, state))
  {
    hide EntryFor, ReplyBytes, Due, Serials, Entries, Respond;
    var r := Reply(c.req.head.value.id, state);
    var k := |c.replies| - |c.resp|;
    RespondParts(env, c, state);
    EntriesSnoc(env, c.replies, r);
    DueSnoc(env, c.replies, r, k);
    DueSnoc(env, c.replies, r, 0);
    SerialsSnoc(env, k, |c.replies|);
    SerialsSnoc(env, 0, |c.replies|);
    assert Entries(env, c.replies + [r])[k..] == Entries(env, c.replies)[k..] + [EntryFor(env, r, |c.replies|)];
  }

  lemma RespondParts(env: Env, c: Conn, state: State)
    requires c.req.head.Some?
    ensures var c', r := Respond(env, c, state), Reply(c.req.head.value.id, state);
            && c'.resp == c.resp + [EntryFor(env, r, |c.replies|)] && c'.replies == c.replies + [r]
            && c'.out == c.out && c'.freed == c.freed
  {
  }

  /** Only these four fields matter to the queue. */
  lemma SameQueue(env: Env, c: Conn, c': Conn)
    requires QueueInv(env, c)
    requires c'.resp == c.resp && c'.replies == c.replies && c'.out == c.out && c'.freed == c.freed
    ensures QueueInv(env, c')
  {
  }

  lemma FinishKeepsQueue(env: Env, c: Conn, h: Hv, state: State)
    requires h.to.Some? && h.head.Some? && QueueInv(env, c)
    ensures QueueInv(env, Finish(env, c.(req := h), state))
  {
    hide QueueInv, Respond;
    var c1 := ClearReq(c.(req := h));
    SameQueue(env, c, c1);
    RespondKeepsQueue(env, c1, state);
  }

  lemma {:induction false} LoopKeepsQueue(env: Env, c: Conn, data: seq<Byte>)
    requires c.Inv() && data != [] && QueueInv(env, c)
    ensures QueueInv(env, ReadLoop(env, c, data))
    decreases 2 * |data| + if c.req.headComplete then 1 else 0
  {
    LoopStep(env, c, data);
    hide QueueInv, Write, Settle, Finish, ReadLoop;
    var w := Write(c.req, data, env.disk(|c.replies|));
    match w.1
    case Stray =>
      SameQueue(env, c, c.(fault := true));
    case CreateFailed =>
      FinishKeepsQueue(env, c, w.0, INTERNAL_ERROR);
    case Wrote(n) =>
      SettleKeepsQueue(env, c, w.0);
      if n < |data| {
        LoopKeepsQueue(env, Settle(env, c.(req := w.0)), data[n..]);
      }
  }

  lemma SettleKeepsQueue(env: Env, c: Conn, h: Hv)
    requires h.Inv() && QueueInv(env, c)
    ensures QueueInv(env, Settle(env, c.(req := h)))
  {
    hide QueueInv, Finish;
    if h.Complete() {
      FinishKeepsQueue(env, c, h, OK);
    } else {
      SameQueue(env, c, c.(req := h));
    }
  }

  lemma {:induction false} EntriesValid(env: Env, c: Conn)
    requires QueueInv(env, c)
    ensures forall e <- c.resp :: Emittable(e)
  {
    forall e | e in c.resp ensures Emittable(e) {
      var i :| 0 <= i < |c.resp| && c.resp[i] == e;
      var n := |c.replies| - |c.resp| + i;
      assert e == EntryFor(env, c.replies[n], n);
      EntryEmits(env, c.replies[n], n);
    }
  }

  /** Draining the queue offers exactly the bytes due, releases each created cache once, and
      leaves the queue empty. */
  lemma {:induction false} DrainSendsDue(env: Env, c: Conn)
    requires QueueInv(env, c)
    requires forall e <- c.resp :: Emittable(e)
    ensures var c' := Drain(c);
            && c'.resp == [] && c'.out == Take(c.out, Due(env, c.replies, |c.replies| - |c.resp|))
            && c'.freed == Serials(env, 0, |c.replies|)
            && c' == c.(resp := [], out := c'.out, freed := c'.freed)
    decreases |c.resp|
  {
    hide QueueInv, Emit, Serials, ReplyBytes, Take, Due;
    QueueCounts(env, c);
    var k := |c.replies| - |c.resp|;
    if c.resp == [] {
      EmptyQueue(env, c);
      TakeNothing(c.out);
    } else {
      QueueHead(env, c);
      DueNext(env, c.replies, k);
      TakeTwice(c.out, if env.mem(k) then ReplyBytes(c.replies[k]) else [], Due(env, c.replies, k + 1));
      DrainSendsDue(env, Shift(c));
    }
  }

  lemma QueueCounts(env: Env, c: Conn)
    requires QueueInv(env, c)
    ensures |c.resp| <= |c.replies| && c.out.Inv()
  {
  }

  /** With the queue empty, everything due has been offered and every cache released. */
  lemma EmptyQueue(env: Env, c: Conn)
    requires QueueInv(env, c) && c.resp == []
    ensures Due(env, c.replies, |c.replies|) == [] && c.freed == Serials(env, 0, |c.replies|)
  {
    DueEnd(env, c.replies);
    SerialsEnd(env, |c.replies|);
  }

  lemma DueNext(env: Env, replies: seq<Reply>, k: nat)
    requires k < |replies|
    ensures Due(env, replies, k) == (if env.mem(k) then ReplyBytes(replies[k]) else []) + Due(env, replies, k + 1)
  {
  }

  /** The head of the queue answers the oldest reply not yet sent. */
  lemma HeadEntry(env: Env, c: Conn)
    requires QueueInv(env, c) && c.resp != []
    ensures var k := |c.replies| - |c.resp|;
            && c.resp[0] == EntryFor(env, c.replies[k], k)
            && c.resp[1..] == Entries(env, c.replies)[k + 1..]
  {
    hide EntryFor, Due, Serials;
  }

  lemma QueueHead(env: Env, c: Conn)
    requires QueueInv(env, c) && c.resp != []
    requires Emittable(c.resp[0])
    ensures QueueInv(env, Shift(c))
    ensures var k := |c.replies| - |c.resp|; Emit(c.resp[0].hv) == if env.mem(k) then ReplyBytes(c.replies[k]) else []
  {
    hide EntryFor, Emit, ReplyBytes, Entries, Due, Serials, Take;
    var k := |c.replies| - |c.resp|;
    HeadEntry(env, c);
    EntrySerial(env, c.replies[k], k);
    EntryEmits(env, c.replies[k], k);
    DueHead(env, c.out.sent + c.out.lost, c.replies, k);
    TakeConserves(c.out, if env.mem(k) then ReplyBytes(c.replies[k]) else []);
    SerialsHead(env, c.freed, k, |c.replies|);
  }

  lemma EntrySerial(env: Env, reply: Reply, n: nat)
    ensures EntryFor(env, reply, n).serial == n
  {
  }

  lemma DueHead(env: Env, sent: seq<Byte>, replies: seq<Reply>, k: nat)
    requires k < |replies|
    ensures sent + (if env.mem(k) then ReplyBytes(replies[k]) else []) + Due(env, replies, k + 1)
         == sent + Due(env, replies, k)
  {
    hide ReplyBytes;
  }

  lemma SerialsHead(env: Env, freed: seq<nat>, k: nat, end: nat)
    requires k < end
    ensures freed + (if env.mem(k) then [k] else []) + Serials(env, k + 1, end) == freed + Serials(env, k, end)
  {
  }

  lemma DrainedQueue(env: Env, c: Conn)
    requires c.resp == [] && c.freed == Serials(env, 0, |c.replies|)
    requires c.out.Inv() && c.out.sent + c.out.lost == Due(env, c.replies, 0)
    ensures QueueInv(env, c)
  {
    hide Due, Serials;
    assert Due(env, c.replies, |c.replies|) == [] by { DueEnd(env, c.replies); }
    assert Serials(env, |c.replies|, |c.replies|) == [] by { SerialsEnd(env, |c.replies|); }
  }

  lemma DueEnd(env: Env, replies: seq<Reply>)
    ensures Due(env, replies, |replies|) == []
  {
  }

  lemma SerialsEnd(env: Env, n: nat)
    ensures Serials(env, n, n) == []
  {
  }

  /** A write event, whether or not the socket fails during it: the queue is emptied, every
      cache released, and everything due has been taken by the socket or lost after it failed. */
  lemma WriteOutSends(env: Env, c: Conn, room: Option<nat>)
    requires QueueInv(env, c) && forall e <- c.resp :: Emittable(e)
    ensures var c', due := WriteOut(c, room), Due(env, c.replies, |c.replies| - |c.resp|);
            && QueueInv(env, c') && c'.resp == [] && c'.freed == Serials(env, 0, |c.replies|)
            && c' == c.(resp := [], out := c'.out, freed := c'.freed)
            && c'.out.sent + c'.out.lost == Due(env, c.replies, 0)
            && (c.out.room.None? && room.None? ==> c'.out.room.None? && c'.out.sent == c.out.sent + due)
            && (c.out.room.None? && room.Some? ==> c'.out.sent == c.out.sent + due[..Min(room.value, |due|)])
  {
    hide QueueInv, Due, Serials, Drain, Take;
    QueueCounts(env, c);
    var due := Due(env, c.replies, |c.replies| - |c.resp|);
    var c1 := if room.None? then c else c.(out := Limit(c.out, room.value));
    LimitKeepsQueue(env, c, c1);
    DrainSendsDue(env, c1);
    TakeConserves(c1.out, due);
    TakeParts(c1.out, due);
    OfferedDue(env, c);
    DrainedQueue(env, WriteOut(c, room));
  }

  /** A limit on what the socket still takes does not touch the queue. */
  lemma LimitKeepsQueue(env: Env, c: Conn, c': Conn)
    requires QueueInv(env, c) && c' == c.(out := c'.out)
    requires c'.out == c.out || (c.out.room.None? && c'.out == c.out.(room := c'.out.room))
    ensures QueueInv(env, c') && c'.out.Inv()
  {
    hide Entries, Due, Serials;
  }

  lemma TakeParts(s: Socket, data: seq<Byte>)
    ensures Take(s, data).sent == s.sent + if s.room.None? then data else data[..Min(s.room.value, |data|)]
  {
  }

  lemma OfferedDue(env: Env, c: Conn)
    requires QueueInv(env, c)
    ensures c.out.sent + c.out.lost + Due(env, c.replies, |c.replies| - |c.resp|) == Due(env, c.replies, 0)
  {
  }

  // ---------------------------------------------------------------- runs

  /** A read event with what `recv` returned, or a write event with the number of bytes the
      socket takes before a `send` fails for good, if one does. */
  datatype Event = Receive(data: seq<Byte>) | Flush(room: Option<nat>)

  predicate Good(env: Env, c: Conn) {
    c.Inv() && QueueInv(env, c)
  }

  function Step(env: Env, c: Conn, e: Event): (c': Conn)
    requires Good(env, c)
    ensures Good(env, c')
  {
    match e
    case Receive(data) =>
      ReadKeepsQueue(env, c, data);
      Read(env, c, data)
    case Flush(room) =>
      EntriesValid(env, c);
      WriteOutSends(env, c, room);
      WriteOut(c, room)
  }

  lemma ReadKeepsQueue(env: Env, c: Conn, data: seq<Byte>)
    requires Good(env, c)
    ensures Good(env, Read(env, c, data))
  {
    hide QueueInv, ReadLoop;
    if data != [] {
      LoopKeepsQueue(env, c, data);
      LoopFrame(env, c, data);
      SameQueue(env, ReadLoop(env, c, data), ReadLoop(env, c, data).(received := c.received + data));
    }
    SameQueue(env, c, c.(received := c.received + data));
  }

  /** The connection after a list of events. */
  function Run(env: Env, events: seq<Event>): (c: Conn)
    ensures Good(env, c)
    decreases |events|
  {
    if events == [] then START
    else Step(env, Run(env, events[..|events| - 1]), events[|events| - 1])
  }

  /** What holds of the request object in every run, whatever fails: the head is complete
      exactly when all eight bytes are in, a value that is not being filled is absent or
      full, and `to` has been assigned whenever a header has ever been complete, so `clear`
      never reads it uninitialised. */
  lemma ReachableStates(env: Env, events: seq<Event>)
    ensures var h := Run(env, events).req;
            && h.hlen <= HEADER_SIZE && (h.headComplete <==> h.hlen == HEADER_SIZE)
            && !h.valueComplete
            && (!h.headComplete && h.value.Some? ==> h.value.value.Full() && h.to == Some(CacheSpec.Mem))
            && (h.headComplete ==> h.head.Some? && h.to == Some(Target(h.head.value.length)))
            && (h.headComplete && h.value.Some? ==> h.value.value.Full() || h.value.value.capacity == h.head.value.length)
            && (h.value.Some? ==> h.to.Some?)
  {
    assert Good(env, Run(env, events));
  }

  lemma RunStart(env: Env)
    ensures Run(env, []) == START
  {
  }

  lemma RunReceive(env: Env, events: seq<Event>, data: seq<Byte>)
    ensures Run(env, events + [Receive(data)]) == Read(env, Run(env, events), data)
  {
    var all := events + [Receive(data)];
    assert all[..|events|] == events;
    hide Read;
  }

  lemma RunFlush(env: Env, events: seq<Event>, room: Option<nat>)
    ensures var c := Run(env, events);
            (forall e <- c.resp :: Emittable(e)) && Run(env, events + [Flush(room)]) == WriteOut(c, room)
  {
    var all := events + [Flush(room)];
    assert all[..|events|] == events;
    EntriesValid(env, Run(env, events));
    hide WriteOut;
  }

  /** The socket has not failed in any of these events. */
  predicate Unbroken(events: seq<Event>) {
    forall e <- events :: e.Flush? ==> e.room.None?
  }

  /** As long as the socket has not failed, nothing is lost. */
  lemma {:induction false} UnbrokenRun(env: Env, events: seq<Event>)
    requires Unbroken(events)
    ensures var out := Run(env, events).out; out.room.None? && out.lost == []
    decreases |events|
  {
    if events != [] {
      var init, last := events[..|events| - 1], events[|events| - 1];
      forall e | e in init ensures e.Flush? ==> e.room.None? {
        assert e in events;
      }
      UnbrokenRun(env, init);
      assert last in events;
      var c := Run(env, init);
      hide QueueInv, Read, WriteOut, Due, Serials;
      match last
      case Receive(data) => ReadKeepsSocket(env, c, data);
      case Flush(room) =>
        EntriesValid(env, c);
        WriteOutSends(env, c, room);
    }
    RoomNothingLost(env, Run(env, events));
  }

  lemma ReadKeepsSocket(env: Env, c: Conn, data: seq<Byte>)
    requires c.Inv()
    ensures Read(env, c, data).out == c.out
  {
    if data != [] {
      LoopFrame(env, c, data);
    }
    hide ReadLoop;
  }

  lemma RoomNothingLost(env: Env, c: Conn)
    requires QueueInv(env, c) && c.out.room.None?
    ensures c.out.lost == []
  {
  }

  /** A read only adds to the queue. */
  lemma ReadKeepsQueued(env: Env, events: seq<Event>, data: seq<Byte>)
    requires Run(env, events).resp != []
    ensures Run(env, events + [Receive(data)]).resp != []
  {
    RunReceive(env, events, data);
    var c := Run(env, events);
    if !c.fault && data != [] {
      LoopFrame(env, c, data);
    }
    hide Run, ReadLoop;
  }

  /** Everything received in a list of events. */
  function Received(events: seq<Event>): seq<Byte>
    decreases |events|
  {
    if events == [] then []
    else
      var last := events[|events| - 1];
      Received(events[..|events| - 1]) + if last.Receive? then last.data else []
  }

  predicate InHeader(rest: seq<Byte>) {
    0 < |rest| < HEADER_SIZE
  }

  /** The reference for a whole run, chunk by chunk. */
  function Assemble(env: Env, events: seq<Event>): Progress
    decreases |events|
  {
    if events == [] then Progress([], [], None, [])
    else
      var p, last := Assemble(env, events[..|events| - 1]), events[|events| - 1];
      if last.Flush? || last.data == [] then p
      else Onward(p, DecodeChunk(env, |p.replies|, p.carry, p.rest, last.data))
  }

  /** No read delivers bytes while part of a header, and not all of it, is there. */
  predicate Uncut(env: Env, events: seq<Event>) {
    forall k | 0 <= k < |events| ::
      events[k].Receive? && events[k].data != [] ==> !InHeader(Assemble(env, events[..k]).rest)
  }

  lemma UncutSnoc(env: Env, events: seq<Event>)
    requires events != []
    ensures var n := |events| - 1;
            Uncut(env, events) <==>
            && Uncut(env, events[..n])
            && (events[n].Receive? && events[n].data != [] ==> !InHeader(Assemble(env, events[..n]).rest))
  {
    var n := |events| - 1;
    forall k | 0 <= k < n ensures events[..n][..k] == events[..k] && events[..n][k] == events[k] {
    }
    if Uncut(env, events) {
      assert events[n].Receive? && events[n].data != [] ==> !InHeader(Assemble(env, events[..n]).rest);
    }
  }

  /** A read makes progress, or faults because the bytes before it end in a header. */
  lemma ReadFollows(env: Env, c: Conn, p: Progress, data: seq<Byte>)
    requires c.Inv() && !c.fault && data != [] && Tracks(c, p)
    ensures var c' := Read(env, c, data);
            && (c'.fault <==> InHeader(p.rest))
            && (!c'.fault ==> Tracks(c', Onward(p, DecodeChunk(env, |p.replies|, p.carry, p.rest, data))))
  {
    hide DecodeChunk, ReadLoop;
    assert c.req.MidHeader() <==> InHeader(p.rest);
    hide Holds;
    if c.req.MidHeader() {
      StrayRead(env, c, data);
    } else {
      NoStrayInside(env, c, data);
      LoopFollows(env, c, p.carry, p.rest, data);
    }
  }

  /** Exact refinement over every run and every environment. Reads and writes may interleave
      in any way, cut the stream anywhere, and any cache may fail: the parser faults exactly
      when some cut falls inside a header, and otherwise has reached what the reference makes
      of the chunks received. */
  lemma {:induction false} RunFollows(env: Env, events: seq<Event>)
    ensures var c := Run(env, events);
            && c.received == Received(events)
            && (c.fault <==> !Uncut(env, events))
            && (!c.fault ==> Tracks(c, Assemble(env, events)))
    decreases |events|
  {
    if events == [] {
      assert Tracks(START, Progress([], [], None, []));
    } else {
      hide Uncut, QueueInv, DecodeChunk, Tracks, Read, WriteOut, Due, Serials, Onward, InHeader;
      var n := |events| - 1;
      RunFollows(env, events[..n]);
      UncutSnoc(env, events);
      var c := Run(env, events[..n]);
      match events[n]
      case Receive(data) =>
        if c.fault || data == [] {
          IdleRead(env, c, data);
        } else {
          ReadFollows(env, c, Assemble(env, events[..n]), data);
        }
      case Flush(room) =>
        EntriesValid(env, c);
        WriteOutSends(env, c, room);
        SameTracks(c, WriteOut(c, room), Assemble(env, events));
    }
  }

  lemma SameTracks(c: Conn, c': Conn, p: Progress)
    requires c'.req == c.req && c'.replies == c.replies && c'.stored == c.stored
    ensures Tracks(c', p) <==> Tracks(c, p)
  {
  }

  // ---------------------------------------------------------------- runs without failing files

  /** No read delivers bytes when the bytes before it end inside a header. */
  predicate HeadersWhole(events: seq<Event>) {
    forall k | 0 <= k < |events| ::
      events[k].Receive? && events[k].data != [] ==> !InHeader(Decode(None, Received(events[..k])).rest)
  }

  /** If every request is given its cache, chunks do not matter: the run is decoded as one
      stream. */
  lemma {:induction false} AssembleIsDecode(env: Env, events: seq<Event>)
    requires FilesCreated(env)
    ensures Assemble(env, events) == Flawless(Decode(None, Received(events)))
    decreases |events|
  {
    hide Decode, DecodeChunk, StarvesAfter;
    if events == [] {
      DecodeNothing();
    } else {
      var init, last := events[..|events| - 1], events[|events| - 1];
      AssembleIsDecode(env, init);
      var s := Received(init);
      if last.Receive? && last.data != [] {
        var d := Decode(None, s);
        NeverStarvesAfter(env, |d.items|, d.carry, d.rest, last.data);
        ChunkDecodes(env, |d.items|, d.carry, d.rest, last.data);
        DecodeResumes(None, s, last.data);
        var e := Decode(d.carry, d.rest + last.data);
        assert Ids(d.items + e.items) == Ids(d.items) + Ids(e.items);
      } else {
        assert s + [] == s;
      }
    }
  }

  lemma DecodeNothing()
    ensures Flawless(Decode(None, [])) == Progress([], [], None, [])
  {
  }

  lemma NeverStarvesAfter(env: Env, n: nat, carry: Option<seq<Byte>>, rest: seq<Byte>, t: seq<Byte>)
    requires FilesCreated(env)
    ensures !StarvesAfter(env, n, carry, rest, t)
  {
    var s := rest + t;
    NeverStarves(env, n, carry, s);
    if Ready(carry, s) {
      NeverStarves(env, n + 1, NextCarry(carry, First(carry, s)), s[HEADER_SIZE + Need(carry, s)..]);
    }
    hide Starves;
  }

  lemma UncutIsWhole(env: Env, events: seq<Event>)
    requires FilesCreated(env)
    ensures Uncut(env, events) <==> HeadersWhole(events)
  {
    hide Assemble, Decode;
    forall k | 0 <= k < |events|
      ensures Assemble(env, events[..k]).rest == Decode(None, Received(events[..k])).rest
    {
      AssembleIsDecode(env, events[..k]);
    }
  }

  /** If every request is given its file cache: the parser faults exactly when some cut falls
      inside a header of the stream, and otherwise has reached what the recursive decoder
      makes of all bytes received, however they were cut. */
  lemma RunDecodes(env: Env, events: seq<Event>)
    requires FilesCreated(env)
    ensures var c := Run(env, events);
            && c.received == Received(events)
            && (c.fault <==> !HeadersWhole(events))
            && (!c.fault ==> Tracks(c, Flawless(Decode(None, Received(events)))))
  {
    hide Run, Assemble, Decode, Uncut, HeadersWhole, Tracks, Flawless;
    RunFollows(env, events);
    AssembleIsDecode(env, events);
    UncutIsWhole(env, events);
  }

  /** A concrete cut: a header that arrives in two reads makes the parser fault, whatever
      caches can be created. */
  lemma CutHeaderFaults(env: Env)
    ensures Run(env, [Receive([0]), Receive([1])]).fault
  {
    var first, both: seq<Event> := [Receive([0])], [Receive([0]), Receive([1])];
    RunFollows(env, both);
    assert both[..1] == first && first[..0] == [];
    assert !Ready(None, [] + [0]) && [] + [0] == [0];
    assert Assemble(env, []) == Progress([], [], None, []);
    assert Assemble(env, first).rest == [0];
    assert both[1].Receive? && both[1].data != [] && InHeader(Assemble(env, both[..1]).rest);
  }

  /** With every response cache created, the bytes due are those of all the replies. */
  lemma {:induction false} DueAll(env: Env, replies: seq<Reply>, from: nat)
    requires BlocksCreated(env) && from <= |replies|
    ensures Due(env, replies, from) == AllReplyBytes(replies[from..])
    decreases |replies| - from
  {
    hide ReplyBytes;
    if from < |replies| {
      DueAll(env, replies, from + 1);
      assert replies[from..][1..] == replies[from + 1..];
    }
  }

  /** The output of a connection is a function of its input: in every run that keeps headers
      whole, whatever caches fail, the bytes the socket has taken, the bytes it has refused
      and the bytes due for the queued responses are those due for the replies of the
      reference, in order; nothing is refused unless the socket fails. */
  lemma RunAnswers(env: Env, events: seq<Event>)
    requires Uncut(env, events)
    ensures var c, due := Run(env, events), Assemble(env, events).replies;
            && |c.resp| <= |c.replies|
            && c.out.sent + c.out.lost + Due(env, c.replies, |c.replies| - |c.resp|) == Due(env, due, 0)
            && (Unbroken(events) ==> c.out.lost == [])
            && (FilesCreated(env) ==> due == Ids(Decode(None, Received(events)).items))
            && (BlocksCreated(env) ==> Due(env, due, 0) == AllReplyBytes(due))
  {
    hide Run, Decode, Assemble, Uncut, Unbroken, Due, Entries, Serials;
    RunFollows(env, events);
    assert Good(env, Run(env, events));
    if Unbroken(events) {
      UnbrokenRun(env, events);
    }
    if FilesCreated(env) {
      AssembleIsDecode(env, events);
    }
    if BlocksCreated(env) {
      var due := Assemble(env, events).replies;
      DueAll(env, due, 0);
      assert due[0..] == due;
    }
  }

  /** Once flushed, everything due has been offered and every cache released; a socket that
      has not failed has taken it all. */
  lemma FlushAnswersAll(env: Env, events: seq<Event>, room: Option<nat>)
    requires Uncut(env, events)
    ensures var c, due := Run(env, events + [Flush(room)]), Due(env, Assemble(env, events).replies, 0);
            && c.resp == [] && c.freed == Serials(env, 0, |c.replies|)
            && c.out.sent + c.out.lost == due
            && (Unbroken(events) && room.None? ==> c.out.sent == due)
  {
    hide Uncut, QueueInv, Assemble, Read, WriteOut, Due, Serials, Run, Unbroken;
    RunFollows(env, events);
    RunFlush(env, events, room);
    WriteOutSends(env, Run(env, events), room);
    if Unbroken(events) && room.None? {
      UnbrokenRun(env, events);
      RoomNothingLost(env, Run(env, events + [Flush(room)]));
    }
  }

  /** Reassembly: however a stream of messages of at least 1024 bytes is cut between
      headers, and however writes interleave, every value ends up in a file of its own, in
      order, one OK per message is due with its id, and the parser is at its start. */
  lemma LongMessagesReassembled(env: Env, msgs: seq<Message>, events: seq<Event>)
    requires FilesCreated(env)
    requires Sendable(msgs) && (forall m <- msgs :: |m.value| >= 1024)
    requires HeadersWhole(events) && Received(events) == StreamOf(msgs)
    ensures var c := Run(env, events);
            && c.stored == Values(msgs)
            && c.replies == Ids(Items(msgs))
            && c.req.hlen == 0 && c.req.value.None? && !c.req.headComplete && !c.req.valueComplete
            && c.out.sent + c.out.lost + Due(env, c.replies, |c.replies| - |c.resp|) == Due(env, Ids(Items(msgs)), 0)
            && (Unbroken(events) ==> c.out.lost == [])
  {
    hide Run, Decode, Assemble, Uncut, HeadersWhole, Unbroken, Due;
    RunDecodes(env, events);
    UncutIsWhole(env, events);
    RunAnswers(env, events);
    LongMessagesFiled(msgs);
  }

  /** The content of the full cache that a request object keeps between messages. */
  function KeptValue(h: Hv): seq<seq<Byte>> {
    if h.value.Some? && h.value.value.Full() then [h.value.value.data] else []
  }

  /** Reassembly for every list of messages, with its exact condition, on what the connection
      holds: each message is answered with its id and its value is in the files closed, or in
      the cache still open, if and only if every message but the last has at least 1024 bytes
      and the last is not empty. */
  lemma RequestsAreMessages(env: Env, msgs: seq<Message>, events: seq<Event>)
    requires FilesCreated(env) && Sendable(msgs)
    requires HeadersWhole(events) && Received(events) == StreamOf(msgs)
    ensures var c := Run(env, events);
            c.replies == Ids(Items(msgs)) && c.stored + KeptValue(c.req) == Values(msgs) <==> Framable(msgs)
  {
    RunDecodes(env, events);
    var c, d := Run(env, events), Decode(None, StreamOf(msgs));
    assert KeptValue(c.req) == CarryList(d.carry);
    ListLengths(msgs);
    hide Decode, Framable, Run;
    if Framable(msgs) {
      FramableDecodes(msgs);
    } else if c.replies == Ids(Items(msgs)) && c.stored + KeptValue(c.req) == Values(msgs) {
      CountsMatchOnlyIfFramable(msgs);
      assert false;
    }
  }

  /** The same for the files alone: they hold exactly the values, and every message is
      answered, if and only if every message has at least 1024 bytes. */
  lemma FilesAreValues(env: Env, msgs: seq<Message>, events: seq<Event>)
    requires FilesCreated(env) && Sendable(msgs)
    requires HeadersWhole(events) && Received(events) == StreamOf(msgs)
    ensures var c := Run(env, events);
            c.replies == Ids(Items(msgs)) && c.stored == Values(msgs) <==> forall m <- msgs :: |m.value| >= 1024
  {
    hide Decode, Run, HeadersWhole, StreamOf;
    RunDecodes(env, events);
    var c, d := Run(env, events), Decode(None, StreamOf(msgs));
    ListLengths(msgs);
    if forall m <- msgs :: |m.value| >= 1024 {
      LongMessagesFiled(msgs);
    } else if c.replies == Ids(Items(msgs)) && c.stored == Values(msgs) {
      FilesBound(None, StreamOf(msgs));
      CountsMatchOnlyIfFramable(msgs);
      FramableDecodes(msgs);
      assert false;
    }
  }

  /** A framable list that ends with a short message: its value stays in the open cache. */
  lemma ShortLastStaysOpen(env: Env, msgs: seq<Message>, events: seq<Event>)
    requires FilesCreated(env) && Sendable(msgs) && Framable(msgs) && msgs != [] && |msgs[|msgs| - 1].value| < 1024
    requires HeadersWhole(events) && Received(events) == StreamOf(msgs)
    ensures var c := Run(env, events);
            && c.stored == Values(msgs[..|msgs| - 1]) && c.replies == Ids(Items(msgs))
            && c.req.hlen == 0 && c.req.value.Some? && c.req.value.value.data == msgs[|msgs| - 1].value
  {
    hide Decode, Run, HeadersWhole, StreamOf;
    RunDecodes(env, events);
    FramableDecodes(msgs);
    ValuesSnoc(msgs[..|msgs| - 1], msgs[|msgs| - 1]);
    assert msgs[..|msgs| - 1] + [msgs[|msgs| - 1]] == msgs;
    var d, v := Decode(None, StreamOf(msgs)), Values(msgs[..|msgs| - 1]);
    assert d.files + CarryList(d.carry) == v + [msgs[|msgs| - 1].value];
    assert |d.files| == |v|;
    assert (d.files + CarryList(d.carry))[..|v|] == d.files && (v + [msgs[|msgs| - 1].value])[..|v|] == v;
    assert (d.files + CarryList(d.carry))[|v|] == d.carry.value;
  }

  /** Conservation over runs: the bytes received are the completed requests, 8 bytes of
      header and the value bytes each took, then the header bytes and value bytes of the
      message in progress; so replies never outrun the input. */
  lemma RunConserves(env: Env, events: seq<Event>)
    requires FilesCreated(env) && HeadersWhole(events)
    ensures var c := Run(env, events);
            var items := Decode(None, c.received).items;
            && |items| == |c.replies|
            && |c.received| == |AllItemBytes(items)| + c.req.hlen + InProgress(c.req)
            && HEADER_SIZE * |c.replies| <= |c.received|
  {
    RunDecodes(env, events);
    var c := Run(env, events);
    BytesConserved(None, c.received);
    EightBytesEach(Decode(None, c.received).items);
  }

  /** Value bytes taken so far by the message in progress. */
  function InProgress(h: Hv): nat {
    if h.headComplete && h.value.Some? && !h.value.value.Full() then |h.value.value.data| else 0
  }

  lemma {:induction false} SerialsAre(env: Env, from: nat, end: nat)
    requires from <= end
    ensures var s := Serials(env, from, end);
            && (forall n: nat :: n in s <==> from <= n < end && env.mem(n))
            && (forall i, j | 0 <= i < j < |s| :: s[i] < s[j])
    decreases end - from
  {
    if from < end {
      SerialsAre(env, from + 1, end);
      var first: seq<nat>, rest := if env.mem(from) then [from] else [], Serials(env, from + 1, end);
      forall i, j | 0 <= i < j < |first + rest| ensures (first + rest)[i] < (first + rest)[j] {
        assert (first + rest)[j] in rest;
      }
    }
  }

  /** In every run, whatever fails: the response caches created are those of the replies whose
      memory could be allocated; those of the replies already popped have been released, each
      exactly once and in order, and those of the queue have not. */
  lemma CachesOwned(env: Env, events: seq<Event>)
    ensures var c := Run(env, events);
            && |c.resp| <= |c.replies|
            && (forall n: nat :: n in c.freed <==> n < |c.replies| - |c.resp| && env.mem(n))
            && (forall i, j | 0 <= i < j < |c.freed| :: c.freed[i] < c.freed[j])
            && (forall i | 0 <= i < |c.resp| ::
                 && c.resp[i].serial == |c.replies| - |c.resp| + i
                 && (c.resp[i].hv.value.Some? <==> env.mem(c.resp[i].serial)))
  {
    hide Run, Due, Serials;
    var c := Run(env, events);
    var k := |c.replies| - |c.resp|;
    FreedPrefix(env, c.freed, k, |c.replies|);
    SerialsAre(env, 0, k);
    forall i | 0 <= i < |c.resp|
      ensures c.resp[i].serial == |c.replies| - |c.resp| + i
      ensures c.resp[i].hv.value.Some? <==> env.mem(c.resp[i].serial)
    {
      var n := |c.replies| - |c.resp| + i;
      assert c.resp[i] == EntryFor(env, c.replies[n], n);
      EntryEmits(env, c.replies[n], n);
    }
  }

  lemma FreedPrefix(env: Env, freed: seq<nat>, k: nat, end: nat)
    requires k <= end && freed + Serials(env, k, end) == Serials(env, 0, end)
    ensures freed == Serials(env, 0, k)
  {
    SerialsSplit(env, 0, k, end);
    var tail := Serials(env, k, end);
    assert freed == (freed + tail)[..|freed + tail| - |tail|];
    assert Serials(env, 0, k) == (Serials(env, 0, k) + tail)[..|Serials(env, 0, k) + tail| - |tail|];
  }

  lemma {:induction false} SerialsSplit(env: Env, from: nat, k: nat, end: nat)
    requires from <= k <= end
    ensures Serials(env, from, end) == Serials(env, from, k) + Serials(env, k, end)
    decreases k - from
  {
    if from < k {
      SerialsSplit(env, from + 1, k, end);
    }
  }

  /** When the cache of a request cannot be created, exactly one INTERNAL_ERROR with its id
      is queued and the rest of the chunk, whatever it holds, is dropped. */
  lemma FailedCreation(env: Env, c: Conn, rest: seq<Byte>, data: seq<Byte>)
    requires c.Inv() && !c.fault && Holds(c.req, None, rest) && !c.req.MidHeader()
    requires data != [] && |rest| <= HEADER_SIZE < |rest + data| && !env.disk(|c.replies|)
    ensures var c' := Read(env, c, data);
            && c'.replies == c.replies + [Reply(ParseHeader((rest + data)[..HEADER_SIZE]).id, INTERNAL_ERROR)]
            && c'.stored == c.stored && !c'.fault
            && Holds(c'.req, None, [])
  {
    hide Write, ReadLoop, Finish, Holds, ParseHeader;
    LoopStep(env, c, data);
    FailedRequest(env, c, rest, data);
    NoStrayInside(env, c, data);
  }

  /** So a connection that waits for a request whose file cache cannot be created can be
      given its bytes in two parts only if the first part is the header and no more: bytes
      after a refused chunk are read, the same bytes inside it are dropped. */
  lemma FailureDependsOnCut(env: Env, c: Conn, rest: seq<Byte>, a: seq<Byte>, b: seq<Byte>)
    requires c.Inv() && !c.fault && Holds(c.req, None, rest) && !c.req.MidHeader() && |rest| <= HEADER_SIZE
    requires a != [] && b != [] && !env.disk(|c.replies|)
    ensures Read(env, Read(env, c, a), b) == Read(env, c, a + b) <==> |rest + a| == HEADER_SIZE
  {
    ChunkIndependence(env, c, a, b);
    WriteRefusedWhen(c.req, None, rest, a, false);
    LoopStep(env, c, a);
    hide ReadLoop;
  }
}
