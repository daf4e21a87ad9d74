/** The connection handler: its response queue, and the two event methods that run the
    protocol in place. */
module VirusHandlerPart {
  import opened Wire
  import opened CacheSpec
  import opened CachePart
  import opened HvSpec
  import opened HvPart
  import opened Framing
  import Runs

  /** The queue of responses. The source queues copies of an `HV` that share its cache; here
      the object itself is queued, since the original is dropped at once. */
  class ResponseQueue {
    var items: seq<HV>
    /** What each queued message holds. */
    ghost var view: seq<Hv>
    ghost var Repr: set<object>

    /** A queued message and its memory cache belong to the queue. */
    ghost predicate Owns(hv: HV)
      reads this, Repr
    {
      && hv in Repr
      && (hv.value != null ==> hv.value in Repr && hv.value.InMemory() && hv.value.buf in Repr)
    }

    /** Messages and caches are distinct, so releasing one leaves the others alive. */
    ghost predicate Valid()
      reads this, Repr
      ensures Valid() ==> this in Repr
    {
      && this in Repr && |view| == |items|
      && (forall i | 0 <= i < |items| :: Owns(items[i]) && items[i].Valid() && items[i].View() == view[i])
      && (forall i, j | 0 <= i < j < |items| :: items[i] != items[j])
      && (forall i, j | 0 <= i < j < |items| && items[i].value != null :: items[i].value != items[j].value)
    }

    /** The cache of some queued message. */
    ghost predicate Holds(c: Cache)
      reads this, items
    {
      exists i :: 0 <= i < |items| && items[i].value == c
    }

    constructor ()
      ensures Valid() && fresh(Repr) && items == [] && view == []
    {
      items, view, Repr := [], [], {this};
    }

    method Push(hv: HV)
      requires Valid() && hv.Valid() && hv !in Repr && hv.Owned() !! Repr
      requires hv.value != null ==> hv.value.InMemory()
      modifies this
      ensures Valid() && items == old(items) + [hv] && view == old(view) + [hv.View()]
      ensures Repr == old(Repr) + {hv} + hv.Owned()
    {
      items := items + [hv];
      view := view + [hv.View()];
      Repr := Repr + {hv} + hv.Owned();
    }

    method Pop() returns (hv: HV)
      requires Valid() && items != []
      modifies this`items, this`view
      ensures Valid() && hv == old(items)[0] && items == old(items)[1..] && view == old(view)[1..]
      ensures Owns(hv) && hv.Valid() && hv.View() == old(view)[0]
      ensures hv !in items && (hv.value != null ==> !Holds(hv.value))
    {
      hv := items[0];
      items := items[1..];
      view := view[1..];
    }
  }

  /** Queued messages with the serials of their caches. */
  function Numbered(view: seq<Hv>, from: nat): seq<Entry> {
    seq(|view|, i requires 0 <= i < |view| => Entry(view[i], from + i))
  }

  class VirusHandler {
    const env: Env
    const disk: Disk
    const req: HV
    const queue: ResponseQueue
    var state: Option<Framing.State>
    /** The socket: what it has taken, what it has refused, and what it will still take. */
    var out: Socket
    /** A header copy has left the header. */
    var fault: bool
    /** Number of responses ever queued. */
    var served: nat
    /** The abstract connection, kept in step with the fields. */
    ghost var conn: Conn
    /** Every response cache ever created. */
    ghost var made: set<Cache>
    ghost var Repr: set<object>

    /** The request and the queue are apart. */
    ghost predicate Separate()
      reads this, Repr
    {
      && this in Repr && disk in Repr && req in Repr && queue in Repr && queue.Repr <= Repr
      && this !in queue.Repr && disk !in queue.Repr && req !in queue.Repr
      && (req.value != null ==> req.value in Repr && req.value !in queue.Repr && !req.value.InMemory())
    }

    /** The response caches that have not been released are exactly those in the queue. */
    ghost predicate CachesAlive()
      requires Separate() && queue.Valid()
      reads this, Repr
    {
      && (forall c <- made :: c in queue.Repr && (c.freed || queue.Holds(c)))
      && (forall i | 0 <= i < |queue.items| && queue.items[i].value != null :: queue.items[i].value in made)
    }

    /** The fields are those of `conn`. */
    ghost predicate Linked()
      reads this, Repr
    {
      && Separate() && queue.Valid() && CachesAlive()
      && req.Valid() && conn.req == req.View() && conn.req.Inv()
      && conn.out == out && conn.fault == fault && |conn.replies| == served
      && Files(disk.files, conn.stored)
      && |queue.view| <= served && conn.resp == Numbered(queue.view, served - |queue.view|)
    }

    ghost predicate Valid()
      reads this, Repr
      ensures Valid() ==> this in Repr
    {
      Linked() && conn.Inv()
    }

    constructor (env: Env)
      ensures Valid() && this.env == env && conn == START && made == {} && fresh(Repr)
    {
      this.env := env;
      disk := new Disk();
      req := new HV();
      queue := new ResponseQueue();
      state, out, fault, served := None, Socket(None, [], []), false, 0;
      conn, made := START, {};
      new;
      Repr := {this, disk, req} + queue.Repr;
    }

    method Writable() returns (w: bool)
      requires Linked()
      ensures w <==> conn.resp != []
    {
      w := |queue.items| != 0;
    }

    /** `request`: nothing but clearing the message, so far. */
    method Request()
      requires Linked() && conn.req.headComplete && (conn.req.value.Some? ==> conn.req.value.value.Full())
      modifies this`conn, req, req.value, disk
      ensures Linked() && conn == ClearReq(old(conn))
    {
      hide HvSpec.Clear, Closed, HvSpec.Hv.Inv, ResponseQueue.Valid, CachesAlive, Files;
      ClearKeepsInv(conn.req);
      req.Clear(disk);
      conn := ClearReq(conn);
      QueueKept();
    }

    /** As long as nothing of the queue changes, neither do the messages nor their caches. */
    twostate lemma QueueKept()
      requires old(Separate() && queue.Valid() && CachesAlive())
      requires Separate() && made == old(made) && forall o <- old(queue.Repr) :: unchanged(o)
      ensures queue.Valid() && CachesAlive()
    {
      forall i | 0 <= i < |queue.items|
        ensures queue.items[i].Valid() && queue.items[i].View() == queue.view[i]
      {
        Untouched(queue.items[i]);
      }
      forall c | c in made && !c.freed ensures queue.Holds(c) {
        var i :| 0 <= i < |old(queue.items)| && old(queue.items[i].value) == c;
        assert queue.items[i].value == c;
      }
    }

    /** The message that answers a request, in an object and a cache of its own. */
    method NewResponse(reply: Reply, n: nat) returns (hv: HV)
      modifies disk
      ensures fresh(hv) && fresh(hv.Owned()) && hv.Valid() && (hv.value != null ==> hv.value.InMemory())
      ensures hv.View() == HvSpec.Store(FRESH, ReplyHeader(reply), StateBytes(reply.state), env.mem(n)).0
      ensures disk.files == old(disk.files)
    {
      hide HvSpec.Store;
      hv := new HV();
      var r := hv.Store(Some(ReplyHeader(reply)), Some(StateBytes(reply.state)), env.mem(n), disk);
    }

    /** Push a message that is nowhere else yet on the queue. */
    method Enqueue(hv: HV, st: Framing.State)
      requires Linked() && conn.req.head.Some?
      requires hv.Valid() && hv !in Repr && hv.Owned() !! Repr && (hv.value != null ==> hv.value.InMemory())
      requires hv.View() == HvSpec.Store(FRESH, ReplyHeader(Reply(conn.req.head.value.id, st)),
                                         StateBytes(st), env.mem(served)).0
      modifies this`conn, this`served, this`made, this`Repr, queue
      ensures Linked() && conn == Respond(env, old(conn), st)
      ensures Repr == old(Repr) + {hv} + hv.Owned()
      ensures made == old(made) + if hv.value == null then {} else {hv.value}
    {
      hide HvSpec.Store, HvSpec.Hv.Inv, HV.View, HV.Valid, StateBytes, ReplyHeader, CachesAlive, ResponseQueue.Valid;
      NumberedSnoc(queue.view, served - |queue.view|, hv.View());
      Repr := Repr + {hv} + hv.Owned();
      if hv.value != null {
        made := made + {hv.value};
      }
      conn := Respond(env, conn, st);
      served := served + 1;
      Untouched(hv);
      queue.Push(hv);
      Untouched(req);
      OneMoreAlive(hv);
    }

    /** A message pushed on the queue brings its own cache, and the others stay. */
    twostate lemma OneMoreAlive(hv: HV)
      requires old(Separate() && queue.Valid() && CachesAlive()) && Separate() && queue.Valid()
      requires queue.items == old(queue.items) + [hv] && old(queue.Repr) <= queue.Repr
      requires made == old(made) + if hv.value == null then {} else {hv.value}
      requires forall o <- old(queue.Repr) :: o != queue ==> unchanged(o)
      ensures CachesAlive()
    {
      forall c | c in made ensures c in queue.Repr && (c.freed || queue.Holds(c)) {
        if c in old(made) && !c.freed {
          var i :| 0 <= i < |old(queue.items)| && old(queue.items[i].value) == c;
          assert queue.items[i].value == c;
        } else if c !in old(made) {
          assert queue.items[|queue.items| - 1].value == c;
        }
      }
    }

    method Response(st: Framing.State)
      requires Linked() && conn.req.head.Some?
      modifies this`conn, this`served, this`made, this`Repr, queue, disk
      ensures Linked() && conn == Respond(env, old(conn), st)
      ensures fresh(Repr - old(Repr)) && made >= old(made)
    {
      assert conn.req.head == req.head;
      hide HvSpec.Store, HvSpec.Hv.Inv, StateBytes, ReplyHeader;
      var hv := NewResponse(Reply(req.head.value.id, st), served);
      assert Linked();
      Enqueue(hv, st);
    }

    /** One `write` of the bytes at hand into the request. */
    method Offer(data: seq<Byte>) returns (w: Written)
      requires Linked() && |data| < 0x8000_0000
      modifies this`conn, this`Repr, req, req.value
      ensures Linked()
      ensures var r := HvSpec.Write(old(conn).req, data, env.disk(|old(conn).replies|));
              conn == old(conn).(req := r.0) && w == r.1
      ensures fresh(Repr - old(Repr))
    {
      hide HvSpec.Write, HvSpec.Hv.Inv, ResponseQueue.Valid, CachesAlive;
      w := req.Write(data, env.disk(served), 0);
      conn := conn.(req := req.View());
      if req.value != null {
        Repr := Repr + {req.value};
      }
      QueueKept();
    }

    /** The tail of an iteration: answer the request if it is complete. */
    method SettleRequest()
      requires Linked()
      modifies this, req, req.value, disk, queue
      ensures Linked() && conn == Settle(env, old(conn))
      ensures fresh(Repr - old(Repr)) && made >= old(made)
    {
      assert req.headComplete == conn.req.headComplete && req.valueComplete == conn.req.valueComplete;
      hide Linked, HvSpec.Clear, HvSpec.Hv.Inv, Respond;
      if req.headComplete && req.valueComplete {
        CompleteIsFull(conn.req);
        ClearKeepsInv(conn.req);
        Request();
        Note(OK);
        Response(OK);
      }
    }

    /** The error path: clear the request and answer with INTERNAL_ERROR. */
    method Fail()
      requires Linked() && conn.req.headComplete && conn.req.value.None?
      modifies this, req, req.value, disk, queue
      ensures Linked() && conn == Finish(env, old(conn), INTERNAL_ERROR)
      ensures fresh(Repr - old(Repr)) && made >= old(made)
    {
      ClearKeepsInv(conn.req);
      hide Linked, HvSpec.Clear, HvSpec.Hv.Inv, Respond;
      Request();
      Note(INTERNAL_ERROR);
      Response(INTERNAL_ERROR);
    }

    method Note(st: Framing.State)
      requires Linked()
      modifies this`state
      ensures Linked() && state == Some(st)
    {
      hide HvSpec.Hv.Inv;
      state := Some(st);
    }

    /** Record what was received; nothing else depends on it. */
    ghost method Remember(data: seq<Byte>)
      requires Linked()
      modifies this`conn
      ensures Linked() && conn == old(conn).(received := old(conn).received + data)
    {
      hide HvSpec.Hv.Inv;
      conn := conn.(received := conn.received + data);
    }

    method GoAstray()
      requires Linked()
      modifies this`conn, this`fault
      ensures Linked() && conn == old(conn).(fault := true)
    {
      hide HvSpec.Hv.Inv;
      fault := true;
      conn := conn.(fault := true);
    }

    /** One iteration of the loop in `handle_read`. */
    method Iterate(data: seq<Byte>) returns (rest: seq<Byte>, again: bool)
      requires Valid() && data != [] && |data| <= 65535
      modifies Repr
      ensures Valid() && fresh(Repr - old(Repr)) && made >= old(made) && |rest| <= |data|
      ensures again ==> && rest != []
                        && ReadLoop(env, conn, rest) == ReadLoop(env, old(conn), data)
                        && (|rest| == |data| ==> old(conn).req.headComplete && !conn.req.headComplete)
      ensures !again ==> conn == ReadLoop(env, old(conn), data)
    {
      hide Linked, HvSpec.Write, Settle, Finish, HvSpec.Hv.Inv, ReadLoop;
      LoopStep(env, conn, data);
      Parts();
      rest, again := data, false;
      var w := Offer(data);
      Parts();
      if w.Stray? {
        GoAstray();
      } else if w.CreateFailed? {
        Fail();
      } else {
        SettleRequest();
        rest := data[w.n..];
        again := |rest| != 0;
      }
    }

    /** `handle_read`, given what `recv` put in the 65535-byte buffer. */
    method HandleRead(data: seq<Byte>)
      requires Valid() && |data| <= 65535
      modifies Repr
      ensures Valid() && conn == Read(env, old(conn), data)
      ensures fresh(Repr - old(Repr)) && made >= old(made)
    {
      hide Linked, HvSpec.Hv.Inv, ReadLoop;
      ghost var c0 := conn;
      Parts();
      if |data| == 0 || fault {
        Remember(data);
        return;
      }
      LoopFrame(env, c0, data);
      var rest, again := data, true;
      while again
        invariant Valid() && |rest| <= |data|
        invariant again ==> rest != [] && ReadLoop(env, conn, rest) == ReadLoop(env, c0, data)
        invariant !again ==> conn == ReadLoop(env, c0, data)
        invariant fresh(Repr - old(Repr)) && made >= old(made)
        decreases again, 2 * |rest| + if conn.req.headComplete then 1 else 0
      {
        rest, again := Iterate(rest);
      }
      Parts();
      Remember(data);
    }

    /** The objects the event methods change are the handler's own. */
    lemma Parts()
      requires Linked()
      ensures {this, disk, req, queue} <= Repr && (req.value != null ==> req.value in Repr)
      ensures fault == conn.fault
    {
    }

    /** Hand bytes to the socket. */
    method Send(data: seq<Byte>)
      modifies this`out
      ensures out == Take(old(out), data)
    {
      out := Take(out, data);
    }

    /** Send what a cache holds, in pieces of at most 4096 bytes. */
    method SendPieces(cache: Cache)
      requires cache.Valid() && cache.InMemory()
      modifies this`out, cache`ridx
      ensures cache.Valid() && cache.InMemory()
      ensures out == Take(old(out), PopAll(old(cache.View()), 4096))
    {
      hide CacheSpec.Raw.View, Popped, Cache.View, Cache.Valid, Take;
      ghost var goal := Take(out, PopAll(cache.View(), POP_SIZE));
      while true
        invariant cache.Valid() && cache.InMemory()
        invariant Take(out, PopAll(cache.View(), POP_SIZE)) == goal
        decreases |cache.View().data| - cache.View().ridx
      {
        ghost var c, before := cache.View(), out;
        PoppedLength(c, POP_SIZE);
        var n, data := cache.Pop(POP_SIZE);
        if n == 0 {
          TakeNothing(out);
          break;
        }
        label Popped:
        Send(data);
        SameCache@Popped(cache);
        TakeTwice(before, data, PopAll(cache.View(), POP_SIZE));
      }
    }

    /** Send a message that has a value and release its cache. */
    method SendAndRelease(hv: HV)
      requires hv.Valid() && (hv.value != null ==> hv.value.InMemory())
      modifies this`out, hv.value, disk
      ensures out == Take(old(out), Emit(old(hv.View())))
      ensures disk.files == old(disk.files)
      ensures hv.value != null ==> hv.value.freed
    {
      hide CacheSpec.Raw.View, PopAll, Take;
      TakeNothing(out);
      if hv.value != null {
        TakeTwice(out, hv.wire, PopAll(hv.value.View(), POP_SIZE));
        Send(hv.wire);
        SendPieces(hv.value);
        hv.value.Delete();
        hv.value.Leave(disk);
      }
    }

    /** Pop the first message of the queue and deal with it. */
    method ShiftQueue()
      requires Linked() && conn.resp != []
      modifies Repr
      ensures Linked() && Emittable(old(conn).resp[0]) && conn == Shift(old(conn))
      ensures Repr == old(Repr) && made == old(made)
    {
      hide HvSpec.Hv.Inv, Emit, CachesAlive, ResponseQueue.Valid, HV.Valid, HV.View;
      NumberedRest(queue.view, served - |queue.view|);
      EntriesEmittable();
      ghost var next := Shift(conn);
      var hv := queue.Pop();
      OthersAlive(hv);
      SettlePopped(hv);
      label Settled:
      conn := next;
      QueueKept@Settled();
      Untouched(req);
    }

    /** A message popped from the queue takes only its own cache with it. */
    twostate lemma OthersAlive(hv: HV)
      requires old(Separate() && queue.Valid() && CachesAlive()) && Separate() && queue.Valid()
      requires old(queue.items) == [hv] + queue.items && old(queue.Repr) == queue.Repr && made == old(made)
      requires forall o <- queue.Repr :: o != queue ==> unchanged(o)
      ensures forall c <- made :: c in queue.Repr && (c == hv.value || c.freed || queue.Holds(c))
      ensures forall i | 0 <= i < |queue.items| && queue.items[i].value != null :: queue.items[i].value in made
    {
      forall c | c in made && c != hv.value && !c.freed ensures queue.Holds(c) {
        var i :| 0 <= i < |old(queue.items)| && old(queue.items[i].value) == c;
        assert queue.items[i - 1].value == c;
      }
      forall i | 0 <= i < |queue.items| && queue.items[i].value != null ensures queue.items[i].value in made {
        assert old(queue.items)[i + 1] == queue.items[i];
      }
    }

    /** Send a message just popped and release its cache; the queue goes on without it. */
    method SettlePopped(hv: HV)
      requires Separate() && queue.Valid() && queue.Owns(hv) && hv.Valid() && hv !in queue.items
      requires hv.value != null ==> !queue.Holds(hv.value)
      requires forall c <- made :: c in queue.Repr && (c == hv.value || c.freed || queue.Holds(c))
      requires forall i | 0 <= i < |queue.items| && queue.items[i].value != null :: queue.items[i].value in made
      modifies this`out, hv.value, disk
      ensures Separate() && queue.Valid() && CachesAlive()
      ensures out == Take(old(out), Emit(old(hv.View()))) && disk.files == old(disk.files)
    {
      hide Emit;
      SendAndRelease(hv);
      forall i | 0 <= i < |queue.items|
        ensures queue.items[i].Valid() && queue.items[i].View() == queue.view[i]
      {
        Untouched(queue.items[i]);
      }
      StillAlive(hv);
    }

    lemma EntriesEmittable()
      requires Linked()
      ensures |conn.resp| == |queue.items| && forall e <- conn.resp :: Emittable(e)
    {
      forall e | e in conn.resp ensures Emittable(e) {
        var i :| 0 <= i < |conn.resp| && conn.resp[i] == e;
        assert queue.items[i].Valid();
      }
    }

    /** With the queue empty, every response cache ever created has been released. */
    lemma AllReleased()
      requires Linked() && conn.resp == []
      ensures forall c <- made :: c in Repr && c.freed
    {
    }

    /** From now on the socket takes at most `n` more bytes. */
    method Restrict(n: nat)
      requires Linked()
      modifies this`out, this`conn
      ensures Linked() && conn == old(conn).(out := Limit(old(conn).out, n))
    {
      hide HvSpec.Hv.Inv;
      out := Limit(out, n);
      conn := conn.(out := out);
    }

    /** The descriptor has been closed. */
    method ShutSocket()
      requires Linked()
      modifies this`out, this`conn
      ensures Linked() && conn == Shut(old(conn))
    {
      hide HvSpec.Hv.Inv;
      out := out.(room := Some(0));
      conn := Shut(conn);
    }

    /** The loop of `handle_write`: the queue is drained, and every response cache is released. */
    method DrainQueue()
      requires Valid()
      modifies Repr
      ensures Valid() && (forall e <- old(conn).resp :: Emittable(e)) && conn == Drain(old(conn))
      ensures Repr == old(Repr) && made == old(made) && conn.resp == []
    {
      hide Linked, HvSpec.Hv.Inv, Emit, Emittable, Take;
      EntriesEmittable();
      var more := |queue.items| != 0;
      while more
        invariant Valid() && Repr == old(Repr) && made == old(made)
        invariant more <==> conn.resp != []
        invariant (forall e <- conn.resp :: Emittable(e)) && Drain(conn) == Drain(old(conn))
        decreases |conn.resp|
      {
        ShiftQueue();
        EntriesEmittable();
        more := |queue.items| != 0;
      }
    }

    /** `handle_write` on a socket that takes everything, or only `room` more bytes: either way
        every response cache ever created has been released. */
    method HandleWrite(room: Option<nat>)
      requires Valid()
      modifies Repr
      ensures Valid() && (forall e <- old(conn).resp :: Emittable(e)) && conn == WriteOut(old(conn), room)
      ensures Repr == old(Repr) && made == old(made) && forall c <- made :: c in Repr && c.freed
    {
      hide Linked, HvSpec.Hv.Inv, Emittable, Drain;
      if room.Some? {
        Parts();
        Restrict(room.value);
        DrainQueue();
        Parts();
        ShutSocket();
      } else {
        DrainQueue();
      }
      AllReleased();
    }

    /** Any events the reactor may hand to a new connection, one after the other: the object
        runs as the abstract connection does. */
    method Play(events: seq<Runs.Event>)
      requires Valid() && conn == START
      requires forall e <- events :: e.Receive? ==> |e.data| <= 65535
      modifies Repr
      ensures Valid() && conn == Runs.Run(env, events)
      ensures fresh(Repr - old(Repr)) && made >= old(made)
    {
      hide Linked, HvSpec.Hv.Inv, Read, WriteOut, Runs.Run, Runs.QueueInv;
      Runs.RunStart(env);
      var i := 0;
      assert events[..0] == [];
      while i < |events|
        invariant 0 <= i <= |events| && Valid() && conn == Runs.Run(env, events[..i])
        invariant fresh(Repr - old(Repr)) && made >= old(made)
      {
        var e := events[i];
        assert events[..i + 1] == events[..i] + [e];
        if e.Receive? {
          Runs.RunReceive(env, events[..i], e.data);
          HandleRead(e.data);
        } else {
          Runs.RunFlush(env, events[..i], e.room);
          HandleWrite(e.room);
        }
        i := i + 1;
      }
      assert events[..|events|] == events;
    }

    /** Once the cache of a popped message is released, the others are still those queued. */
    twostate lemma StillAlive(hv: HV)
      requires old(Separate() && queue.Valid()) && Separate() && queue.Valid() && unchanged(queue)
      requires made == old(made)
      requires hv.value == old(hv.value) && (hv.value != null ==> hv.value.freed)
      requires forall o <- old(queue.Repr) :: o != hv.value ==> unchanged(o)
      requires forall c <- made :: c in queue.Repr && (c == hv.value || old(c.freed) || old(queue.Holds(c)))
      requires forall i | 0 <= i < |queue.items| && queue.items[i].value != null :: queue.items[i].value in made
      ensures CachesAlive()
    {
      forall c | c in made ensures c.freed || queue.Holds(c) {
        if c != hv.value && !old(c.freed) {
          var i :| 0 <= i < |old(queue.items)| && old(queue.items[i].value) == c;
          assert queue.items[i].value == c;
        }
      }
    }
  }

  lemma NumberedRest(view: seq<Hv>, from: nat)
    ensures view != [] ==> Numbered(view, from)[1..] == Numbered(view[1..], from + 1)
  {
  }

  lemma NumberedSnoc(view: seq<Hv>, from: nat, hv: Hv)
    ensures Numbered(view + [hv], from) == Numbered(view, from) + [Entry(hv, from + |view|)]
  {
  }
}
