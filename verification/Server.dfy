/** Whole runs of the server: the listener, any number of `do_select` rounds, and what every
    client connection has been through. */
module Server {
  import opened Wire
  import opened Framing
  import opened ReactorSpec
  import opened ReactorRuns
  import Decoder
  import Replies
  import Runs

  /** What the operating system answers during one call of `do_select`. */
  datatype Round = Round(sel: Select, script: Script)

  /** The registry when `loop` starts: the listening socket, if it could be created. */
  function Boot(sock: int): World {
    if sock > 0
    then World(map[sock := Handler(0, Listener, sock, false, false, true, [])], {sock}, 1, [], [])
    else World(map[], {}, 0, [], [])
  }

  /** `loop` for as many rounds as it makes; it stops by itself when no handler is left. */
  ghost function Serve(envs: Envs, w: World, rounds: seq<Round>): World
    decreases |rounds|
  {
    if rounds == [] || w.handlers == map[] then w
    else Serve(envs, DoSelect(envs, w, rounds[0].sel, rounds[0].script), rounds[1..])
  }

  // ---------------------------------------------------------------- what was delivered to whom

  /** What an event means for the connection of the client it is handed to: the bytes `recv`
      delivered, or a flush with what the socket took. */
  function EventOf(d: Dispatch): seq<Runs.Event> {
    match d.phase
    case ReadPhase => if d.outcome.received == [] then [] else [Runs.Receive(d.outcome.received)]
    case WritePhase => [Runs.Flush(d.outcome.room)]
    case ExptPhase => []
  }

  /** The history of a client, rebuilt from the log alone. */
  function EventsOf(log: seq<Dispatch>, serial: nat): seq<Runs.Event> {
    if log == [] then []
    else
      var last := log[|log| - 1];
      EventsOf(log[..|log| - 1], serial) + if last.serial == serial then EventOf(last) else []
  }

  /** The bytes `recv` delivered in the read events handed to one handler. */
  function Delivered(log: seq<Dispatch>, serial: nat): seq<Byte> {
    if log == [] then []
    else
      var last := log[|log| - 1];
      Delivered(log[..|log| - 1], serial)
      + if last.serial == serial && last.phase == ReadPhase then last.outcome.received else []
  }

  lemma {:induction false} DeliveredIsReceived(log: seq<Dispatch>, serial: nat)
    ensures Runs.Received(EventsOf(log, serial)) == Delivered(log, serial)
  {
    if log != [] {
      var init, last := log[..|log| - 1], log[|log| - 1];
      DeliveredIsReceived(init, serial);
      var events := EventsOf(init, serial);
      if last.serial == serial && EventOf(last) != [] {
        assert EventOf(last) == [EventOf(last)[0]];
        ReceivedSnoc(events, EventOf(last)[0]);
      } else {
        assert events + [] == events;
      }
    }
  }

  lemma ReceivedSnoc(events: seq<Runs.Event>, e: Runs.Event)
    ensures Runs.Received(events + [e]) == Runs.Received(events) + if e.Receive? then e.data else []
  {
    assert (events + [e])[..|events|] == events;
  }

  /** The history of every client, connected or closed, is the one its log entries tell; the
      handlers that have closed are none of the registered ones. */
  ghost predicate Logged(w: World) {
    && (forall d <- w.log :: d.serial < w.next)
    && (forall s | s in w.handlers && w.handlers[s].kind == Client ::
          w.handlers[s].events == EventsOf(w.log, w.handlers[s].serial))
    && (forall h <- w.closed :: h.serial < w.next && (h.kind == Client ==> h.events == EventsOf(w.log, h.serial)))
    && (forall s, h | s in w.handlers && h in w.closed :: w.handlers[s].serial != h.serial)
  }

  lemma EventsSnoc(log: seq<Dispatch>, d: Dispatch, serial: nat)
    ensures EventsOf(log + [d], serial) == EventsOf(log, serial) + if d.serial == serial then EventOf(d) else []
  {
    assert (log + [d])[..|log|] == log;
  }

  lemma {:induction false} NoEvents(log: seq<Dispatch>, serial: nat)
    requires forall d <- log :: d.serial != serial
    ensures EventsOf(log, serial) == []
  {
    if log != [] {
      var init := log[..|log| - 1];
      assert log[|log| - 1] in log;
      forall d | d in init ensures d.serial != serial {
        assert d in log;
      }
      NoEvents(init, serial);
    }
  }

  /** An event is in the history of its client, whether or not it closes it. */
  lemma SelfLogs(h: Handler, phase: Phase, o: Outcome, d: Dispatch)
    requires h.kind == Client && !h.accepting && !h.connecting && d.phase == phase && d.outcome == o
    ensures match Self(h, phase, o)
            case Some(h') => h'.events == h.events + EventOf(d)
            case None => Parting(h, phase, o).events == h.events + EventOf(d)
  {
  }

  /** Every event, whichever descriptors were closed and reused before it, adds to the history
      of its own handler exactly what was delivered to it, and to no other. */
  lemma EventLogs(w: World, s: int, phase: Phase, o: Outcome)
    requires Registry(w) && Logged(w) && s in w.handlers
    ensures Logged(Event(w, s, phase, o))
  {
    var h, w' := w.handlers[s], Event(w, s, phase, o);
    var d := Dispatch(s, h.serial, phase, o);
    EventLocal(w, s, phase, o);
    NewHandlers(w, s, phase, o);
    assert Keyed(w, s, h);
    if h.kind == Client {
      SelfLogs(h, phase, o, d);
    }
    SelfKeeps(h, phase, o);
    hide Event, Self, EventOf, Parting;
    forall t | t in w'.handlers && w'.handlers[t].kind == Client
      ensures w'.handlers[t].events == EventsOf(w'.log, w'.handlers[t].serial)
    {
      var k := w'.handlers[t].serial;
      EventsSnoc(w.log, d, k);
      if t !in w.handlers {
        NoEvents(w.log, k);
      }
    }
    forall e | e in w'.log ensures e.serial < w'.next {
      assert e in w.log || e == d;
    }
    ClosedLogs(w, s, phase, o, d);
  }

  /** The part of `EventLogs` about the handlers that have closed. */
  lemma ClosedLogs(w: World, s: int, phase: Phase, o: Outcome, d: Dispatch)
    requires Registry(w) && Logged(w) && s in w.handlers && d == Dispatch(s, w.handlers[s].serial, phase, o)
    ensures var w' := Event(w, s, phase, o);
            && (forall h <- w'.closed :: h.serial < w'.next && (h.kind == Client ==> h.events == EventsOf(w'.log, h.serial)))
            && (forall t, h | t in w'.handlers && h in w'.closed :: w'.handlers[t].serial != h.serial)
  {
    var h0, w' := w.handlers[s], Event(w, s, phase, o);
    EventLocal(w, s, phase, o);
    assert Keyed(w, s, h0);
    if h0.kind == Client {
      SelfLogs(h0, phase, o, d);
    }
    SelfKeeps(h0, phase, o);
    hide Event, Self, EventOf, Parting;
    forall h | h in w'.closed
      ensures h.serial < w'.next && (h.kind == Client ==> h.events == EventsOf(w'.log, h.serial))
    {
      EventsSnoc(w.log, d, h.serial);
      assert h in w.closed || h == Parting(h0, phase, o);
    }
    forall t, h | t in w'.handlers && h in w'.closed ensures w'.handlers[t].serial != h.serial {
      assert h in w.closed || h == Parting(h0, phase, o);
    }
  }

  /** A handler that an event adds is a client without a history. */
  lemma NewHandlers(w: World, s: int, phase: Phase, o: Outcome)
    requires Registry(w) && s in w.handlers
    ensures var w' := Event(w, s, phase, o);
            forall t | t in w'.handlers && t !in w.handlers :: w'.handlers[t].events == [] && w'.handlers[t].kind == Client
  {
  }

  // ---------------------------------------------------------------- nobody is forgotten

  ghost predicate Known(w: World, serial: nat) {
    || (exists s :: s in w.handlers && w.handlers[s].serial == serial)
    || (exists i :: 0 <= i < |w.closed| && w.closed[i].serial == serial)
  }

  /** Every handler that ever entered the map is still in it or among the closed ones. */
  ghost predicate Accounted(w: World) {
    forall k: nat | k < w.next :: Known(w, k)
  }

  lemma EventAccounts(w: World, s: int, phase: Phase, o: Outcome)
    requires Registry(w) && Accounted(w) && s in w.handlers
    ensures Accounted(Event(w, s, phase, o))
  {
    var h, w' := w.handlers[s], Event(w, s, phase, o);
    EventLocal(w, s, phase, o);
    SelfKeeps(h, phase, o);
    NextKnown(w, s, phase, o);
    hide Event, Self, Parting;
    forall k: nat | k < w'.next ensures Known(w', k) {
      if k < w.next {
        assert Known(w, k);
        if t :| t in w.handlers && w.handlers[t].serial == k {
          if t in w'.handlers && w'.handlers[t].serial == k {
          } else {
            assert w'.closed[|w.closed|] == Parting(h, phase, o);
          }
        } else {
          var i :| 0 <= i < |w.closed| && w.closed[i].serial == k;
          assert w'.closed[i] == w.closed[i];
        }
      }
    }
  }

  /** A new serial is that of a new handler. */
  lemma NextKnown(w: World, s: int, phase: Phase, o: Outcome)
    requires Registry(w) && s in w.handlers
    ensures var w' := Event(w, s, phase, o);
            w'.next == w.next || (w'.next == w.next + 1 && Known(w', w.next))
  {
    var w' := Event(w, s, phase, o);
    if w'.next != w.next {
      var fd := o.accepted;
      assert fd in w'.handlers && w'.handlers[fd].serial == w.next;
    }
  }

  // ---------------------------------------------------------------- every reachable registry

  /** The first handler is the only listener, and it accepts. */
  predicate OneListener(w: World) {
    forall s | s in w.handlers && w.handlers[s].kind == Listener :: w.handlers[s].serial == 0 && w.handlers[s].accepting
  }

  lemma EventKeepsListener(w: World, s: int, phase: Phase, o: Outcome)
    requires Registry(w) && OneListener(w) && s in w.handlers
    ensures OneListener(Event(w, s, phase, o))
  {
    EventLocal(w, s, phase, o);
    NewHandlers(w, s, phase, o);
    SelfKeeps(w.handlers[s], phase, o);
    hide Event, Self;
  }

  /** What holds of the registry, the log and the closed handlers in every run. */
  ghost predicate Sound(w: World) {
    Registry(w) && Logged(w) && Accounted(w) && OneListener(w)
  }

  lemma TrySound(envs: Envs, w: World, s: int, ready: Ready, phase: Phase, script: Script)
    requires Sound(w)
    ensures var w' := Try(envs, w, s, ready, phase, script);
            Sound(w') && w.closed <= w'.closed
  {
    hide Registry, Logged, Accounted, OneListener, Called, Event, Self;
    if s in w.handlers && Called(envs, w.handlers[s], s, ready, phase) {
      EventLocal(w, s, phase, script(s, phase));
      EventLogs(w, s, phase, script(s, phase));
      EventAccounts(w, s, phase, script(s, phase));
      EventKeepsListener(w, s, phase, script(s, phase));
    }
  }

  lemma {:induction false} PassSound(envs: Envs, w: World, socks: seq<int>, ready: Ready, script: Script)
    requires Sound(w)
    ensures var w' := Pass(envs, w, socks, ready, script);
            Sound(w') && w.closed <= w'.closed
    decreases |socks|
  {
    hide Sound, Try;
    if socks != [] {
      var s := socks[0];
      var w1 := Try(envs, w, s, ready, ReadPhase, script);
      var w2 := Try(envs, w1, s, ready, WritePhase, script);
      TrySound(envs, w, s, ready, ReadPhase, script);
      TrySound(envs, w1, s, ready, WritePhase, script);
      TrySound(envs, w2, s, ready, ExptPhase, script);
      PassSound(envs, Turn(envs, w, s, ready, script), socks[1..], ready, script);
    }
  }

  lemma {:induction false} ServeSound(envs: Envs, w: World, rounds: seq<Round>)
    requires Sound(w)
    ensures var w' := Serve(envs, w, rounds); Sound(w') && w.closed <= w'.closed
    decreases |rounds|
  {
    if rounds != [] && w.handlers != map[] {
      var sel, script := rounds[0].sel, rounds[0].script;
      assert Registry(w);
      hide Sound, DoSelect, Pass, ReadyOf, Registry;
      if sel.Failed? {
        FailedSelect(envs, w, script);
      } else {
        DoSelectIsPass(envs, w, sel, script);
        PassSound(envs, w, Sorted(WatchExpt(envs, w)), ReadyOf(envs, w, sel), script);
      }
      ServeSound(envs, DoSelect(envs, w, sel, script), rounds[1..]);
    }
  }

  lemma FailedSelect(envs: Envs, w: World, script: Script)
    ensures DoSelect(envs, w, Failed, script) == w
  {
  }

  lemma BootSound(sock: int)
    ensures Sound(Boot(sock))
  {
    var w := Boot(sock);
    if sock > 0 {
      assert w.handlers[sock].serial == 0;
      assert Known(w, 0);
    }
  }

  /** Registry invariant over every run of the server: each key is its handler's own valid,
      open descriptor and handlers are distinct; the history of each client, connected or
      closed, is exactly what was delivered to it; and no handler is forgotten. */
  lemma ServerRegistry(envs: Envs, sock: int, rounds: seq<Round>)
    ensures Sound(Serve(envs, Boot(sock), rounds))
  {
    BootSound(sock);
    ServeSound(envs, Boot(sock), rounds);
  }

  /** `h` is a client that the server has in its map or that has closed. */
  predicate IsClient(w: World, h: Handler) {
    h.kind == Client && ((h.sock in w.handlers && w.handlers[h.sock] == h) || h in w.closed)
  }

  /** End to end, over every run of the server and whatever caches and sockets fail. For every
      client ever registered, connected or closed: it received the bytes `recv` delivered in
      the events handed to it, and its parser faulted exactly if one of those deliveries fell
      inside a header. If none did, its replies and files are those of the reference, and the
      bytes its socket took, the bytes lost when it failed and the bytes still queued are the
      answers due, in order, whatever other clients did and however descriptors were reused.
      Nothing is lost by a client that is still connected. */
  lemma ServerAnswers(envs: Envs, sock: int, rounds: seq<Round>, h: Handler)
    ensures var w := Serve(envs, Boot(sock), rounds);
            IsClient(w, h) ==>
              && Answered(envs(h.serial), EventsOf(w.log, h.serial), Delivered(w.log, h.serial))
              && h.events == EventsOf(w.log, h.serial)
              && (h !in w.closed ==> Runs.Run(envs(h.serial), h.events).out.lost == [])
  {
    hide Serve, Boot, Sound, Runs.Run, EventsOf, Delivered, Answered, Runs.Unbroken;
    var w := Serve(envs, Boot(sock), rounds);
    ServerRegistry(envs, sock, rounds);
    if IsClient(w, h) {
      ClientHistory(w, h);
      HistoryAnswered(envs(h.serial), w.log, h.serial);
      if h !in w.closed {
        Runs.UnbrokenRun(envs(h.serial), h.events);
      }
    }
  }

  /** What a connection with this history, which delivered these bytes, has come to. */
  ghost predicate Answered(env: Env, events: seq<Runs.Event>, delivered: seq<Byte>) {
    var c, p := Runs.Run(env, events), Runs.Assemble(env, events);
    && c.received == delivered && |c.resp| <= |c.replies|
    && (c.fault <==> !Runs.Uncut(env, events))
    && (!c.fault ==> && c.replies == p.replies && c.stored == p.files
                     && c.out.sent + c.out.lost + Runs.Due(env, c.replies, |c.replies| - |c.resp|)
                        == Runs.Due(env, p.replies, 0))
    && (FilesCreated(env) ==> p == Decoder.Flawless(Decoder.Decode(None, delivered)))
    && Replies.ReadFrames(c.out.sent + c.out.lost)
       == Some(Replies.FramesOf(Replies.Voiced(env, c.replies[..|c.replies| - |c.resp|], 0)))
  }

  lemma ClientHistory(w: World, h: Handler)
    requires Sound(w) && IsClient(w, h)
    ensures h.events == EventsOf(w.log, h.serial)
    ensures h !in w.closed ==> Runs.Unbroken(h.events)
  {
    hide EventsOf, Accounted, Runs.Unbroken;
    if h !in w.closed {
      assert Keyed(w, h.sock, h);
    }
  }

  /** The run of a history answers the bytes delivered in it. */
  lemma HistoryAnswered(env: Env, log: seq<Dispatch>, serial: nat)
    ensures Answered(env, EventsOf(log, serial), Delivered(log, serial))
  {
    hide Runs.Run, Runs.Due, Runs.Uncut, Runs.Assemble, Decoder.Decode, EventsOf, Delivered,
         Replies.ReadFrames, Replies.FramesOf, Replies.Voiced;
    var events := EventsOf(log, serial);
    DeliveredIsReceived(log, serial);
    Runs.RunFollows(env, events);
    Replies.ClientReads(env, events);
    if Runs.Uncut(env, events) {
      Runs.RunAnswers(env, events);
    }
    if FilesCreated(env) {
      Runs.AssembleIsDecode(env, events);
    }
  }

  /** A client that has closed stays as it was: nothing is read from it or flushed to it any
      more. If its socket failed, the queue was still emptied and every cache released;
      otherwise the responses still queued are never sent, and their caches never released. */
  lemma ClosedForever(envs: Envs, w: World, rounds: seq<Round>, h: Handler)
    requires Sound(w) && h in w.closed && h.kind == Client
    ensures var w' := Serve(envs, w, rounds);
            h in w'.closed && EventsOf(w'.log, h.serial) == h.events == EventsOf(w.log, h.serial)
    ensures var c, env := Runs.Run(envs(h.serial), h.events), envs(h.serial);
            && |c.resp| <= |c.replies|
            && (forall n: nat :: n in c.freed <==> n < |c.replies| - |c.resp| && env.mem(n))
            && (h.events != [] && h.events[|h.events| - 1].Flush? ==> c.resp == [])
  {
    hide Serve, Sound, Runs.Run, EventsOf, Runs.Serials, WriteOut, Runs.QueueInv;
    ServeSound(envs, w, rounds);
    ClientHistory(w, h);
    ClientHistory(Serve(envs, w, rounds), h);
    Runs.CachesOwned(envs(h.serial), h.events);
    var n := |h.events| - 1;
    if h.events != [] && h.events[n].Flush? {
      assert h.events == h.events[..n] + [Runs.Flush(h.events[n].room)];
      FlushEmpties(envs(h.serial), h.events[..n], h.events[n].room);
    }
  }

  // ---------------------------------------------------------------- queued responses go out

  /** A client that is ready for writing flushes in its turn: its history grows by what it
      read and then the flush, and it closes if its socket failed. */
  lemma TurnFlushes(h: Handler, s: int, ready: Ready, script: Script)
    requires h.kind == Client && !h.accepting && !h.connecting && s in ready.w
    requires s in ready.r ==> script(s, ReadPhase).received != []
    ensures var got := if s in ready.r then [Runs.Receive(script(s, ReadPhase).received)] else [];
            var o := script(s, WritePhase);
            var h' := h.(events := h.events + got + [Runs.Flush(o.room)]);
            && AfterRead(h, s, ready, script).Some?
            && AfterWrite(h, s, ready, script) == (if o.room.None? then Some(h') else None)
            && Parting(AfterRead(h, s, ready, script).value, WritePhase, o) == h'
  {
    assert h.events + [] == h.events;
  }

  /** Progress: in any call of `do_select` in which a client with queued responses is ready
      for writing, everything queued for it is offered to its socket, together with the
      answers to what it sent in that very pass. The client stays unless its socket fails or
      an exception follows; its queue is empty and its caches are released either way. */
  lemma WriteReadyDrains(envs: Envs, w: World, sel: Select, script: Script, s: int)
    requires Registry(w) && sel.Returned? && s in w.handlers && w.handlers[s].kind == Client
    requires s in ReadyOf(envs, w, sel).w
    requires s in ReadyOf(envs, w, sel).r ==> script(s, ReadPhase).received != []
    ensures var w', ready, room := DoSelect(envs, w, sel, script), ReadyOf(envs, w, sel), script(s, WritePhase).room;
            var got := if s in ready.r then [Runs.Receive(script(s, ReadPhase).received)] else [];
            var h := w.handlers[s].(events := w.handlers[s].events + got + [Runs.Flush(room)]);
            && (if room.Some? || s in ready.e then h in w'.closed else s in w'.handlers && w'.handlers[s] == h)
            && Drained(envs(h.serial), h.events, room.None?)
  {
    hide TurnSelf, DoSelect, Pass, ReadyOf, Registry, AfterRead, AfterWrite, Readable, Writable, Parting,
         Drained, Runs.Unbroken, FreshAndOrdered, WatchExpt;
    var h, ready := w.handlers[s], ReadyOf(envs, w, sel);
    WatchedClient(envs, w, s);
    ReadyIsWritable(envs, w, sel, s);
    TurnFlushes(h, s, ready, script);
    TurnHanded(envs, h, s, ready, script);
    DoSelectSound(envs, w, sel, script);
    var got := if s in ready.r then [Runs.Receive(script(s, ReadPhase).received)] else [];
    assert Settled(DoSelect(envs, w, sel, script), w.next, s, TurnSelf(envs, h, s, ready, script));
    StillUnbroken(h.events, got);
    FlushEmpties(envs(h.serial), h.events + got, script(s, WritePhase).room);
  }

  lemma WatchedClient(envs: Envs, w: World, s: int)
    requires Registry(w) && s in w.handlers && w.handlers[s].kind == Client
    ensures var h := w.handlers[s];
            && s in Sorted(WatchExpt(envs, w)) && Readable(h)
            && !h.accepting && !h.connecting && Runs.Unbroken(h.events)
  {
    hide Runs.Unbroken;
    AllWatched(envs, w);
    assert Keyed(w, s, w.handlers[s]);
  }

  /** After a flush the queue is empty and the caches are released, everything due has been
      taken or lost, and a socket that works has taken it all. */
  ghost predicate Drained(env: Env, events: seq<Runs.Event>, works: bool) {
    var c := Runs.Run(env, events);
    && c.resp == [] && c.freed == Runs.Serials(env, 0, |c.replies|)
    && c.out.sent + c.out.lost == Runs.Due(env, c.replies, 0)
    && (works ==> c.out.lost == [])
  }

  lemma StillUnbroken(events: seq<Runs.Event>, got: seq<Runs.Event>)
    requires Runs.Unbroken(events) && forall e <- got :: e.Receive?
    ensures Runs.Unbroken(events + got)
  {
  }

  lemma FlushEmpties(env: Env, events: seq<Runs.Event>, room: Option<nat>)
    ensures Drained(env, events + [Runs.Flush(room)], room.None? && Runs.Unbroken(events))
  {
    hide Runs.Run, Runs.Unbroken, WriteOut, Runs.QueueInv, Runs.Due, Runs.Serials;
    Runs.RunFlush(env, events, room);
    var c := Runs.Run(env, events);
    Runs.WriteOutSends(env, c, room);
    if room.None? && Runs.Unbroken(events) {
      Runs.UnbrokenRun(env, events);
      Runs.RoomNothingLost(env, WriteOut(c, room));
    }
  }
}
