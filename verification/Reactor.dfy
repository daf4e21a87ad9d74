/** The reactor in place: handler objects that change their own fields, a shared map that
    they enter and leave while a pass runs, and the pass itself. */
module ReactorPart {
  import opened Wire
  import opened Framing
  import opened ReactorSpec
  import opened ReactorRuns
  import Runs
  import Server

  class BaseSocket {
    const serial: nat
    const kind: Kind
    const sock: int
    var connected: bool
    var connecting: bool
    var accepting: bool
    /** The protocol state of a client. */
    var conn: Conn
    ghost var events: seq<Runs.Event>

    ghost function View(): Handler
      reads this
    {
      Handler(serial, kind, sock, connected, connecting, accepting, events)
    }

    /** The protocol state is the run of the events this handler was handed. */
    ghost predicate Valid(env: Env)
      reads this
    {
      conn == Runs.Run(env, events)
    }

    constructor (serial: nat, kind: Kind, sock: int, connected: bool, accepting: bool, ghost env: Env)
      ensures View() == Handler(serial, kind, sock, connected, false, accepting, []) && Valid(env)
    {
      this.serial, this.kind, this.sock := serial, kind, sock;
      this.connected, this.connecting, this.accepting := connected, false, accepting;
      conn, events := START, [];
    }

    method IsReadable() returns (b: bool)
      ensures b == Readable(View())
    {
      b := SocketValid(sock);
    }

    method IsWritable(ghost envs: Envs) returns (b: bool)
      requires Valid(envs(serial))
      ensures b == Writable(envs, View())
    {
      b := if kind == Listener then SocketValid(sock) else conn.resp != [];
    }

    /** `close`, which is also what `handle_close` and `handle_error` come to; the handler will
        last have been `last`. */
    method Close(m: Registry, ghost last: Handler)
      requires m.Linked() && (m.Has(this) || sock !in m.handlers)
      modifies this`connected, this`connecting, this`accepting, m`handlers, m`open, m`world
      ensures m.Linked() && m.world == Update(old(m.world), sock, None, last)
      ensures sock !in m.handlers && sock !in m.open
    {
      hide Runs.Run, Runs.QueueInv;
      connected, connecting, accepting := false, false, false;
      m.handlers := m.handlers - {sock};
      m.open := m.open - {sock};
      m.world := Update(m.world, sock, None, last);
    }

    method HandleConnectEvent(m: Registry, o: Outcome)
      requires m.Linked() && m.Has(this)
      modifies this`connected, this`connecting, this`accepting, m`handlers, m`open, m`world
      ensures m.Linked() && m.world == Update(old(m.world), sock, ConnectSelf(old(View()), o), old(View()))
      ensures !o.pending ==> m.Has(this) && Some(View()) == ConnectSelf(old(View()), o)
      ensures o.pending ==> sock !in m.handlers && sock !in m.open
      ensures Valid(m.envs(serial))
    {
      hide Runs.Run, Runs.QueueInv;
      if o.pending {
        Close(m, View());
        return;
      }
      connected := true;
      connecting := false;
      m.world := Update(m.world, sock, Some(View()), View());
    }

    /** `handle_read` of a client; a listener that does not accept ignores the event. On a
        descriptor that is no longer open, `recv` fails. */
    method HandleRead(m: Registry, o: Outcome)
      requires m.Linked() && (m.Has(this) || (sock !in m.handlers && sock !in m.open))
      modifies this, m`handlers, m`open, m`world
      ensures m.Linked()
      ensures old(m.Has(this)) ==> m.world == Update(old(m.world), sock, ReadSelf(old(View()), o), old(View()))
      ensures !old(m.Has(this)) ==> m.world == old(m.world)
    {
      hide Framing.Read, Runs.Run, Runs.QueueInv;
      if kind == Listener {
        m.Rewrite(sock);
        return;
      }
      var data := if sock in m.open then o.received else [];
      if |data| == 0 {
        ghost var last := View();
        Close(m, last);
        m.Absent(sock, last);
        return;
      }
      Runs.RunReceive(m.envs(serial), events, data);
      conn := Framing.Read(m.envs(serial), conn, data);
      events := events + [Runs.Receive(data)];
      m.world := Update(m.world, sock, Some(View()), View());
    }

    /** `handle_write` of a client. When a `send` fails for good the handler closes itself, and
        then the loop goes on: the queue is emptied although nothing more is taken. */
    method HandleWrite(m: Registry, o: Outcome)
      requires m.Linked() && (m.Has(this) || (sock !in m.handlers && sock !in m.open))
      requires Valid(m.envs(serial))
      modifies this, m`handlers, m`open, m`world
      ensures m.Linked()
      ensures old(m.Has(this)) ==> m.world == Update(old(m.world), sock, WriteSelf(old(View()), o), Flushed(old(View()), o))
      ensures !old(m.Has(this)) ==> m.world == old(m.world)
      ensures old(m.Has(this)) && kind == Client ==> Valid(m.envs(serial)) && events == Flushed(old(View()), o).events
    {
      hide WriteOut, Runs.Run, Runs.QueueInv;
      if kind == Listener {
        m.Rewrite(sock);
        return;
      }
      var room := if sock in m.open then o.room else Some(0);
      Runs.RunFlush(m.envs(serial), events, room);
      ghost var last := Flushed(View(), o);
      if room.Some? {
        Close(m, last);
        m.Absent(sock, last);
      }
      conn := WriteOut(conn, room);
      events := events + [Runs.Flush(room)];
      if room.None? {
        m.world := Update(m.world, sock, Some(View()), View());
      }
    }

    /** `handle_accept` of a `TCPServerImpl`: the new handler enters the map by itself. */
    method HandleAccept(m: Registry, o: Outcome)
      requires m.Linked()
      modifies m
      ensures m.Linked() && m.world == Admit(old(m.world), o)
      ensures fresh(m.objects - old(m.objects))
    {
      hide Runs.Run, Runs.QueueInv, Readable, Writable;
      var fd := if o.accepted < 0 || o.accepted in m.open then INVALID_SOCKET else o.accepted;
      if fd == INVALID_SOCKET {
        return;
      }
      m.NoteOpened(fd);
      if SocketValid(fd) {
        var h := new BaseSocket(m.next, Client, fd, o.peer == Known, false, m.envs(m.next));
        if o.peer != Broken {
          m.next := m.next + 1;
          m.world := m.world.(next := m.next);
          m.AddChannel(h);
        }
      }
    }

    /** The start of read and write events: a connection under way is completed. */
    method FinishConnecting(m: Registry, o: Outcome)
      requires m.Linked() && m.Has(this)
      modifies this`connected, this`connecting, this`accepting, m`handlers, m`open, m`world
      ensures m.Linked() && m.world == Update(old(m.world), sock, Connect(old(View()), o), old(View()))
      ensures m.Has(this) <==> Connect(old(View()), o).Some?
      ensures m.Has(this) ==> Some(View()) == Connect(old(View()), o)
      ensures !m.Has(this) ==> sock !in m.handlers && sock !in m.open
      ensures Valid(m.envs(serial))
    {
      hide Runs.Run, Runs.QueueInv;
      m.Rewrite(sock);
      if !connected {
        if connecting {
          HandleConnectEvent(m, o);
        }
      }
    }

    method HandleReadEvent(m: Registry, o: Outcome)
      requires m.Valid() && m.Has(this)
      modifies this, m
      ensures m.Valid() && m.world == Event(old(m.world), sock, ReadPhase, o)
      ensures fresh(m.objects - old(m.objects))
    {
      ghost var h := View();
      assert sock in m.world.handlers && m.world.handlers[sock] == h && Keyed(m.world, sock, h);
      hide Runs.Run, Runs.QueueInv, ReadSelf, Admit, Connect, Event, ReactorSpec.Registry, Registry.Linked, Update;
      EventKeepsRegistry(m.world, sock, ReadPhase, o);
      EventParts(m.world, sock, ReadPhase, o);
      m.Record(this, ReadPhase, o);
      if accepting {
        m.Rewrite(sock);
        HandleAccept(m, o);
      } else {
        ConnectAndRead(m, o);
      }
    }

    /** The branches of a read event for a handler that does not accept. */
    method ConnectAndRead(m: Registry, o: Outcome)
      requires m.Linked() && m.Has(this)
      modifies this, m`handlers, m`open, m`world
      ensures m.Linked()
      ensures var c := Connect(old(View()), o);
              var w := Update(old(m.world), sock, c, old(View()));
              m.world == if c.None? then w else Update(w, sock, ReadSelf(c.value, o), c.value)
    {
      hide Runs.Run, Runs.QueueInv, ReadSelf, Connect, Registry.Linked, Update;
      FinishConnecting(m, o);
      HandleRead(m, o);
    }

    method HandleWriteEvent(m: Registry, o: Outcome)
      requires m.Valid() && m.Has(this)
      modifies this, m`handlers, m`open, m`world
      ensures m.Valid() && m.world == Event(old(m.world), sock, WritePhase, o)
    {
      ghost var h := View();
      assert sock in m.world.handlers && m.world.handlers[sock] == h && Keyed(m.world, sock, h);
      hide Runs.Run, Runs.QueueInv, WriteSelf, Connect, Event, ReactorSpec.Registry, Registry.Linked, Update;
      EventKeepsRegistry(m.world, sock, WritePhase, o);
      EventParts(m.world, sock, WritePhase, o);
      m.Record(this, WritePhase, o);
      m.Rewrite(sock);
      if accepting {
        return;
      }
      FinishConnecting(m, o);
      HandleWrite(m, o);
    }

    /** An error closes the handler; without one a client closes and a listener goes on. */
    method HandleExptEvent(m: Registry, o: Outcome)
      requires m.Valid() && m.Has(this)
      modifies this, m`handlers, m`open, m`world
      ensures m.Valid() && m.world == Event(old(m.world), sock, ExptPhase, o)
    {
      assert sock in m.world.handlers && m.world.handlers[sock] == View();
      hide Runs.Run, Runs.QueueInv, Event, ReactorSpec.Registry, Registry.Linked, Update;
      EventKeepsRegistry(m.world, sock, ExptPhase, o);
      ExptParts(m.world, sock, o);
      m.Record(this, ExptPhase, o);
      m.Rewrite(sock);
      if o.pending {
        Close(m, View());
      } else if kind == Client {
        Close(m, View());
      }
    }
  }

  /** Read and write events, step by step: the connection is completed first. */
  lemma EventParts(w: World, s: int, phase: Phase, o: Outcome)
    requires s in w.handlers && !w.handlers[s].connecting && !phase.ExptPhase?
    ensures var h := w.handlers[s];
            var w1 := w.(log := w.log + [Dispatch(s, h.serial, phase, o)]);
            var w2 := Update(w1, s, Connect(h, o), h);
            Event(w, s, phase, o) ==
              if h.accepting then
                if phase.ReadPhase? then Admit(Update(w1, s, Some(h), h), o) else Update(w1, s, Some(h), h)
              else if Connect(h, o).None? then w2
              else if phase.ReadPhase? then Update(w2, s, ReadSelf(Connect(h, o).value, o), Connect(h, o).value)
              else Update(w2, s, WriteSelf(Connect(h, o).value, o), Flushed(Connect(h, o).value, o))
  {
    hide ReadSelf, Admit;
    assert Connect(w.handlers[s], o) == Some(w.handlers[s]);
  }

  lemma ExptParts(w: World, s: int, o: Outcome)
    requires s in w.handlers
    ensures var h := w.handlers[s];
            Event(w, s, ExptPhase, o) == Update(w.(log := w.log + [Dispatch(s, h.serial, ExptPhase, o)]), s,
                                                if o.pending || h.kind == Client then None else Some(h), h)
  {
    hide Update;
  }

  class Registry {
    const envs: Envs
    var handlers: map<int, BaseSocket>
    /** Descriptors the operating system holds open. */
    var open: set<int>
    var next: nat
    /** The abstract registry, kept in step with the fields. */
    ghost var world: World
    /** Every handler object that has been in the map. */
    ghost var objects: set<BaseSocket>

    /** The registry of a new server, holding its listening socket if there is one. */
    constructor (envs: Envs, sock: int)
      ensures Valid() && world == Server.Boot(sock) && this.envs == envs && fresh(objects)
    {
      hide Runs.Run, Runs.QueueInv;
      this.envs := envs;
      open, next, world := {}, 0, Server.Boot(sock);
      handlers, objects := map[], {};
      if sock > 0 {
        var h := new BaseSocket(0, Listener, sock, false, true, envs(0));
        open, next, handlers, objects := {sock}, 1, map[sock := h], {h};
      }
    }

    /** The fields are those of `world`, and each handler is under its own descriptor. */
    ghost predicate Linked()
      reads this, objects
    {
      && handlers.Keys == world.handlers.Keys <= open
      && (forall s | s in handlers ::
            handlers[s] in objects && handlers[s].sock == s
            && handlers[s].View() == world.handlers[s] && handlers[s].Valid(envs(handlers[s].serial)))
      && open == world.open && next == world.next
    }

    ghost predicate Valid()
      reads this, objects
    {
      Linked() && ReactorSpec.Registry(world)
    }

    /** `h` is registered. */
    ghost predicate Has(h: BaseSocket)
      reads this
    {
      h.sock in handlers && handlers[h.sock] == h
    }

    /** `add_channel`: an entry on the same descriptor is replaced. */
    method AddChannel(h: BaseSocket)
      requires Linked() && h.Valid(envs(h.serial)) && h.sock in open
      modifies this`handlers, this`objects, this`world
      ensures Linked() && world == old(world).(handlers := old(world).handlers[h.sock := h.View()])
      ensures objects == old(objects) + {h}
    {
      hide Runs.Run, Runs.QueueInv;
      handlers := handlers - {h.sock};
      handlers := handlers[h.sock := h];
      objects := objects + {h};
      world := world.(handlers := world.handlers[h.sock := h.View()]);
    }

    /** The operating system has opened a descriptor. */
    method NoteOpened(fd: int)
      requires Linked()
      modifies this`open, this`world
      ensures Linked() && world == old(world).(open := old(world).open + {fd})
    {
      hide Runs.Run, Runs.QueueInv;
      open := open + {fd};
      world := world.(open := world.open + {fd});
    }

    /** Note that an event is handed to `h`. */
    ghost method Record(h: BaseSocket, phase: Phase, o: Outcome)
      requires Linked()
      modifies this`world
      ensures Linked() && world == old(world).(log := old(world).log + [Dispatch(h.sock, h.serial, phase, o)])
    {
      hide Runs.Run, Runs.QueueInv;
      world := world.(log := world.log + [Dispatch(h.sock, h.serial, phase, o)]);
    }

    lemma Rewrite(s: int)
      requires Linked()
      ensures s in handlers ==> Update(world, s, Some(handlers[s].View()), handlers[s].View()) == world
    {
      hide Runs.Run, Runs.QueueInv;
      if s in handlers {
        assert world.handlers[s := world.handlers[s]] == world.handlers;
      }
    }

    lemma Absent(s: int, last: Handler)
      ensures s !in world.handlers && s !in world.open ==> Update(world, s, None, last) == world
    {
    }

    // -------------------------------------------------------------- the pass

    /** What the loop that builds the sets asks of one handler. */
    method Look(s: int) returns (isr: bool, isw: bool, accepting: bool)
      requires Linked() && s in handlers
      ensures s in world.handlers
      ensures isr == Readable(world.handlers[s]) && isw == Writable(envs, world.handlers[s])
      ensures accepting == world.handlers[s].accepting
    {
      hide Runs.Run, Runs.QueueInv, Readable, Writable;
      isr := handlers[s].IsReadable();
      isw := handlers[s].IsWritable(envs);
      accepting := handlers[s].accepting;
    }

    /** The sets, the list of sockets and the largest descriptor handed to `select`. */
    method BuildSets() returns (r: set<int>, w: set<int>, e: set<int>, socks: seq<int>, maxFd: int)
      requires Valid()
      ensures r == WatchRead(world) && w == WatchWrite(envs, world) && e == WatchExpt(envs, world)
      ensures socks == Sorted(e) && maxFd == MaxFd(socks)
    {
      hide Linked, Readable, Writable, ReactorSpec.Registry, Sorted, MaxFd, ReadAmong, WriteAmong, ExptAmong, Sweep;
      SameKeys();
      SweepStart(handlers.Keys);
      r, w, e, socks, maxFd := {}, {}, {}, [], 0;
      NothingWatched();
      AmongNone(envs, world);
      var seen, rest := {}, handlers.Keys;
      while rest != {}
        invariant Sweep(seen, rest, handlers.Keys)
        invariant r == ReadAmong(world, seen) && w == WriteAmong(envs, world, seen) && e == ExptAmong(envs, world, seen)
        invariant socks == Sorted(e) && maxFd == MaxFd(socks)
        decreases rest
      {
        HasMin(rest);
        var sock :| sock in rest && forall t <- rest :: sock <= t;
        SweepOn(seen, rest, handlers.Keys, sock);
        AmongOneMore(envs, world, seen, sock);
        SocksOneMore(envs, world, seen, sock);
        var isr, isw, accepting := Look(sock);
        if isr {
          r := r + {sock};
        }
        if isw && !accepting {
          w := w + {sock};
        }
        if isr || isw {
          e := e + {sock};
          socks := socks + [sock];
          if maxFd < sock {
            maxFd := sock;
          }
        }
        seen, rest := seen + {sock}, rest - {sock};
      }
      SweepEnd(seen, handlers.Keys);
    }

    lemma NothingWatched()
      ensures Sorted({}) == [] && MaxFd([]) == 0
    {
    }

    method ReadTurn(s: int, budget: int, ready: Ready, script: Script) returns (b: int)
      requires Valid() && s in handlers && budget > 0
      modifies this, objects
      ensures Valid() && (world, b) == Spend(envs, old(world), budget, s, ready, ReadPhase, script)
      ensures fresh(objects - old(objects))
    {
      hide Runs.Run, Runs.QueueInv, ReactorSpec.Registry, Event, Readable, Writable;
      b := budget;
      var readable := handlers[s].IsReadable();
      if s in ready.r && readable {
        handlers[s].HandleReadEvent(this, script(s, ReadPhase));
        b := b - 1;
      }
    }

    method WriteTurn(s: int, budget: int, ready: Ready, script: Script) returns (b: int)
      requires Valid() && s in handlers && budget > 0
      modifies this, objects
      ensures Valid() && (world, b) == Spend(envs, old(world), budget, s, ready, WritePhase, script)
      ensures fresh(objects - old(objects))
    {
      hide Runs.Run, Runs.QueueInv, ReactorSpec.Registry, Event, Readable, Writable;
      b := budget;
      var writable := handlers[s].IsWritable(envs);
      if s in ready.w && writable {
        handlers[s].HandleWriteEvent(this, script(s, WritePhase));
        b := b - 1;
      }
    }

    method ExptTurn(s: int, budget: int, ready: Ready, script: Script) returns (b: int)
      requires Valid() && s in handlers && budget > 0
      modifies this, objects
      ensures Valid() && (world, b) == Spend(envs, old(world), budget, s, ready, ExptPhase, script)
      ensures fresh(objects - old(objects))
    {
      hide Runs.Run, Runs.QueueInv, ReactorSpec.Registry, Event, Readable, Writable;
      b := budget;
      var readable := handlers[s].IsReadable();
      var writable := handlers[s].IsWritable(envs);
      if s in ready.e && (readable || writable) {
        handlers[s].HandleExptEvent(this, script(s, ExptPhase));
        b := b - 1;
      }
    }

    /** The turn of one socket in the dispatch loop. */
    method TakeTurn(s: int, budget: int, ready: Ready, script: Script) returns (b: int)
      requires Valid()
      modifies this, objects
      ensures Valid() && (world, b) == SpendTurn(envs, old(world), budget, s, ready, script)
      ensures fresh(objects - old(objects))
    {
      hide Linked, ReactorSpec.Registry, Event, Called;
      b := budget;
      SameKeys();
      if b > 0 {
        if s !in handlers {
          return;
        }
        b := ReadTurn(s, b, ready, script);
        SameKeys();
      }
      if b > 0 {
        if s !in handlers {
          return;
        }
        b := WriteTurn(s, b, ready, script);
        SameKeys();
      }
      if b > 0 {
        if s !in handlers {
          return;
        }
        b := ExptTurn(s, b, ready, script);
      }
    }

    /** `do_select`. */
    method DoSelect(sel: Select, script: Script)
      requires Valid()
      modifies this, objects
      ensures Valid() && world == ReactorRuns.DoSelect(envs, old(world), sel, script)
      ensures fresh(objects - old(objects))
    {
      hide Linked, ReactorSpec.Registry, SpendTurn, WatchRead, WatchWrite, WatchExpt, Sorted, MaxFd;
      SameKeys();
      if |handlers| == 0 {
        return;
      }
      var r, w, e, socks, maxFd := BuildSets();
      if maxFd == 0 || sel.Failed? {
        return;
      }
      var ready := Ready(sel.r * r, sel.w * w, sel.e * e);
      var retv := |ready.r| + |ready.w| + |ready.e|;
      if retv == 0 {
        return;
      }
      ghost var goal := SpendPass(envs, world, retv, socks, ready, script);
      var i := 0;
      assert socks[0..] == socks;
      while i < |socks|
        invariant 0 <= i <= |socks| && Valid()
        invariant SpendPass(envs, world, retv, socks[i..], ready, script) == goal
        invariant fresh(objects - old(objects))
      {
        assert socks[i..][0] == socks[i] && socks[i..][1..] == socks[i + 1..];
        retv := TakeTurn(socks[i], retv, ready, script);
        i := i + 1;
      }
    }

    lemma SameKeys()
      requires Linked()
      ensures handlers.Keys == world.handlers.Keys
      ensures world.handlers == map[] <==> |handlers| == 0
    {
      hide Runs.Run, Runs.QueueInv;
      assert |handlers| == |handlers.Keys| && |world.handlers| == |world.handlers.Keys|;
    }

    /** `loop` with a positive count: one answer of the operating system per round. */
    method Loop(rounds: seq<Server.Round>)
      requires Valid()
      modifies this, objects
      ensures Valid() && world == Server.Serve(envs, old(world), rounds)
    {
      hide Linked, ReactorSpec.Registry, ReactorRuns.DoSelect;
      var i := 0;
      assert rounds[0..] == rounds;
      SameKeys();
      while i < |rounds| && |handlers| != 0
        invariant 0 <= i <= |rounds| && Valid()
        invariant world.handlers == map[] <==> |handlers| == 0
        invariant Server.Serve(envs, world, rounds[i..]) == Server.Serve(envs, old(world), rounds)
        invariant fresh(objects - old(objects))
      {
        assert rounds[i..][0] == rounds[i] && rounds[i..][1..] == rounds[i + 1..];
        DoSelect(rounds[i].sel, rounds[i].script);
        i := i + 1;
        SameKeys();
      }
    }
  }
}
