/** One round of the server told without its own functions: what the answers of the operating
    system do to each handler, who enters the map, and how rounds follow one another. */
module Rounds {
  import opened Wire
  import opened Framing
  import opened ReactorSpec
  import opened ReactorRuns
  import opened Server
  import Runs
  import Replies
  import Decoder
  import Streams

  // ---------------------------------------------------------------- a client in one round

  /** What a round means for a client on socket `s`: whether `recv` delivered nothing, whether
      it writes, whether its socket fails, and what its history becomes. */
  datatype Fate = Fate(hungUp: bool, writes: bool, breaks: bool, last: Handler)

  function ClientFate(envs: Envs, h: Handler, s: int, sel: Select, script: Script): Fate
    requires sel.Returned?
  {
    var got, room := script(s, ReadPhase).received, script(s, WritePhase).room;
    var hungUp := s in sel.r && got == [];
    var writes := s in sel.w && Runs.Run(envs(h.serial), h.events).resp != [] && !hungUp;
    Fate(hungUp, writes, writes && room.Some?,
         h.(events := h.events + (if s in sel.r && !hungUp then [Runs.Receive(got)] else [])
                               + (if writes then [Runs.Flush(room)] else [])))
  }

  /** The turn of a client, read off the answers of the operating system. */
  lemma ClientTurn(envs: Envs, h: Handler, s: int, ready: Ready, sel: Select, script: Script)
    requires h.kind == Client && !h.accepting && !h.connecting && Readable(h) && sel.Returned?
    requires (s in ready.r <==> s in sel.r) && (s in ready.e <==> s in sel.e)
    requires s in ready.w <==> s in sel.w && Writable(envs, h)
    ensures var fate, turn := ClientFate(envs, h, s, sel, script), TurnSelf(envs, h, s, ready, script);
            && (Handed(h, s, ready, ReadPhase, script) <==> s in sel.r)
            && (Handed(h, s, ready, WritePhase, script) <==> fate.writes)
            && (Handed(h, s, ready, ExptPhase, script) <==> s in sel.e && !fate.hungUp && !fate.breaks)
            && turn.0 == (if fate.hungUp || fate.breaks || s in sel.e then None else Some(fate.last))
            && turn.2 == fate.last
  {
    hide Runs.Run;
    var o := script(s, ReadPhase);
    assert h.events + [] == h.events && h.(events := h.events) == h;
    assert h.events + [Runs.Receive(o.received)] + [] == h.events + [Runs.Receive(o.received)];
    TurnHanded(envs, h, s, ready, script);
    if s in ready.r && o.received == [] {
      HungUpTurn(envs, h, s, ready, script);
    }
    hide TurnSelf;
  }

  lemma HungUpTurn(envs: Envs, h: Handler, s: int, ready: Ready, script: Script)
    requires h.kind == Client && !h.accepting && !h.connecting && Readable(h)
    requires s in ready.r && script(s, ReadPhase).received == []
    ensures TurnSelf(envs, h, s, ready, script).0 == None && TurnSelf(envs, h, s, ready, script).2 == h
  {
    hide Writable;
  }

  /** `h`, which was on socket `s`, has closed; its descriptor is at most in use by a handler
      that came later. */
  predicate Gone(w: World, next: nat, s: int, h: Handler) {
    h in w.closed && (s in w.handlers ==> w.handlers[s].serial >= next)
  }

  /** A registered client in one call of `do_select`. It is handed a read event exactly if
      `select` set its read bit; a write event exactly if its write bit was set, it had
      responses queued and was not hung up on; an exception event exactly if that bit was set
      and it had not closed before. It closes exactly if `recv` delivered nothing, a `send`
      failed or its exception bit was set, and otherwise stays with what it received and
      flushed added to its history. */
  lemma ClientRound(envs: Envs, w: World, sel: Select, script: Script, s: int)
    requires Registry(w) && sel.Returned? && s in w.handlers && w.handlers[s].kind == Client
    ensures var w', h := DoSelect(envs, w, sel, script), w.handlers[s];
            var fate := ClientFate(envs, h, s, sel, script);
            && w.log <= w'.log
            && (Dispatch(s, h.serial, ReadPhase, script(s, ReadPhase)) in w'.log[|w.log|..] <==> s in sel.r)
            && (Dispatch(s, h.serial, WritePhase, script(s, WritePhase)) in w'.log[|w.log|..] <==> fate.writes)
            && (Dispatch(s, h.serial, ExptPhase, script(s, ExptPhase)) in w'.log[|w.log|..]
                <==> s in sel.e && !fate.hungUp && !fate.breaks)
            && if fate.hungUp || fate.breaks || s in sel.e then Gone(w', w.next, s, fate.last)
               else s in w'.handlers && w'.handlers[s] == fate.last
  {
    hide DoSelect, Pass, ReadyOf, Registry, TurnSelf, Handed, ClientFate, Writable, Readable, WatchExpt, FreshAndOrdered;
    var h, ready := w.handlers[s], ReadyOf(envs, w, sel);
    WatchedClient(envs, w, s);
    DoSelectSound(envs, w, sel, script);
    ClientTurn(envs, h, s, ready, sel, script);
    assert Settled(DoSelect(envs, w, sel, script), w.next, s, TurnSelf(envs, h, s, ready, script));
  }

  // ---------------------------------------------------------------- a listener in one round

  lemma ListenerTurn(envs: Envs, h: Handler, s: int, ready: Ready, script: Script)
    requires h.kind == Listener && h.accepting && Readable(h) && s !in ready.w
    ensures var closes, turn := s in ready.e && script(s, ExptPhase).pending, TurnSelf(envs, h, s, ready, script);
            && (forall phase :: Handed(h, s, ready, phase, script)
                                <==> match phase
                                     case ReadPhase => s in ready.r
                                     case WritePhase => false
                                     case ExptPhase => s in ready.e)
            && turn.0 == (if closes then None else Some(h)) && turn.2 == h
  {
  }

  /** A listener that accepts is never asked to write, and goes only on an exception with an
      error pending. */
  lemma ListenerRound(envs: Envs, w: World, sel: Select, script: Script, s: int)
    requires Registry(w) && sel.Returned? && s in w.handlers && w.handlers[s].accepting
    ensures var w', h := DoSelect(envs, w, sel, script), w.handlers[s];
            && w.log <= w'.log
            && (Dispatch(s, h.serial, ReadPhase, script(s, ReadPhase)) in w'.log[|w.log|..] <==> s in sel.r)
            && Dispatch(s, h.serial, WritePhase, script(s, WritePhase)) !in w'.log[|w.log|..]
            && (Dispatch(s, h.serial, ExptPhase, script(s, ExptPhase)) in w'.log[|w.log|..] <==> s in sel.e)
            && if s in sel.e && script(s, ExptPhase).pending then Gone(w', w.next, s, h)
               else s in w'.handlers && w'.handlers[s] == h
  {
    var h, ready := w.handlers[s], ReadyOf(envs, w, sel);
    assert Keyed(w, s, h);
    AllWatched(envs, w);
    assert s in Sorted(WatchExpt(envs, w)) && Readable(h);
    hide DoSelect, Pass, ReadyOf, Registry, TurnSelf, Handed, Writable, Readable, WatchExpt, FreshAndOrdered;
    DoSelectSound(envs, w, sel, script);
    ListenerTurn(envs, h, s, ready, script);
    assert Settled(DoSelect(envs, w, sel, script), w.next, s, TurnSelf(envs, h, s, ready, script));
  }

  // ---------------------------------------------------------------- who enters the map

  /** The handler that `accept` makes of a usable peer. */
  function Newcomer(serial: nat, fd: int, o: Outcome): Handler {
    Handler(serial, Client, fd, o.peer == Known, false, false, [])
  }

  /** What the registry holds for `fd` once `accept` has returned it. */
  predicate Entered(w: World, next: nat, fd: int, o: Outcome) {
    && fd in w.open
    && if o.peer == Broken then fd !in w.handlers
       else fd in w.handlers && w.handlers[fd].serial >= next
            && w.handlers[fd] == Newcomer(w.handlers[fd].serial, fd, o)
  }

  /** Nothing the registry holds for `fd` differs. */
  predicate SameAt(w: World, w': World, fd: int) {
    && (fd in w.open <==> fd in w'.open)
    && (fd in w.handlers <==> fd in w'.handlers)
    && (fd in w.handlers ==> w.handlers[fd] == w'.handlers[fd])
  }

  /** `accept` on this handler does not return `fd`. */
  predicate AcceptsOther(h: Handler, s: int, script: Script, fd: int) {
    h.accepting ==> script(s, ReadPhase).accepted != fd
  }

  lemma TryElsewhere(envs: Envs, w: World, s: int, ready: Ready, phase: Phase, script: Script, fd: int)
    requires s != fd && (s in w.handlers && phase == ReadPhase ==> AcceptsOther(w.handlers[s], s, script, fd))
    ensures SameAt(w, Try(envs, w, s, ready, phase, script), fd)
  {
    hide Called, Self, Parting;
  }

  lemma TryAccepts(envs: Envs, w: World, s: int, ready: Ready, script: Script, fd: int)
    requires s in w.handlers && w.handlers[s].accepting && Readable(w.handlers[s]) && s in ready.r
    requires script(s, ReadPhase).accepted == fd && fd > 0 && fd !in w.open && fd !in w.handlers
    ensures Entered(Try(envs, w, s, ready, ReadPhase, script), w.next, fd, script(s, ReadPhase))
  {
  }

  lemma EnteredStays(w: World, w': World, next: nat, fd: int, o: Outcome)
    requires Entered(w, next, fd, o) && SameAt(w, w', fd)
    ensures Entered(w', next, fd, o)
  {
  }

  /** The turns of other sockets do not concern `fd`. */
  lemma {:induction false} PassElsewhere(envs: Envs, w: World, socks: seq<int>, ready: Ready, script: Script, fd: int)
    requires Registry(w) && Ascending(socks) && fd !in socks
    requires forall t <- socks :: t in w.handlers && AcceptsOther(w.handlers[t], t, script, fd)
    ensures SameAt(w, Pass(envs, w, socks, ready, script), fd)
    decreases |socks|
  {
    if socks != [] {
      hide Try, Registry, AcceptsOther, TurnSelf, Dispatches;
      var w1 := Turn(envs, w, socks[0], ready, script);
      TurnElsewhere(envs, w, socks[0], ready, script, fd);
      TurnLocal(envs, w, socks[0], ready, script);
      assert forall t <- socks[1..] :: t in socks && t != socks[0];
      PassElsewhere(envs, w1, socks[1..], ready, script, fd);
    }
  }

  lemma TurnElsewhere(envs: Envs, w: World, s: int, ready: Ready, script: Script, fd: int)
    requires s != fd && s in w.handlers && AcceptsOther(w.handlers[s], s, script, fd)
    ensures SameAt(w, Turn(envs, w, s, ready, script), fd)
  {
    hide Try;
    var w1 := Try(envs, w, s, ready, ReadPhase, script);
    var w2 := Try(envs, w1, s, ready, WritePhase, script);
    TryElsewhere(envs, w, s, ready, ReadPhase, script, fd);
    TryElsewhere(envs, w1, s, ready, WritePhase, script, fd);
    TryElsewhere(envs, w2, s, ready, ExptPhase, script, fd);
  }

  /** The turn of a listener to which `accept` returns `fd`. */
  lemma TurnAccepts(envs: Envs, w: World, s: int, ready: Ready, script: Script, fd: int)
    requires s in w.handlers && w.handlers[s].accepting && Readable(w.handlers[s]) && s in ready.r && s != fd
    requires script(s, ReadPhase).accepted == fd && fd > 0 && fd !in w.open && fd !in w.handlers
    ensures Entered(Turn(envs, w, s, ready, script), w.next, fd, script(s, ReadPhase))
  {
    hide Try, Readable, Entered, SameAt;
    var o := script(s, ReadPhase);
    var w1 := Try(envs, w, s, ready, ReadPhase, script);
    var w2 := Try(envs, w1, s, ready, WritePhase, script);
    TryAccepts(envs, w, s, ready, script, fd);
    TryElsewhere(envs, w1, s, ready, WritePhase, script, fd);
    TryElsewhere(envs, w2, s, ready, ExptPhase, script, fd);
    EnteredStays(w1, w2, w.next, fd, o);
    EnteredStays(w2, Turn(envs, w, s, ready, script), w.next, fd, o);
  }

  /** Only `s` is given `fd`, and `fd` is not open yet. */
  predicate GivenTo(w: World, socks: seq<int>, script: Script, s: int, fd: int) {
    && fd > 0 && fd !in w.open && fd !in w.handlers && fd !in socks
    && s in socks && s in w.handlers && w.handlers[s].accepting && Readable(w.handlers[s])
    && script(s, ReadPhase).accepted == fd
    && (forall t <- socks :: t in w.handlers && (t != s ==> AcceptsOther(w.handlers[t], t, script, fd)))
  }

  lemma {:induction false} PassAccepts(envs: Envs, w: World, socks: seq<int>, ready: Ready, script: Script, s: int, fd: int)
    requires Registry(w) && Ascending(socks) && GivenTo(w, socks, script, s, fd) && s in ready.r
    ensures Entered(Pass(envs, w, socks, ready, script), w.next, fd, script(s, ReadPhase))
    decreases |socks|
  {
    hide Try, Registry, AcceptsOther, TurnSelf, Dispatches, Readable;
    var t, rest := socks[0], socks[1..];
    var w1 := Turn(envs, w, t, ready, script);
    TurnLocal(envs, w, t, ready, script);
    assert forall x <- rest :: x in socks && x != t;
    hide Turn;
    if t == s {
      TurnAccepts(envs, w, s, ready, script, fd);
      PassElsewhere(envs, w1, rest, ready, script, fd);
      EnteredStays(w1, Pass(envs, w1, rest, ready, script), w.next, fd, script(s, ReadPhase));
    } else {
      TurnElsewhere(envs, w, t, ready, script, fd);
      assert s in rest;
      PassAccepts(envs, w1, rest, ready, script, s, fd);
    }
  }

  /** Accepting, in one call of `do_select`: when a listener's read bit is set and `accept`
      returns a positive descriptor that was closed, then after the call that descriptor is
      open and holds a client with a new serial and no history, or, if the peer was unusable,
      no handler at all. */
  lemma AcceptRound(envs: Envs, w: World, sel: Select, script: Script, s: int, fd: int)
    requires Registry(w) && sel.Returned? && s in w.handlers && w.handlers[s].accepting && s in sel.r
    requires script(s, ReadPhase).accepted == fd && fd > 0 && fd !in w.open
    requires forall t | t in w.handlers && t != s :: AcceptsOther(w.handlers[t], t, script, fd)
    ensures Entered(DoSelect(envs, w, sel, script), w.next, fd, script(s, ReadPhase))
  {
    var socks := Sorted(WatchExpt(envs, w));
    AllWatched(envs, w);
    forall t | t in w.handlers ensures t in w.open && Readable(w.handlers[t]) {
      assert Keyed(w, t, w.handlers[t]);
    }
    ReadyFromSelect(envs, w, sel, s);
    DoSelectIsPass(envs, w, sel, script);
    hide DoSelect, Pass, ReadyOf, Registry, AcceptsOther, Entered, WatchExpt;
    assert GivenTo(w, socks, script, s, fd);
    PassAccepts(envs, w, socks, ReadyOf(envs, w, sel), script, s, fd);
  }

  /** The handler `h` on socket `t` is what `accept` on the listener `l` made of a usable peer. */
  predicate AdmittedBy(l: Handler, s: int, ready: Ready, script: Script, t: int, h: Handler) {
    var o := script(s, ReadPhase);
    l.accepting && s in ready.r && o.accepted == t && t > 0 && o.peer != Broken && h == Newcomer(h.serial, t, o)
  }

  /** A phase adds no handler but one that a listener accepts, and leaves the serials alone. */
  lemma TryAdds(envs: Envs, w: World, s: int, ready: Ready, phase: Phase, script: Script, t: int)
    requires Registry(w) && t in Try(envs, w, s, ready, phase, script).handlers
    ensures var w' := Try(envs, w, s, ready, phase, script);
            && Registry(w')
            && (|| (t in w.handlers && w'.handlers[t].serial == w.handlers[t].serial
                    && (t != s ==> w'.handlers[t] == w.handlers[t]))
                || (phase == ReadPhase && s in w.handlers
                    && AdmittedBy(w.handlers[s], s, ready, script, t, w'.handlers[t])))
  {
    if s in w.handlers && Called(envs, w.handlers[s], s, ready, phase) {
      EventLocal(w, s, phase, script(s, phase));
      SelfKeeps(w.handlers[s], phase, script(s, phase));
      hide Self, Registry, Writable;
    }
  }

  lemma TurnAdds(envs: Envs, w: World, s: int, ready: Ready, script: Script, t: int)
    requires Registry(w) && s in w.handlers && t in Turn(envs, w, s, ready, script).handlers
    requires Turn(envs, w, s, ready, script).handlers[t].serial >= w.next
    ensures AdmittedBy(w.handlers[s], s, ready, script, t, Turn(envs, w, s, ready, script).handlers[t])
  {
    hide Try, AdmittedBy;
    var w1 := Try(envs, w, s, ready, ReadPhase, script);
    var w2 := Try(envs, w1, s, ready, WritePhase, script);
    forall x | x in w.handlers ensures w.handlers[x].serial < w.next && x in w.open {
      assert Keyed(w, x, w.handlers[x]);
    }
    PhasesKeepRegistry(envs, w, s, ready, script);
    hide Registry;
    TryAdds(envs, w2, s, ready, ExptPhase, script, t);
    TryAdds(envs, w1, s, ready, WritePhase, script, t);
    TryAdds(envs, w, s, ready, ReadPhase, script, t);
    if t == s {
      AdmittedElsewhere(envs, w, s, ready, script);
    }
  }

  lemma PhasesKeepRegistry(envs: Envs, w: World, s: int, ready: Ready, script: Script)
    requires Registry(w)
    ensures var w1 := Try(envs, w, s, ready, ReadPhase, script);
            Registry(w1) && Registry(Try(envs, w1, s, ready, WritePhase, script))
  {
    hide Called, Event, Registry;
    if s in w.handlers {
      EventKeepsRegistry(w, s, ReadPhase, script(s, ReadPhase));
    }
    var w1 := Try(envs, w, s, ready, ReadPhase, script);
    if s in w1.handlers {
      EventKeepsRegistry(w1, s, WritePhase, script(s, WritePhase));
    }
  }

  /** A listener does not replace itself. */
  lemma AdmittedElsewhere(envs: Envs, w: World, s: int, ready: Ready, script: Script)
    requires Registry(w) && s in w.handlers
    ensures var w1 := Try(envs, w, s, ready, ReadPhase, script);
            s in w1.handlers ==> w1.handlers[s].serial == w.handlers[s].serial
  {
    EventLocal(w, s, ReadPhase, script(s, ReadPhase));
    SelfKeeps(w.handlers[s], ReadPhase, script(s, ReadPhase));
    hide Event, Self, Registry, Called;
  }

  /** Every handler that is new after a pass was accepted in it. */
  lemma {:induction false} PassAdds(envs: Envs, w: World, socks: seq<int>, ready: Ready, script: Script, t: int)
    requires Registry(w) && Ascending(socks) && (forall s <- socks :: s in w.handlers)
    requires var w' := Pass(envs, w, socks, ready, script); t in w'.handlers && w'.handlers[t].serial >= w.next
    ensures var h := Pass(envs, w, socks, ready, script).handlers[t];
            exists s :: s in socks && AdmittedBy(w.handlers[s], s, ready, script, t, h)
    decreases |socks|
  {
    hide TurnSelf, Turn, Registry, Dispatches, AdmittedBy, Remains;
    BelowNext(w);
    if socks != [] {
      var s, rest := socks[0], socks[1..];
      var w1 := Turn(envs, w, s, ready, script);
      TurnLocal(envs, w, s, ready, script);
      assert forall x <- rest :: x in socks && x != s;
      PassIsLocal(envs, w1, rest, ready, script);
      var w' := Pass(envs, w1, rest, ready, script);
      if w'.handlers[t].serial >= w1.next {
        PassAdds(envs, w1, rest, ready, script, t);
        var x :| x in rest && AdmittedBy(w1.handlers[x], x, ready, script, t, w'.handlers[t]);
        assert x in socks && w.handlers[x] == w1.handlers[x];
      } else {
        assert t in w1.handlers;
        if t in rest {
          TurnKeepsSerial(envs, w1.handlers[t], t, ready, script);
        }
        TurnAdds(envs, w, s, ready, script, t);
        assert s in socks;
      }
    }
  }

  lemma BelowNext(w: World)
    requires Registry(w)
    ensures forall s | s in w.handlers :: w.handlers[s].serial < w.next
  {
    forall s | s in w.handlers ensures w.handlers[s].serial < w.next {
      assert Keyed(w, s, w.handlers[s]);
    }
  }

  lemma TurnKeepsSerial(envs: Envs, h: Handler, s: int, ready: Ready, script: Script)
    ensures var r := TurnSelf(envs, h, s, ready, script).0; r.Some? ==> r.value.serial == h.serial
  {
    hide Self, Called;
    forall h': Handler, phase ensures Self(h', phase, script(s, phase)).Some? ==>
                                        Self(h', phase, script(s, phase)).value.serial == h'.serial {
      SelfKeeps(h', phase, script(s, phase));
    }
  }

  /** Nobody else enters the map: every handler that is new after a call of `do_select` is a
      client with no history that a listener, its read bit set, accepted from a usable peer. */
  lemma OnlyAccepted(envs: Envs, w: World, sel: Select, script: Script, t: int)
    requires Registry(w) && sel.Returned?
    requires var w' := DoSelect(envs, w, sel, script); t in w'.handlers && w'.handlers[t].serial >= w.next
    ensures var h := DoSelect(envs, w, sel, script).handlers[t];
            exists s :: s in w.handlers && w.handlers[s].accepting && s in sel.r
                        && script(s, ReadPhase).accepted == t > 0 && script(s, ReadPhase).peer != Broken
                        && h == Newcomer(h.serial, t, script(s, ReadPhase))
  {
    var socks, ready := Sorted(WatchExpt(envs, w)), ReadyOf(envs, w, sel);
    AllWatched(envs, w);
    DoSelectIsPass(envs, w, sel, script);
    hide DoSelect, Pass, ReadyOf, Registry, WatchExpt, Newcomer;
    PassAdds(envs, w, socks, ready, script, t);
    var h := DoSelect(envs, w, sel, script).handlers[t];
    var s :| s in socks && AdmittedBy(w.handlers[s], s, ready, script, t, h);
    ReadyFromSelect(envs, w, sel, s);
    assert s in w.handlers && w.handlers[s].accepting;
  }

  // ---------------------------------------------------------------- rounds one after the other

  lemma ServeNothing(envs: Envs, w: World)
    ensures Serve(envs, w, []) == w
  {
  }

  /** Running some rounds and then others is running them all. */
  lemma {:induction false} ServeConcat(envs: Envs, w: World, a: seq<Round>, b: seq<Round>)
    ensures Serve(envs, w, a + b) == Serve(envs, Serve(envs, w, a), b)
    decreases |a|
  {
    if a == [] {
      assert a + b == b;
    } else if w.handlers != map[] {
      assert (a + b)[1..] == a[1..] + b;
      ServeConcat(envs, DoSelect(envs, w, a[0].sel, a[0].script), a[1..], b);
    }
  }

  /** One more round is one more `do_select` while handlers remain, and nothing otherwise. */
  lemma ServeOneMore(envs: Envs, w: World, rounds: seq<Round>, r: Round)
    ensures var w1 := Serve(envs, w, rounds);
            Serve(envs, w, rounds + [r]) == if w1.handlers == map[] then w1 else DoSelect(envs, w1, r.sel, r.script)
  {
    hide DoSelect;
    ServeConcat(envs, w, rounds, [r]);
    var w1 := Serve(envs, w, rounds);
    assert [r][1..] == [];
    if w1.handlers != map[] {
      ServeNothing(envs, DoSelect(envs, w1, r.sel, r.script));
    }
  }

  lemma {:induction false} ServeLogGrows(envs: Envs, w: World, rounds: seq<Round>)
    requires Registry(w)
    ensures w.log <= Serve(envs, w, rounds).log
    decreases |rounds|
  {
    hide DoSelect, Registry;
    if rounds != [] && w.handlers != map[] {
      DoSelectSound(envs, w, rounds[0].sel, rounds[0].script);
      ServeLogGrows(envs, DoSelect(envs, w, rounds[0].sel, rounds[0].script), rounds[1..]);
    }
  }

  /** The server before round `k` of a run. */
  ghost function Until(envs: Envs, sock: int, rounds: seq<Round>, k: nat): World
    requires k <= |rounds|
  {
    Serve(envs, Boot(sock), rounds[..k])
  }

  /** No round is skipped: round `k` is one `do_select` on what the rounds before it left, and
      its events stay in the log. A socket whose read bit is set in it has its read event in
      the log of the run. */
  lemma RoundServed(envs: Envs, sock: int, rounds: seq<Round>, k: nat, s: int)
    requires k < |rounds| && rounds[k].sel.Returned? && s in Until(envs, sock, rounds, k).handlers
    ensures var w, r := Until(envs, sock, rounds, k), rounds[k];
            var w', end := Until(envs, sock, rounds, k + 1), Serve(envs, Boot(sock), rounds);
            && Sound(w) && w' == DoSelect(envs, w, r.sel, r.script) && w.log <= w'.log <= end.log
            && (s in r.sel.r ==>
                  Dispatch(s, w.handlers[s].serial, ReadPhase, r.script(s, ReadPhase)) in end.log[|w.log|..])
  {
    hide Until, Serve, Boot, DoSelect, Sound, FreshAndOrdered, Pass, ReadyOf, PassKeeps;
    RoundInRun(envs, sock, rounds, k);
    var w, r := Until(envs, sock, rounds, k), rounds[k];
    SoundRegistry(w);
    DoSelectSound(envs, w, r.sel, r.script);
    if s in r.sel.r {
      var w', end := Until(envs, sock, rounds, k + 1), Serve(envs, Boot(sock), rounds);
      var d := Dispatch(s, w.handlers[s].serial, ReadPhase, r.script(s, ReadPhase));
      assert Handed(w.handlers[s], s, ReadyOf(envs, w, r.sel), ReadPhase, r.script);
      assert d in w'.log[|w.log|..];
      assert w'.log[|w.log|..] <= end.log[|w.log|..];
    }
  }

  lemma SoundRegistry(w: World)
    requires Sound(w)
    ensures Registry(w) && OneListener(w)
  {
  }

  /** Round `k` of a run, between the rounds before it and those after it. */
  lemma RoundInRun(envs: Envs, sock: int, rounds: seq<Round>, k: nat)
    requires k < |rounds| && Until(envs, sock, rounds, k).handlers != map[]
    ensures var w, w' := Until(envs, sock, rounds, k), Until(envs, sock, rounds, k + 1);
            && Sound(w) && w' == DoSelect(envs, w, rounds[k].sel, rounds[k].script)
            && w.log <= w'.log <= Serve(envs, Boot(sock), rounds).log
  {
    hide Serve, Boot, DoSelect, Sound;
    var r, before, after := rounds[k], rounds[..k], rounds[k + 1..];
    CutAt(rounds, k);
    ServerRegistry(envs, sock, before);
    ServerRegistry(envs, sock, rounds[..k + 1]);
    ServeOneMore(envs, Boot(sock), before, r);
    ServeConcat(envs, Boot(sock), rounds[..k + 1], after);
    var w, w' := Serve(envs, Boot(sock), before), Serve(envs, Boot(sock), rounds[..k + 1]);
    SoundRegistry(w);
    SoundRegistry(w');
    SelectLogGrows(envs, w, r.sel, r.script);
    ServeLogGrows(envs, w', after);
  }

  lemma Appended<T>(a: T, b: T, c: T)
    ensures [] + [a] == [a] && [a] + [b] == [a, b] && [a, b] + [c] == [a, b, c]
  {
  }

  lemma CutAt<T>(s: seq<T>, k: nat)
    requires k < |s|
    ensures s[..k + 1] == s[..k] + [s[k]] && s == s[..k + 1] + s[k + 1..]
  {
  }

  lemma SelectLogGrows(envs: Envs, w: World, sel: Select, script: Script)
    requires Registry(w)
    ensures w.log <= DoSelect(envs, w, sel, script).log
  {
    hide DoSelect, Registry;
    DoSelectSound(envs, w, sel, script);
  }

  /** In every run, a listener whose read bit is set lets in the peer that `accept` returns. */
  lemma RoundAccepts(envs: Envs, sock: int, rounds: seq<Round>, k: nat, s: int, fd: int)
    requires k < |rounds| && rounds[k].sel.Returned? && s in rounds[k].sel.r
    requires var w := Until(envs, sock, rounds, k);
             s in w.handlers && w.handlers[s].kind == Listener && fd !in w.open
    requires rounds[k].script(s, ReadPhase).accepted == fd && fd > 0
    ensures Entered(Until(envs, sock, rounds, k + 1), Until(envs, sock, rounds, k).next, fd, rounds[k].script(s, ReadPhase))
  {
    hide Until, Serve, Boot, DoSelect, Registry, Sound, Entered;
    var w, r := Until(envs, sock, rounds, k), rounds[k];
    RoundInRun(envs, sock, rounds, k);
    SoundRegistry(w);
    LoneListener(w, s);
    forall t | t in w.handlers && t != s ensures AcceptsOther(w.handlers[t], t, r.script, fd) {
    }
    AcceptRound(envs, w, r.sel, r.script, s, fd);
  }

  lemma LoneListener(w: World, s: int)
    requires Registry(w) && OneListener(w) && s in w.handlers && w.handlers[s].kind == Listener
    ensures w.handlers[s].accepting && forall t | t in w.handlers && t != s :: !w.handlers[t].accepting
  {
    forall t | t in w.handlers && t != s ensures !w.handlers[t].accepting {
      assert Keyed(w, t, w.handlers[t]);
    }
  }

  // ---------------------------------------------------------------- the start

  /** A server that could create its listening socket watches that socket for reading and for
      exceptions and nothing for writing, and lets in the first peer; one that could not stays
      empty whatever rounds it is given. */
  lemma ServerStarts(envs: Envs, sock: int, sel: Select, script: Script, fd: int)
    ensures sock > 0 ==> var w := Boot(sock);
                         && WatchRead(w) == {sock} == WatchExpt(envs, w) && WatchWrite(envs, w) == {}
                         && w.open == {sock} && w.log == [] && w.closed == []
    ensures sock > 0 && sel.Returned? && sock in sel.r && script(sock, ReadPhase).accepted == fd && fd > 0 && fd != sock ==>
              Entered(Serve(envs, Boot(sock), [Round(sel, script)]), 1, fd, script(sock, ReadPhase))
    ensures sock <= 0 ==> forall rounds :: Serve(envs, Boot(sock), rounds).handlers == map[]
  {
    var w := Boot(sock);
    if sock > 0 {
      assert w.handlers.Keys == {sock};
      BootSound(sock);
      AllWatched(envs, w);
      if sel.Returned? && sock in sel.r && script(sock, ReadPhase).accepted == fd && fd > 0 && fd != sock {
        AcceptRound(envs, w, sel, script, sock, fd);
        ServeNothing(envs, w);
        ServeOneMore(envs, w, [], Round(sel, script));
        assert [] + [Round(sel, script)] == [Round(sel, script)];
      }
    }
  }

  // ---------------------------------------------------------------- a client is served

  /** The server has accepted a peer, read the messages it sent and flushed the answers. */
  predicate Visit(sock: int, fd: int, msgs: seq<Streams.Message>, a: Round, b: Round, c: Round)
    requires Streams.Sendable(msgs)
  {
    && a.sel.Returned? && b.sel.Returned? && c.sel.Returned?
    && sock in a.sel.r && a.script(sock, ReadPhase).accepted == fd && a.script(sock, ReadPhase).peer == Known
    && fd in b.sel.r && fd !in b.sel.e && b.script(fd, ReadPhase).received == Streams.StreamOf(msgs)
    && fd !in c.sel.r && fd in c.sel.w && fd !in c.sel.e && c.script(fd, WritePhase).room == None
  }

  /** From the start to the answer: a peer that connects to a server and sends any messages of
      at least 1024 bytes has, after three rounds in which its socket is ready, its values in
      files and one response per message, which it reads as the id of the message and OK. */
  lemma ClientServed(envs: Envs, sock: int, fd: int, msgs: seq<Streams.Message>, a: Round, b: Round, c: Round)
    requires sock > 0 && fd > 0 && fd != sock
    requires forall n: nat :: FilesCreated(envs(n)) && BlocksCreated(envs(n))
    requires msgs != [] && Streams.Sendable(msgs) && forall m <- msgs :: |m.value| >= 1024
    requires Visit(sock, fd, msgs, a, b, c)
    ensures var w := Serve(envs, Boot(sock), [a, b, c]);
            && fd in w.handlers
            && var conn := Runs.Run(envs(w.handlers[fd].serial), w.handlers[fd].events);
            && conn.stored == Streams.Values(msgs)
            && Replies.ReadFrames(conn.out.sent) == Some(seq(|msgs|, i requires 0 <= i < |msgs| => Replies.Frame(msgs[i].id, 0)))
  {
    hide Serve, Boot, DoSelect, Sound, Streams.StreamOf, Runs.Run, Registry, Streams.Values, Replies.ReadFrames,
         FilesCreated, BlocksCreated, Streams.Sendable;
    var data := Streams.StreamOf(msgs);
    var w1, w2 := Serve(envs, Boot(sock), [a]), Serve(envs, Boot(sock), [a, b]);
    ServerStarts(envs, sock, a.sel, a.script, fd);
    var h := w1.handlers[fd];
    OneChunk(envs(h.serial), msgs);
    ServerRegistry(envs, sock, [a]);
    SoundRegistry(w1);
    ReadRound(envs, w1, b, fd, data);
    Appended(a, b, c);
    Appended(Runs.Receive(data), Runs.Flush(None), Runs.Flush(None));
    ServeOneMore(envs, Boot(sock), [a], b);
    ServerRegistry(envs, sock, [a, b]);
    SoundRegistry(w2);
    WriteRound(envs, w2, c, fd);
    ServeOneMore(envs, Boot(sock), [a, b], c);
  }

  /** A new client that is ready for reading. */
  lemma ReadRound(envs: Envs, w: World, r: Round, s: int, data: seq<Byte>)
    requires Registry(w) && r.sel.Returned? && s in w.handlers && w.handlers[s].kind == Client && w.handlers[s].events == []
    requires s in r.sel.r && s !in r.sel.e && r.script(s, ReadPhase).received == data != []
    ensures var w', h := DoSelect(envs, w, r.sel, r.script), w.handlers[s];
            s in w'.handlers && w'.handlers[s] == h.(events := h.events + [Runs.Receive(data)])
  {
    hide DoSelect, Registry, Runs.Run;
    NothingQueued(envs(w.handlers[s].serial));
    ClientRound(envs, w, r.sel, r.script, s);
    assert [] + [Runs.Receive(data)] + [] == [] + [Runs.Receive(data)];
  }

  /** A client with responses queued that is ready for writing. */
  lemma WriteRound(envs: Envs, w: World, r: Round, s: int)
    requires Registry(w) && r.sel.Returned? && s in w.handlers && w.handlers[s].kind == Client
    requires s !in r.sel.r && s in r.sel.w && s !in r.sel.e && r.script(s, WritePhase).room == None
    ensures var w', h := DoSelect(envs, w, r.sel, r.script), w.handlers[s];
            Runs.Run(envs(h.serial), h.events).resp != [] ==>
              s in w'.handlers && w'.handlers[s] == h.(events := h.events + [Runs.Flush(None)])
  {
    hide DoSelect, Registry, Runs.Run;
    ClientRound(envs, w, r.sel, r.script, s);
    assert w.handlers[s].events + [] == w.handlers[s].events;
  }

  lemma NothingQueued(env: Env)
    ensures Runs.Run(env, []).resp == []
  {
  }

  /** A connection that is given the messages in one read, and is then flushed. */
  lemma OneChunk(env: Env, msgs: seq<Streams.Message>)
    requires FilesCreated(env) && BlocksCreated(env)
    requires msgs != [] && Streams.Sendable(msgs) && forall m <- msgs :: |m.value| >= 1024
    ensures var data := Streams.StreamOf(msgs);
            var c := Runs.Run(env, [Runs.Receive(data), Runs.Flush(None)]);
            && data != [] && Runs.Run(env, [Runs.Receive(data)]).resp != []
            && c.stored == Streams.Values(msgs)
            && Replies.ReadFrames(c.out.sent) == Some(seq(|msgs|, i requires 0 <= i < |msgs| => Replies.Frame(msgs[i].id, 0)))
  {
    hide Runs.Run, Runs.Uncut, Runs.Assemble, Replies.ReadFrames, Streams.StreamOf, Decoder.Decode;
    var data := Streams.StreamOf(msgs);
    var one: seq<Runs.Event> := [Runs.Receive(data)];
    var two := one + [Runs.Flush(None)];
    assert two == [Runs.Receive(data), Runs.Flush(None)];
    Streams.TailEmpty(msgs);
    WholeChunk(data, two);
    WholeChunk(data, one);
    Runs.LongMessagesReassembled(env, msgs, one);
    Runs.LongMessagesReassembled(env, msgs, two);
    Streams.ListLengths(msgs);
    QueuedByRead(env, data);
    Runs.UncutIsWhole(env, one);
    Runs.RunFollows(env, one);
    Replies.FlushReads(env, one);
    ItemFrames(msgs);
  }

  /** A single read delivers everything, and cuts no header. */
  lemma WholeChunk(data: seq<Byte>, events: seq<Runs.Event>)
    requires events == [Runs.Receive(data)] || events == [Runs.Receive(data), Runs.Flush(None)]
    ensures Runs.Received(events) == data && Runs.HeadersWhole(events) && Runs.Unbroken(events)
  {
    assert events[..0] == [] && [Runs.Receive(data)][..0] == [];
    assert [] + data == data && data + [] == data;
    assert |events| == 2 ==> events[..1] == [Runs.Receive(data)];
    assert Runs.Received(events[..0]) == [];
    assert Decoder.Decode(None, []).rest == [];
  }

  /** Every reply made by a first read is still queued. */
  lemma QueuedByRead(env: Env, data: seq<Byte>)
    ensures var c := Runs.Run(env, [Runs.Receive(data)]); |c.resp| == |c.replies|
  {
    hide Runs.Run, ReadLoop;
    Runs.RunReceive(env, [], data);
    Runs.RunStart(env);
    assert [] + [Runs.Receive(data)] == [Runs.Receive(data)];
    if data != [] {
      LoopFrame(env, START, data);
    }
  }

  lemma {:induction false} ItemFrames(msgs: seq<Streams.Message>)
    requires Streams.Sendable(msgs)
    ensures Replies.FramesOf(Decoder.Ids(Streams.Items(msgs)))
         == seq(|msgs|, i requires 0 <= i < |msgs| => Replies.Frame(msgs[i].id, 0))
  {
    Streams.ListLengths(msgs);
    forall i | 0 <= i < |msgs| ensures Streams.Items(msgs)[i].header.id == msgs[i].id {
      ItemAt(msgs, i);
    }
  }

  lemma {:induction false} ItemAt(msgs: seq<Streams.Message>, i: nat)
    requires Streams.Sendable(msgs) && i < |msgs|
    ensures i < |Streams.Items(msgs)| && Streams.Items(msgs)[i].header.id == msgs[i].id
  {
    Streams.ListLengths(msgs);
    if i > 0 {
      ItemAt(msgs[1..], i - 1);
    }
  }
}
