/** The select reactor: the handler registry, what one event does to it, and one pass over
    the sockets that `select` reported. */
module ReactorSpec {
  import opened Wire
  import opened Framing
  import Runs

  /** The environment of each handler's connection, by serial. */
  type Envs = nat -> Env

  const INVALID_SOCKET := -1

  predicate SocketValid(sock: int) {
    sock != 0 && sock != INVALID_SOCKET
  }

  /** A `TCPServerImpl` or a `VirusHandler`. */
  datatype Kind = Listener | Client

  /** A handler. `serial` tells handlers apart even when they use the same descriptor;
      `events` is the history of a client's connection, whose state is `Runs.Run`. */
  datatype Handler = Handler(serial: nat, kind: Kind, sock: int, connected: bool, connecting: bool,
                             accepting: bool, events: seq<Runs.Event>)

  datatype Phase = ReadPhase | WritePhase | ExptPhase

  /** One event handed to a handler, with what the operating system answered during it. */
  datatype Dispatch = Dispatch(sock: int, serial: nat, phase: Phase, outcome: Outcome)

  /** The registry, the descriptors that are open, the next serial, every event handed out so
      far, and the handlers that have closed, as they were when they did. */
  datatype World = World(handlers: map<int, Handler>, open: set<int>, next: nat, log: seq<Dispatch>,
                         closed: seq<Handler>)

  /** How `getpeername` turned out for a new connection. */
  datatype Peer = Known | NotConnected | Broken

  /** What the operating system answers during one event: what `recv` delivers (nothing
      stands for a closed peer or an error), the descriptor and peer `accept` returns, how
      many bytes the socket takes before a `send` fails for good, if one does, and whether
      the socket has an error pending. */
  datatype Outcome = Outcome(received: seq<Byte>, accepted: int, peer: Peer, room: Option<nat>, pending: bool)

  predicate Readable(h: Handler) {
    SocketValid(h.sock)
  }

  predicate Writable(envs: Envs, h: Handler) {
    match h.kind
    case Listener => SocketValid(h.sock)
    case Client => Runs.Run(envs(h.serial), h.events).resp != []
  }

  // ---------------------------------------------------------------- one event

  function ConnectSelf(h: Handler, o: Outcome): Option<Handler> {
    if o.pending then None else Some(h.(connected := true, connecting := false))
  }

  /** The common start of read and write events of a handler that does not listen. */
  function Connect(h: Handler, o: Outcome): Option<Handler> {
    if !h.connected && h.connecting then ConnectSelf(h, o) else Some(h)
  }

  /** What an event leaves of the handler it is handed to; `None` if it closes itself. */
  function Self(h: Handler, phase: Phase, o: Outcome): Option<Handler> {
    match phase
    case ReadPhase =>
      if h.accepting then Some(h)
      else if Connect(h, o).None? then None
      else ReadSelf(Connect(h, o).value, o)
    case WritePhase =>
      if h.accepting then Some(h)
      else if Connect(h, o).None? then None
      else WriteSelf(Connect(h, o).value, o)
    case ExptPhase =>
      if o.pending || h.kind == Client then None else Some(h)
  }

  function ReadSelf(h: Handler, o: Outcome): Option<Handler> {
    if h.kind == Listener then Some(h)
    else if o.received == [] then None
    else Some(h.(events := h.events + [Runs.Receive(o.received)]))
  }

  function WriteSelf(h: Handler, o: Outcome): Option<Handler> {
    if h.kind == Listener then Some(h)
    else if o.room.Some? then None
    else Some(Flushed(h, o))
  }

  function Flushed(h: Handler, o: Outcome): Handler {
    h.(events := h.events + [Runs.Flush(o.room)])
  }

  /** How a handler that closes itself in an event last was. A client whose `send` fails for
      good has still been through the whole write loop. */
  function Parting(h: Handler, phase: Phase, o: Outcome): Handler {
    if phase == WritePhase && h.kind == Client && !h.accepting && Connect(h, o).Some?
    then Flushed(Connect(h, o).value, o) else h
  }

  /** The registry entry of `s` becomes `h`, or goes, the handler having last been `last`. */
  function Update(w: World, s: int, h: Option<Handler>, last: Handler): World {
    match h
    case Some(h') => w.(handlers := w.handlers[s := h'])
    case None =>
      w.(handlers := w.handlers - {s}, open := w.open - {s},
         closed := w.closed + if s in w.handlers then [last] else [])
  }

  /** The operating system never hands out a negative descriptor or one that is open; such
      an answer counts as a failed `accept`. */
  function Accepted(w: World, o: Outcome): int {
    if o.accepted < 0 || o.accepted in w.open then INVALID_SOCKET else o.accepted
  }

  /** `handle_accept`: the new handler registers itself, and takes itself out again if its
      peer is unusable, leaving the descriptor open. */
  function Admit(w: World, o: Outcome): World {
    var fd := Accepted(w, o);
    if fd == INVALID_SOCKET then w
    else if !SocketValid(fd) then w.(open := w.open + {fd})
    else if o.peer == Broken then w.(open := w.open + {fd})
    else
      w.(open := w.open + {fd}, next := w.next + 1,
         handlers := w.handlers[fd := Handler(w.next, Client, fd, o.peer == Known, false, false, [])])
  }

  function Event(w: World, s: int, phase: Phase, o: Outcome): World
    requires s in w.handlers
  {
    var h := w.handlers[s];
    var w1 := Update(w.(log := w.log + [Dispatch(s, h.serial, phase, o)]), s, Self(h, phase, o), Parting(h, phase, o));
    if phase == ReadPhase && h.accepting then Admit(w1, o) else w1
  }

  // ---------------------------------------------------------------- one pass

  /** The sets `select` left set. */
  datatype Ready = Ready(r: set<int>, w: set<int>, e: set<int>)

  type Script = (int, Phase) -> Outcome

  predicate Called(envs: Envs, h: Handler, s: int, ready: Ready, phase: Phase) {
    match phase
    case ReadPhase => s in ready.r && Readable(h)
    case WritePhase => s in ready.w && Writable(envs, h)
    case ExptPhase => s in ready.e && (Readable(h) || Writable(envs, h))
  }

  function Try(envs: Envs, w: World, s: int, ready: Ready, phase: Phase, script: Script): World {
    if s in w.handlers && Called(envs, w.handlers[s], s, ready, phase) then Event(w, s, phase, script(s, phase)) else w
  }

  /** The turn of one socket, without a budget. */
  function Turn(envs: Envs, w: World, s: int, ready: Ready, script: Script): World {
    var w1 := Try(envs, w, s, ready, ReadPhase, script);
    var w2 := Try(envs, w1, s, ready, WritePhase, script);
    Try(envs, w2, s, ready, ExptPhase, script)
  }

  /** A pass that looks at every socket. */
  function Pass(envs: Envs, w: World, socks: seq<int>, ready: Ready, script: Script): World
    decreases |socks|
  {
    if socks == [] then w else Pass(envs, Turn(envs, w, socks[0], ready, script), socks[1..], ready, script)
  }

  /** A phase of the loop in `do_select`: nothing happens once the budget is used up. */
  function Spend(envs: Envs, w: World, budget: int, s: int, ready: Ready, phase: Phase, script: Script): (World, int) {
    if budget > 0 && s in w.handlers && Called(envs, w.handlers[s], s, ready, phase)
    then (Event(w, s, phase, script(s, phase)), budget - 1)
    else (w, budget)
  }

  /** The turn of one socket with the budget, leaving early once the socket is gone. */
  function SpendTurn(envs: Envs, w: World, budget: int, s: int, ready: Ready, script: Script): (World, int) {
    if budget > 0 && s !in w.handlers then (w, budget)
    else
      var (w1, b1) := Spend(envs, w, budget, s, ready, ReadPhase, script);
      if b1 > 0 && s !in w1.handlers then (w1, b1)
      else
        var (w2, b2) := Spend(envs, w1, b1, s, ready, WritePhase, script);
        if b2 > 0 && s !in w2.handlers then (w2, b2)
        else Spend(envs, w2, b2, s, ready, ExptPhase, script)
  }

  function SpendPass(envs: Envs, w: World, budget: int, socks: seq<int>, ready: Ready, script: Script): World
    decreases |socks|
  {
    if socks == [] then w
    else
      var (w1, b1) := SpendTurn(envs, w, budget, socks[0], ready, script);
      SpendPass(envs, w1, b1, socks[1..], ready, script)
  }

  // ---------------------------------------------------------------- the budget never starves

  function Bits(s: int, ready: Ready): nat {
    (if s in ready.r then 1 else 0) + (if s in ready.w then 1 else 0) + (if s in ready.e then 1 else 0)
  }

  function AllBits(socks: seq<int>, ready: Ready): nat {
    if socks == [] then 0 else Bits(socks[0], ready) + AllBits(socks[1..], ready)
  }

  /** A turn that can afford its own bits does what it would without a budget, and spends
      no more than its own bits although a closing handler leaves some of them unspent. */
  lemma TurnAffordable(envs: Envs, w: World, budget: int, s: int, ready: Ready, script: Script)
    requires budget >= Bits(s, ready)
    ensures SpendTurn(envs, w, budget, s, ready, script).0 == Turn(envs, w, s, ready, script)
    ensures SpendTurn(envs, w, budget, s, ready, script).1 >= budget - Bits(s, ready)
    ensures SpendTurn(envs, w, budget, s, ready, script).1
         == budget - (|Turn(envs, w, s, ready, script).log| - |w.log|)
  {
    hide Event, Readable, Writable;
    forall w': World, phase | s in w'.handlers ensures |Event(w', s, phase, script(s, phase)).log| == |w'.log| + 1 {
      EventLogsOne(w', s, phase, script(s, phase));
    }
  }

  lemma EventLogsOne(w: World, s: int, phase: Phase, o: Outcome)
    requires s in w.handlers
    ensures |Event(w, s, phase, o).log| == |w.log| + 1
  {
  }

  /** Whatever the budget, a pass hands out at most that many events. */
  lemma {:induction false} BudgetCaps(envs: Envs, w: World, budget: int, socks: seq<int>, ready: Ready, script: Script)
    ensures |SpendPass(envs, w, budget, socks, ready, script).log| <= |w.log| + if budget > 0 then budget else 0
    decreases |socks|
  {
    if socks != [] {
      TurnCapped(envs, w, budget, socks[0], ready, script);
      hide SpendTurn;
      var (w1, b1) := SpendTurn(envs, w, budget, socks[0], ready, script);
      BudgetCaps(envs, w1, b1, socks[1..], ready, script);
    }
  }

  lemma TurnCapped(envs: Envs, w: World, budget: int, s: int, ready: Ready, script: Script)
    ensures var (w1, b1) := SpendTurn(envs, w, budget, s, ready, script);
            |w1.log| - |w.log| == budget - b1 && (b1 == budget || b1 >= 0)
  {
    hide Event, Called;
    forall w': World, phase | s in w'.handlers ensures |Event(w', s, phase, script(s, phase)).log| == |w'.log| + 1 {
      EventLogsOne(w', s, phase, script(s, phase));
    }
  }

  /** No starvation by the budget: as long as `retv` covers the bits that are set, the pass
      with the budget is the pass that looks at every socket. */
  lemma {:induction false} BudgetIrrelevant(envs: Envs, w: World, budget: int, socks: seq<int>, ready: Ready, script: Script)
    requires budget >= AllBits(socks, ready)
    ensures SpendPass(envs, w, budget, socks, ready, script) == Pass(envs, w, socks, ready, script)
    decreases |socks|
  {
    if socks != [] {
      TurnAffordable(envs, w, budget, socks[0], ready, script);
      hide SpendTurn, Turn;
      var (w1, b1) := SpendTurn(envs, w, budget, socks[0], ready, script);
      BudgetIrrelevant(envs, w1, b1, socks[1..], ready, script);
    }
  }

  // ---------------------------------------------------------------- the registry

  /** Every key is the descriptor of its handler, is valid and open; serials tell the
      handlers apart; only the listener accepts, no handler is still connecting, and no
      client's socket has failed. */
  predicate Registry(w: World) {
    && (forall s <- w.handlers :: Keyed(w, s, w.handlers[s]))
    && (forall s, t | s in w.handlers && t in w.handlers && w.handlers[s].serial == w.handlers[t].serial :: s == t)
  }

  predicate Keyed(w: World, s: int, h: Handler) {
    && h.sock == s && s > 0 && s in w.open && h.serial < w.next
    && (h.accepting ==> h.kind == Listener) && !h.connecting && Runs.Unbroken(h.events)
  }

  /** A connection under way is completed before anything else, or the handler closes. */
  lemma ConnectFirst(h: Handler, phase: Phase, o: Outcome)
    requires h.connecting && !h.connected && !h.accepting && !phase.ExptPhase?
    ensures Self(h, phase, o)
         == if o.pending then None else Self(h.(connected := true, connecting := false), phase, o)
  {
  }

  lemma SelfKeeps(h: Handler, phase: Phase, o: Outcome)
    ensures var r := Self(h, phase, o);
            r.Some? ==> r.value.sock == h.sock && r.value.serial == h.serial && r.value.kind == h.kind
                        && r.value.accepting == h.accepting
                        && (!h.connecting ==> !r.value.connecting)
                        && (Runs.Unbroken(h.events) ==> Runs.Unbroken(r.value.events))
    ensures Parting(h, phase, o).kind == h.kind && Parting(h, phase, o).serial == h.serial
            && Parting(h, phase, o).sock == h.sock
  {
  }

  /** An event changes no handler but its own, adds at most handlers on descriptors that
      were closed, and keeps the registry. */
  lemma EventLocal(w: World, s: int, phase: Phase, o: Outcome)
    requires Registry(w) && s in w.handlers
    ensures var w' := Event(w, s, phase, o);
            && Registry(w') && w.next <= w'.next
            && (forall t | t in w.handlers && t != s :: t in w'.handlers && w'.handlers[t] == w.handlers[t])
            && (forall t | t in w'.handlers && t !in w.handlers :: w'.handlers[t].serial >= w.next)
            && (match Self(w.handlers[s], phase, o)
                case Some(h) => s in w'.handlers && w'.handlers[s] == h
                case None => s !in w'.handlers)
            && (Self(w.handlers[s], phase, o).None? ==> w'.open == w.open - {s})
            && w'.log == w.log + [Dispatch(s, w.handlers[s].serial, phase, o)]
            && w'.closed == w.closed + if Self(w.handlers[s], phase, o).None? then [Parting(w.handlers[s], phase, o)] else []
  {
    SelfKeeps(w.handlers[s], phase, o);
    var h := w.handlers[s];
    if h.accepting && phase == ReadPhase {
      assert Self(h, phase, o) == Some(h);
      assert w.handlers[s := h] == w.handlers;
    }
    hide Self, Parting;
  }

  lemma EventKeepsRegistry(w: World, s: int, phase: Phase, o: Outcome)
    requires Registry(w) && s in w.handlers
    ensures Registry(Event(w, s, phase, o))
  {
    EventLocal(w, s, phase, o);
  }

  // ---------------------------------------------------------------- a pass, handler by handler

  function TrySelf(envs: Envs, h: Option<Handler>, s: int, ready: Ready, phase: Phase, script: Script)
    : (Option<Handler>, seq<Phase>)
  {
    if h.Some? && Called(envs, h.value, s, ready, phase)
    then (Self(h.value, phase, script(s, phase)), [phase])
    else (h, [])
  }

  /** The turn of a handler considered on its own: what is left of it, which events it is
      handed, and how it last was. */
  function TurnSelf(envs: Envs, h: Handler, s: int, ready: Ready, script: Script)
    : (Option<Handler>, seq<Phase>, Handler)
  {
    var (h1, p1) := TrySelf(envs, Some(h), s, ready, ReadPhase, script);
    var (h2, p2) := TrySelf(envs, h1, s, ready, WritePhase, script);
    var (h3, p3) := TrySelf(envs, h2, s, ready, ExptPhase, script);
    (h3, p1 + p2 + p3, Last(h2, h3, ExptPhase, script(s, ExptPhase),
                            Last(h1, h2, WritePhase, script(s, WritePhase),
                                 Last(Some(h), h1, ReadPhase, script(s, ReadPhase), h))))
  }

  /** How a handler last was, after a phase in which `h` became `h'`. */
  function Last(h: Option<Handler>, h': Option<Handler>, phase: Phase, o: Outcome, before: Handler): Handler {
    if h'.Some? then h'.value else if h.Some? then Parting(h.value, phase, o) else before
  }

  function Dispatches(s: int, serial: nat, phases: seq<Phase>, script: Script): seq<Dispatch> {
    seq(|phases|, i requires 0 <= i < |phases| => Dispatch(s, serial, phases[i], script(s, phases[i])))
  }

  /** The events of a pass, read off the handlers registered when it started. */
  function PassLog(envs: Envs, handlers: map<int, Handler>, socks: seq<int>, ready: Ready, script: Script): seq<Dispatch>
    requires forall s <- socks :: s in handlers
  {
    if socks == [] then []
    else
      var s, h := socks[0], handlers[socks[0]];
      Dispatches(s, h.serial, TurnSelf(envs, h, s, ready, script).1, script)
      + PassLog(envs, handlers, socks[1..], ready, script)
  }

  predicate Ascending(socks: seq<int>) {
    forall i, j | 0 <= i < j < |socks| :: socks[i] < socks[j]
  }

  /** Handlers on other sockets are untouched, and only new handlers appear. */
  predicate LocalTo(w: World, s: int, w': World) {
    && Registry(w') && w.next <= w'.next && w.closed <= w'.closed
    && (forall t | t in w.handlers && t != s :: t in w'.handlers && w'.handlers[t] == w.handlers[t])
    && (forall t | t in w'.handlers && t !in w.handlers && t != s :: w'.handlers[t].serial >= w.next)
  }

  /** The registry entry of `s` is what is left of the handler `h`. */
  predicate Remains(w: World, s: int, h: Option<Handler>) {
    if h.Some? then s in w.handlers && w.handlers[s] == h.value else s !in w.handlers
  }

  lemma TryLocal(envs: Envs, w0: World, w: World, s: int, h: Option<Handler>, ready: Ready, phase: Phase, script: Script)
    requires LocalTo(w0, s, w) && Remains(w, s, h)
    ensures var w', r := Try(envs, w, s, ready, phase, script), TrySelf(envs, h, s, ready, phase, script);
            && LocalTo(w0, s, w') && Remains(w', s, r.0)
            && w'.log == w.log + Dispatches(s, if h.Some? then h.value.serial else 0, r.1, script)
            && (r.0.Some? ==> h.Some? && r.0.value.serial == h.value.serial)
            && w'.closed == w.closed + if h.Some? && r.0.None? then [Parting(h.value, phase, script(s, phase))] else []
  {
    if h.Some? && Called(envs, h.value, s, ready, phase) {
      EventLocal(w, s, phase, script(s, phase));
      SelfKeeps(h.value, phase, script(s, phase));
    }
    hide Called, Event, Self, Registry, Parting;
  }

  /** The turn of a socket is the turn of its handler on its own. */
  lemma TurnLocal(envs: Envs, w: World, s: int, ready: Ready, script: Script)
    requires Registry(w) && s in w.handlers
    ensures var w', r := Turn(envs, w, s, ready, script), TurnSelf(envs, w.handlers[s], s, ready, script);
            && LocalTo(w, s, w') && Remains(w', s, r.0)
            && w'.log == w.log + Dispatches(s, w.handlers[s].serial, r.1, script)
            && w'.closed == w.closed + if r.0.None? then [r.2] else []
  {
    hide Try, TrySelf, LocalTo, Remains, Registry, Parting;
    var h := w.handlers[s];
    var (h1, p1) := TrySelf(envs, Some(h), s, ready, ReadPhase, script);
    var w1 := Try(envs, w, s, ready, ReadPhase, script);
    var (h2, p2) := TrySelf(envs, h1, s, ready, WritePhase, script);
    var w2 := Try(envs, w1, s, ready, WritePhase, script);
    LocalRefl(w, s);
    TryLocal(envs, w, w, s, Some(h), ready, ReadPhase, script);
    TryLocal(envs, w, w1, s, h1, ready, WritePhase, script);
    TryLocal(envs, w, w2, s, h2, ready, ExptPhase, script);
    GoneIsQuiet(envs, s, ready, script);
    var (_, p3) := TrySelf(envs, h2, s, ready, ExptPhase, script);
    assert Dispatches(s, h.serial, p1 + p2 + p3, script)
        == Dispatches(s, h.serial, p1, script) + Dispatches(s, h.serial, p2, script) + Dispatches(s, h.serial, p3, script);
    assert w1.log == w.log + Dispatches(s, h.serial, p1, script);
    assert w2.log == w1.log + Dispatches(s, h.serial, p2, script);
    assert Turn(envs, w, s, ready, script).log == w2.log + Dispatches(s, h.serial, p3, script);
  }

  lemma LocalRefl(w: World, s: int)
    requires Registry(w) && s in w.handlers
    ensures LocalTo(w, s, w) && Remains(w, s, Some(w.handlers[s]))
  {
  }

  lemma GoneIsQuiet(envs: Envs, s: int, ready: Ready, script: Script)
    ensures forall phase :: TrySelf(envs, None, s, ready, phase, script) == (None, [])
  {
  }
}
