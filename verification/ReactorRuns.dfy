/** Passes and whole runs of the reactor. */
module ReactorRuns {
  import opened Wire
  import opened ReactorSpec
  import Runs

  // ---------------------------------------------------------------- a whole pass

  /** What a pass leaves of the handlers that were registered when it started: each visited
      one is what its own turn left, or is among the closed ones as it last was, its descriptor
      at most reused by a newer handler; the others are untouched. */
  predicate PassKeeps(envs: Envs, w: World, socks: seq<int>, ready: Ready, script: Script, w': World) {
    && Registry(w') && w.next <= w'.next && w.closed <= w'.closed
    && (forall s | s in w.handlers && s !in socks :: s in w'.handlers && w'.handlers[s] == w.handlers[s])
    && (forall s | s in w.handlers && s in socks :: Settled(w', w.next, s, TurnSelf(envs, w.handlers[s], s, ready, script)))
    && (forall s | s in w'.handlers && s !in w.handlers :: w'.handlers[s].serial >= w.next)
  }

  predicate Settled(w: World, next: nat, s: int, turn: (Option<Handler>, seq<Phase>, Handler)) {
    match turn.0
    case Some(h) => s in w.handlers && w.handlers[s] == h
    case None => turn.2 in w.closed && (s in w.handlers ==> w.handlers[s].serial >= next)
  }

  /** The pass handles every watched handler exactly as if it were alone: the events it hands
      out are those that can be read off the handlers registered at the start. */
  lemma {:induction false} PassIsLocal(envs: Envs, w: World, socks: seq<int>, ready: Ready, script: Script)
    requires Registry(w) && Ascending(socks) && forall s <- socks :: s in w.handlers
    ensures var w' := Pass(envs, w, socks, ready, script);
            && PassKeeps(envs, w, socks, ready, script, w')
            && w'.log == w.log + PassLog(envs, w.handlers, socks, ready, script)
    decreases |socks|
  {
    hide TurnSelf, Turn, Registry, Remains, Dispatches;
    if socks != [] {
      var s, rest := socks[0], socks[1..];
      TurnLocal(envs, w, s, ready, script);
      var w1 := Turn(envs, w, s, ready, script);
      forall t | t in rest ensures t != s && t in w1.handlers && w1.handlers[t] == w.handlers[t] {
      }
      PassIsLocal(envs, w1, rest, ready, script);
      SameSnapshot(envs, w.handlers, w1.handlers, rest, ready, script);
      KeepsCompose(envs, w, w1, Pass(envs, w1, rest, ready, script), socks, ready, script);
      hide PassKeeps, LocalTo;
    }
  }

  lemma {:induction false} SameSnapshot(envs: Envs, a: map<int, Handler>, b: map<int, Handler>,
                                        socks: seq<int>, ready: Ready, script: Script)
    requires forall s <- socks :: s in a && s in b && a[s] == b[s]
    ensures PassLog(envs, a, socks, ready, script) == PassLog(envs, b, socks, ready, script)
  {
    hide TurnSelf, Dispatches;
    if socks != [] {
      SameSnapshot(envs, a, b, socks[1..], ready, script);
    }
  }

  /** A turn followed by the rest of the pass. */
  lemma KeepsCompose(envs: Envs, w: World, w1: World, w': World, socks: seq<int>, ready: Ready, script: Script)
    requires socks != [] && Ascending(socks) && forall s <- socks :: s in w.handlers
    requires LocalTo(w, socks[0], w1)
    requires Remains(w1, socks[0], TurnSelf(envs, w.handlers[socks[0]], socks[0], ready, script).0)
    requires var turn := TurnSelf(envs, w.handlers[socks[0]], socks[0], ready, script);
             turn.0.None? ==> turn.2 in w1.closed
    requires PassKeeps(envs, w1, socks[1..], ready, script, w')
    ensures PassKeeps(envs, w, socks, ready, script, w')
  {
    hide TurnSelf, Registry;
    var s, rest := socks[0], socks[1..];
    assert s !in rest;
    forall t | t in w.handlers && t in socks
      ensures Settled(w', w.next, t, TurnSelf(envs, w.handlers[t], t, ready, script))
    {
      if t != s {
        assert t in rest && w1.handlers[t] == w.handlers[t];
      }
    }
    forall t | t in w.handlers && t !in socks ensures t in w'.handlers && w'.handlers[t] == w.handlers[t] {
      assert t in w1.handlers && t !in rest;
    }
    forall t | t in w'.handlers && t !in w.handlers ensures w'.handlers[t].serial >= w.next {
      assert t !in rest;
      if t in w1.handlers {
        assert w'.handlers[t] == w1.handlers[t];
      }
    }
  }

  // ---------------------------------------------------------------- what the log of a pass says

  function Rank(p: Phase): nat {
    match p
    case ReadPhase => 0
    case WritePhase => 1
    case ExptPhase => 2
  }

  predicate Before(a: Dispatch, b: Dispatch) {
    a.sock < b.sock || (a.sock == b.sock && Rank(a.phase) < Rank(b.phase))
  }

  /** Every event goes to the handler registered on its socket when the sets were built, with
      what the operating system answers on that socket, and socket by socket in the order
      read, write, exception, each at most once. */
  predicate FreshAndOrdered(handlers: map<int, Handler>, script: Script, log: seq<Dispatch>) {
    && (forall d <- log :: d.sock in handlers && d.serial == handlers[d.sock].serial
                           && d.outcome == script(d.sock, d.phase))
    && (forall i, j | 0 <= i < j < |log| :: Before(log[i], log[j]))
  }

  /** Which events the turn of a handler consists of. Closing in one phase silences the
      phases after it. */
  lemma TurnPhases(envs: Envs, h: Handler, s: int, ready: Ready, script: Script)
    ensures var p := TurnSelf(envs, h, s, ready, script).1;
            var h1 := TrySelf(envs, Some(h), s, ready, ReadPhase, script).0;
            var h2 := TrySelf(envs, h1, s, ready, WritePhase, script).0;
            && (forall i, j | 0 <= i < j < |p| :: Rank(p[i]) < Rank(p[j]))
            && (ReadPhase in p <==> Called(envs, h, s, ready, ReadPhase))
            && (WritePhase in p <==> h1.Some? && Called(envs, h1.value, s, ready, WritePhase))
            && (ExptPhase in p <==> h2.Some? && Called(envs, h2.value, s, ready, ExptPhase))
  {
    hide Called, Self;
  }

  /** No stale readiness. */
  lemma {:induction false} PassLogFresh(envs: Envs, handlers: map<int, Handler>, socks: seq<int>, ready: Ready, script: Script)
    requires Ascending(socks) && forall s <- socks :: s in handlers
    ensures var log := PassLog(envs, handlers, socks, ready, script);
            && FreshAndOrdered(handlers, script, log)
            && (forall d <- log :: d.sock in socks)
    decreases |socks|
  {
    if socks != [] {
      hide TurnSelf, PassLog, FreshAndOrdered, Dispatches;
      var s, h, rest := socks[0], handlers[socks[0]], socks[1..];
      TurnPhases(envs, h, s, ready, script);
      PassLogFresh(envs, handlers, rest, ready, script);
      PassLogCons(envs, handlers, socks, ready, script);
      var b := PassLog(envs, handlers, rest, ready, script);
      forall d | d in b ensures d.sock > s && d.sock in socks {
        var i :| 0 <= i < |rest| && rest[i] == d.sock;
        assert rest[i] == socks[i + 1];
      }
      FreshCons(handlers, script, s, TurnSelf(envs, h, s, ready, script).1, b);
    }
  }

  lemma FreshCons(handlers: map<int, Handler>, script: Script, s: int, p: seq<Phase>, b: seq<Dispatch>)
    requires s in handlers && FreshAndOrdered(handlers, script, b)
    requires forall i, j | 0 <= i < j < |p| :: Rank(p[i]) < Rank(p[j])
    requires forall d <- b :: d.sock > s
    ensures FreshAndOrdered(handlers, script, Dispatches(s, handlers[s].serial, p, script) + b)
    ensures forall d <- Dispatches(s, handlers[s].serial, p, script) + b :: d.sock == s || d in b
  {
    hide Rank;
    var a := Dispatches(s, handlers[s].serial, p, script);
    forall i, j | 0 <= i < j < |a + b| ensures Before((a + b)[i], (a + b)[j]) {
      if i < |a| <= j {
        assert (a + b)[j] in b;
      }
    }
  }

  /** No starvation: a visited socket is handed an event exactly when the turn of its
      handler on its own includes it. */
  lemma {:induction false} Served(envs: Envs, handlers: map<int, Handler>, socks: seq<int>,
                                  ready: Ready, script: Script, s: int, phase: Phase)
    requires Ascending(socks) && (forall t <- socks :: t in handlers) && s in socks
    ensures Dispatch(s, handlers[s].serial, phase, script(s, phase)) in PassLog(envs, handlers, socks, ready, script)
            <==> phase in TurnSelf(envs, handlers[s], s, ready, script).1
    decreases |socks|
  {
    hide TurnSelf, PassLog;
    var t, h, rest := socks[0], handlers[socks[0]], socks[1..];
    PassLogFresh(envs, handlers, rest, ready, script);
    PassLogCons(envs, handlers, socks, ready, script);
    var p := TurnSelf(envs, h, t, ready, script).1;
    var a, b := Dispatches(t, h.serial, p, script), PassLog(envs, handlers, rest, ready, script);
    var d := Dispatch(s, handlers[s].serial, phase, script(s, phase));
    if s == t {
      if phase in p {
        var i :| 0 <= i < |p| && p[i] == phase;
        assert a[i] == d;
      }
      assert d !in b;
    } else {
      Served(envs, handlers, rest, ready, script, s, phase);
      assert d !in a;
    }
  }

  lemma PassLogCons(envs: Envs, handlers: map<int, Handler>, socks: seq<int>, ready: Ready, script: Script)
    requires socks != [] && forall s <- socks :: s in handlers
    ensures PassLog(envs, handlers, socks, ready, script)
         == Dispatches(socks[0], handlers[socks[0]].serial,
                       TurnSelf(envs, handlers[socks[0]], socks[0], ready, script).1, script)
            + PassLog(envs, handlers, socks[1..], ready, script)
  {
    hide TurnSelf;
  }

  // ---------------------------------------------------------------- do_select

  function WatchRead(w: World): set<int> {
    ReadAmong(w, w.handlers.Keys)
  }

  /** A socket that accepts is not watched for writing. */
  function WatchWrite(envs: Envs, w: World): set<int> {
    WriteAmong(envs, w, w.handlers.Keys)
  }

  function WatchExpt(envs: Envs, w: World): set<int> {
    ExptAmong(envs, w, w.handlers.Keys)
  }

  function ReadAmong(w: World, keys: set<int>): set<int> {
    set s | s in keys && s in w.handlers && Readable(w.handlers[s])
  }

  function WriteAmong(envs: Envs, w: World, keys: set<int>): set<int> {
    set s | s in keys && s in w.handlers && Writable(envs, w.handlers[s]) && !w.handlers[s].accepting
  }

  function ExptAmong(envs: Envs, w: World, keys: set<int>): set<int> {
    set s | s in keys && s in w.handlers && (Readable(w.handlers[s]) || Writable(envs, w.handlers[s]))
  }

  /** The sets after one more key has been looked at. */
  lemma AmongOneMore(envs: Envs, w: World, keys: set<int>, s: int)
    requires s in w.handlers
    ensures var h := w.handlers[s];
            && ReadAmong(w, keys + {s}) == (if Readable(h) then ReadAmong(w, keys) + {s} else ReadAmong(w, keys))
            && WriteAmong(envs, w, keys + {s})
               == (if Writable(envs, h) && !h.accepting then WriteAmong(envs, w, keys) + {s} else WriteAmong(envs, w, keys))
            && ExptAmong(envs, w, keys + {s})
               == (if Readable(h) || Writable(envs, h) then ExptAmong(envs, w, keys) + {s} else ExptAmong(envs, w, keys))
    ensures forall x <- ExptAmong(envs, w, keys) :: x in keys
  {
    hide Readable, Writable;
  }

  /** The list of sockets after one more key, larger than those before. */
  lemma SocksOneMore(envs: Envs, w: World, keys: set<int>, s: int)
    requires forall x <- keys :: x < s
    ensures var socks := Sorted(ExptAmong(envs, w, keys));
            && Sorted(ExptAmong(envs, w, keys) + {s}) == socks + [s]
            && MaxFd(socks + [s]) == if MaxFd(socks) < s then s else MaxFd(socks)
  {
    SortedSnoc(ExptAmong(envs, w, keys), s);
    MaxFdSnoc(Sorted(ExptAmong(envs, w, keys)), s);
  }

  lemma AmongNone(envs: Envs, w: World)
    ensures ReadAmong(w, {}) == {} && WriteAmong(envs, w, {}) == {} && ExptAmong(envs, w, {}) == {}
  {
  }

  /** `seen` is a lower part of `keys` and `rest` the other keys. */
  predicate Sweep(seen: set<int>, rest: set<int>, keys: set<int>) {
    && seen !! rest && seen + rest == keys
    && forall s, t | s in seen && t in rest :: s < t
  }

  lemma SweepOn(seen: set<int>, rest: set<int>, keys: set<int>, m: int)
    requires Sweep(seen, rest, keys) && m in rest && forall t <- rest :: m <= t
    ensures Sweep(seen + {m}, rest - {m}, keys)
    ensures m in keys && forall s <- seen :: s < m
  {
  }

  lemma SweepStart(keys: set<int>)
    ensures Sweep({}, keys, keys)
  {
  }

  lemma SweepEnd(seen: set<int>, keys: set<int>)
    requires Sweep(seen, {}, keys)
    ensures seen == keys
  {
  }

  lemma HasMin(s: set<int>)
    ensures s == {} || exists m :: m in s && forall x <- s :: m <= x
  {
    if y :| y in s {
      var t := s - {y};
      HasMin(t);
      if m :| m in t && forall x <- t :: m <= x {
        var l := if y < m then y else m;
        forall x | x in s ensures l <= x {
          assert x != y ==> x in t;
        }
        assert l in s;
      } else {
        forall x | x in s ensures y <= x {
          assert x == y || x in t;
        }
      }
    } else {
      assert forall y :: y in s ==> y in {};
      assert s <= {};
    }
  }

  /** The members of a set in the order a `std::map` visits its keys. */
  ghost function Sorted(s: set<int>): (r: seq<int>)
    ensures Ascending(r) && forall x :: x in r <==> x in s
  {
    if s == {} then []
    else
      HasMin(s);
      var m :| m in s && forall x <- s :: m <= x;
      [m] + Sorted(s - {m})
  }

  function MaxFd(socks: seq<int>): (m: int)
    ensures m == 0 || m in socks
    ensures forall i | 0 <= i < |socks| :: socks[i] <= m
  {
    if socks == [] then 0
    else
      var m := MaxFd(socks[1..]);
      assert forall i | 0 < i < |socks| :: socks[i] == socks[1..][i - 1];
      if m < socks[0] then socks[0] else m
  }

  /** Two ascending lists with the same members are the same list. */
  lemma {:induction false} AscendingUnique(a: seq<int>, b: seq<int>)
    requires Ascending(a) && Ascending(b) && forall x :: x in a <==> x in b
    ensures a == b
    decreases |a|
  {
    assert b == [] || b[0] in b;
    if a == [] {
    } else {
      assert a[0] in a && a[0] in b;
      assert b[0] in b && b[0] in a;
      assert a[0] == b[0];
      forall x ensures x in a[1..] <==> x in b[1..] {
        TailMember(a, x);
        TailMember(b, x);
      }
      AscendingUnique(a[1..], b[1..]);
    }
  }

  lemma TailMember(a: seq<int>, x: int)
    requires a != [] && Ascending(a)
    ensures x in a[1..] <==> x in a && x != a[0]
  {
  }

  /** Visiting keys in ascending order builds the sorted list. */
  lemma SortedSnoc(s: set<int>, x: int)
    requires forall y <- s :: y < x
    ensures Sorted(s + {x}) == Sorted(s) + [x]
  {
    var a, b := Sorted(s + {x}), Sorted(s) + [x];
    forall y ensures y in a <==> y in b {
      assert y in b <==> y in Sorted(s) || y == x;
    }
    forall i, j | 0 <= i < j < |b| ensures b[i] < b[j] {
      if j == |b| - 1 {
        assert b[i] in Sorted(s);
      }
    }
    AscendingUnique(a, b);
  }

  lemma {:induction false} MaxFdSnoc(socks: seq<int>, s: int)
    ensures MaxFd(socks + [s]) == if MaxFd(socks) < s then s else MaxFd(socks)
  {
    if socks == [] {
      assert [] + [s] == [s] && [s][1..] == [];
    } else {
      MaxFdSnoc(socks[1..], s);
      assert (socks + [s])[1..] == socks[1..] + [s];
    }
  }

  /** Every registered socket is watched. */
  lemma AllWatched(envs: Envs, w: World)
    requires Registry(w)
    ensures WatchRead(w) == w.handlers.Keys == WatchExpt(envs, w)
    ensures WatchWrite(envs, w) <= w.handlers.Keys
    ensures forall s | s in w.handlers :: s > 0
  {
    hide Writable;
    forall s | s in w.handlers ensures s > 0 && Readable(w.handlers[s]) {
      assert Keyed(w, s, w.handlers[s]);
    }
  }

  /** `max_fd` bounds every watched socket and is 0 exactly when nothing is watched. */
  lemma MaxFdBounds(envs: Envs, w: World)
    requires Registry(w)
    ensures forall s <- WatchExpt(envs, w) :: s <= MaxFd(Sorted(WatchExpt(envs, w)))
    ensures MaxFd(Sorted(WatchExpt(envs, w))) == 0 <==> WatchExpt(envs, w) == {}
    ensures WatchRead(w) + WatchWrite(envs, w) <= WatchExpt(envs, w) == w.handlers.Keys
  {
    AllWatched(envs, w);
    hide WatchRead, WatchWrite, WatchExpt, Sorted, MaxFd, Registry;
    var socks := Sorted(WatchExpt(envs, w));
    forall s | s in WatchExpt(envs, w) ensures s <= MaxFd(socks) {
      assert s in socks;
    }
  }

  /** How `select` returns: an error or an interruption, or the sets it leaves set. */
  datatype Select = Failed | Returned(r: set<int>, w: set<int>, e: set<int>)

  /** `select` only leaves bits set that were passed in. */
  function ReadyOf(envs: Envs, w: World, sel: Select): Ready
    requires sel.Returned?
  {
    Ready(sel.r * WatchRead(w), sel.w * WatchWrite(envs, w), sel.e * WatchExpt(envs, w))
  }

  ghost function DoSelect(envs: Envs, w: World, sel: Select, script: Script): World {
    if w.handlers == map[] then w
    else if MaxFd(Sorted(WatchExpt(envs, w))) == 0 || sel.Failed? then w
    else
      var ready := ReadyOf(envs, w, sel);
      var retv := |ready.r| + |ready.w| + |ready.e|;
      if retv == 0 then w else SpendPass(envs, w, retv, Sorted(WatchExpt(envs, w)), ready, script)
  }

  function CountIn(socks: seq<int>, s: set<int>): nat {
    if socks == [] then 0 else (if socks[0] in s then 1 else 0) + CountIn(socks[1..], s)
  }

  lemma {:induction false} CountInIsSize(socks: seq<int>, s: set<int>)
    requires Ascending(socks) && forall x <- s :: x in socks
    ensures CountIn(socks, s) == |s|
    decreases |socks|
  {
    assert forall x :: x in s ==> x in socks;
    if socks == [] {
      assert s == {};
    } else {
      var rest, s' := socks[1..], s - {socks[0]};
      forall x | x in s' ensures x in rest {
        assert x in socks;
      }
      CountInIsSize(rest, s');
      SameCount(rest, s, s');
      if socks[0] !in s {
        assert s' == s;
      }
    }
  }

  lemma {:induction false} SameCount(socks: seq<int>, a: set<int>, b: set<int>)
    requires forall i | 0 <= i < |socks| :: socks[i] in a <==> socks[i] in b
    ensures CountIn(socks, a) == CountIn(socks, b)
  {
    if socks != [] {
      forall i | 0 <= i < |socks[1..]| ensures socks[1..][i] in a <==> socks[1..][i] in b {
        assert socks[1..][i] == socks[i + 1];
      }
      SameCount(socks[1..], a, b);
    }
  }

  lemma {:induction false} AllBitsIsCount(socks: seq<int>, ready: Ready)
    ensures AllBits(socks, ready) == CountIn(socks, ready.r) + CountIn(socks, ready.w) + CountIn(socks, ready.e)
  {
    if socks != [] {
      AllBitsIsCount(socks[1..], ready);
    }
  }

  /** The number `select` returns is exactly the number of bits the loop will find. */
  lemma BitsAreRetv(envs: Envs, w: World, sel: Select)
    requires Registry(w) && sel.Returned?
    ensures var ready := ReadyOf(envs, w, sel);
            AllBits(Sorted(WatchExpt(envs, w)), ready) == |ready.r| + |ready.w| + |ready.e|
  {
    var ready, socks := ReadyOf(envs, w, sel), Sorted(WatchExpt(envs, w));
    MaxFdBounds(envs, w);
    hide WatchRead, WatchWrite, WatchExpt, Registry;
    AllBitsIsCount(socks, ready);
    CountInIsSize(socks, ready.r);
    CountInIsSize(socks, ready.w);
    CountInIsSize(socks, ready.e);
  }

  // ---------------------------------------------------------------- which events are handed out

  /** What is left of a handler once its read bit, if set, has been acted on. */
  function AfterRead(h: Handler, s: int, ready: Ready, script: Script): Option<Handler> {
    if s in ready.r then Self(h, ReadPhase, script(s, ReadPhase)) else Some(h)
  }

  function AfterWrite(h: Handler, s: int, ready: Ready, script: Script): Option<Handler> {
    var h1 := AfterRead(h, s, ready, script);
    if h1.Some? && s in ready.w then Self(h1.value, WritePhase, script(s, WritePhase)) else h1
  }

  /** The bit is set and the handler has not closed itself in an earlier phase. */
  predicate Handed(h: Handler, s: int, ready: Ready, phase: Phase, script: Script) {
    match phase
    case ReadPhase => s in ready.r
    case WritePhase => s in ready.w && AfterRead(h, s, ready, script).Some?
    case ExptPhase => s in ready.e && AfterWrite(h, s, ready, script).Some?
  }

  /** A handler that was writable when the sets were built still is after its read event. */
  lemma StaysWritable(envs: Envs, h: Handler, o: Outcome)
    requires Writable(envs, h) && Self(h, ReadPhase, o).Some?
    ensures Writable(envs, Self(h, ReadPhase, o).value)
  {
    hide Runs.Run;
    if h.kind == Client && !h.accepting {
      Runs.ReadKeepsQueued(envs(h.serial), h.events, o.received);
    }
  }

  /** The checks the loop repeats before each event never fail for a set bit. */
  lemma TurnHanded(envs: Envs, h: Handler, s: int, ready: Ready, script: Script)
    requires Readable(h) && (s in ready.w ==> Writable(envs, h))
    ensures var turn := TurnSelf(envs, h, s, ready, script);
            && (forall phase :: phase in turn.1 <==> Handed(h, s, ready, phase, script))
            && turn.0 == (if Handed(h, s, ready, ExptPhase, script)
                          then Self(AfterWrite(h, s, ready, script).value, ExptPhase, script(s, ExptPhase))
                          else AfterWrite(h, s, ready, script))
            && (AfterWrite(h, s, ready, script).Some? ==>
                  turn.2 == if turn.0.Some? then turn.0.value else AfterWrite(h, s, ready, script).value)
            && (AfterRead(h, s, ready, script).Some? && AfterWrite(h, s, ready, script).None? ==>
                  turn.2 == Parting(AfterRead(h, s, ready, script).value, WritePhase, script(s, WritePhase)))
  {
    hide Self, Writable;
    TurnPhases(envs, h, s, ready, script);
    SelfKeeps(h, ReadPhase, script(s, ReadPhase));
    if s in ready.w && s in ready.r && Self(h, ReadPhase, script(s, ReadPhase)).Some? {
      StaysWritable(envs, h, script(s, ReadPhase));
    }
    var h1 := AfterRead(h, s, ready, script);
    if h1.Some? {
      SelfKeeps(h1.value, WritePhase, script(s, WritePhase));
    }
  }

  /** The bits the loop finds for a registered socket are those `select` answered, except that
      only a handler that wants to write and does not accept was asked about writing. */
  lemma ReadyFromSelect(envs: Envs, w: World, sel: Select, s: int)
    requires Registry(w) && sel.Returned? && s in w.handlers
    ensures var ready, h := ReadyOf(envs, w, sel), w.handlers[s];
            && (s in ready.r <==> s in sel.r)
            && (s in ready.w <==> s in sel.w && Writable(envs, h) && !h.accepting)
            && (s in ready.e <==> s in sel.e)
  {
    hide Writable;
    assert Keyed(w, s, w.handlers[s]);
  }

  /** One call of `do_select`, for every answer of the operating system. The events it hands
      out are those of a pass that looks at every watched socket, none of them is stale, and
      a handler is handed an event exactly when `select` set its bit and it has not closed
      itself in an earlier phase. A `select` that fails changes nothing. */
  lemma DoSelectSound(envs: Envs, w: World, sel: Select, script: Script)
    requires Registry(w)
    ensures var w' := DoSelect(envs, w, sel, script);
            && Registry(w') && w.log <= w'.log
            && FreshAndOrdered(w.handlers, script, w'.log[|w.log|..])
    ensures sel.Failed? ==> DoSelect(envs, w, sel, script) == w
    ensures sel.Returned? ==>
              var w', ready := DoSelect(envs, w, sel, script), ReadyOf(envs, w, sel);
              && w' == Pass(envs, w, Sorted(WatchExpt(envs, w)), ready, script)
              && PassKeeps(envs, w, Sorted(WatchExpt(envs, w)), ready, script, w')
              && w.log <= w'.log
              && (forall s | s in w.handlers ::
                    && (s in ready.r <==> s in sel.r) && (s in ready.e <==> s in sel.e)
                    && (s in ready.w <==> s in sel.w && Writable(envs, w.handlers[s]) && !w.handlers[s].accepting))
              && (forall s, phase | s in w.handlers ::
                    Dispatch(s, w.handlers[s].serial, phase, script(s, phase)) in w'.log[|w.log|..]
                    <==> Handed(w.handlers[s], s, ready, phase, script))
  {
    MaxFdBounds(envs, w);
    var socks := Sorted(WatchExpt(envs, w));
    if sel.Returned? {
      var ready := ReadyOf(envs, w, sel);
      var w' := DoSelect(envs, w, sel, script);
      DoSelectIsPass(envs, w, sel, script);
      PassIsLocal(envs, w, socks, ready, script);
      PassLogFresh(envs, w.handlers, socks, ready, script);
      forall s | s in w.handlers
        ensures (s in ready.r <==> s in sel.r) && (s in ready.e <==> s in sel.e)
        ensures s in ready.w <==> s in sel.w && Writable(envs, w.handlers[s]) && !w.handlers[s].accepting
      {
        ReadyFromSelect(envs, w, sel, s);
      }
      assert w'.log[|w.log|..] == PassLog(envs, w.handlers, socks, ready, script);
      forall s, phase | s in w.handlers
        ensures Dispatch(s, w.handlers[s].serial, phase, script(s, phase)) in PassLog(envs, w.handlers, socks, ready, script)
                <==> Handed(w.handlers[s], s, ready, phase, script)
      {
        assert s in socks;
        assert Keyed(w, s, w.handlers[s]);
        ReadyIsWritable(envs, w, sel, s);
        Served(envs, w.handlers, socks, ready, script, s, phase);
        TurnHanded(envs, w.handlers[s], s, ready, script);
      }
      hide Pass, PassLog, DoSelect;
    }
  }

  /** A write bit is only set for a handler that was writable. */
  lemma ReadyIsWritable(envs: Envs, w: World, sel: Select, s: int)
    requires sel.Returned? && s in w.handlers
    ensures s in ReadyOf(envs, w, sel).w ==> Writable(envs, w.handlers[s]) && !w.handlers[s].accepting
  {
    hide Writable;
  }

  lemma DoSelectIsPass(envs: Envs, w: World, sel: Select, script: Script)
    requires Registry(w) && sel.Returned?
    ensures DoSelect(envs, w, sel, script)
         == Pass(envs, w, Sorted(WatchExpt(envs, w)), ReadyOf(envs, w, sel), script)
  {
    hide WatchExpt, WatchRead, WatchWrite, ReadyOf, SpendPass, Pass, Registry, AllBits, MaxFd, Sorted;
    MaxFdBounds(envs, w);
    BitsAreRetv(envs, w, sel);
    var ready, socks := ReadyOf(envs, w, sel), Sorted(WatchExpt(envs, w));
    var retv := |ready.r| + |ready.w| + |ready.e|;
    BudgetIrrelevant(envs, w, retv, socks, ready, script);
    if retv == 0 {
      NothingSpent(envs, w, 0, socks, ready, script);
    }
    if WatchExpt(envs, w) == {} {
      assert socks == [] || socks[0] in socks;
      PassOverNothing(envs, w, ready, script);
    }
  }

  lemma PassOverNothing(envs: Envs, w: World, ready: Ready, script: Script)
    ensures Pass(envs, w, [], ready, script) == w
  {
  }

  lemma {:induction false} NothingSpent(envs: Envs, w: World, budget: int, socks: seq<int>, ready: Ready, script: Script)
    requires budget <= 0
    ensures SpendPass(envs, w, budget, socks, ready, script) == w
    decreases |socks|
  {
    hide Event, Called;
    if socks != [] {
      NothingSpent(envs, w, budget, socks[1..], ready, script);
    }
  }
}
