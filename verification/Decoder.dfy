/** Recursive decoders for the whole stream a client sends and, where caches may fail, for
    one chunk of it; the proof that the incremental parser computes them wherever headers
    are kept whole; and the condition under which chunks do not matter, on bytes. */
module Decoder {
  import opened Wire
  import opened HvSpec
  import opened Framing

  // ---------------------------------------------------------------- the reference decoder

  /** A completed request: its header and the value bytes it took from the stream. */
  datatype Item = Item(header: Header, taken: seq<Byte>)

  /** `carry` is the content of a full cache that `clear` kept after a short message;
      `files` are the contents of the caches closed, `rest` the bytes of the message in
      progress. */
  datatype Decoded = Decoded(items: seq<Item>, files: seq<seq<Byte>>, carry: Option<seq<Byte>>, rest: seq<Byte>)

  /** Value bytes a message takes: none while a full cache is kept. */
  function Need(carry: Option<seq<Byte>>, s: seq<Byte>): nat
    requires |s| >= HEADER_SIZE
  {
    if carry.Some? then 0 else ParseHeader(s[..HEADER_SIZE]).length
  }

  /** The first message in `s` is complete: its header and value are there, and at least
      one byte follows the header. */
  predicate Ready(carry: Option<seq<Byte>>, s: seq<Byte>) {
    |s| > HEADER_SIZE && |s| >= HEADER_SIZE + Need(carry, s)
  }

  function First(carry: Option<seq<Byte>>, s: seq<Byte>): Item
    requires Ready(carry, s)
  {
    Item(ParseHeader(s[..HEADER_SIZE]), s[HEADER_SIZE..HEADER_SIZE + Need(carry, s)])
  }

  function Held(carry: Option<seq<Byte>>, item: Item): seq<Byte> {
    if carry.Some? then carry.value else item.taken
  }

  /** A message shorter than 1024 bytes leaves its full cache behind. */
  function NextCarry(carry: Option<seq<Byte>>, item: Item): Option<seq<Byte>> {
    if item.header.length < 1024 then Some(Held(carry, item)) else None
  }

  /** Any other message closes it. */
  function ClosedBy(carry: Option<seq<Byte>>, item: Item): seq<seq<Byte>> {
    if item.header.length < 1024 then [] else [Held(carry, item)]
  }

  function Decode(carry: Option<seq<Byte>>, s: seq<Byte>): (d: Decoded)
    ensures !Ready(d.carry, d.rest)
    decreases |s|
  {
    if !Ready(carry, s) then Decoded([], [], carry, s)
    else
      var item := First(carry, s);
      var d := Decode(NextCarry(carry, item), s[HEADER_SIZE + Need(carry, s)..]);
      After([item], ClosedBy(carry, item), d)
  }

  /** The result `d` preceded by requests and files decoded earlier. */
  function After(items: seq<Item>, files: seq<seq<Byte>>, d: Decoded): Decoded {
    d.(items := items + d.items, files := files + d.files)
  }

  lemma AfterTwice(i: seq<Item>, f: seq<seq<Byte>>, i': seq<Item>, f': seq<seq<Byte>>, d: Decoded)
    ensures After(i, f, After(i', f', d)) == After(i + i', f + f', d)
  {
  }

  /** A header is ready or not, and what it yields, whatever follows it. */
  lemma ReadyExtends(carry: Option<seq<Byte>>, s: seq<Byte>, t: seq<Byte>)
    requires Ready(carry, s)
    ensures Ready(carry, s + t) && First(carry, s + t) == First(carry, s) && Need(carry, s + t) == Need(carry, s)
  {
    assert (s + t)[..HEADER_SIZE] == s[..HEADER_SIZE];
    var n := HEADER_SIZE + Need(carry, s);
    assert (s + t)[HEADER_SIZE..n] == s[HEADER_SIZE..n];
  }

  /** Decoding can be suspended anywhere and resumed from the carry and the rest. */
  lemma {:induction false} DecodeResumes(carry: Option<seq<Byte>>, s: seq<Byte>, t: seq<Byte>)
    ensures var d := Decode(carry, s);
            Decode(carry, s + t) == After(d.items, d.files, Decode(d.carry, d.rest + t))
    decreases |s|
  {
    hide Need, NextCarry, ClosedBy, First, After;
    if Ready(carry, s) {
      ReadyExtends(carry, s, t);
      var item, n := First(carry, s), HEADER_SIZE + Need(carry, s);
      var next := NextCarry(carry, item);
      DecodeResumes(next, s[n..], t);
      assert (s + t)[n..] == s[n..] + t;
      var d := Decode(next, s[n..]);
      AfterTwice([item], ClosedBy(carry, item), d.items, d.files, Decode(d.carry, d.rest + t));
      AfterParts([item], ClosedBy(carry, item), d);
    } else {
      AfterNothing(Decode(carry, s + t));
    }
  }

  lemma AfterParts(items: seq<Item>, files: seq<seq<Byte>>, d: Decoded)
    ensures var r := After(items, files, d);
            r.items == items + d.items && r.files == files + d.files && r.carry == d.carry && r.rest == d.rest
  {
  }

  lemma AfterNothing(d: Decoded)
    ensures After([], [], d) == d
  {
  }

  // ---------------------------------------------------------------- conservation

  /** The bytes of the stream a completed request stands for. */
  function ItemBytes(item: Item): seq<Byte> {
    HeaderBytes(item.header) + item.taken
  }

  function AllItemBytes(items: seq<Item>): seq<Byte> {
    if items == [] then [] else ItemBytes(items[0]) + AllItemBytes(items[1..])
  }

  lemma Associative(a: seq<Byte>, b: seq<Byte>, c: seq<Byte>)
    ensures a + b + c == a + (b + c)
  {
  }

  lemma AllItemBytesCons(item: Item, items: seq<Item>)
    ensures AllItemBytes([item] + items) == ItemBytes(item) + AllItemBytes(items)
  {
    assert ([item] + items)[1..] == items;
  }

  lemma NoItemBytes()
    ensures AllItemBytes([]) == []
  {
  }

  lemma FirstBytes(carry: Option<seq<Byte>>, s: seq<Byte>)
    requires Ready(carry, s)
    ensures s == ItemBytes(First(carry, s)) + s[HEADER_SIZE + Need(carry, s)..]
  {
    HeaderBytesOfParse(s[..HEADER_SIZE]);
    hide ParseHeader, HeaderBytes;
  }

  /** Nothing is lost, invented or reordered: the headers and values of the completed
      requests followed by the message in progress are the stream, byte for byte. */
  lemma {:induction false} BytesConserved(carry: Option<seq<Byte>>, s: seq<Byte>)
    ensures AllItemBytes(Decode(carry, s).items) + Decode(carry, s).rest == s
    decreases |s|
  {
    hide First, ItemBytes, Need, NextCarry, ClosedBy, AllItemBytes, After;
    if Ready(carry, s) {
      var item, n := First(carry, s), HEADER_SIZE + Need(carry, s);
      FirstBytes(carry, s);
      BytesConserved(NextCarry(carry, item), s[n..]);
      var d := Decode(NextCarry(carry, item), s[n..]);
      AfterParts([item], ClosedBy(carry, item), d);
      AllItemBytesCons(item, d.items);
      Associative(ItemBytes(item), AllItemBytes(d.items), d.rest);
    } else {
      NoItemBytes();
    }
  }

  lemma {:induction false} EightBytesEach(items: seq<Item>)
    ensures |AllItemBytes(items)| >= HEADER_SIZE * |items|
  {
    if items != [] {
      EightBytesEach(items[1..]);
    }
  }

  // ---------------------------------------------------------------- the parser against it

  function Ids(items: seq<Item>): seq<Reply> {
    seq(|items|, i requires 0 <= i < |items| => Reply(items[i].header.id, OK))
  }

  /** The request object holds exactly this carry and this part of a message. */
  predicate Holds(h: Hv, carry: Option<seq<Byte>>, rest: seq<Byte>) {
    && h.Inv() && !h.valueComplete
    && !Ready(carry, rest)
    && h.hlen == Min(HEADER_SIZE, |rest|)
    && (h.hlen > 0 ==> h.wire == rest[..h.hlen])
    && match carry
       case Some(v) => h.value.Some? && h.value.value.Full() && h.value.value.data == v
       case None =>
         if |rest| <= HEADER_SIZE then h.value.None?
         else h.value.Some? && !h.value.value.Full() && h.value.value.data == rest[HEADER_SIZE..]
  }

  /** What chunks of a stream come to: the replies made, the contents of the files closed, the
      kept value and the bytes of the message in progress. */
  datatype Progress = Progress(replies: seq<Reply>, files: seq<seq<Byte>>, carry: Option<seq<Byte>>, rest: seq<Byte>)

  /** The connection has reached this point. */
  predicate Tracks(c: Conn, p: Progress) {
    && Holds(c.req, p.carry, p.rest)
    && c.replies == p.replies
    && c.stored == p.files
  }

  /** A message without a cache reaches its value, and cannot be given one. */
  predicate Denied(env: Env, n: nat, carry: Option<seq<Byte>>, rest: seq<Byte>, t: seq<Byte>) {
    carry.None? && |rest| <= HEADER_SIZE < |rest + t| && !env.disk(n)
  }

  /** The reference for a connection whose file caches may fail: decode one chunk `t` after
      part of message number `n`. A request that is denied its cache is answered with
      INTERNAL_ERROR, and the rest of the chunk is dropped. */
  function DecodeChunk(env: Env, n: nat, carry: Option<seq<Byte>>, rest: seq<Byte>, t: seq<Byte>): Progress
    decreases |rest| + |t|
  {
    var s := rest + t;
    if Denied(env, n, carry, rest, t) then
      Progress([Reply(ParseHeader(s[..HEADER_SIZE]).id, INTERNAL_ERROR)], [], None, [])
    else if !Ready(carry, s) then Progress([], [], carry, s)
    else
      var item := First(carry, s);
      Onward(Progress([Reply(item.header.id, OK)], ClosedBy(carry, item), None, []),
             DecodeChunk(env, n + 1, NextCarry(carry, item), [], s[HEADER_SIZE + Need(carry, s)..]))
  }

  /** The progress `q` made after `p`. */
  function Onward(p: Progress, q: Progress): Progress {
    q.(replies := p.replies + q.replies, files := p.files + q.files)
  }

  /** The whole-stream decoder seen as progress. */
  function Flawless(d: Decoded): Progress {
    Progress(Ids(d.items), d.files, d.carry, d.rest)
  }

  /** A write that finishes a message leaves the bytes after it and the held value. */
  lemma WriteFinishes(h: Hv, carry: Option<seq<Byte>>, rest: seq<Byte>, t: seq<Byte>)
    requires Holds(h, carry, rest) && !h.MidHeader() && t != [] && Ready(carry, rest + t)
    ensures var item := First(carry, rest + t);
            var w := Write(h, t, true);
            && w.0.Complete() && w.1.Wrote?
            && |rest| + w.1.n == HEADER_SIZE + Need(carry, rest + t)
            && w.0.head == Some(item.header)
            && w.0.value.value.data == Held(carry, item)
  {
    var s := rest + t;
    var item, n := First(carry, s), HeadTaken(h, t);
    var h1 := WriteHead(h, t);
    assert h1.wire == s[..HEADER_SIZE];
    assert h1.headComplete && h1.head == Some(item.header);
    assert t[n..] != [];
    if carry.None? {
      if |rest| == 0 {
        assert t[n..] == s[HEADER_SIZE..];
      } else {
        assert s[HEADER_SIZE..] == rest[HEADER_SIZE..] + t;
      }
    }
  }

  /** A write that does not finish a message takes everything offered. */
  lemma WriteWaits(h: Hv, carry: Option<seq<Byte>>, rest: seq<Byte>, t: seq<Byte>)
    requires Holds(h, carry, rest) && !h.MidHeader() && t != [] && !Ready(carry, rest + t)
    ensures var w := Write(h, t, true);
            w.1 == Wrote(|t|) && Holds(w.0, carry, rest + t)
  {
    var s := rest + t;
    var n := HeadTaken(h, t);
    var h1 := WriteHead(h, t);
    assert h1.hlen > 0 && h1.wire == s[..h1.hlen];
    if |s| > HEADER_SIZE {
      assert h1.wire == s[..HEADER_SIZE];
      if |rest| == 0 {
        assert t[n..] == s[HEADER_SIZE..];
      } else {
        assert s[HEADER_SIZE..] == rest[HEADER_SIZE..] + t;
      }
    }
  }

  /** After a completed request the object holds the next carry and nothing else. */
  lemma ClearHolds(h: Hv, carry: Option<seq<Byte>>, item: Item)
    requires h.Inv() && h.Complete() && h.head == Some(item.header)
    requires h.value.value.data == Held(carry, item)
    ensures Holds(Clear(h), NextCarry(carry, item), [])
    ensures Closed(h) == ClosedBy(carry, item)
  {
  }

  /** Which writes are refused: those that reach the value of a request without a cache. */
  lemma WriteRefusedWhen(h: Hv, carry: Option<seq<Byte>>, rest: seq<Byte>, t: seq<Byte>, ok: bool)
    requires Holds(h, carry, rest) && !h.MidHeader() && t != []
    ensures Write(h, t, ok).1.CreateFailed? <==> !ok && carry.None? && |rest| <= HEADER_SIZE < |rest + t|
  {
  }

  /** The loop of `handle_read`, started on any part of a message that is not a cut header,
      makes of the chunk what the reference does, whatever caches can be created. */
  lemma {:induction false} LoopFollows(env: Env, c: Conn, carry: Option<seq<Byte>>, rest: seq<Byte>, t: seq<Byte>)
    requires c.Inv() && Holds(c.req, carry, rest) && !c.req.MidHeader() && t != []
    ensures var c', p := ReadLoop(env, c, t), DecodeChunk(env, |c.replies|, carry, rest, t);
            && Holds(c'.req, p.carry, p.rest)
            && c'.replies == c.replies + p.replies
            && c'.stored == c.stored + p.files
    decreases 2 * |t| + if c.req.headComplete then 1 else 0
  {
    hide Write, ReadLoop, Settle, Finish, First, Need, Holds, NextCarry, ClosedBy, ParseHeader;
    var s, ok := rest + t, env.disk(|c.replies|);
    WriteOutcomes(c.req, t, ok);
    WriteRefusedWhen(c.req, carry, rest, t, ok);
    LoopStep(env, c, t);
    if Denied(env, |c.replies|, carry, rest, t) {
      FailedRequest(env, c, rest, t);
    } else if Ready(carry, s) {
      var item, w := First(carry, s), Write(c.req, t, true);
      LoopFinishes(env, c, carry, rest, t);
      var c1, tail := Settle(env, c.(req := w.0)), t[w.1.n..];
      var next := NextCarry(carry, item);
      var p := DecodeChunk(env, |c1.replies|, next, [], tail);
      assert c.replies + ([Reply(item.header.id, OK)] + p.replies) == c1.replies + p.replies;
      assert c.stored + (ClosedBy(carry, item) + p.files) == c1.stored + p.files;
      if tail == [] {
        NothingToDecode(env, |c1.replies|, next);
      } else {
        LoopFollows(env, c1, next, [], tail);
      }
    } else {
      LoopWaits(env, c, carry, rest, t);
    }
  }

  lemma NothingToDecode(env: Env, n: nat, carry: Option<seq<Byte>>)
    ensures DecodeChunk(env, n, carry, [], []) == Progress([], [], carry, [])
  {
  }

  /** The iteration of the loop in which a request is denied its cache. */
  lemma FailedRequest(env: Env, c: Conn, rest: seq<Byte>, t: seq<Byte>)
    requires c.Inv() && Holds(c.req, None, rest) && !c.req.MidHeader() && t != []
    requires |rest| <= HEADER_SIZE < |rest + t|
    ensures var w := Write(c.req, t, false);
            && w.1.CreateFailed? && w.0.to.Some? && w.0.head.Some?
            && var c' := Finish(env, c.(req := w.0), INTERNAL_ERROR);
            && Holds(c'.req, None, [])
            && c'.replies == c.replies + [Reply(ParseHeader((rest + t)[..HEADER_SIZE]).id, INTERNAL_ERROR)]
            && c'.stored == c.stored
  {
    var h := WriteHead(c.req, t);
    assert h.headComplete && h.wire == (rest + t)[..HEADER_SIZE];
    assert Write(c.req, t, false) == (h, CreateFailed);
    hide Write, WriteHead, Store, ParseHeader;
    assert Closed(h) == [];
  }

  /** The iteration of the loop that runs out of bytes. */
  lemma LoopWaits(env: Env, c: Conn, carry: Option<seq<Byte>>, rest: seq<Byte>, t: seq<Byte>)
    requires c.Inv() && Holds(c.req, carry, rest) && !c.req.MidHeader() && t != [] && !Ready(carry, rest + t)
    ensures var w := Write(c.req, t, true);
            && w.1 == Wrote(|t|) && Settle(env, c.(req := w.0)) == c.(req := w.0)
            && Holds(w.0, carry, rest + t) && Ids([]) == []
  {
    WriteWaits(c.req, carry, rest, t);
    hide Write;
  }

  /** What the end of an iteration makes of a completed request. */
  lemma SettleFinishes(env: Env, c: Conn, carry: Option<seq<Byte>>, item: Item)
    requires c.req.Inv() && c.req.Complete() && c.req.head == Some(item.header)
    requires c.req.value.value.data == Held(carry, item)
    ensures var c1 := Settle(env, c);
            && Holds(c1.req, NextCarry(carry, item), []) && c1.req.hlen == 0 && !c1.req.headComplete
            && c1.replies == c.replies + [Reply(item.header.id, OK)]
            && c1.stored == c.stored + ClosedBy(carry, item)
  {
    ClearHolds(c.req, carry, item);
    hide Store, Holds;
  }

  /** The iteration of the loop that completes a request. */
  lemma LoopFinishes(env: Env, c: Conn, carry: Option<seq<Byte>>, rest: seq<Byte>, t: seq<Byte>)
    requires c.Inv() && Holds(c.req, carry, rest) && !c.req.MidHeader() && t != [] && Ready(carry, rest + t)
    ensures var item, w := First(carry, rest + t), Write(c.req, t, true);
            && w.1.Wrote? && w.1.n <= |t| && (w.1.n == 0 ==> c.req.headComplete)
            && (rest + t)[HEADER_SIZE + Need(carry, rest + t)..] == t[w.1.n..]
            && var c1 := Settle(env, c.(req := w.0));
            && Holds(c1.req, NextCarry(carry, item), []) && c1.req.hlen == 0 && !c1.req.headComplete
            && c1.replies == c.replies + [Reply(item.header.id, OK)]
            && c1.stored == c.stored + ClosedBy(carry, item)
  {
    hide Write, First, Need, Holds, Settle, Held, NextCarry, ClosedBy, ParseHeader, ReadLoop;
    WriteFinishes(c.req, carry, rest, t);
    WriteProgress(c.req, t, true);
    var item, w := First(carry, rest + t), Write(c.req, t, true);
    SettleFinishes(env, c.(req := w.0), carry, item);
  }

  lemma IdsCons(item: Item, items: seq<Item>)
    ensures Ids([item] + items) == [Reply(item.header.id, OK)] + Ids(items) && Ids([]) == []
  {
  }

  // ---------------------------------------------------------------- chunk independence on bytes

  /** The kept value and the bytes of the message in progress that a request object holds. */
  function CarryOf(h: Hv): Option<seq<Byte>> {
    if h.value.Some? && h.value.value.Full() then Some(h.value.value.data) else None
  }

  function RestOf(h: Hv): seq<Byte> {
    (if h.hlen > 0 then h.wire else [])
    + if h.value.Some? && !h.value.value.Full() then h.value.value.data else []
  }

  lemma AlwaysHolds(h: Hv)
    requires h.Inv() && !h.valueComplete
    ensures Holds(h, CarryOf(h), RestOf(h))
  {
    var rest := RestOf(h);
    assert h.hlen > 0 ==> rest[..h.hlen] == h.wire;
    assert h.headComplete ==> rest[HEADER_SIZE..] == if h.value.Some? && !h.value.value.Full() then h.value.value.data else [];
  }

  /** Some request in `s`, the first of which is number `n` and has no cache yet, cannot be
      given one. */
  predicate Starves(env: Env, n: nat, carry: Option<seq<Byte>>, s: seq<Byte>)
    decreases |s|
  {
    if |s| <= HEADER_SIZE then false
    else
      || (carry.None? && !env.disk(n))
      || (Ready(carry, s) && Starves(env, n + 1, NextCarry(carry, First(carry, s)), s[HEADER_SIZE + Need(carry, s)..]))
  }

  /** The same for `t` after part of a message, which has its cache once it has a value byte. */
  predicate StarvesAfter(env: Env, n: nat, carry: Option<seq<Byte>>, rest: seq<Byte>, t: seq<Byte>) {
    var s := rest + t;
    if |rest| <= HEADER_SIZE then Starves(env, n, carry, s)
    else Ready(carry, s) && Starves(env, n + 1, NextCarry(carry, First(carry, s)), s[HEADER_SIZE + Need(carry, s)..])
  }

  /** Without a denial the chunk is decoded as part of the whole stream. */
  lemma {:induction false} ChunkDecodes(env: Env, n: nat, carry: Option<seq<Byte>>, rest: seq<Byte>, t: seq<Byte>)
    requires !Ready(carry, rest) && !StarvesAfter(env, n, carry, rest, t)
    ensures DecodeChunk(env, n, carry, rest, t) == Flawless(Decode(carry, rest + t))
    decreases |rest| + |t|
  {
    hide First, Need, NextCarry, ClosedBy, ParseHeader;
    var s := rest + t;
    if Ready(carry, s) {
      var item, tail := First(carry, s), s[HEADER_SIZE + Need(carry, s)..];
      var next := NextCarry(carry, item);
      assert [] + tail == tail;
      ChunkDecodes(env, n + 1, next, [], tail);
      IdsCons(item, Decode(next, tail).items);
    } else {
      assert Ids([]) == [];
    }
  }

  lemma {:induction false} NeverStarves(env: Env, n: nat, carry: Option<seq<Byte>>, s: seq<Byte>)
    requires FilesCreated(env)
    ensures !Starves(env, n, carry, s)
    decreases |s|
  {
    if Ready(carry, s) {
      NeverStarves(env, n + 1, NextCarry(carry, First(carry, s)), s[HEADER_SIZE + Need(carry, s)..]);
    }
  }

  /** The loop decodes the stream, if no request is denied its cache. */
  lemma LoopDecodes(env: Env, c: Conn, carry: Option<seq<Byte>>, rest: seq<Byte>, t: seq<Byte>)
    requires c.Inv() && Holds(c.req, carry, rest) && !c.req.MidHeader()
    requires t != [] && !StarvesAfter(env, |c.replies|, carry, rest, t)
    ensures var c', d := ReadLoop(env, c, t), Decode(carry, rest + t);
            && Holds(c'.req, d.carry, d.rest)
            && c'.replies == c.replies + Ids(d.items)
            && c'.stored == c.stored + d.files
  {
    hide ReadLoop, Decode, DecodeChunk, StarvesAfter;
    LoopFollows(env, c, carry, rest, t);
    ChunkDecodes(env, |c.replies|, carry, rest, t);
  }

  /** The loop refuses a request exactly when the bytes say so. */
  lemma {:induction false} RefusedOnBytes(env: Env, c: Conn, carry: Option<seq<Byte>>, rest: seq<Byte>, t: seq<Byte>)
    requires c.Inv() && Holds(c.req, carry, rest) && !c.req.MidHeader() && t != []
    ensures Refused(env, c, t) <==> StarvesAfter(env, |c.replies|, carry, rest, t)
    decreases 2 * |t| + if c.req.headComplete then 1 else 0
  {
    hide Write, ReadLoop, Settle, First, Need, Holds, NextCarry, ParseHeader;
    var s, ok := rest + t, env.disk(|c.replies|);
    WriteOutcomes(c.req, t, ok);
    WriteRefusedWhen(c.req, carry, rest, t, ok);
    if Write(c.req, t, ok).1.CreateFailed? {
    } else if Ready(carry, s) {
      LoopFinishes(env, c, carry, rest, t);
      var w := Write(c.req, t, true);
      var c1, tail := Settle(env, c.(req := w.0)), t[w.1.n..];
      var next := NextCarry(carry, First(carry, s));
      assert StarvesAfter(env, |c.replies|, carry, rest, t) <==> Starves(env, |c.replies| + 1, next, tail);
      assert Refused(env, c, t) <==> tail != [] && Refused(env, c1, tail);
      if tail != [] {
        assert [] + tail == tail;
        RefusedOnBytes(env, c1, next, [], tail);
      }
    } else {
      LoopWaits(env, c, carry, rest, t);
    }
  }

  /** The condition of `ChunkIndependence` on what is known before the call: the state of the
      request object, the bytes of `a`, and which caches can be created. */
  lemma CutOnBytes(env: Env, c: Conn, a: seq<Byte>, b: seq<Byte>)
    requires c.Inv()
    ensures var carry, rest := CarryOf(c.req), RestOf(c.req);
            Read(env, Read(env, c, a), b) == Read(env, c, a + b)
            <==> || a == [] || b == [] || c.fault || c.req.MidHeader()
                 || (&& !(0 < |Decode(carry, rest + a).rest| < HEADER_SIZE)
                     && !StarvesAfter(env, |c.replies|, carry, rest, a))
  {
    hide Decode, ReadLoop, Refused, StarvesAfter, CarryOf, RestOf;
    ChunkIndependence(env, c, a, b);
    if a != [] && !c.fault && !c.req.MidHeader() {
      var carry, rest := CarryOf(c.req), RestOf(c.req);
      AlwaysHolds(c.req);
      RefusedOnBytes(env, c, carry, rest, a);
      if !Refused(env, c, a) {
        LoopDecodes(env, c, carry, rest, a);
      }
    }
  }
}
