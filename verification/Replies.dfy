/** What a client makes of the bytes it is sent: a reader of response frames that knows only
    the wire format, and the proof that it reads back the replies the server made. */
module Replies {
  import opened Wire
  import opened HvSpec
  import opened Framing
  import opened Runs

  /** The number of a state. */
  function Code(st: State): Byte {
    match st
    case OK => 0
    case DATA_ERROR => 1
    case CONNECTION_ERROR => 2
    case INTERNAL_ERROR => 3
  }

  /** A word whose most significant byte comes first. */
  function BigEndian(s: seq<Byte>): int
    requires |s| == 4
  {
    s[0] as int * 0x100_0000 + s[1] as int * 0x1_0000 + s[2] as int * 0x100 + s[3] as int
  }

  /** A word whose least significant byte comes first. */
  function LittleEndian(s: seq<Byte>): int
    requires |s| == 4
  {
    s[0] as int + s[1] as int * 0x100 + s[2] as int * 0x1_0000 + s[3] as int * 0x100_0000
  }

  /** A response as a client sees it: the id and the number of the state. */
  datatype Frame = Frame(id: int, code: int)

  /** Frames of twelve bytes: the id and the length 4 in network order, then the state in the
      order of the server's memory. */
  function ReadFrames(s: seq<Byte>): Option<seq<Frame>>
    decreases |s|
  {
    if s == [] then Some([])
    else if |s| < 12 || BigEndian(s[4..8]) != 4 then None
    else
      var rest := ReadFrames(s[12..]);
      if rest.None? then None
      else Some([Frame(BigEndian(s[..4]), LittleEndian(s[8..12]))] + rest.value)
  }

  function FrameOf(r: Reply): Frame {
    Frame(r.id, Code(r.state))
  }

  function FramesOf(replies: seq<Reply>): seq<Frame> {
    seq(|replies|, i requires 0 <= i < |replies| => FrameOf(replies[i]))
  }

  /** The twelve bytes of a response: its own id, the length 4, and the number of its state. */
  lemma ReplyLayout(r: Reply)
    ensures var b := ReplyBytes(r);
            && |b| == 12
            && ParseHeader(b[..8]) == Header(r.id, 4)
            && BigEndian(b[..4]) == r.id && BigEndian(b[4..8]) == 4
            && LittleEndian(b[8..12]) == Code(r.state)
            && b[8..] == match r.state
                         case OK => [0, 0, 0, 0]
                         case DATA_ERROR => [1, 0, 0, 0]
                         case CONNECTION_ERROR => [2, 0, 0, 0]
                         case INTERNAL_ERROR => [3, 0, 0, 0]
  {
    var header, b := ReplyHeader(r), ReplyBytes(r);
    HeaderRoundTrip(header);
    HeaderLayout(header);
    assert b[..8] == HeaderBytes(header);
    assert b[..4] == HeaderBytes(header)[..4] && b[4..8] == HeaderBytes(header)[4..8];
    hide HeaderBytes, ParseHeader;
  }

  /** The state is not in network order, so a client that applies `ntohl` to it sees the
      right number for OK only. */
  lemma StateOrder(st: State)
    ensures GetWord(StateBytes(st)) == Code(st) <==> st == OK
  {
  }

  /** The reader gives back exactly the replies. */
  lemma {:induction false} ReadsBack(replies: seq<Reply>)
    ensures ReadFrames(AllReplyBytes(replies)) == Some(FramesOf(replies))
  {
    hide ReplyBytes, FrameOf, BigEndian, LittleEndian;
    if replies == [] {
      assert FramesOf(replies) == [];
    } else {
      var b, rest := ReplyBytes(replies[0]), AllReplyBytes(replies[1..]);
      ReplyLayout(replies[0]);
      var s := b + rest;
      assert s == AllReplyBytes(replies);
      assert s[..4] == b[..4] && s[4..8] == b[4..8] && s[8..12] == b[8..12] && s[12..] == rest;
      ReadsBack(replies[1..]);
      FrameParts(replies[0]);
      assert FramesOf(replies) == [FrameOf(replies[0])] + FramesOf(replies[1..]);
    }
  }

  lemma FrameParts(r: Reply)
    ensures FrameOf(r) == Frame(r.id, Code(r.state))
  {
  }

  // ---------------------------------------------------------------- over whole runs

  /** The replies whose cache could be created: the others are popped without a byte. */
  function Voiced(env: Env, replies: seq<Reply>, from: nat): seq<Reply>
    requires from <= |replies|
    decreases |replies| - from
  {
    if from == |replies| then []
    else (if env.mem(from) then [replies[from]] else []) + Voiced(env, replies, from + 1)
  }

  lemma {:induction false} DueIsVoiced(env: Env, replies: seq<Reply>, from: nat)
    requires from <= |replies|
    ensures Due(env, replies, from) == AllReplyBytes(Voiced(env, replies, from))
    decreases |replies| - from
  {
    hide ReplyBytes;
    if from < |replies| {
      DueIsVoiced(env, replies, from + 1);
      var rest := Voiced(env, replies, from + 1);
      assert ([replies[from]] + rest)[1..] == rest;
      assert [] + rest == rest;
    }
  }

  lemma {:induction false} VoicedAll(env: Env, replies: seq<Reply>, from: nat)
    requires BlocksCreated(env) && from <= |replies|
    ensures Voiced(env, replies, from) == replies[from..]
    decreases |replies| - from
  {
    if from < |replies| {
      VoicedAll(env, replies, from + 1);
    }
  }

  /** The bytes due for the first replies, when the last ones are still queued. */
  lemma {:induction false} DueSplit(env: Env, replies: seq<Reply>, from: nat, k: nat)
    requires from <= k <= |replies|
    ensures Due(env, replies, from) == Due(env, replies[..k], from) + Due(env, replies, k)
    decreases k - from
  {
    hide ReplyBytes;
    if from < k {
      DueSplit(env, replies, from + 1, k);
    } else {
      DueEnd(env, replies[..k]);
    }
  }

  /** End to end for the bytes on the wire: at any point of any run, whatever fails, a client
      that reads frames finds in the bytes offered to it the id and the state of each reply
      popped from the queue so far, in order and no other, leaving out those whose cache could
      not be created; and unless the socket failed it was sent them all. */
  lemma ClientReads(env: Env, events: seq<Event>)
    ensures var c := Run(env, events);
            && |c.resp| <= |c.replies|
            && var popped := c.replies[..|c.replies| - |c.resp|];
            && ReadFrames(c.out.sent + c.out.lost) == Some(FramesOf(Voiced(env, popped, 0)))
            && (BlocksCreated(env) ==> Voiced(env, popped, 0) == popped)
            && (Unbroken(events) ==> c.out.lost == [])
  {
    hide Run, Due, QueueInv, ReadFrames, FramesOf, AllReplyBytes, Unbroken;
    var c := Run(env, events);
    QueueCounts(env, c);
    var k := |c.replies| - |c.resp|;
    var popped := c.replies[..k];
    OfferedDue(env, c);
    DueSplit(env, c.replies, 0, k);
    SameTail(c.out.sent + c.out.lost, Due(env, popped, 0), Due(env, c.replies, k));
    DueIsVoiced(env, popped, 0);
    ReadsBack(Voiced(env, popped, 0));
    if BlocksCreated(env) {
      VoicedAll(env, popped, 0);
    }
    if Unbroken(events) {
      UnbrokenRun(env, events);
    }
  }

  lemma SameTail(a: seq<Byte>, b: seq<Byte>, tail: seq<Byte>)
    requires a + tail == b + tail
    ensures a == b
  {
    assert |a| == |b|;
    assert a == (a + tail)[..|a|] && b == (b + tail)[..|b|];
  }

  /** After a flush on a socket that works, with every response cache created, a client has
      read exactly one response per reply of the reference decoder: its id and its state. */
  lemma FlushReads(env: Env, events: seq<Event>)
    requires Unbroken(events) && Uncut(env, events) && BlocksCreated(env)
    ensures ReadFrames(Run(env, events + [Flush(None)]).out.sent) == Some(FramesOf(Assemble(env, events).replies))
  {
    hide Run, Due, QueueInv, ReadFrames, FramesOf, Unbroken, Uncut, Assemble, Serials, WriteOut;
    var all := events + [Flush(None)];
    FlushAnswersAll(env, events, None);
    var replies := Assemble(env, events).replies;
    DueIsVoiced(env, replies, 0);
    VoicedAll(env, replies, 0);
    assert replies[0..] == replies;
    ReadsBack(replies);
  }
}
