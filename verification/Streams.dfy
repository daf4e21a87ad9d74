/** What a client sends, and when the server's framing gives it back. */
module Streams {
  import opened Wire
  import opened HvSpec
  import opened Decoder

  /** A message as a client means it. */
  datatype Message = Message(id: Word, value: seq<Byte>)

  predicate Sendable(msgs: seq<Message>) {
    forall m <- msgs :: |m.value| < 0x1_0000_0000
  }

  function MessageItem(m: Message): Item
    requires |m.value| < 0x1_0000_0000
  {
    Item(Header(m.id, |m.value|), m.value)
  }

  function Items(msgs: seq<Message>): seq<Item>
    requires Sendable(msgs)
  {
    if msgs == [] then [] else [MessageItem(msgs[0])] + Items(msgs[1..])
  }

  function Values(msgs: seq<Message>): seq<seq<Byte>> {
    if msgs == [] then [] else [msgs[0].value] + Values(msgs[1..])
  }

  /** The stream a client sends for a list of messages. */
  function StreamOf(msgs: seq<Message>): seq<Byte>
    requires Sendable(msgs)
  {
    AllItemBytes(Items(msgs))
  }

  lemma StreamCons(msgs: seq<Message>)
    requires Sendable(msgs) && msgs != []
    ensures StreamOf(msgs) == ItemBytes(MessageItem(msgs[0])) + StreamOf(msgs[1..])
  {
    assert Items(msgs)[1..] == Items(msgs[1..]);
  }

  /** The start of a stream that begins with `m`. */
  lemma StreamHead(carry: Option<seq<Byte>>, m: Message, tail: seq<Byte>)
    requires |m.value| < 0x1_0000_0000
    ensures var s := ItemBytes(MessageItem(m)) + tail;
            && |s| >= HEADER_SIZE
            && ParseHeader(s[..HEADER_SIZE]) == MessageItem(m).header
            && s[HEADER_SIZE..] == m.value + tail
            && (Ready(carry, s) <==> |m.value| + |tail| > 0)
  {
    var header := MessageItem(m).header;
    HeaderRoundTrip(header);
    hide HeaderBytes, ParseHeader;
    var s := ItemBytes(MessageItem(m)) + tail;
    assert s[..HEADER_SIZE] == HeaderBytes(header);
    assert s[HEADER_SIZE..] == m.value + tail;
  }

  /** The first step of decoding a stream that begins with `m`. */
  lemma DecodeHead(carry: Option<seq<Byte>>, m: Message, tail: seq<Byte>)
    requires |m.value| < 0x1_0000_0000 && |m.value| + |tail| > 0
    ensures var s := ItemBytes(MessageItem(m)) + tail;
            && Ready(carry, s)
            && First(carry, s).header == MessageItem(m).header
            && First(carry, s).taken == (if carry.Some? then [] else m.value)
            && s[HEADER_SIZE + Need(carry, s)..] == (if carry.Some? then m.value + tail else tail)
  {
    StreamHead(carry, m, tail);
    hide ParseHeader, ItemBytes;
    var s := ItemBytes(MessageItem(m)) + tail;
    var n := HEADER_SIZE + Need(carry, s);
    assert s[HEADER_SIZE..n] == s[HEADER_SIZE..][..Need(carry, s)];
    assert s[n..] == s[HEADER_SIZE..][Need(carry, s)..];
  }

  // ---------------------------------------------------------------- when decoding gives the messages back

  /** Every message but the last has at least 1024 value bytes, and the last at least one. */
  predicate Framable(msgs: seq<Message>) {
    && (forall i | 0 <= i < |msgs| - 1 :: |msgs[i].value| >= 1024)
    && (msgs != [] ==> msgs[|msgs| - 1].value != [])
  }

  /** With a full cache kept, no non-empty list of messages is decoded back. */
  lemma {:induction false} KeptCacheSpoils(carry: Option<seq<Byte>>, msgs: seq<Message>)
    requires carry.Some? && Sendable(msgs) && msgs != []
    ensures Decode(carry, StreamOf(msgs)).items != Items(msgs)
  {
    hide ParseHeader, ItemBytes, Need, First, MessageItem;
    StreamCons(msgs);
    var m, tail, s := msgs[0], StreamOf(msgs[1..]), StreamOf(msgs);
    StreamHead(carry, m, tail);
    if Ready(carry, s) {
      DecodeHead(carry, m, tail);
      var item := First(carry, s);
      var d := Decode(NextCarry(carry, item), m.value + tail);
      if Decode(carry, s).items == Items(msgs) {
        assert item == Items(msgs)[0] == MessageItem(m);
        TakenIsValue(m);
        assert m.value == [] && m.value + tail == tail;
        assert d.items == Decode(carry, s).items[1..] == Items(msgs[1..]);
        assert msgs[1..] != [];
        KeptCacheSpoils(NextCarry(carry, item), msgs[1..]);
        assert false;
      }
    }
  }

  lemma TakenIsValue(m: Message)
    requires |m.value| < 0x1_0000_0000
    ensures MessageItem(m).taken == m.value && MessageItem(m).header.length == |m.value|
  {
  }

  /** Reassembly, with its exact condition: decoding the stream of a list of messages gives
      that list back if and only if the list is framable. */
  lemma {:induction false} DecodesBack(msgs: seq<Message>)
    requires Sendable(msgs)
    ensures Decode(None, StreamOf(msgs)).items == Items(msgs) <==> Framable(msgs)
  {
    hide ParseHeader, ItemBytes, Need, First, MessageItem;
    if msgs == [] {
    } else {
      StreamCons(msgs);
      var m, tail, s := msgs[0], StreamOf(msgs[1..]), StreamOf(msgs);
      StreamHead(None, m, tail);
      TailEmpty(msgs[1..]);
      TakenIsValue(m);
      FramableCons(msgs);
      if Ready(None, s) {
        DecodeHead(None, m, tail);
        var item := First(None, s);
        assert item == MessageItem(m);
        var d := Decode(NextCarry(None, item), tail);
        assert Decode(None, s).items == [item] + d.items;
        assert Decode(None, s).items[1..] == d.items && Items(msgs)[1..] == Items(msgs[1..]);
        if |m.value| >= 1024 {
          DecodesBack(msgs[1..]);
        } else if msgs[1..] != [] {
          KeptCacheSpoils(NextCarry(None, item), msgs[1..]);
        }
      }
    }
  }

  lemma TailEmpty(msgs: seq<Message>)
    requires Sendable(msgs)
    ensures StreamOf(msgs) == [] <==> msgs == []
  {
    if msgs != [] {
      StreamCons(msgs);
    }
  }

  lemma FramableCons(msgs: seq<Message>)
    requires msgs != []
    ensures Framable(msgs) <==> if |msgs| == 1 then msgs[0].value != []
                                else |msgs[0].value| >= 1024 && Framable(msgs[1..])
  {
    var rest := msgs[1..];
    if |msgs| > 1 {
      assert rest[|rest| - 1] == msgs[|msgs| - 1];
      if Framable(rest) && |msgs[0].value| >= 1024 {
        forall i | 0 <= i < |msgs| - 1 ensures |msgs[i].value| >= 1024 {
          if i > 0 {
            assert |rest[i - 1].value| >= 1024;
          }
        }
      }
      if Framable(msgs) {
        forall i | 0 <= i < |rest| - 1 ensures |rest[i].value| >= 1024 {
          assert |msgs[i + 1].value| >= 1024;
        }
      }
    }
  }

  // ---------------------------------------------------------------- what is kept of the values

  function CarryList(carry: Option<seq<Byte>>): seq<seq<Byte>> {
    match carry
    case Some(v) => [v]
    case None => []
  }

  lemma {:induction false} ListLengths(msgs: seq<Message>)
    requires Sendable(msgs)
    ensures |Items(msgs)| == |msgs| == |Values(msgs)|
  {
    if msgs != [] {
      ListLengths(msgs[1..]);
    }
  }

  lemma {:induction false} ValuesSnoc(msgs: seq<Message>, m: Message)
    ensures Values(msgs + [m]) == Values(msgs) + [m.value]
  {
    if msgs == [] {
      assert [] + [m] == [m] && [m][1..] == [];
    } else {
      ValuesSnoc(msgs[1..], m);
      assert (msgs + [m])[1..] == msgs[1..] + [m];
    }
  }

  /** A long message is decoded on its own and leaves the rest of the stream to the rest. */
  lemma LongFirst(msgs: seq<Message>)
    requires Sendable(msgs) && msgs != [] && |msgs[0].value| >= 1024
    ensures Decode(None, StreamOf(msgs))
         == After([MessageItem(msgs[0])], [msgs[0].value], Decode(None, StreamOf(msgs[1..])))
  {
    hide ParseHeader, ItemBytes, Need, First, MessageItem;
    StreamCons(msgs);
    TakenIsValue(msgs[0]);
    DecodeHead(None, msgs[0], StreamOf(msgs[1..]));
    assert First(None, StreamOf(msgs)) == MessageItem(msgs[0]);
  }

  /** When every message has at least 1024 value bytes, the files closed hold exactly the
      values, in order, and nothing is left over. */
  lemma {:induction false} LongMessagesFiled(msgs: seq<Message>)
    requires Sendable(msgs) && forall m <- msgs :: |m.value| >= 1024
    ensures Decode(None, StreamOf(msgs)) == Decoded(Items(msgs), Values(msgs), None, [])
  {
    if msgs == [] {
    } else {
      LongFirst(msgs);
      LongMessagesFiled(msgs[1..]);
      hide Decode, MessageItem;
    }
  }

  /** A short message at the end of a stream is decoded and its cache kept. */
  lemma ShortAlone(m: Message)
    requires |m.value| < 1024 && m.value != []
    ensures Decode(None, StreamOf([m])) == Decoded([MessageItem(m)], [], Some(m.value), [])
  {
    hide ParseHeader, ItemBytes, Need, First, MessageItem;
    StreamCons([m]);
    assert [m][1..] == [];
    TailEmpty([]);
    TakenIsValue(m);
    DecodeHead(None, m, []);
    assert First(None, StreamOf([m])) == MessageItem(m);
  }

  /** A framable list decodes to its messages; the values are the files closed followed by the
      cache that a short last message leaves open. */
  lemma {:induction false} FramableDecodes(msgs: seq<Message>)
    requires Sendable(msgs) && Framable(msgs)
    ensures var d := Decode(None, StreamOf(msgs));
            && d.items == Items(msgs) && d.rest == []
            && d.files + CarryList(d.carry) == Values(msgs)
            && (d.carry.Some? <==> msgs != [] && |msgs[|msgs| - 1].value| < 1024)
  {
    hide Decode, Framable, MessageItem, StreamOf;
    if msgs == [] {
      EmptyStream();
    } else if |msgs[0].value| < 1024 {
      FramableCons(msgs);
      ShortAlone(msgs[0]);
      assert msgs == [msgs[0]];
    } else {
      FramableRest(msgs);
      LongFirst(msgs);
      FramableDecodes(msgs[1..]);
      var v, d := msgs[0].value, Decode(None, StreamOf(msgs[1..]));
      assert [v] + d.files + CarryList(d.carry) == [v] + (d.files + CarryList(d.carry));
    }
  }

  lemma EmptyStream()
    ensures Decode(None, StreamOf([])) == Decoded([], [], None, [])
  {
  }

  lemma FramableRest(msgs: seq<Message>)
    requires msgs != [] && Framable(msgs) && |msgs[0].value| >= 1024
    ensures Framable(msgs[1..])
    ensures |msgs| > 1 ==> msgs[1..][|msgs| - 2] == msgs[|msgs| - 1]
  {
    FramableCons(msgs);
  }

  /** Each request closes at most one file, and one that meets a kept cache adds nothing to
      what is kept. */
  lemma {:induction false} FilesBound(carry: Option<seq<Byte>>, s: seq<Byte>)
    ensures var d := Decode(carry, s);
            && |d.files| + |CarryList(d.carry)| <= |d.items| + |CarryList(carry)|
            && (carry.Some? && d.items != [] ==> |d.files| + |CarryList(d.carry)| <= |d.items|)
    decreases |s|
  {
    hide Need, First;
    if Ready(carry, s) {
      FilesBound(NextCarry(carry, First(carry, s)), s[HEADER_SIZE + Need(carry, s)..]);
    }
  }

  /** If as many requests are answered and as many values kept as messages were sent, the
      list was framable. */
  lemma {:induction false} CountsMatchOnlyIfFramable(msgs: seq<Message>)
    requires Sendable(msgs)
    ensures var d := Decode(None, StreamOf(msgs));
            |d.items| == |msgs| == |d.files| + |CarryList(d.carry)| ==> Framable(msgs)
  {
    hide ParseHeader, ItemBytes, Need, First, MessageItem;
    var d := Decode(None, StreamOf(msgs));
    if msgs != [] && |d.items| == |msgs| == |d.files| + |CarryList(d.carry)| {
      StreamCons(msgs);
      FramableCons(msgs);
      var m, tail, s := msgs[0], StreamOf(msgs[1..]), StreamOf(msgs);
      TakenIsValue(m);
      TailEmpty(msgs[1..]);
      StreamHead(None, m, tail);
      assert Ready(None, s);
      DecodeHead(None, m, tail);
      var item := First(None, s);
      if |m.value| < 1024 {
        FilesBound(NextCarry(None, item), tail);
      } else {
        CountsMatchOnlyIfFramable(msgs[1..]);
      }
    }
  }

  /** What goes wrong otherwise, on one input: after a one-byte message, the second message
      takes no value bytes and its value starts the third header. */
  lemma ShortMessagesMisread()
    ensures var msgs := [Message(1, [7]), Message(2, [9])];
            var d := Decode(None, StreamOf(msgs));
            && d.items == [Item(Header(1, 1), [7]), Item(Header(2, 1), [])]
            && d.rest == [9] && d.files == []
  {
    hide ParseHeader, ItemBytes, Need, First, Decode, Ready;
    var m1, m2 := Message(1, [7]), Message(2, [9]);
    var msgs, first, second := [m1, m2], Item(Header(1, 1), [7]), Item(Header(2, 1), []);
    StreamCons(msgs);
    StreamCons(msgs[1..]);
    TailEmpty([]);
    assert msgs[1..] == [m2] && [m2][1..] == [];
    var tail := ItemBytes(MessageItem(m2)) + [];
    DecodeHead(None, m1, tail);
    DecodeHead(Some([7]), m2, []);
    DecodeOnce(None, StreamOf(msgs));
    DecodeOnce(Some([7]), tail);
    assert First(None, StreamOf(msgs)) == first && First(Some([7]), tail) == second;
    assert [9] + [] == [9];
    DecodeShort(Some([7]), [9]);
    assert [first] + ([second] + []) == [first, second];
  }

  lemma DecodeOnce(carry: Option<seq<Byte>>, s: seq<Byte>)
    requires Ready(carry, s)
    ensures var item := First(carry, s);
            Decode(carry, s) == After([item], ClosedBy(carry, item),
                                      Decode(NextCarry(carry, item), s[HEADER_SIZE + Need(carry, s)..]))
  {
  }

  lemma DecodeShort(carry: Option<seq<Byte>>, s: seq<Byte>)
    requires |s| <= HEADER_SIZE
    ensures Decode(carry, s) == Decoded([], [], carry, s)
  {
  }
}
