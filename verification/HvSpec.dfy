/** One header-and-value message, assembled from a byte stream or stored for sending:
    the states of an `HV` object and what each of its operations makes of them. */
module HvSpec {
  import opened Wire
  import opened CacheSpec

  const HEADER_SIZE := 8
  const DEFAULT_MAX_MEMORY_CACHE := 1024

  /** A header in host order. */
  datatype Header = Header(id: Word, length: Word)

  function HeaderBytes(h: Header): (s: seq<Byte>)
    ensures |s| == HEADER_SIZE
  {
    PutWord(h.id) + PutWord(h.length)
  }

  function ParseHeader(s: seq<Byte>): Header
    requires |s| == HEADER_SIZE
  {
    Header(GetWord(s[..4]), GetWord(s[4..]))
  }

  lemma HeaderRoundTrip(h: Header)
    ensures ParseHeader(HeaderBytes(h)) == h
  {
    GetPut(h.id);
    GetPut(h.length);
    assert HeaderBytes(h)[..4] == PutWord(h.id) && HeaderBytes(h)[4..] == PutWord(h.length);
  }

  /** The layout on the wire: id before length, each with its most significant byte first. */
  lemma HeaderLayout(h: Header)
    ensures var s := HeaderBytes(h);
            && h.id == s[0] as int * 0x100_0000 + s[1] as int * 0x1_0000 + s[2] as int * 0x100 + s[3] as int
            && h.length == s[4] as int * 0x100_0000 + s[5] as int * 0x1_0000 + s[6] as int * 0x100 + s[7] as int
  {
    GetPut(h.id);
    GetPut(h.length);
  }

  lemma HeaderBytesOfParse(s: seq<Byte>)
    requires |s| == HEADER_SIZE
    ensures HeaderBytes(ParseHeader(s)) == s
  {
    PutGet(s[..4]);
    PutGet(s[4..]);
  }

  predicate Short(length: nat) {
    length < DEFAULT_MAX_MEMORY_CACHE
  }

  /** The fields of an `HV`. `wire` is the header memory while it is in network order and
      `head` the same memory after `ntohl`; `to` and `head` are `None` until first assigned,
      because the constructor leaves them uninitialised. */
  datatype Hv = Hv(to: Option<Storage>, wire: seq<Byte>, head: Option<Header>,
                   value: Option<CacheState>, hlen: nat, headComplete: bool, valueComplete: bool)
  {
    predicate Complete() {
      headComplete && valueComplete
    }

    /** Part of a header has arrived, and not all of it. */
    predicate MidHeader() {
      0 < hlen < HEADER_SIZE
    }

    /** What holds of every state an `HV` reaches. */
    predicate Inv() {
      && hlen <= HEADER_SIZE
      && (headComplete <==> hlen == HEADER_SIZE)
      && (hlen > 0 ==> |wire| == hlen)
      && (valueComplete ==> headComplete && value.Some? && value.value.Full())
      && (value.Some? ==> value.value.Valid() && value.value.ridx == 0)
      && (!headComplete && value.Some? ==> value.value.Full() && to == Some(Mem))
      && (headComplete ==> head == Some(ParseHeader(wire)) && to == Some(Target(head.value.length)))
      && (headComplete && value.Some? && !value.value.Full() ==>
            value.value.capacity == head.value.length && value.value.data != [])
      && (head.Some? <==> to.Some?)
    }
  }

  function Target(length: Word): Storage {
    if Short(length) then Mem else File
  }

  const FRESH := Hv(None, [], None, None, 0, false, false)

  // ---------------------------------------------------------------- clear

  /** `clear` keeps the cache of a message whose `to` is memory. */
  function Clear(h: Hv): Hv
    requires h.to.Some?
  {
    var h1 := h.(hlen := 0, headComplete := false, valueComplete := false);
    if h.to.value == File || h.to.value == Shm then h1.(value := None) else h1
  }

  lemma CompleteIsFull(h: Hv)
    requires h.Inv() && h.Complete()
    ensures h.value.Some? && h.value.value.Full() && h.to.Some?
  {
  }

  lemma ClearKeepsInv(h: Hv)
    requires h.Inv() && h.headComplete && (h.value.Some? ==> h.value.value.Full())
    ensures h.to.Some? && Clear(h).Inv() && !Clear(h).valueComplete && Clear(h).head.Some?
  {
  }

  /** The contents of the file that `clear` closes, if it closes one. */
  function Closed(h: Hv): seq<seq<Byte>>
    requires h.to.Some?
  {
    if (h.to.value == File || h.to.value == Shm) && h.value.Some? then [h.value.value.data] else []
  }

  // ---------------------------------------------------------------- write

  /** Outcome of offering bytes: how many were used, or that the value cache could not be
      created, or that the header copy left the header. The last is undefined behaviour:
      the destination advances by whole headers, so any copy that does not start at
      `hlen == 0` lands outside the object. */
  datatype Written = Wrote(n: nat) | CreateFailed | Stray

  predicate Strays(h: Hv, data: seq<Byte>) {
    data != [] && h.MidHeader()
  }

  function HeadTaken(h: Hv, data: seq<Byte>): nat {
    if h.hlen < HEADER_SIZE then Min(HEADER_SIZE - h.hlen, |data|) else 0
  }

  function WriteHead(h: Hv, data: seq<Byte>): (h': Hv)
    requires !Strays(h, data)
    ensures h.Inv() ==> h'.Inv()
  {
    if data == [] || h.hlen >= HEADER_SIZE then h
    else
      var n := HeadTaken(h, data);
      var h1 := h.(wire := data[..n], hlen := n);
      if n == HEADER_SIZE then HeadCompleted(h1) else h1
  }

  function HeadCompleted(h: Hv): Hv
    requires h.hlen == HEADER_SIZE && |h.wire| == HEADER_SIZE
  {
    if h.headComplete then h
    else
      var header := ParseHeader(h.wire);
      h.(headComplete := true, head := Some(header), to := Some(Target(header.length)))
  }

  /** The cache the value bytes go to: the one at hand, or a new one. */
  function ValueCache(h: Hv): CacheState
    requires h.head.Some?
  {
    if h.value.Some? then h.value.value else EmptyCache(h.head.value.length)
  }

  function WriteValue(h: Hv, data: seq<Byte>, ok: bool): (r: (Hv, Written))
    requires h.Inv()
    ensures r.0.Inv()
  {
    if data == [] || !h.headComplete then (h, Wrote(0))
    else if h.value.None? && !ok then (h, CreateFailed)
    else
      var c := ValueCache(h);
      var c' := Push(c, data);
      (h.(value := Some(c'), valueComplete := h.valueComplete || c'.Full()), Wrote(Taken(c, data)))
  }

  function Write(h: Hv, data: seq<Byte>, ok: bool): (r: (Hv, Written))
    requires h.Inv()
    ensures r.0.Inv()
    ensures r.1.Wrote? ==> r.1.n <= |data|
  {
    if Strays(h, data) then (h, Stray)
    else
      var n := HeadTaken(h, data);
      var v := WriteValue(WriteHead(h, data), data[n..], ok);
      if v.1.Wrote? then (v.0, Wrote(n + v.1.n)) else v
  }

  /** The call `write(p_data, data_len)` for a string of any length: the length arrives as a
      signed `int`, and nothing is written when that is not positive. */
  function WriteCall(h: Hv, data: seq<Byte>, ok: bool): (r: (Hv, Written))
    requires h.Inv()
    ensures r.0.Inv()
  {
    Write(h, Given(data), ok)
  }

  /** The bytes a callee sees of `data` when its length is passed as an `int`. */
  function Given(data: seq<Byte>): (s: seq<Byte>)
    ensures |s| < 0x8000_0000
    ensures |data| < 0x8000_0000 ==> s == data
  {
    if ToInt32(|data|) <= 0 then [] else data[..ToInt32(|data|)]
  }

  /** Progress: offering at least one byte uses one, completes a message or reports a
      problem. */
  lemma WriteProgress(h: Hv, data: seq<Byte>, ok: bool)
    requires h.Inv() && !h.valueComplete && data != []
    ensures var r := Write(h, data, ok);
            r.1.Wrote? && r.1.n == 0 ==> h.headComplete && r.0.Complete()
    ensures var r := Write(h, data, ok);
            r.1.Wrote? && r.1.n < |data| ==> r.0.Complete()
  {
  }

  /** What a write that did not succeed leaves behind. */
  lemma WriteProblems(h: Hv, data: seq<Byte>, ok: bool)
    requires h.Inv()
    ensures var r := Write(h, data, ok);
            && (r.1.Stray? ==> r.0 == h)
            && (r.1.CreateFailed? ==> r.0.headComplete && r.0.value.None? && r.0.to.Some? && r.0.head.Some?)
  {
  }

  // ---------------------------------------------------------------- storing a message to send

  /** `write(Header *, char *)` on an `HV` without a value, given a header and its value
      bytes. `cache_push` reports its count as a signed `int`, so with a 64-bit `size_t` a
      length of 2^31 or more never compares equal and the message is dropped. */
  function Store(h: Hv, header: Header, value: seq<Byte>, ok: bool): (r: (Hv, int))
    requires h.value.None? && |value| == header.length
  {
    var h1 := h.(wire := HeaderBytes(header));
    if !ok then (h1, -1)
    else
      var c := Push(EmptyCache(header.length), value);
      if ToInt32(Taken(EmptyCache(header.length), value)) != header.length then (h1, -1)
      else (h1.(value := Some(c)), 0)
  }

  /** Draining a cache in pops of at most `n` bytes. */
  function PopAll(c: CacheState, n: nat): seq<Byte>
    requires c.Valid() && n > 0
    decreases |c.data| - c.ridx
  {
    if PopCount(c, n) == 0 then [] else Popped(c, n) + PopAll(Pop(c, n), n)
  }

  lemma {:induction false} PopAllIsUnread(c: CacheState, n: nat)
    requires c.Valid() && n > 0
    ensures PopAll(c, n) == c.Unread()
    decreases |c.data| - c.ridx
  {
    if PopCount(c, n) == 0 {
    } else {
      PopAllIsUnread(Pop(c, n), n);
      assert c.Unread() == Popped(c, n) + Pop(c, n).Unread();
    }
  }

  const POP_SIZE := 4096

  /** The bytes `handle_write` sends for a stored message; nothing for one without a value. */
  function Emit(h: Hv): seq<Byte>
    requires h.value.Some? ==> h.value.value.Valid()
  {
    if h.value.Some? then h.wire + PopAll(h.value.value, 4096) else []
  }

  /** Printer and parser are inverse exactly for values of 1 to 2^31 - 9 bytes. An empty value
      leaves the reader waiting; from 2^31 - 8 on, header and value together are longer than
      the `int` the length is passed in, and nothing is read; from 2^31 on, the value is never
      stored. */
  lemma PrinterParserRoundTrip(id: Word, value: seq<Byte>)
    requires |value| < 0x1_0000_0000
    ensures var header := Header(id, |value|);
            var stored := Store(FRESH, header, value, true).0;
            var r := WriteCall(FRESH, Emit(stored), true);
            && (r.0.Complete() <==> 1 <= |value| < 0x8000_0000 - HEADER_SIZE)
            && (r.0.Complete() ==> && r.1 == Wrote(HEADER_SIZE + |value|)
                                   && r.0.head == Some(header)
                                   && r.0.value.value.data == value)
            && (stored.value.Some? <==> |value| < 0x8000_0000)
  {
    var header := Header(id, |value|);
    StoreEmits(header, value);
    ParseWhole(header, value);
    hide Store, Emit, Write, HeaderBytes, ParseHeader, PopAll;
    if |value| < 0x8000_0000 - HEADER_SIZE {
      assert Given(HeaderBytes(header) + value) == HeaderBytes(header) + value;
    } else if |value| < 0x8000_0000 {
      assert Given(HeaderBytes(header) + value) == [];
    }
    NothingWritten();
  }

  /** A value that can be stored is sent as its header and its bytes, any other not at all. */
  lemma StoreEmits(header: Header, value: seq<Byte>)
    requires |value| == header.length
    ensures var stored := Store(FRESH, header, value, true).0;
            && (stored.value.Some? <==> |value| < 0x8000_0000)
            && (stored.value.Some? ==> stored.value.value.Valid())
            && Emit(stored) == if stored.value.Some? then HeaderBytes(header) + value else []
  {
    hide HeaderBytes;
    var stored := Store(FRESH, header, value, true).0;
    if |value| < 0x8000_0000 {
      PopAllIsUnread(stored.value.value, POP_SIZE);
    }
  }

  /** A header and its value, written to a fresh object in one call. */
  lemma ParseWhole(header: Header, value: seq<Byte>)
    requires |value| == header.length
    ensures var r := Write(FRESH, HeaderBytes(header) + value, true);
            && (r.0.Complete() <==> value != [])
            && (value != [] ==> r.1 == Wrote(HEADER_SIZE + |value|) && r.0.head == Some(header)
                                && r.0.value.value.data == value)
  {
    HeaderRoundTrip(header);
    var bytes := HeaderBytes(header) + value;
    assert bytes[..HEADER_SIZE] == HeaderBytes(header);
    assert bytes[HEADER_SIZE..] == value;
    hide HeaderBytes, ParseHeader;
  }

  lemma NothingWritten()
    ensures Write(FRESH, [], true) == (FRESH, Wrote(0))
  {
  }
}
