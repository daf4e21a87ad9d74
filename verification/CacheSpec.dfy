/** The bounded byte cache: a specification on sequences and the two storage backends as
    they lay bytes out. */
module CacheSpec {
  import opened Wire

  const MEMORY_CACHE_LEN := 1048576

  datatype Storage = Auto | Mem | Shm | File

  // ---------------------------------------------------------------- specification

  /** A cache as its users see it: `data` is everything accepted so far (`widx` bytes). */
  datatype CacheState = CacheState(capacity: nat, data: seq<Byte>, ridx: nat) {
    predicate Valid() {
      ridx <= |data| <= capacity
    }

    predicate Full() {
      |data| == capacity
    }

    function Unread(): seq<Byte>
      requires Valid()
    {
      data[ridx..]
    }
  }

  function EmptyCache(capacity: nat): CacheState {
    CacheState(capacity, [], 0)
  }

  function Taken(c: CacheState, offered: seq<Byte>): (n: nat)
    requires c.Valid()
  {
    Min(c.capacity - |c.data|, |offered|)
  }

  function Push(c: CacheState, offered: seq<Byte>): (c': CacheState)
    requires c.Valid()
    ensures c'.Valid() && c'.capacity == c.capacity && c.data <= c'.data
  {
    c.(data := c.data + offered[..Taken(c, offered)])
  }

  function PopCount(c: CacheState, n: nat): nat
    requires c.Valid()
  {
    Min(|c.data| - c.ridx, n)
  }

  function Pop(c: CacheState, n: nat): (c': CacheState)
    requires c.Valid()
    ensures c'.Valid() && c'.capacity == c.capacity
  {
    c.(ridx := c.ridx + PopCount(c, n))
  }

  function Popped(c: CacheState, n: nat): seq<Byte>
    requires c.Valid()
  {
    c.data[c.ridx..c.ridx + PopCount(c, n)]
  }

  /** A pop hands out the first `n` unread bytes, or all of them if there are fewer, and
      leaves the others unread. */
  lemma PopIsPrefix(c: CacheState, n: nat)
    requires c.Valid()
    ensures var unread := c.Unread();
            && Popped(c, n) == (if n < |unread| then unread[..n] else unread)
            && Pop(c, n).Unread() == (if n < |unread| then unread[n..] else [])
            && Pop(c, n).data == c.data
  {
  }

  /** A push accepts what fits, and its count is how much that is. */
  lemma PushIsPrefix(c: CacheState, offered: seq<Byte>)
    requires c.Valid()
    ensures var all := c.data + offered;
            && Push(c, offered).data == (if |all| <= c.capacity then all else all[..c.capacity])
            && Taken(c, offered) == |Push(c, offered).data| - |c.data|
            && Push(c, offered).ridx == c.ridx
  {
  }

  lemma PoppedLength(c: CacheState, n: nat)
    requires c.Valid()
    ensures |Popped(c, n)| == PopCount(c, n)
  {
  }

  /** Two pushes accept what one push of both strings accepts. */
  lemma PushTwice(c: CacheState, a: seq<Byte>, b: seq<Byte>)
    requires c.Valid()
    ensures Push(Push(c, a), b) == Push(c, a + b)
    ensures Taken(c, a) + Taken(Push(c, a), b) == Taken(c, a + b)
  {
    var n := Taken(c, a);
    if n < |a| {
      assert (a + b)[..n] == a[..n];
      assert Push(c, a).Full();
    } else {
      assert (a + b)[..Taken(c, a + b)] == a[..n] + b[..Taken(Push(c, a), b)];
    }
  }

  // ---------------------------------------------------------------- first in, first out

  datatype Op = PushOp(bytes: seq<Byte>) | PopOp(n: nat)

  function Run(c: CacheState, ops: seq<Op>): (c': CacheState)
    requires c.Valid()
    ensures c'.Valid() && c'.capacity == c.capacity
    decreases |ops|
  {
    if ops == [] then c
    else match ops[0]
      case PushOp(bytes) => Run(Push(c, bytes), ops[1..])
      case PopOp(n) => Run(Pop(c, n), ops[1..])
  }

  /** Everything the pops of a run hand out, in order. */
  function Output(c: CacheState, ops: seq<Op>): seq<Byte>
    requires c.Valid()
    decreases |ops|
  {
    if ops == [] then []
    else match ops[0]
      case PushOp(bytes) => Output(Push(c, bytes), ops[1..])
      case PopOp(n) => Popped(c, n) + Output(Pop(c, n), ops[1..])
  }

  /** Everything the pushes of a run offer, in order. */
  function Offered(ops: seq<Op>): seq<Byte> {
    if ops == [] then []
    else (if ops[0].PushOp? then ops[0].bytes else []) + Offered(ops[1..])
  }

  /** Whatever the interleaving of pushes and pops, the bytes handed out followed by the
      bytes still unread are the bytes that were unread before followed by as much of the
      offered stream as the capacity had room for. */
  lemma {:induction false} FirstInFirstOut(c: CacheState, ops: seq<Op>)
    requires c.Valid()
    ensures Run(c, ops).data == Push(c, Offered(ops)).data
    ensures Output(c, ops) + Run(c, ops).Unread() == Push(c, Offered(ops)).Unread()
    decreases |ops|
  {
    if ops == [] {
    } else {
      match ops[0]
      case PushOp(bytes) =>
        FirstInFirstOut(Push(c, bytes), ops[1..]);
        PushTwice(c, bytes, Offered(ops[1..]));
      case PopOp(n) =>
        var c1, rest := Pop(c, n), Offered(ops[1..]);
        FirstInFirstOut(c1, ops[1..]);
        PopThenPush(c, n, rest);
        assert Offered(ops) == rest;
        assert Output(c, ops) + Run(c, ops).Unread()
            == Popped(c, n) + (Output(c1, ops[1..]) + Run(c1, ops[1..]).Unread());
    }
  }

  /** A pop takes its bytes from the front of what a later push extends. */
  lemma PopThenPush(c: CacheState, n: nat, rest: seq<Byte>)
    requires c.Valid()
    ensures Push(Pop(c, n), rest).data == Push(c, rest).data
    ensures Popped(c, n) + Push(Pop(c, n), rest).Unread() == Push(c, rest).Unread()
  {
    var d := Push(c, rest).data;
    assert Popped(c, n) == d[c.ridx..c.ridx + PopCount(c, n)];
  }

  // ---------------------------------------------------------------- the two backends

  /** The representation: a heap block written at `widx`, or a file written at its cursor. */
  datatype Raw =
    | MemRaw(capacity: nat, buf: seq<Byte>, widx: nat, ridx: nat)
    | FileRaw(capacity: nat, file: seq<Byte>, pos: nat, widx: nat, ridx: nat)
  {
    predicate Valid() {
      && ridx <= widx <= capacity
      && match this
         case MemRaw(_, _, _, _) => |buf| == capacity
         case FileRaw(_, _, _, _, _) => |file| == (if capacity == 0 then 1 else capacity) && pos == widx
    }

    function View(): (c: CacheState)
      requires Valid()
      ensures c.Valid()
    {
      CacheState(capacity, (if MemRaw? then buf else file)[..widx], ridx)
    }
  }

  function Overwrite(s: seq<Byte>, at: nat, d: seq<Byte>): (r: seq<Byte>)
    requires at + |d| <= |s|
    ensures |r| == |s| && r[..at + |d|] == s[..at] + d
  {
    s[..at] + d + s[at + |d|..]
  }

  /** A file is stretched by writing one byte at offset `capacity - 1`, then rewound; for an
      empty capacity the seek fails and the byte lands at offset 0. */
  function NewFile(capacity: nat, filler: Byte): (r: Raw)
    ensures r.Valid() && r.View() == EmptyCache(capacity)
  {
    FileRaw(capacity, seq(if capacity == 0 then 0 else capacity - 1, _ => 0) + [filler], 0, 0, 0)
  }

  /** What a file is when its cache is closed full: the bytes the cache accepted, except that
      the file of a cache without room holds the one byte that was to stretch it. */
  predicate OnFile(file: seq<Byte>, data: seq<Byte>) {
    if data == [] then |file| == 1 else file == data
  }

  lemma FullFile(r: Raw)
    requires r.Valid() && r.FileRaw? && r.View().Full()
    ensures OnFile(r.file, r.View().data)
  {
    assert r.capacity > 0 ==> r.file[..r.widx] == r.file;
  }

  /** A heap block holds arbitrary bytes. */
  function NewBlock(junk: seq<Byte>): (r: Raw)
    ensures r.Valid() && r.View() == EmptyCache(|junk|)
  {
    MemRaw(|junk|, junk, 0, 0)
  }

  function RawTaken(r: Raw, offered: seq<Byte>): nat
    requires r.Valid()
  {
    Min(r.capacity - r.widx, |offered|)
  }

  function RawPush(r: Raw, offered: seq<Byte>): (r': Raw)
    requires r.Valid()
    ensures r'.Valid() && r'.MemRaw? == r.MemRaw? && r'.capacity == r.capacity
    ensures r'.View() == Push(r.View(), offered)
  {
    var n := RawTaken(r, offered);
    match r
    case MemRaw(_, buf, widx, _) =>
      r.(buf := Overwrite(buf, widx, offered[..n]), widx := widx + n)
    case FileRaw(_, file, pos, widx, _) =>
      r.(file := Overwrite(file, pos, offered[..n]), pos := pos + n, widx := widx + n)
  }

  /** What a user of a backend can observe of a list of pushes: the returned counts and
      whether the cache reports full after each. */
  function Observed(r: Raw, pushes: seq<seq<Byte>>): seq<(nat, bool)>
    requires r.Valid()
    decreases |pushes|
  {
    if pushes == [] then []
    else
      var r1 := RawPush(r, pushes[0]);
      [(RawTaken(r, pushes[0]), r1.widx == r1.capacity)] + Observed(r1, pushes[1..])
  }

  function RawRun(r: Raw, pushes: seq<seq<Byte>>): (r': Raw)
    requires r.Valid()
    ensures r'.Valid() && r'.MemRaw? == r.MemRaw?
    decreases |pushes|
  {
    if pushes == [] then r else RawRun(RawPush(r, pushes[0]), pushes[1..])
  }

  lemma {:induction false} SameViewSameRun(m: Raw, f: Raw, pushes: seq<seq<Byte>>)
    requires m.Valid() && f.Valid() && m.View() == f.View()
    ensures Observed(m, pushes) == Observed(f, pushes)
    ensures RawRun(m, pushes).View() == RawRun(f, pushes).View()
    decreases |pushes|
  {
    hide Raw.View, RawPush, Push;
    if pushes == [] {
    } else {
      var m1, f1 := RawPush(m, pushes[0]), RawPush(f, pushes[0]);
      SameViewSameCounts(m, f);
      SameViewSameCounts(m1, f1);
      SameViewSameRun(m1, f1, pushes[1..]);
      var seen := [(RawTaken(m, pushes[0]), m1.widx == m1.capacity)];
      assert Observed(m, pushes) == seen + Observed(m1, pushes[1..]);
      assert Observed(f, pushes) == seen + Observed(f1, pushes[1..]);
    }
  }

  lemma SameViewSameCounts(m: Raw, f: Raw)
    requires m.Valid() && f.Valid() && m.View() == f.View()
    ensures m.capacity == f.capacity && m.widx == f.widx
  {
    assert m.widx == |m.View().data| && f.widx == |f.View().data|;
  }

  /** Backend agreement: a heap block with any initial contents and a file stretched to
      capacity and rewound are indistinguishable to every list of pushes, and hold the same
      first `widx` bytes, namely the offered stream cut at the capacity. */
  lemma BackendsAgree(junk: seq<Byte>, filler: Byte, pushes: seq<seq<Byte>>)
    ensures var m, f := NewBlock(junk), NewFile(|junk|, filler);
            && Observed(m, pushes) == Observed(f, pushes)
            && RawRun(m, pushes).buf[..RawRun(m, pushes).widx]
               == RawRun(f, pushes).file[..RawRun(f, pushes).widx]
               == Concat(pushes)[..Min(|junk|, |Concat(pushes)|)]
  {
    var m, f := NewBlock(junk), NewFile(|junk|, filler);
    SameViewSameRun(m, f, pushes);
    RunIsPush(m, pushes);
    RunIsPush(f, pushes);
  }

  /** A list of pushes leaves what a single push of the whole stream would. */
  lemma {:induction false} RunIsPush(r: Raw, pushes: seq<seq<Byte>>)
    requires r.Valid()
    ensures RawRun(r, pushes).View() == Push(r.View(), Concat(pushes))
    decreases |pushes|
  {
    if pushes == [] {
    } else {
      RunIsPush(RawPush(r, pushes[0]), pushes[1..]);
      PushTwice(r.View(), pushes[0], Concat(pushes[1..]));
    }
  }
}
