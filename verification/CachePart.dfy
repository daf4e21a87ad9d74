/** The cache as the server uses it: a class whose methods update a heap block or a file
    stream in place. */
module CachePart {
  import opened Wire
  import opened CacheSpec

  /** An open stream: the bytes of the file and the position of the cursor. */
  datatype Stream = Stream(bytes: seq<Byte>, pos: nat)

  /** The directory the request caches are written to. A closed file stays there. */
  class Disk {
    /** The contents of the files closed so far, in order. */
    var files: seq<seq<Byte>>

    constructor ()
      ensures files == []
    {
      files := [];
    }
  }

  class Cache {
    const capacity: nat
    var widx: nat
    var ridx: nat
    var buf: array?<Byte>
    var wfp: Option<Stream>
    /** Set when `leave_cache` has returned the structure to the allocator. */
    var freed: bool

    ghost function Block(): set<object>
      reads this
    {
      if buf == null then {} else {buf}
    }

    /** Exactly one backend is present. */
    ghost predicate Valid()
      reads this, Block()
    {
      && !freed
      && (buf == null <==> wfp.Some?)
      && Repr().Valid()
    }

    ghost predicate InMemory()
      reads this
    {
      buf != null
    }

    ghost function Repr(): Raw
      reads this, Block()
    {
      if buf != null then MemRaw(capacity, buf[..], widx, ridx)
      else if wfp.Some? then FileRaw(capacity, wfp.value.bytes, wfp.value.pos, widx, ridx)
      else FileRaw(capacity, [], 0, widx, ridx)
    }

    ghost function View(): (c: CacheState)
      reads this, Block()
      requires Valid()
      ensures c.Valid()
    {
      Repr().View()
    }

    constructor InBlock(capacity: nat)
      ensures Valid() && InMemory() && fresh(buf)
      ensures View() == EmptyCache(capacity)
    {
      this.capacity := capacity;
      widx, ridx, freed, wfp := 0, 0, false, None;
      buf := new Byte[capacity];
    }

    constructor InFile(capacity: nat, filler: Byte)
      ensures Valid() && !InMemory()
      ensures Repr() == NewFile(capacity, filler)
    {
      this.capacity := capacity;
      widx, ridx, freed, buf := 0, 0, false, null;
      var raw := NewFile(capacity, filler);
      wfp := Some(Stream(raw.file, raw.pos));
    }

    /** The byte count goes back as an `int`; -1 is also the answer of a cache with no
        backend left. */
    method Push(data: seq<Byte>) returns (r: int)
      requires |data| < 0x1_0000_0000
      requires Valid() || (!freed && buf == null && wfp.None? && widx <= capacity)
      modifies this`widx, this`wfp, Block()
      ensures old(Valid()) ==> Valid() && InMemory() == old(InMemory())
      ensures old(Valid()) ==> Repr() == RawPush(old(Repr()), data)
      ensures old(Valid()) ==> View() == CacheSpec.Push(old(View()), data)
      ensures old(Valid()) ==> r == ToInt32(Taken(old(View()), data))
      ensures old(buf == null && wfp.None?) ==> r == -1 && widx == old(widx) && wfp == old(wfp)
    {
      var wlen := capacity - widx;
      if wlen > |data| {
        wlen := |data|;
      }
      if buf != null {
        forall i | 0 <= i < wlen {
          buf[widx + i] := data[i];
        }
        assert buf[..] == Overwrite(old(buf[..]), widx, data[..wlen]);
      } else if wfp.Some? {
        wfp := Some(Stream(Overwrite(wfp.value.bytes, wfp.value.pos, data[..wlen]), wfp.value.pos + wlen));
      } else {
        return -1;
      }
      widx := widx + wlen;
      r := ToInt32(wlen);
    }

    /** The file stream is open for writing only, so reading it back yields no byte; without
        a backend the answer is -1. */
    method Pop(dataLen: nat) returns (rlen: int, data: seq<Byte>)
      requires Valid() || (!freed && buf == null && wfp.None? && ridx <= widx)
      modifies this`ridx
      ensures old(Valid()) ==> Valid() && rlen == |data|
      ensures old(Valid()) && InMemory() ==> data == Popped(old(View()), dataLen)
      ensures old(Valid()) && InMemory() ==> View() == CacheSpec.Pop(old(View()), dataLen)
      ensures old(Valid()) && InMemory() ==>
                var unread := old(View().Unread());
                data == if dataLen < |unread| then unread[..dataLen] else unread
      ensures !InMemory() ==> data == [] && ridx == old(ridx)
      ensures buf == null && wfp.None? ==> rlen == -1
    {
      if Valid() {
        PopIsPrefix(View(), dataLen);
      }
      rlen := widx - ridx;
      if rlen > dataLen {
        rlen := dataLen;
      }
      if buf != null {
        data := buf[ridx..ridx + rlen];
        assert data == buf[..][..widx][ridx..ridx + rlen];
      } else if wfp.Some? {
        data := [];
        rlen := 0;
      } else {
        return -1, [];
      }
      ridx := ridx + rlen;
    }

    method IsFull() returns (full: bool)
      requires !freed
      ensures full == (widx == capacity)
      ensures Valid() ==> full == View().Full()
    {
      full := widx == capacity;
    }

    /** `delete_cache`: drop the bytes; the structure itself stays allocated. */
    method Delete()
      requires !freed
      modifies this`buf, this`wfp
      ensures buf == null && (old(buf) == null ==> wfp.None?) && (old(buf) != null ==> wfp == old(wfp))
    {
      if buf != null {
        buf := null;
      } else {
        wfp := None;
      }
    }

    /** `leave_cache`: close the file, if there is one, and return the structure. Releasing
        it twice is ruled out by the precondition. */
    method Leave(disk: Disk)
      requires !freed
      modifies this`wfp, this`freed, disk
      ensures freed
      ensures disk.files == old(disk.files) + old(if wfp.Some? then [wfp.value.bytes] else [])
    {
      if wfp.Some? {
        disk.files := disk.files + [wfp.value.bytes];
        wfp := None;
      }
      freed := true;
    }
  }

  /** A cache that has not changed holds what it held. */
  twostate lemma SameCache(c: Cache)
    requires old(c.Valid()) && unchanged(c) && (c.buf != null ==> unchanged(c.buf))
    ensures c.Valid() && c.View() == old(c.View())
  {
    if c.buf != null {
      assert c.buf[..] == old(c.buf[..]);
    }
  }

  /** `create_cache`. Whether the allocation or the file creation succeeds is up to the
      environment (`ok`); the byte that stretches a file is uninitialised (`filler`). */
  method CreateCache(capacity: nat, to: Storage, ok: bool, filler: Byte) returns (c: Cache?)
    ensures ok <==> c != null
    ensures c != null ==> fresh(c) && fresh(c.Block()) && c.Valid() && c.View() == EmptyCache(capacity)
    ensures c != null ==> (c.InMemory() <==> to == Mem || (to == Auto && capacity <= 1048576))
  {
    if !ok {
      return null;
    }
    if to == Mem || (to == Auto && capacity <= MEMORY_CACHE_LEN) {
      c := new Cache.InBlock(capacity);
    } else {
      c := new Cache.InFile(capacity, filler);
    }
  }
}
