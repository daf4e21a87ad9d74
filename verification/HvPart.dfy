/** The `HV` class: a message assembled from chunks, or stored to be sent. */
module HvPart {
  import opened Wire
  import opened CacheSpec
  import opened CachePart
  import opened HvSpec

  /** The files are those of caches, closed full, that accepted these bytes. */
  ghost predicate Files(files: seq<seq<Byte>>, stored: seq<seq<Byte>>) {
    |files| == |stored| && forall i | 0 <= i < |files| :: OnFile(files[i], stored[i])
  }

  class HV {
    var to: Option<Storage>
    var wire: seq<Byte>
    var head: Option<Header>
    var value: Cache?
    var hlen: nat
    var headComplete: bool
    var valueComplete: bool

    /** The value cache and its heap block. */
    ghost function Owned(): set<object>
      reads this, value
    {
      if value == null then {} else {value} + value.Block()
    }

    ghost predicate Valid()
      reads this, value, Owned()
    {
      value != null ==> value.Valid()
    }

    /** The cache of a request is a file. */
    ghost predicate OnDisk()
      reads this, value
    {
      value != null ==> !value.InMemory()
    }

    ghost function View(): Hv
      reads this, value, Owned()
      requires Valid()
    {
      Hv(to, wire, head, if value == null then None else Some(value.View()), hlen, headComplete, valueComplete)
    }

    constructor ()
      ensures Valid() && View() == FRESH && value == null
    {
      to, wire, head, value := None, [], None, null;
      hlen, headComplete, valueComplete := 0, false, false;
    }

    method Clear(disk: Disk)
      requires Valid() && to.Some?
      modifies this, value, disk
      ensures Valid() && View() == HvSpec.Clear(old(View()))
      ensures value == null || (value == old(value) && OnDisk() == old(OnDisk()))
      ensures old(OnDisk()) && (old(value) != null ==> old(View()).value.value.Full()) ==>
                forall stored :: Files(old(disk.files), stored) ==> Files(disk.files, stored + Closed(old(View())))
      ensures !old(OnDisk()) ==> disk.files == old(disk.files)
      ensures old(value) != null ==> old(value).freed == (value == null)
    {
      hlen := 0;
      headComplete := false;
      valueComplete := false;
      if to.value == File || to.value == Shm {
        if value != null {
          if !value.InMemory() && value.View().Full() {
            FullFile(value.Repr());
          }
          value.Leave(disk);
          value := null;
        }
      }
    }

    method HeadCompleted()
      requires hlen == HEADER_SIZE && |wire| == HEADER_SIZE && Valid()
      modifies this`headComplete, this`head, this`to
      ensures Valid() && View() == HvSpec.HeadCompleted(old(View()))
    {
      if !headComplete {
        headComplete := true;
        head := Some(ParseHeader(wire));
        if head.value.length < DEFAULT_MAX_MEMORY_CACHE {
          to := Some(Mem);
        } else {
          to := Some(File);
        }
      }
    }

    /** `Stray` stands for the copy to `&header + hlen` with `hlen > 0`. */
    method WriteHead(data: seq<Byte>) returns (r: Written)
      requires Valid() && View().Inv()
      modifies this`wire, this`hlen, this`headComplete, this`head, this`to
      ensures Valid()
      ensures Strays(old(View()), data) ==> r == Stray && View() == old(View())
      ensures !Strays(old(View()), data) ==>
                r == Wrote(HeadTaken(old(View()), data)) && View() == HvSpec.WriteHead(old(View()), data)
    {
      var wlen := 0;
      if |data| == 0 {
        return Wrote(0);
      }
      if hlen < HEADER_SIZE {
        wlen := HEADER_SIZE - hlen;
        if wlen > |data| {
          wlen := |data|;
        }
        if hlen > 0 {
          return Stray;
        }
        wire := data[..wlen];
        hlen := hlen + wlen;
        if hlen == HEADER_SIZE {
          HeadCompleted();
        }
      }
      r := Wrote(wlen);
    }

    method WriteValue(data: seq<Byte>, ok: bool, filler: Byte) returns (r: Written)
      requires Valid() && OnDisk() && View().Inv() && |data| < 0x8000_0000
      modifies this`value, this`valueComplete, value
      ensures Valid() && OnDisk() && (View(), r) == HvSpec.WriteValue(old(View()), data, ok)
      ensures value == old(value) || (old(value) == null && fresh(value))
    {
      hide ParseHeader, CacheSpec.Push, RawPush, CacheSpec.Raw.View;
      if |data| == 0 || !headComplete {
        return Wrote(0);
      }
      if value == null {
        value := CreateCache(head.value.length, File, ok, filler);
        if value == null {
          return CreateFailed;
        }
      }
      ghost var c := value.View();
      assert c == ValueCache(old(View()));
      var wlen := value.Push(data);
      var full := value.IsFull();
      if full {
        valueComplete := true;
      }
      assert wlen == Taken(c, data);
      r := Wrote(wlen);
    }

    /** `write(const char *, int)`; a length that does not fit an `int` is cut or lost. */
    method Write(bytes: seq<Byte>, ok: bool, filler: Byte) returns (r: Written)
      requires Valid() && OnDisk() && View().Inv()
      modifies this, value
      ensures Valid() && OnDisk() && (View(), r) == HvSpec.WriteCall(old(View()), bytes, ok)
      ensures value == old(value) || (old(value) == null && fresh(value))
    {
      var data := Given(bytes);
      r := WriteHead(data);
      if r.Stray? {
        return;
      }
      var offset := r.n;
      r := WriteValue(data[offset..], ok, filler);
      if r.Wrote? {
        r := Wrote(offset + r.n);
      }
    }

    /** `write(Header *, char *)`: both pointers may be null, but a value needs a header. */
    method Store(header: Option<Header>, bytes: Option<seq<Byte>>, ok: bool, disk: Disk) returns (r: int)
      requires Valid()
      requires bytes.Some? ==> header.Some? && |bytes.value| == header.value.length
      modifies this`wire, this`value, value, disk
      ensures Valid() && disk.files == old(disk.files)
      ensures header.Some? && bytes.Some? ==>
                && (value != null ==> value.InMemory())
                && (View(), r) == HvSpec.Store(old(View()).(value := None), header.value, bytes.value, ok)
                && (value != null ==> fresh(value) && fresh(value.Block()))
                && (old(value) != null ==> old(value).freed)
      ensures bytes.None? ==> r == 0 && value == old(value)
      ensures header.None? ==> View() == old(View())
      ensures header.Some? && bytes.None? ==> View() == old(View()).(wire := HeaderBytes(header.value))
    {
      hide HeaderBytes, CacheSpec.Raw.View, RawPush, CacheSpec.Push;
      if header.Some? {
        wire := HeaderBytes(header.value);
      }
      if bytes.Some? {
        if value != null {
          value.Delete();
          value.Leave(disk);
          value := null;
        }
        value := CreateCache(header.value.length, Mem, ok, 0);
        if value == null {
          return -1;
        }
        var nwrite := value.Push(bytes.value);
        if nwrite != header.value.length {
          value.Delete();
          value.Leave(disk);
          value := null;
          return -1;
        }
      }
      r := 0;
    }
  }

  /** A message none of whose parts has changed is the same message. */
  twostate lemma Untouched(hv: HV)
    requires old(hv.Valid()) && unchanged(hv)
    requires hv.value != null ==> unchanged(hv.value)
    requires hv.value != null && hv.value.buf != null ==> unchanged(hv.value.buf)
    ensures hv.Valid() && hv.View() == old(hv.View())
  {
    if hv.value != null {
      SameCache(hv.value);
    }
  }
}
