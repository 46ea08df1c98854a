/** What requests see while the worker copies a part of the file over the chunks, or has left it at that:
    the offsets stay those of the old window, the bytes do not. */
module CacheExposure {
  import opened Words
  import opened CacheSpec
  import opened CacheProofs

  /** The bytes a READ or a RESET copies, and from which buffer index on. */
  datatype Incoming = Incoming(at: nat, bytes: seq<byte>) {
    predicate Fits() { at + |bytes| <= 4096 }
  }

  function Arriving(file: ImageFile, c: Cache, m: Message): Incoming {
    match m
    case Stage => Incoming(0, [])
    case ReadNext =>
      Incoming(if OddIsOlder(c) then 2048 else 0, FileRead(file, c.position, ReadRequest(Size(file), c.Low())))
    case Reset(offset) => Incoming(0, FileRead(file, Base(offset), 4096))
  }

  /** The cache with the old offsets and the first k of the bytes copied. */
  function HalfWay(c: Cache, load: Incoming, k: nat): (h: Cache)
    requires c.Shaped() && load.Fits() && k <= |load.bytes|
    ensures h.Shaped()
  {
    c.(buf := Stored(c.buf, load.at, load.bytes[..k]))
  }

  /** Each step of the copying stores the next byte of the file and touches no other. */
  lemma CopiesOneByte(c: Cache, load: Incoming, k: nat)
    requires c.Shaped() && load.Fits() && k < |load.bytes|
    ensures HalfWay(c, load, 0) == c
    ensures HalfWay(c, load, k + 1)
         == HalfWay(c, load, k).(buf := HalfWay(c, load, k).buf[load.at + k := load.bytes[k]])
  {
    assert Stored(c.buf, load.at, load.bytes[..0]) == c.buf;
    assert Stored(c.buf, load.at, load.bytes[..k + 1])
        == Stored(c.buf, load.at, load.bytes[..k])[load.at + k := load.bytes[k]];
  }

  /** Copying stays inside the buffer, and with the last byte copied the buffer is as the whole message
      leaves it: what is missing are the offsets. */
  lemma AllCopied(file: ImageFile, c: Cache, m: Message)
    requires Coherent(file, c) && c.staged && !m.Stage?
    ensures var load := Arriving(file, c, m);
            var r := WorkerStep(file, Size(file), c, m);
            load.Fits() && r.Done? && HalfWay(c, load, |load.bytes|).buf == r.cache.buf
  {
    var load := Arriving(file, c, m);
    assert load.bytes[..|load.bytes|] == load.bytes;
    if m.ReadNext? { RequestIsAhead(file, c); }
  }

  // ---------- what is seen ----------

  /** Where the window keeps a position of the file. */
  function IndexOf(c: Cache, q: nat): int {
    if c.offsetEven <= q < c.offsetEven + 2048 then q - c.offsetEven else 2048 + q - c.offsetOdd
  }

  /** The byte a packet shows for a position in the window, after k bytes were copied. */
  function Shown(file: ImageFile, c: Cache, load: Incoming, k: nat, q: nat): byte
    requires q < |file| && k <= |load.bytes|
  {
    var j := IndexOf(c, q);
    if load.at <= j < load.at + k then load.bytes[j - load.at] else file[q]
  }

  function ShownPacket(file: ImageFile, c: Cache, load: Incoming, k: nat, offset: u32, length: u16): (r: seq<byte>)
    requires offset + length <= |file| && k <= |load.bytes|
    ensures |r| == length
    ensures forall i :: 0 <= i < length ==> r[i] == Shown(file, c, load, k, offset + i)
  {
    seq(length, i requires 0 <= i < length => Shown(file, c, load, k, offset + i))
  }

  lemma StoredAt(buf: seq<byte>, at: nat, bytes: seq<byte>, j: nat)
    requires at + |bytes| <= |buf| && j < |buf|
    ensures Stored(buf, at, bytes)[j] == if at <= j < at + |bytes| then bytes[j - at] else buf[j]
  {
  }

  /** The p-th byte of the window, wherever the chunks keep it. */
  lemma InOrderAt(c: Cache, p: nat)
    requires c.Shaped() && c.High() == c.Low() + 2048 && p < 4096
    ensures 0 <= IndexOf(c, c.Low() + p) < 4096 && InOrder(c)[p] == c.buf[IndexOf(c, c.Low() + p)]
  {
  }

  lemma HalfWayInOrder(c: Cache, load: Incoming, k: nat, p: nat)
    requires c.Shaped() && c.High() == c.Low() + 2048 && load.Fits() && k <= |load.bytes| && p < 4096
    ensures var j := IndexOf(c, c.Low() + p);
            InOrder(HalfWay(c, load, k))[p]
            == if load.at <= j < load.at + k then load.bytes[j - load.at] else InOrder(c)[p]
  {
    InOrderAt(HalfWay(c, load, k), p);
    InOrderAt(c, p);
    StoredAt(c.buf, load.at, load.bytes[..k], IndexOf(c, c.Low() + p));
  }

  lemma WindowShows(file: ImageFile, c: Cache, load: Incoming, k: nat, offset: u32, length: u16)
    requires Coherent(file, c) && c.staged && load.Fits() && k <= |load.bytes|
    requires offset + length <= |file| && Holds(c, offset, length)
    ensures var w, from := InOrder(HalfWay(c, load, k)), offset - c.Low();
            w[from..from + length] == ShownPacket(file, c, load, k, offset, length)
  {
    var w, from := InOrder(HalfWay(c, load, k)), offset - c.Low();
    var shown := ShownPacket(file, c, load, k, offset, length);
    InOrderIsFile(file, c);
    forall i: nat | i < length ensures w[from..from + length][i] == shown[i] {
      HalfWayInOrder(c, load, k, from + i);
    }
  }

  /** Every request inside the file, at every moment of a READ or a RESET: what is shown of a packet in
      the window, and bad copies and misses as before. */
  lemma FindHalfWay(file: ImageFile, c: Cache, load: Incoming, k: nat, offset: u32, length: u16)
    requires Coherent(file, c) && c.staged && load.Fits() && k <= |load.bytes|
    requires 1 <= length <= MAX_PACKET && offset + length <= |file|
    ensures Find(Size(file), HalfWay(c, load, k), offset, length) ==
            if Holds(c, offset, length) then Bytes(ShownPacket(file, c, load, k, offset, length))
            else if offset < c.Low() < offset + length then Bad
            else Miss
  {
    FindByPlace(file, HalfWay(c, load, k), offset, length);
    if Holds(c, offset, length) { WindowShows(file, c, load, k, offset, length); }
  }

  /** A packet in the window shows, at some position, another byte than the file's. */
  ghost predicate Exposed(file: ImageFile, c: Cache, load: Incoming, k: nat, offset: u32, length: u16)
    requires k <= |load.bytes|
  {
    Holds(c, offset, length)
    && exists q :: offset <= q < offset + length && q < |file| && Shown(file, c, load, k, q) != file[q]
  }

  lemma ShownIsFile(file: ImageFile, c: Cache, load: Incoming, k: nat, offset: u32, length: u16)
    requires offset + length <= |file| && k <= |load.bytes|
    ensures ShownPacket(file, c, load, k, offset, length) == file[offset..offset + length]
            <==> forall q :: offset <= q < offset + length ==> Shown(file, c, load, k, q) == file[q]
  {
    var shown, right := ShownPacket(file, c, load, k, offset, length), file[offset..offset + length];
    if shown == right {
      forall q | offset <= q < offset + length ensures Shown(file, c, load, k, q) == file[q] {
        assert shown[q - offset] == right[q - offset];
      }
    }
  }

  /** A packet in the window is the file's exactly if it is not exposed. */
  lemma ServedUnlessExposed(file: ImageFile, c: Cache, load: Incoming, k: nat, offset: u32, length: u16)
    requires Coherent(file, c) && c.staged && load.Fits() && k <= |load.bytes|
    requires 1 <= length <= MAX_PACKET && offset + length <= |file| && Holds(c, offset, length)
    ensures Find(Size(file), HalfWay(c, load, k), offset, length) == Bytes(file[offset..offset + length])
            <==> !Exposed(file, c, load, k, offset, length)
  {
    FindHalfWay(file, c, load, k, offset, length);
    ShownIsFile(file, c, load, k, offset, length);
  }

  /** Every reply at every moment: other bytes than the file's come from exposed packets, and nothing else. */
  lemma HalfWayReply(file: ImageFile, c: Cache, load: Incoming, k: nat, offset: u32, length: u16)
    requires Coherent(file, c) && c.staged && load.Fits() && k <= |load.bytes|
    requires length <= MAX_PACKET && offset + length <= |file|
    ensures match Find(Size(file), HalfWay(c, load, k), offset, length)
            case Bytes(data) => data == file[offset..offset + length] <==> !Exposed(file, c, load, k, offset, length)
            case Bad => offset < c.Low() < offset + length && !Exposed(file, c, load, k, offset, length)
            case _ => !Exposed(file, c, load, k, offset, length)
  {
    if length == 0 {
      EmptyPacket(HalfWay(c, load, k), offset);
      assert file[offset..offset + length] == [];
    } else {
      FindHalfWay(file, c, load, k, offset, length);
      if Holds(c, offset, length) { ServedUnlessExposed(file, c, load, k, offset, length); }
    }
  }

  // ---------- which requests are exposed ----------

  /** A READ exposes the requests below the part copied so far, where the file differs from itself two
      chunks on. */
  lemma ReadExposes(file: ImageFile, c: Cache, k: nat, offset: u32, length: u16)
    requires Coherent(file, c) && c.staged && k <= |Arriving(file, c, ReadNext).bytes|
    requires 1 <= length <= MAX_PACKET && offset + length <= |file| && Holds(c, offset, length)
    ensures Exposed(file, c, Arriving(file, c, ReadNext), k, offset, length)
            <==> exists q :: offset <= q < offset + length && q < c.Low() + k && q + 4096 < |file|
                   && file[q] != file[q + 4096]
  {
    RequestIsAhead(file, c);
    var load := Arriving(file, c, ReadNext);
    forall q | offset <= q < offset + length
      ensures Shown(file, c, load, k, q) == if q < c.Low() + k && q + 4096 < |file| then file[q + 4096] else file[q]
    {
      if q < c.Low() + k { assert load.bytes[q - c.Low()] == file[q + 4096]; }
    }
  }

  /** A RESET exposes the requests whose place in the buffer the copied part has reached, where the file
      differs from itself at that place counted from the aligned offset. */
  lemma ResetExposes(file: ImageFile, c: Cache, resumed: u32, k: nat, offset: u32, length: u16)
    requires Coherent(file, c) && c.staged && k <= |Arriving(file, c, Message.Reset(resumed)).bytes|
    requires 1 <= length <= MAX_PACKET && offset + length <= |file| && Holds(c, offset, length)
    ensures Exposed(file, c, Arriving(file, c, Message.Reset(resumed)), k, offset, length)
            <==> exists q :: offset <= q < offset + length && 0 <= IndexOf(c, q) < k
                   && Base(resumed) + IndexOf(c, q) < |file|
                   && file[q] != file[Base(resumed) + IndexOf(c, q)]
  {
    var base, load := Base(resumed), Arriving(file, c, Message.Reset(resumed));
    assert |load.bytes| > 0 ==> load.bytes == file[base..base + |load.bytes|];
    forall q | offset <= q < offset + length
      ensures 0 <= IndexOf(c, q)
      ensures IndexOf(c, q) < k ==> base + IndexOf(c, q) < |file|
      ensures Shown(file, c, load, k, q) == if IndexOf(c, q) < k then file[base + IndexOf(c, q)] else file[q]
    {
    }
  }
}
