/** The cache serves exactly the file. */
module CacheProofs {
  import opened Words
  import opened CacheSpec

  /** Images small enough that no 32-bit sum of an offset, a packet and the chunks ahead wraps. */
  const MAX_IMAGE: u32 := 0xFFFF_0000
  /** No packet is longer than a chunk. */
  const MAX_PACKET: u16 := 2048

  type ImageFile = file: seq<byte> | |file| <= MAX_IMAGE

  function Size(file: ImageFile): u32 { |file| }

  /** The chunk kept from index `at` on holds the file from `offset` on. */
  ghost predicate ChunkMatches(file: seq<byte>, buf: seq<byte>, at: nat, offset: nat)
    requires at + 2048 <= |buf|
  {
    forall j {:trigger buf[j]} :: at <= j < at + 2048 && offset + j - at < |file| ==> buf[j] == file[offset + j - at]
  }

  /** Two adjacent aligned chunks of the file, which has been read up to the end of the newer one. */
  ghost predicate Coherent(file: ImageFile, c: Cache) {
    c.Shaped() && (c.staged ==> Window(file, c))
  }

  ghost predicate Window(file: ImageFile, c: Cache)
    requires c.Shaped()
  {
    && Offsets(file, c)
    && ChunkMatches(file, c.buf, 0, c.offsetEven)
    && ChunkMatches(file, c.buf, 2048, c.offsetOdd)
  }

  ghost predicate Offsets(file: ImageFile, c: Cache) {
    && c.offsetEven % 2048 == 0 && c.offsetOdd % 2048 == 0
    && c.High() == c.Low() + 2048 && c.High() <= |file|
    && c.position == c.bytesReadFile == (if c.High() + 2048 <= |file| then c.High() + 2048 else |file|)
  }

  // ---------- the worker keeps the window ----------

  lemma StageKeeps(file: ImageFile, c: Cache)
    requires Coherent(file, c) && !c.staged
    ensures Coherent(file, StageStep(file, c))
    ensures StageStep(file, c).staged <==> |file| >= 4096
  {
  }

  /** STAGE, exactly, whatever there was before: with two chunks in the file the cache holds them, and of a
      shorter file nothing is kept but how far it was read. */
  lemma StageExactly(file: ImageFile, c: Cache)
    requires c.Shaped()
    ensures var c' := StageStep(file, c);
            if |file| >= 4096 then
              && c'.staged && c'.buf == file[..4096] && c'.offsetEven == 0 && c'.offsetOdd == 2048
              && c'.bytesReadFile == c'.position == 4096 && c'.resumePending == c.resumePending
            else c' == c.(position := |file|)
  {
  }

  /** The bytes left in the file after the newer chunk, at most one chunk. */
  function Ahead(file: ImageFile, c: Cache): (n: nat)
    ensures n <= 2048
  {
    var end := c.High() + 2048;
    if end > |file| then 0 else if end + 2048 >= |file| then |file| - end else 2048
  }

  predicate OddIsOlder(c: Cache) { c.offsetEven > c.offsetOdd }

  /** Over the window, READ asks for exactly what is left, and past the end for what it cannot get. */
  lemma RequestIsAhead(file: ImageFile, c: Cache)
    requires Offsets(file, c)
    ensures var bytes := FileRead(file, c.position, ReadRequest(Size(file), c.Low()));
            if c.High() + 2048 <= |file| then
              ReadRequest(Size(file), c.Low()) == Ahead(file, c)
              && bytes == file[c.position..c.position + Ahead(file, c)]
            else bytes == [] && ReadRequest(Size(file), c.Low()) > 0
  {
    var older := c.Low();
    assert U32(older + 3 * CHUNK) == older + 6144 && U32(older + 2 * CHUNK) == older + 4096;
  }

  /** The offsets after a whole READ: the newer chunk has become the older one. */
  lemma OffsetsAdvance(file: ImageFile, c: Cache, buf: seq<byte>)
    requires Offsets(file, c) && c.High() + 2048 <= |file|
    ensures var n := Ahead(file, c);
            var c' := Published(c.(buf := buf, position := c.position + n), OddIsOlder(c), n);
            Offsets(file, c') && c'.Low() == c.High()
            && (if OddIsOlder(c) then c'.offsetEven == c.offsetEven && c'.offsetOdd == c.position
                else c'.offsetOdd == c.offsetOdd && c'.offsetEven == c.position)
  {
  }

  /** The cache after a READ that got what it asked for. */
  function Advanced(file: ImageFile, c: Cache): Cache
    requires c.Shaped() && Offsets(file, c) && c.High() + 2048 <= |file|
  {
    var n := Ahead(file, c);
    Published(Filled(c, OddIsOlder(c), file[c.position..c.position + n]), OddIsOlder(c), n)
  }

  lemma ReadIs(file: ImageFile, c: Cache)
    requires c.Shaped() && Offsets(file, c)
    ensures ReadStep(file, Size(file), c) == Done(if c.High() + 2048 <= |file| then Advanced(file, c) else c)
  {
    RequestIsAhead(file, c);
    if c.High() + 2048 > |file| {
      assert Filled(c, OddIsOlder(c), []) == c;
      assert ReadStep(file, Size(file), c) == Done(Filled(c, OddIsOlder(c), []));
    }
  }

  lemma AdvancedOdd(file: ImageFile, c: Cache)
    requires c.Shaped() && Window(file, c) && c.High() + 2048 <= |file| && OddIsOlder(c)
    ensures ChunkMatches(file, Advanced(file, c).buf, 0, c.offsetEven)
    ensures ChunkMatches(file, Advanced(file, c).buf, 2048, c.position)
  {
    ChunkReplaced(file, c.buf, 2048, c.position, Ahead(file, c), c.offsetEven);
  }

  lemma AdvancedEven(file: ImageFile, c: Cache)
    requires c.Shaped() && Window(file, c) && c.High() + 2048 <= |file| && !OddIsOlder(c)
    ensures ChunkMatches(file, Advanced(file, c).buf, 0, c.position)
    ensures ChunkMatches(file, Advanced(file, c).buf, 2048, c.offsetOdd)
  {
    ChunkReplaced(file, c.buf, 0, c.position, Ahead(file, c), c.offsetOdd);
  }

  lemma AdvancedWindow(file: ImageFile, c: Cache)
    requires c.Shaped() && Window(file, c) && c.High() + 2048 <= |file|
    ensures Window(file, Advanced(file, c))
  {
    OffsetsAdvance(file, c, Advanced(file, c).buf);
    if OddIsOlder(c) { AdvancedOdd(file, c); } else { AdvancedEven(file, c); }
  }

  /** A READ that gets less than it asks for, of whatever file: the bytes are over the older chunk and the
      file position has moved, and that is all. */
  lemma ShortRead(file: seq<byte>, size: u32, c: Cache)
    requires c.Shaped()
    ensures var older := if c.offsetEven > c.offsetOdd then c.offsetOdd else c.offsetEven;
            var at, request := if c.offsetEven > c.offsetOdd then 2048 else 0, ReadRequest(size, older);
            var bytes := FileRead(file, c.position, request);
            |bytes| <= 2048 && |bytes| != request ==>
              ReadStep(file, size, c)
              == Done(c.(buf := c.buf[..at] + bytes + c.buf[at + |bytes|..], position := c.position + |bytes|))
  {
  }

  /** READ moves the older chunk ahead of the newer one, or, at the end of the file, changes nothing. */
  lemma ReadKeeps(file: ImageFile, c: Cache)
    requires Coherent(file, c) && c.staged
    ensures var r := ReadStep(file, Size(file), c);
            r.Done? && Coherent(file, r.cache) && r.cache.staged && r.cache.resumePending == c.resumePending
            && if c.High() + 2048 <= |file| then r.cache.Low() == c.High() else r.cache == c
  {
    ReadIs(file, c);
    if c.High() + 2048 <= |file| {
      AdvancedWindow(file, c);
      OffsetsAdvance(file, c, Advanced(file, c).buf);
    }
  }

  lemma ChunkReplaced(file: ImageFile, buf: seq<byte>, at: nat, position: nat, n: nat, other: nat)
    requires |buf| == 4096 && (at == 0 || at == 2048)
    requires n <= 2048 && position + n <= |file| && (n == 2048 || position + n == |file|)
    requires ChunkMatches(file, buf, 2048 - at, other)
    ensures ChunkMatches(file, Stored(buf, at, file[position..position + n]), at, position)
    ensures ChunkMatches(file, Stored(buf, at, file[position..position + n]), 2048 - at, other)
  {
    var bytes := file[position..position + n];
    var buf' := Stored(buf, at, bytes);
    forall j | 2048 - at <= j < 4096 - at ensures buf'[j] == buf[j] {}
    forall j | at <= j < at + n ensures buf'[j] == bytes[j - at] {}
  }

  /** Where the chunk that an offset lies in begins. */
  function Base(offset: u32): u32 { offset / 2048 * 2048 }

  /** RESET, exactly: from the start of the offset's chunk the two chunks are read, and if that much of the
      file follows, the window is theirs. If not, the bytes are copied and nothing else changes. */
  lemma ResetExactly(file: ImageFile, offset: u32, c: Cache)
    requires Coherent(file, c) && c.staged && offset <= |file|
    ensures var base, c' := offset / 2048 * 2048, ResetStep(file, offset, c);
            if base + 4096 <= |file| then
              && c'.staged && c'.offsetEven == base && c'.offsetOdd == base + 2048
              && c'.bytesReadFile == c'.position == base + 4096 && !c'.resumePending
              && c'.buf == file[base..base + 4096]
            else
              && c'.staged && c'.offsetEven == c.offsetEven && c'.offsetOdd == c.offsetOdd
              && c'.bytesReadFile == c.bytesReadFile && c'.position == |file| && c'.resumePending == c.resumePending
              && c'.buf == file[base..] + c.buf[|file| - base..]
  {
    var base := offset / 2048 * 2048;
    assert base % 2048 == 0 && base <= offset < base + 2048 && AlignedDown(offset) == base;
    var bytes := FileRead(file, base, 4096);
    if base + 4096 <= |file| {
      assert Stored(c.buf, 0, bytes) == bytes;
    } else {
      assert bytes == file[base..];
      assert Stored(c.buf, 0, bytes) == file[base..] + c.buf[|file| - base..];
    }
  }

  /** RESET rebuilds the window at the aligned offset when two whole chunks follow it. */
  lemma ResetKeeps(file: ImageFile, offset: u32, c: Cache)
    requires Coherent(file, c) && c.staged
    requires Base(offset) + 4096 <= |file|
    ensures var c' := ResetStep(file, offset, c);
            Coherent(file, c') && c'.staged && c'.Low() == Base(offset) && !c'.resumePending
  {
    ResetExactly(file, offset, c);
  }

  // ---------- what a request finds ----------

  /** The window holds the packet. */
  predicate Holds(c: Cache, offset: u32, length: u16) {
    c.Low() <= offset && offset + length <= c.High() + 2048
  }

  /** Whatever the chunks hold: a packet in the window is copied from them in file order, one that starts
      below the window and reaches into it is a bad copy, any other a miss. */
  lemma FindByPlace(file: ImageFile, c: Cache, offset: u32, length: u16)
    requires c.Shaped() && Offsets(file, c) && c.staged
    requires 1 <= length <= MAX_PACKET && offset + length <= |file|
    ensures Find(Size(file), c, offset, length) ==
            if Holds(c, offset, length) then Bytes(InOrder(c)[offset - c.Low()..offset - c.Low() + length])
            else if offset < c.Low() < offset + length then Bad
            else Miss
  {
    assert U32(offset + length) == offset + length;
    assert U32(c.offsetEven + CHUNK) == c.offsetEven + 2048 && U32(c.offsetOdd + CHUNK) == c.offsetOdd + 2048;
    if Holds(c, offset, length) {
      LookupInOrder(c, offset, length);
    }
  }

  /** Every request inside the file, exactly: the file's bytes when the window holds the packet, a bad
      copy when the packet starts below the window and reaches into it, and a miss otherwise. */
  lemma FindExact(file: ImageFile, c: Cache, offset: u32, length: u16)
    requires Coherent(file, c) && c.staged
    requires 1 <= length <= MAX_PACKET && offset + length <= |file|
    ensures Find(Size(file), c, offset, length) ==
            if Holds(c, offset, length) then Bytes(file[offset..offset + length])
            else if offset < c.Low() < offset + length then Bad
            else Miss
  {
    FindByPlace(file, c, offset, length);
    if Holds(c, offset, length) {
      InOrderIsFile(file, c);
      SliceAgrees(InOrder(c), file, c.Low(), offset - c.Low(), offset - c.Low() + length);
    }
  }

  /** The two chunks in file order. */
  function InOrder(c: Cache): (w: seq<byte>)
    requires c.Shaped()
    ensures |w| == 4096
  {
    if OddIsOlder(c) then c.buf[2048..] + c.buf[..2048] else c.buf
  }

  lemma InOrderIsFile(file: ImageFile, c: Cache)
    requires Coherent(file, c) && c.staged
    ensures forall k :: 0 <= k < 4096 && c.Low() + k < |file| ==> InOrder(c)[k] == file[c.Low() + k]
  {
    forall k | 0 <= k < 4096 && c.Low() + k < |file| ensures InOrder(c)[k] == file[c.Low() + k] {
      if OddIsOlder(c) {
        var j := if k < 2048 then 2048 + k else k - 2048;
        assert InOrder(c)[k] == c.buf[j];
      }
    }
  }

  lemma SliceAgrees(w: seq<byte>, file: seq<byte>, low: nat, from: nat, to: nat)
    requires from <= to <= |w| && low + to <= |file|
    requires forall k :: 0 <= k < |w| && low + k < |file| ==> w[k] == file[low + k]
    ensures w[from..to] == file[low + from..low + to]
  {
  }

  /** A packet inside the window is copied from the chunks in file order, whichever branch serves it. */
  lemma LookupInOrder(c: Cache, offset: u32, length: u16)
    requires c.Shaped() && c.High() == c.Low() + 2048 && c.High() <= MAX_IMAGE
    requires 1 <= length <= MAX_PACKET
    requires c.Low() <= offset && offset + length <= c.High() + 2048
    ensures Lookup(c, offset, length) == Bytes(InOrder(c)[offset - c.Low()..offset - c.Low() + length])
  {
    if OddIsOlder(c) {
      LookupOddFirst(c, offset, length);
      SwappedHalves(c.buf, offset - c.Low(), offset - c.Low() + length);
    }
  }

  lemma LookupOddFirst(c: Cache, offset: u32, length: u16)
    requires c.Shaped() && OddIsOlder(c) && c.offsetEven == c.offsetOdd + 2048 && c.offsetEven <= MAX_IMAGE
    requires 1 <= length <= MAX_PACKET
    requires c.offsetOdd <= offset && offset + length <= c.offsetEven + 2048
    ensures Lookup(c, offset, length) == Bytes(FromSwapped(c.buf, offset - c.offsetOdd, offset - c.offsetOdd + length))
  {
    assert U32(offset + length) == offset + length;
    assert U32(c.offsetEven + CHUNK) == c.offsetEven + 2048 && U32(c.offsetOdd + CHUNK) == c.offsetOdd + 2048;
  }

  /** Where a slice of the swapped halves comes from: the second half, the first one, or both. */
  function FromSwapped(buf: seq<byte>, at: nat, end: nat): seq<byte>
    requires |buf| == 4096 && at <= end <= 4096
  {
    if end <= 2048 then buf[2048 + at..2048 + at + (end - at)]
    else if at >= 2048 then buf[at - 2048..at - 2048 + (end - at)]
    else buf[2048 + at..2048 + at + (2048 - at)] + buf[0..0 + (end - 2048)]
  }

  lemma SwappedHalves(buf: seq<byte>, at: nat, end: nat)
    requires |buf| == 4096 && at <= end <= 4096
    ensures (buf[2048..] + buf[..2048])[at..end] == FromSwapped(buf, at, end)
  {
    var w, r := buf[2048..] + buf[..2048], FromSwapped(buf, at, end);
    forall i | 0 <= i < end - at ensures w[at..end][i] == r[i] {
      assert w[at..end][i] == w[at + i];
      assert at + i < 2048 ==> w[at + i] == buf[2048 + at + i];
      assert at + i >= 2048 ==> w[at + i] == buf[at + i - 2048];
    }
  }

  // ---------- any request ----------

  /** A packet of no bytes is found or missed, never bad. */
  lemma EmptyPacket(c: Cache, offset: u32)
    requires c.Shaped() && c.High() == c.Low() + 2048 && c.High() <= MAX_IMAGE && offset <= MAX_IMAGE
    ensures Lookup(c, offset, 0) == Bytes([]) || Lookup(c, offset, 0) == Miss
  {
    assert U32(offset + 0) == offset;
  }

  lemma FindInside(file: ImageFile, c: Cache, offset: u32, length: u16)
    requires Coherent(file, c) && c.staged && length <= MAX_PACKET && offset + length <= |file|
    ensures match Find(Size(file), c, offset, length)
            case Bytes(data) => data == file[offset..offset + length]
            case Bad => offset < c.Low() < offset + length
            case _ => true
  {
    if length > 0 {
      FindExact(file, c, offset, length);
    } else {
      EmptyPacket(c, offset);
      assert file[offset..offset + length] == [];
    }
  }

  lemma FindSound(file: ImageFile, c: Cache, offset: u32, length: u16)
    requires Coherent(file, c) && length <= MAX_PACKET
    ensures match Find(Size(file), c, offset, length)
            case Bytes(data) => c.staged && offset + length <= |file| && data == file[offset..offset + length]
            case Bad => offset < c.Low() < offset + length
            case _ => true
  {
    if c.staged && offset <= |file| {
      assert U32(offset + length) == offset + length;
      if offset + length <= |file| {
        FindInside(file, c, offset, length);
      }
    }
  }

  lemma PastTheEnd(file: ImageFile, c: Cache, offset: u32, length: u16)
    requires length <= MAX_PACKET && offset + length > |file|
    ensures Find(Size(file), c, offset, length) == Nothing
  {
    if offset <= |file| { assert U32(offset + length) == offset + length; }
  }

  /** Two caches with the same chunks at the same offsets. */
  predicate SameChunks(c: Cache, d: Cache) {
    c.staged == d.staged && c.buf == d.buf && c.offsetEven == d.offsetEven && c.offsetOdd == d.offsetOdd
  }

  lemma SameCrossing(c: Cache, d: Cache, offset: u32, length: u16)
    requires SameChunks(c, d)
    ensures Crossing(c, offset, length) == Crossing(d, offset, length)
  {
  }

  /** The file position, the byte count and the resume flag play no part in finding a packet. */
  lemma SameFind(size: u32, c: Cache, d: Cache, offset: u32, length: u16)
    requires SameChunks(c, d)
    ensures Find(size, c, offset, length) == Find(size, d, offset, length)
  {
    SameCrossing(c, d, offset, length);
  }

  // ---------- the prefetch that takes no lock ----------

  /** A moment inside READ: a packet at `offset` asked for it, the older chunk's half of the buffer already
      holds arbitrary bytes, the offsets are the old ones, and the controller, which does not go back,
      sends another request. */
  datatype Moment = Moment(file: ImageFile, c: Cache, offset: u32, buf: seq<byte>, later: u32, length: u16)

  ghost predicate DuringFill(m: Moment, packet: u16) {
    && Coherent(m.file, m.c) && m.c.staged
    && m.offset + packet <= |m.file|
    && Find(Size(m.file), m.c, m.offset, packet).Bytes?
    && AsksForNext(Size(m.file), m.c, m.offset, packet)
    && |m.buf| == 4096
    && (forall j :: 0 <= j < 4096 && (j < 2048 <==> m.c.offsetEven > m.c.offsetOdd) ==> m.buf[j] == m.c.buf[j])
    && m.offset <= m.later && 1 <= m.length <= MAX_PACKET && m.later + m.length <= |m.file|
  }

  ghost predicate Unharmed(m: Moment) {
    match Find(Size(m.file), m.c.(buf := m.buf), m.later, m.length)
    case Bytes(data) => m.later + m.length <= |m.file| && data == m.file[m.later..m.later + m.length]
    case Bad => false
    case _ => true
  }

  /** A request that asks for the next chunk lies wholly in the newer one. */
  lemma AskerInNewerChunk(file: ImageFile, c: Cache, offset: u32, packet: u16)
    requires Coherent(file, c) && c.staged && 1 <= packet <= 129 && offset + packet <= |file|
    requires AsksForNext(Size(file), c, offset, packet)
    ensures c.High() <= offset
  {
  }

  /** What the older chunk's half of the buffer holds does not matter to a packet in the newer one. */
  lemma NewerChunkOnly(file: ImageFile, c: Cache, buf: seq<byte>, offset: u32, length: u16)
    requires Coherent(file, c) && c.staged && |buf| == 4096
    requires forall j :: 0 <= j < 4096 && (j < 2048 <==> c.offsetEven > c.offsetOdd) ==> buf[j] == c.buf[j]
    requires 1 <= length && offset + length <= |file|
    requires c.High() <= offset && offset + length <= c.High() + 2048
    ensures Lookup(c.(buf := buf), offset, length) == Bytes(file[offset..offset + length])
  {
    var at := offset - c.High() + if c.offsetEven > c.offsetOdd then 0 else 2048;
    var data := buf[at..at + length];
    assert Lookup(c.(buf := buf), offset, length) == Bytes(data);
    forall i: int | 0 <= i < length ensures data[i] == file[offset + i] {
      assert buf[at + i] == c.buf[at + i];
    }
  }

  lemma FillUnseen(m: Moment, packet: u16)
    requires 1 <= packet <= 129 && DuringFill(m, packet)
    ensures Unharmed(m)
  {
    AskerInNewerChunk(m.file, m.c, m.offset, packet);
    if m.later + m.length <= m.c.High() + 2048 {
      NewerChunkOnly(m.file, m.c, m.buf, m.later, m.length);
    }
  }

  /** Why the unlocked prefetch is safe, and how long packets may be for it: the byte count that triggers
      it puts a packet of up to 129 bytes, and no longer one, wholly inside the newer chunk. */
  lemma ThresholdExact(packet: u16)
    requires 1 <= packet <= MAX_PACKET
    ensures (forall m :: DuringFill(m, packet) ==> Unharmed(m)) <==> packet <= 129
  {
    if packet <= 129 {
      forall m | DuringFill(m, packet) ensures Unharmed(m) { FillUnseen(m, packet); }
    } else {
      var file: ImageFile := seq(8192, _ => 0);
      var c := StageStep(file, FRESH);
      StageKeeps(file, FRESH);
      var m := Moment(file, c, 2047, c.buf[2047 := 1], 2047, 1);
      FindExact(file, c, 2047, packet);
      assert DuringFill(m, packet);
      assert Find(Size(file), c.(buf := m.buf), 2047, 1) == Bytes(m.buf[2047..2048]);
      assert m.buf[2047..2048][0] == 1 && file[2047..2048][0] == 0;
      assert !Unharmed(m);
    }
  }
}
