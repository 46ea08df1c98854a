/** The double-buffered image cache as functions: what STAGE, READ and RESET do to the two chunks, and
    what a data request finds in them. All offsets are 32-bit. */
module CacheSpec {
  import opened Words

  type byte = bv8

  const CHUNK: u32 := 2048
  /** The next chunk is requested once a packet ends less than this before the end of what was read. */
  const THRESHOLD: u32 := 1920

  /** A session's view of the open image file and the 4096-byte buffer; the even chunk is its first half. */
  datatype Cache = Cache(
    staged: bool, buf: seq<byte>, offsetEven: u32, offsetOdd: u32,
    bytesReadFile: u32, position: nat, resumePending: bool)
  {
    predicate Shaped() { |buf| == 4096 }
    function Low(): u32 { if offsetEven <= offsetOdd then offsetEven else offsetOdd }
    function High(): u32 { if offsetEven <= offsetOdd then offsetOdd else offsetEven }
  }

  const FRESH := Cache(false, seq(4096, _ => 0), 0, 0, 0, 0, false)

  /** `Fault` stands for what C leaves undefined: copying from or to memory outside the buffer. */
  datatype Outcome = Done(cache: Cache) | Fault

  // ---------- the file ----------

  /** What `fread` of n bytes at a file position returns: less at the end of the file. */
  function FileRead(file: seq<byte>, position: nat, n: nat): (bytes: seq<byte>)
    ensures |bytes| <= n && position + |bytes| <= |file| + position
  {
    if position >= |file| then []
    else if position + n <= |file| then file[position..position + n]
    else file[position..]
  }

  /** The buffer after `bytes` were stored from index `at` on. */
  function Stored(buf: seq<byte>, at: nat, bytes: seq<byte>): (r: seq<byte>)
    requires at + |bytes| <= |buf|
    ensures |r| == |buf|
  {
    buf[..at] + bytes + buf[at + |bytes|..]
  }

  // ---------- the worker's messages ----------

  datatype Message = Stage | ReadNext | Reset(offset: u32)

  /** STAGE: the first two chunks, unless the file is shorter than that. */
  function StageStep(file: seq<byte>, c: Cache): Cache
    requires c.Shaped()
  {
    var bytes := FileRead(file, 0, 4096);
    if |bytes| != 4096 then c.(position := |bytes|)
    else Cache(true, bytes, 0, CHUNK, 4096, 4096, c.resumePending)
  }

  /** How much READ asks the file for: a chunk, or, near the end, what the image size says is left. */
  function ReadRequest(size: u32, older: u32): u32 {
    if U32(older + 3 * CHUNK) >= size then U32(size - U32(older + 2 * CHUNK)) else CHUNK
  }

  /** The first half of READ, over the older chunk: the odd one or the even one. */
  function Filled(c: Cache, odd: bool, bytes: seq<byte>): Cache
    requires c.Shaped() && |bytes| <= 2048
  {
    c.(buf := Stored(c.buf, if odd then 2048 else 0, bytes), position := c.position + |bytes|)
  }

  /** The second half of READ: the new chunk's offset becomes visible. */
  function Published(c: Cache, odd: bool, n: nat): Cache {
    c.(offsetEven := if odd then c.offsetEven else U32(c.offsetEven + 2 * CHUNK),
       offsetOdd := if odd then U32(c.offsetOdd + 2 * CHUNK) else c.offsetOdd,
       bytesReadFile := U32(c.bytesReadFile + n))
  }

  /** READ: the chunk after the newer one replaces the older one. */
  function ReadStep(file: seq<byte>, size: u32, c: Cache): Outcome
    requires c.Shaped()
  {
    var odd := c.offsetEven > c.offsetOdd;
    var request := ReadRequest(size, if odd then c.offsetOdd else c.offsetEven);
    var bytes := FileRead(file, c.position, request);
    if |bytes| > 2048 then Fault
    else if |bytes| != request then Done(Filled(c, odd, bytes))
    else Done(Published(Filled(c, odd, bytes), odd, |bytes|))
  }

  function AlignedDown(offset: u32): u32 { offset - offset % 2048 }

  /** RESET: two chunks from the aligned offset. A short read still overwrites the buffer. */
  function ResetStep(file: seq<byte>, offset: u32, c: Cache): Cache
    requires c.Shaped()
  {
    var base := AlignedDown(offset);
    var bytes := FileRead(file, base, 4096);
    var filled := c.(buf := Stored(c.buf, 0, bytes), position := base + |bytes|);
    if |bytes| != 4096 then filled
    else filled.(offsetEven := base, offsetOdd := U32(base + CHUNK), bytesReadFile := U32(base + 2 * CHUNK),
                 resumePending := false)
  }

  function WorkerStep(file: seq<byte>, size: u32, c: Cache, m: Message): Outcome
    requires c.Shaped()
  {
    match m
    case Stage => Done(StageStep(file, c))
    case ReadNext => ReadStep(file, size, c)
    case Reset(offset) => Done(ResetStep(file, offset, c))
  }

  // ---------- the data request ----------

  /** `Nothing` and `Miss` both answer with zero bytes; a miss asks the worker to seek. */
  datatype Reply = Nothing | Miss | Bytes(data: seq<byte>) | Bad

  /** A copy of n bytes from a buffer index that C computes without checking it. */
  function Copy(buf: seq<byte>, at: int, n: int): Reply {
    if 0 <= at && 0 <= n && at + n <= |buf| then Bytes(buf[at..at + n]) else Bad
  }

  /** The four branches that look a packet up in the chunks. */
  function Lookup(c: Cache, offset: u32, length: u16): Reply {
    var end := U32(offset + length);
    if offset >= c.offsetEven && end <= U32(c.offsetEven + CHUNK) then
      Copy(c.buf, U32(offset - c.offsetEven), length)
    else if offset >= c.offsetOdd && end <= U32(c.offsetOdd + CHUNK) then
      Copy(c.buf, 2048 + U32(offset - c.offsetOdd), length)
    else if c.offsetOdd > c.offsetEven && offset < c.offsetOdd && end > c.offsetEven then
      Copy(c.buf, U32(offset - c.offsetEven), length)
    else if c.offsetEven > c.offsetOdd && offset < c.offsetEven && end > c.offsetOdd then
      Crossing(c, offset, length)
    else Miss
  }

  function Crossing(c: Cache, offset: u32, length: u16): Reply {
    CrossingAt(c.buf, c.offsetEven, c.offsetOdd, offset, length)
  }

  /** The end of the odd chunk, then the start of the even one: two copies into the packet. */
  function CrossingAt(buf: seq<byte>, offsetEven: u32, offsetOdd: u32, offset: u32, length: u16): Reply {
    var lengthOdd := U16(offsetEven - offset);
    Joined(Copy(buf, 2048 + U32(offset - offsetOdd), lengthOdd), Copy(buf, 0, U16(length - lengthOdd)),
           lengthOdd <= length)
  }

  function Joined(odd: Reply, even: Reply, fits: bool): Reply {
    if odd.Bytes? && even.Bytes? && fits then Bytes(odd.data + even.data) else Bad
  }

  /** The packet that was asked for, nothing at all, or a miss. */
  function Find(size: u32, c: Cache, offset: u32, length: u16): Reply {
    if offset > size || U32(offset + length) > size || !c.staged then Nothing else Lookup(c, offset, length)
  }

  /** A served packet close to the end of what was read asks for the next chunk. */
  predicate AsksForNext(size: u32, c: Cache, offset: u32, length: u16) {
    U32(U32(offset + length) + THRESHOLD) > c.bytesReadFile && c.bytesReadFile < size
  }

  /** The session after a request, and the message it queued. */
  function Requested(size: u32, c: Cache, offset: u32, length: u16): (Cache, seq<Message>) {
    match Find(size, c, offset, length)
    case Miss => if c.resumePending then (c, []) else (c.(resumePending := true), [Reset(offset)])
    case Bytes(_) => (c, if AsksForNext(size, c, offset, length) then [ReadNext] else [])
    case _ => (c, [])
  }
}
