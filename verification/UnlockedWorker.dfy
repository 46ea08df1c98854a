/** The worker copies the image into the chunks without the lock, byte by byte, while requests are
    answered and queue further messages. */
module UnlockedWorker {
  import opened Options
  import opened Words
  import opened CacheSpec
  import opened CacheProofs
  import opened CacheExposure
  import CacheRuns
  import opened Runs

  /** How far the worker is with `queue[0]`: not begun, some bytes copied, or, for a READ, the chunk's new
      offset written but not yet the byte count. */
  datatype Phase = Waiting | Copying(copied: nat) | OffsetWritten

  datatype Worker = Worker(cache: Cache, queue: seq<Message>, phase: Phase)

  datatype Move = Ask(offset: u32, length: u16) | Turn | CopyByte

  const START := Worker(FRESH, [Stage], Waiting)

  function Plain(w: Worker): CacheRuns.Session { CacheRuns.Session(w.cache, w.queue) }

  function Load(file: ImageFile, w: Worker): Incoming {
    if w.queue == [] then Incoming(0, []) else Arriving(file, w.cache, w.queue[0])
  }

  /** A READ that got all it asked for. */
  predicate Complete(file: ImageFile, w: Worker) {
    w.queue != [] && w.queue[0].ReadNext? && |Load(file, w).bytes| == ReadRequest(Size(file), w.cache.Low())
  }

  /** The cache as a request sees it. */
  function Visible(file: ImageFile, w: Worker): (c: Cache)
    requires w.cache.Shaped()
    ensures c.Shaped()
  {
    match w.phase
    case Waiting => w.cache
    case Copying(k) =>
      var load := Load(file, w);
      if load.Fits() && k <= |load.bytes| then HalfWay(w.cache, load, k) else w.cache
    case OffsetWritten =>
      match ReadStep(file, Size(file), w.cache)
      case Done(c) => c.(bytesReadFile := w.cache.bytesReadFile)
      case Fault => w.cache
  }

  /** The message is done with: the state is as its whole step leaves it. */
  function Finish(file: ImageFile, w: Worker): (r: Worker)
    requires w.cache.Shaped()
    ensures r.cache.Shaped()
  {
    var s := CacheRuns.Next(file, Plain(w), CacheRuns.Work);
    Worker(s.cache, s.queue, Waiting)
  }

  /** The worker's next turn finishes the message. */
  predicate Finishes(file: ImageFile, w: Worker) {
    w.queue != [] &&
    match w.phase
    case Waiting => w.queue[0].Stage?
    case Copying(k) => k >= |Load(file, w).bytes| && !Complete(file, w)
    case OffsetWritten => true
  }

  /** STAGE fills a buffer of its own and publishes it under the lock. READ and RESET copy byte by byte;
      then RESET publishes under the lock, READ first the chunk's offset and then the byte count. */
  function Next(file: ImageFile, w: Worker, mv: Move): (r: Worker)
    requires w.cache.Shaped()
    ensures r.cache.Shaped()
  {
    match mv
    case Ask(offset, length) =>
      var (c, asked) := Requested(Size(file), Visible(file, w), offset, length);
      w.(cache := w.cache.(resumePending := c.resumePending), queue := w.queue + asked)
    case Turn =>
      if Finishes(file, w) then Finish(file, w)
      else if w.queue != [] && w.phase.Waiting? then w.(phase := Copying(0))
      else if w.phase.Copying? && w.phase.copied >= |Load(file, w).bytes| && Complete(file, w) then
        w.(phase := OffsetWritten)
      else w
    case CopyByte =>
      if w.phase.Copying? && w.phase.copied < |Load(file, w).bytes|
      then w.(phase := Copying(w.phase.copied + 1)) else w
  }

  function Moves(file: ImageFile): (Worker, Move) -> Worker {
    (w: Worker, mv: Move) => if w.cache.Shaped() then Next(file, w, mv) else w
  }

  function After(file: ImageFile, w: Worker, moves: seq<Move>): Worker { Fold(Moves(file), w, moves) }

  // ---------- the trace of a short RESET ----------

  /** The worker, and what `CacheRuns.Trace` keeps beside a session. */
  datatype Trace = Trace(worker: Worker, clean: Cache, spilt: Option<Incoming>)

  function Traced(w: Worker): Trace { Trace(w, w.cache, None) }

  function Whole(t: Trace): CacheRuns.Trace { CacheRuns.Trace(Plain(t.worker), t.clean, t.spilt) }

  function NextTrace(file: ImageFile, t: Trace, mv: Move): (r: Trace)
    requires t.worker.cache.Shaped()
    ensures r.worker.cache.Shaped()
  {
    var w, w' := t.worker, Next(file, t.worker, mv);
    if mv.Turn? && Finishes(file, w) then
      var next := CacheRuns.NextTrace(file, Whole(t), CacheRuns.Work);
      Trace(w', next.clean, next.spilt)
    else if t.spilt.Some? then Trace(w', t.clean, t.spilt)
    else Traced(w')
  }

  // ---------- one move ----------

  /** No packet is longer than a chunk. */
  ghost predicate PacketsFit(moves: seq<Move>) {
    forall k :: 0 <= k < |moves| && moves[k].Ask? ==> moves[k].length <= MAX_PACKET
  }

  /** Bytes served are the file's, and the only bad copy is the one below the window. */
  ghost predicate Faithful(file: ImageFile, w: Worker, mv: Move)
    requires w.cache.Shaped()
  {
    mv.Ask? ==>
      match Find(Size(file), Visible(file, w), mv.offset, mv.length)
      case Bytes(data) => mv.offset + mv.length <= |file| && data == file[mv.offset..mv.offset + mv.length]
      case Bad => mv.offset < Visible(file, w).Low() < mv.offset + mv.length
      case _ => true
  }

  /** The request is for a packet that shows other bytes than the file's: the worker is copying over it,
      or a short RESET has. */
  ghost predicate CopiedOver(file: ImageFile, t: Trace, mv: Move)
    requires t.worker.cache.Shaped()
  {
    var w := t.worker;
    mv.Ask? && w.cache.staged && mv.offset + mv.length <= |file| &&
    match t.spilt
    case None =>
      w.phase.Copying? && w.phase.copied <= |Load(file, w).bytes|
      && Exposed(file, w.cache, Load(file, w), w.phase.copied, mv.offset, mv.length)
    case Some(load) =>
      Exposed(file, CacheRuns.WithOffsets(t.clean, Visible(file, w)), load, |load.bytes|, mv.offset, mv.length)
  }

  ghost predicate Steady(file: ImageFile, t: Trace) {
    var w := t.worker;
    && CacheRuns.Sound(file, Whole(t))
    && (!w.phase.Waiting? ==> w.cache.staged && w.queue != [])
    && (w.phase.Copying? ==> w.phase.copied <= |Load(file, w).bytes|)
    && (w.phase.OffsetWritten? ==> Complete(file, w))
  }

  /** Before any RESET has come up short: what is visible keeps the offsets of a window, and, but for what
      is being copied, the file's bytes. */
  lemma VisibleClean(file: ImageFile, t: Trace)
    requires Steady(file, t) && t.spilt.None?
    ensures var w := t.worker;
            var v := Visible(file, w);
            if w.phase.Copying? then Load(file, w).Fits() && v == HalfWay(w.cache, Load(file, w), w.phase.copied)
            else exists c: Cache :: Coherent(file, c) && SameChunks(v, c) && c.staged == w.cache.staged
  {
    var w, v := t.worker, Visible(file, t.worker);
    match w.phase
    case Waiting => assert SameChunks(v, w.cache);
    case Copying(k) =>
      assert w.queue[0] in w.queue;
      AllCopied(file, w.cache, w.queue[0]);
    case OffsetWritten =>
      ReadKeeps(file, w.cache);
      assert SameChunks(v, ReadStep(file, Size(file), w.cache).cache);
  }

  /** After a short RESET there is nothing to copy: its bytes stay over the clean window, wherever that is. */
  lemma VisibleSpilt(file: ImageFile, t: Trace)
    requires Steady(file, t) && t.spilt.Some?
    ensures var v, load := Visible(file, t.worker), t.spilt.value;
            var clean := CacheRuns.WithOffsets(t.clean, v);
            Coherent(file, clean) && clean.staged && load.Fits() && SameChunks(v, HalfWay(clean, load, |load.bytes|))
  {
    var w, v, load := t.worker, Visible(file, t.worker), t.spilt.value;
    match w.phase
    case Waiting => assert CacheRuns.WithOffsets(t.clean, v) == t.clean;
    case Copying(k) =>
      assert w.queue[0] in w.queue;
      assert Load(file, w).bytes == [];
      CopiedNothing(w.cache, Load(file, w));
      assert CacheRuns.WithOffsets(t.clean, v) == t.clean;
    case OffsetWritten =>
      CacheRuns.SpiltRead(file, w.cache, t.clean, load);
      var c := ReadStep(file, Size(file), w.cache).cache;
      assert CacheRuns.WithOffsets(t.clean, v) == CacheRuns.WithOffsets(t.clean, c);
  }

  lemma CopiedNothing(c: Cache, load: Incoming)
    requires c.Shaped() && load.bytes == [] && load.Fits()
    ensures HalfWay(c, load, 0) == c
  {
    assert Stored(c.buf, load.at, []) == c.buf;
  }

  lemma VisibleFlags(file: ImageFile, t: Trace)
    requires Steady(file, t)
    ensures Visible(file, t.worker).staged == t.worker.cache.staged
    ensures Visible(file, t.worker).resumePending == t.worker.cache.resumePending
  {
    if t.spilt.None? { VisibleClean(file, t); } else { VisibleSpilt(file, t); }
  }

  /** A reply is faithful exactly if its packet is not copied over. */
  lemma FaithfulExactly(file: ImageFile, t: Trace, mv: Move)
    requires Steady(file, t) && (mv.Ask? ==> mv.length <= MAX_PACKET)
    ensures Faithful(file, t.worker, mv) <==> !CopiedOver(file, t, mv)
  {
    if mv.Ask? {
      if mv.offset + mv.length > |file| {
        PastTheEnd(file, Visible(file, t.worker), mv.offset, mv.length);
      } else if t.spilt.Some? {
        SpiltExactly(file, t, mv.offset, mv.length);
      } else {
        CleanExactly(file, t, mv.offset, mv.length);
      }
    }
  }

  lemma SpiltExactly(file: ImageFile, t: Trace, offset: u32, length: u16)
    requires Steady(file, t) && t.spilt.Some? && length <= MAX_PACKET && offset + length <= |file|
    ensures Faithful(file, t.worker, Ask(offset, length)) <==> !CopiedOver(file, t, Ask(offset, length))
  {
    VisibleSpilt(file, t);
    var v, load := Visible(file, t.worker), t.spilt.value;
    var clean := CacheRuns.WithOffsets(t.clean, v);
    SameFind(Size(file), v, HalfWay(clean, load, |load.bytes|), offset, length);
    HalfWayReply(file, clean, load, |load.bytes|, offset, length);
  }

  lemma CleanExactly(file: ImageFile, t: Trace, offset: u32, length: u16)
    requires Steady(file, t) && t.spilt.None? && length <= MAX_PACKET && offset + length <= |file|
    ensures Faithful(file, t.worker, Ask(offset, length)) <==> !CopiedOver(file, t, Ask(offset, length))
  {
    VisibleClean(file, t);
    var w, v := t.worker, Visible(file, t.worker);
    if w.phase.Copying? {
      HalfWayReply(file, w.cache, Load(file, w), w.phase.copied, offset, length);
    } else {
      var c: Cache :| Coherent(file, c) && SameChunks(v, c) && c.staged == w.cache.staged;
      SameFind(Size(file), v, c, offset, length);
      FindSound(file, c, offset, length);
    }
  }

  lemma AskedFor(size: u32, c: Cache, offset: u32, length: u16)
    ensures forall m :: m in Requested(size, c, offset, length).1 ==>
              c.staged && !m.Stage? && (c.resumePending ==> m.ReadNext?)
    ensures c.resumePending ==> Requested(size, c, offset, length).0.resumePending
  {
  }

  lemma AskKeeps(file: ImageFile, t: Trace, offset: u32, length: u16)
    requires Steady(file, t)
    ensures Steady(file, NextTrace(file, t, Ask(offset, length)))
  {
    VisibleFlags(file, t);
    var w, v := t.worker, Visible(file, t.worker);
    var asked := Requested(Size(file), v, offset, length).1;
    CacheRuns.OneResetAsked(Plain(w), Size(file), v, offset, length);
    AskedFor(Size(file), v, offset, length);
    var w' := Next(file, w, Ask(offset, length));
    assert forall m :: m in w'.queue ==> m in w.queue || m in asked;
    assert w.queue != [] ==> w'.queue[0] == w.queue[0];
  }

  lemma TurnKeeps(file: ImageFile, t: Trace)
    requires Steady(file, t)
    ensures Steady(file, NextTrace(file, t, Turn))
  {
    if Finishes(file, t.worker) { CacheRuns.WorkKeeps(file, Whole(t)); }
  }

  lemma MoveKeeps(file: ImageFile, t: Trace, mv: Move)
    requires Steady(file, t)
    ensures Steady(file, NextTrace(file, t, mv))
  {
    match mv
    case Ask(offset, length) => AskKeeps(file, t, offset, length);
    case Turn => TurnKeeps(file, t);
    case CopyByte =>
  }

  // ---------- every run ----------

  ghost predicate FaithfulRun(file: ImageFile, w: Worker, moves: seq<Move>)
    requires w.cache.Shaped()
    decreases |moves|
  {
    moves == [] || (Faithful(file, w, moves[0]) && FaithfulRun(file, Next(file, w, moves[0]), moves[1..]))
  }

  ghost predicate NeverCopiedOver(file: ImageFile, t: Trace, moves: seq<Move>)
    requires t.worker.cache.Shaped()
    decreases |moves|
  {
    moves == [] || (!CopiedOver(file, t, moves[0]) && NeverCopiedOver(file, NextTrace(file, t, moves[0]), moves[1..]))
  }

  lemma {:induction false} SteadyRunExactly(file: ImageFile, t: Trace, moves: seq<Move>)
    requires Steady(file, t) && PacketsFit(moves)
    ensures FaithfulRun(file, t.worker, moves) <==> NeverCopiedOver(file, t, moves)
    decreases |moves|
  {
    if moves != [] {
      FaithfulExactly(file, t, moves[0]);
      MoveKeeps(file, t, moves[0]);
      assert forall k :: 0 <= k < |moves[1..]| ==> moves[1..][k] == moves[k + 1];
      SteadyRunExactly(file, NextTrace(file, t, moves[0]), moves[1..]);
    }
  }

  /** The copying takes no lock: over every interleaving of requests, which may resume anywhere and queue
      any number of READs and RESETs, with the worker's turns and the bytes it copies, all replies are
      faithful exactly if no request is for a packet that is being copied over or that a RESET coming up
      short has copied over. */
  lemma {:induction false} UnlockedRepliesExactly(file: ImageFile, moves: seq<Move>)
    requires PacketsFit(moves)
    ensures FaithfulRun(file, START, moves) <==> NeverCopiedOver(file, Traced(START), moves)
  {
    SteadyRunExactly(file, Traced(START), moves);
  }

  // ---------- a careful controller ----------

  /** While a READ copies, the request starts in the newer chunk or later; while a RESET copies, it reaches
      outside the old window. */
  ghost predicate KeepsOff(w: Worker, mv: Move) {
    mv.Ask? && w.phase.Copying? && w.queue != [] ==>
      if w.queue[0].ReadNext? then mv.offset >= w.cache.High() else !Holds(w.cache, mv.offset, mv.length)
  }

  /** And it does not resume in the last two chunks' worth. */
  ghost predicate Careful(file: ImageFile, w: Worker, mv: Move)
    requires w.cache.Shaped()
  {
    && KeepsOff(w, mv)
    && (mv.Ask? ==>
          forall m :: m in Requested(Size(file), Visible(file, w), mv.offset, mv.length).1 ==>
            !CacheRuns.ComesUpShort(file, m))
  }

  /** Why the prefetch needs no lock: a request that starts no lower than one of at most 129 bytes that
      asks for a READ in the present window keeps off what that READ copies over. */
  lemma PrefetchKeepsOff(file: ImageFile, w: Worker, asker: u32, packet: u16, mv: Move)
    requires Coherent(file, w.cache) && w.cache.staged && w.queue != [] && w.queue[0].ReadNext?
    requires 1 <= packet <= 129 && asker + packet <= |file| && AsksForNext(Size(file), w.cache, asker, packet)
    requires mv.Ask? ==> asker <= mv.offset
    ensures KeepsOff(w, mv)
  {
    AskerInNewerChunk(file, w.cache, asker, packet);
  }

  ghost predicate CarefulRun(file: ImageFile, w: Worker, moves: seq<Move>)
    requires w.cache.Shaped()
    decreases |moves|
  {
    moves == [] || (Careful(file, w, moves[0]) && CarefulRun(file, Next(file, w, moves[0]), moves[1..]))
  }

  ghost predicate Roomy(file: ImageFile, t: Trace) {
    t.spilt.None? && forall m :: m in t.worker.queue ==> !CacheRuns.ComesUpShort(file, m)
  }

  lemma CarefulIsUnexposed(file: ImageFile, t: Trace, mv: Move)
    requires Steady(file, t) && Roomy(file, t) && Careful(file, t.worker, mv) && (mv.Ask? ==> mv.length <= MAX_PACKET)
    ensures !CopiedOver(file, t, mv) && Roomy(file, NextTrace(file, t, mv))
  {
    var w, w' := t.worker, Next(file, t.worker, mv);
    assert forall m :: m in w'.queue ==> m in w.queue || mv.Ask?;
    if CopiedOver(file, t, mv) && w.queue[0].ReadNext? {
      RequestIsAhead(file, w.cache);
      if mv.length > 0 { ReadExposes(file, w.cache, w.phase.copied, mv.offset, mv.length); }
    }
  }

  lemma {:induction false} CarefulRunUnexposed(file: ImageFile, t: Trace, moves: seq<Move>)
    requires Steady(file, t) && Roomy(file, t) && PacketsFit(moves) && CarefulRun(file, t.worker, moves)
    ensures NeverCopiedOver(file, t, moves)
    decreases |moves|
  {
    if moves != [] {
      CarefulIsUnexposed(file, t, moves[0]);
      MoveKeeps(file, t, moves[0]);
      assert forall k :: 0 <= k < |moves[1..]| ==> moves[1..][k] == moves[k + 1];
      CarefulRunUnexposed(file, NextTrace(file, t, moves[0]), moves[1..]);
    }
  }

  /** A careful controller is never served a byte that is not the file's, however many READs and RESETs
      it has queued. */
  lemma {:induction false} UnlockedCopyUnseen(file: ImageFile, moves: seq<Move>)
    requires PacketsFit(moves) && CarefulRun(file, START, moves)
    ensures FaithfulRun(file, START, moves)
  {
    CarefulRunUnexposed(file, Traced(START), moves);
    UnlockedRepliesExactly(file, moves);
  }

  // ---------- two READs for one packet ----------

  function Copies(n: nat): seq<Move> { seq(n, _ => CopyByte) }

  lemma {:induction false} RunCopies(file: ImageFile, w: Worker, n: nat)
    requires w.cache.Shaped() && w.phase.Copying? && w.phase.copied + n <= |Load(file, w).bytes|
    ensures After(file, w, Copies(n)) == w.(phase := Copying(w.phase.copied + n))
    decreases n
  {
    if n > 0 {
      assert Copies(n)[1..] == Copies(n - 1);
      RunCopies(file, Next(file, w, CopyByte), n - 1);
    }
  }

  /** A packet asked for twice just behind the first chunk queues two READs; the worker does the first and
      begins with the second. */
  function TwoReads(): seq<Move> {
    [Turn, Ask(2048, 129), Ask(2048, 129), Turn] + Copies(2048) + [Turn, Turn, Turn, CopyByte]
  }

  /** The first READ of the run, up to its last byte. */
  lemma FirstRead(file: ImageFile)
    requires |file| > 6144
    ensures var c := StageStep(file, FRESH);
            After(file, START, [Turn, Ask(2048, 129), Ask(2048, 129), Turn] + Copies(2048))
            == Worker(c, [ReadNext, ReadNext], Copying(2048))
    ensures Coherent(file, StageStep(file, FRESH))
    ensures |Arriving(file, StageStep(file, FRESH), ReadNext).bytes| == 2048
  {
    var c := StageStep(file, FRESH);
    StageKeeps(file, FRESH);
    RequestIsAhead(file, c);
    FindExact(file, c, 2048, 129);
    var asked := Worker(c, [ReadNext, ReadNext], Waiting);
    var opening := [Turn, Ask(2048, 129), Ask(2048, 129), Turn];
    assert Next(file, START, Turn) == Worker(c, [], Waiting);
    assert Next(file, Worker(c, [], Waiting), Ask(2048, 129)) == Worker(c, [ReadNext], Waiting);
    assert Next(file, Worker(c, [ReadNext], Waiting), Ask(2048, 129)) == asked;
    FoldFour(Moves(file), START, Turn, Ask(2048, 129), Ask(2048, 129), Turn);
    FoldAppend(Moves(file), START, opening, Copies(2048));
    RunCopies(file, asked.(phase := Copying(0)), 2048);
  }

  /** The end of a READ and the first byte of the next one. */
  lemma SecondBegins(file: ImageFile, w: Worker)
    requires w.cache.Shaped() && w.queue == [ReadNext, ReadNext] && Complete(file, w)
    requires w.phase == Copying(|Load(file, w).bytes|) && ReadStep(file, Size(file), w.cache).Done?
    requires ReadStep(file, Size(file), w.cache).cache.Shaped()
    requires |Arriving(file, ReadStep(file, Size(file), w.cache).cache, ReadNext).bytes| > 0
    ensures After(file, w, [Turn, Turn, Turn, CopyByte])
         == Worker(ReadStep(file, Size(file), w.cache).cache, [ReadNext], Copying(1))
  {
    var c := ReadStep(file, Size(file), w.cache).cache;
    var w1 := w.(phase := OffsetWritten);
    var w2 := Worker(c, [ReadNext], Waiting);
    assert Next(file, w, Turn) == w1;
    assert Next(file, w1, Turn) == w2;
    assert Next(file, w2, Turn) == w2.(phase := Copying(0));
    assert Next(file, w2.(phase := Copying(0)), CopyByte) == w2.(phase := Copying(1));
    FoldFour(Moves(file), w, Turn, Turn, Turn, CopyByte);
  }

  /** What the second READ copies first, and which packet shows it. */
  lemma SecondReadShows(file: ImageFile)
    requires |file| > 6144 && Coherent(file, StageStep(file, FRESH))
    ensures var r := ReadStep(file, Size(file), StageStep(file, FRESH));
            r.Done? && r.cache.Shaped() && |Arriving(file, r.cache, ReadNext).bytes| > 0
            && Arriving(file, r.cache, ReadNext).Fits()
            && Find(Size(file), HalfWay(r.cache, Arriving(file, r.cache, ReadNext), 1), 2048, 1) == Bytes([file[6144]])
  {
    var c := StageStep(file, FRESH);
    ReadKeeps(file, c);
    var c1 := ReadStep(file, Size(file), c).cache;
    RequestIsAhead(file, c1);
    var load := Arriving(file, c1, ReadNext);
    FindHalfWay(file, c1, load, 1, 2048, 1);
    assert IndexOf(c1, 2048) == load.at && load.bytes[0] == file[6144];
    assert ShownPacket(file, c1, load, 1, 2048, 1) == [file[6144]];
  }

  /** After that run the packet's first byte comes from two chunks on in the file. */
  lemma SecondReadExposed(file: ImageFile)
    requires |file| > 6144
    ensures var w := After(file, START, TwoReads());
            w.cache.Shaped() && Find(Size(file), Visible(file, w), 2048, 1) == Bytes([file[6144]])
  {
    FirstRead(file);
    SecondReadShows(file);
    RequestIsAhead(file, StageStep(file, FRESH));
    SecondBegins(file, Worker(StageStep(file, FRESH), [ReadNext, ReadNext], Copying(2048)));
    FoldAppend(Moves(file), START, [Turn, Ask(2048, 129), Ask(2048, 129), Turn] + Copies(2048),
               [Turn, Turn, Turn, CopyByte]);
  }
}
