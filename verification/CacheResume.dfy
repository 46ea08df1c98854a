/** A controller that asks for a packet outside the window, and asks again once the worker has caught up. */
module CacheResume {
  import opened Words
  import opened CacheSpec
  import opened CacheProofs
  import opened CacheExposure
  import opened CacheRuns
  import opened Runs

  /** The worker processes n messages. */
  ghost function Worked(file: ImageFile, s: Session, n: nat): (r: Session)
    requires s.cache.Shaped()
    ensures r.cache.Shaped()
    decreases n
  {
    if n == 0 then s else Worked(file, Next(file, s, Work), n - 1)
  }

  // ---------- the READs ahead of it ----------

  /** How many of n READs find a chunk to go on to. */
  function Advances(file: ImageFile, c: Cache, n: nat): nat {
    var chunks := if c.High() <= |file| then (|file| - c.High()) / 2048 else 0;
    if n <= chunks then n else chunks
  }

  lemma AdvanceOne(file: ImageFile, c: Cache, c': Cache, n: nat)
    requires n > 0 && Offsets(file, c) && Offsets(file, c')
    requires if c.High() + 2048 <= |file| then c'.Low() == c.High() else c' == c
    ensures c.Low() + 2048 * Advances(file, c, n) == c'.Low() + 2048 * Advances(file, c', n - 1)
  {
  }

  lemma {:induction false} ReadsAdvance(file: ImageFile, s: Session, n: nat)
    requires Coherent(file, s.cache) && s.cache.staged && n <= |s.queue|
    requires forall k :: 0 <= k < n ==> s.queue[k].ReadNext?
    ensures var s' := Worked(file, s, n);
            && Coherent(file, s'.cache) && s'.cache.staged && s'.cache.resumePending == s.cache.resumePending
            && s'.queue == s.queue[n..]
            && s'.cache.Low() == s.cache.Low() + 2048 * Advances(file, s.cache, n)
    decreases n
  {
    if n > 0 {
      ReadKeeps(file, s.cache);
      var s1 := Next(file, s, Work);
      assert s1.queue == s.queue[1..] && s.queue[n..] == s1.queue[n - 1..];
      AdvanceOne(file, s.cache, s1.cache, n);
      ReadsAdvance(file, s1, n - 1);
    }
  }

  // ---------- asking again ----------

  /** A RESET that cannot read two chunks is one that never publishes. */
  lemma ShortResetIsHalfWay(file: ImageFile, offset: u32, c: Cache, asked: u32, length: u16)
    requires Coherent(file, c) && c.staged && |file| < Base(offset) + 4096
    ensures var load := Arriving(file, c, Message.Reset(offset));
            load.Fits()
            && Find(Size(file), ResetStep(file, offset, c), asked, length)
               == Find(Size(file), HalfWay(c, load, |load.bytes|), asked, length)
  {
    var load := Arriving(file, c, Message.Reset(offset));
    assert load.bytes[..|load.bytes|] == load.bytes;
    SameFind(Size(file), ResetStep(file, offset, c), HalfWay(c, load, |load.bytes|), asked, length);
  }

  /** What asking again gets, given the cache the READs ahead of the RESET leave. */
  ghost function Retried(file: ImageFile, c: Cache, offset: u32, length: u16): Reply
    requires offset + length <= |file|
  {
    var load := Arriving(file, c, Message.Reset(offset));
    if Base(offset) + 4096 <= |file| then Bytes(file[offset..offset + length])
    else if Holds(c, offset, length) then Bytes(ShownPacket(file, c, load, |load.bytes|, offset, length))
    else if offset < c.Low() < offset + length then Bad
    else Miss
  }

  lemma ResetRetried(file: ImageFile, c: Cache, offset: u32, length: u16)
    requires Coherent(file, c) && c.staged && 1 <= length <= MAX_PACKET && offset + length <= |file|
    ensures Find(Size(file), ResetStep(file, offset, c), offset, length) == Retried(file, c, offset, length)
    ensures Retried(file, c, offset, length) == Miss ==> ResetStep(file, offset, c).resumePending == c.resumePending
  {
    if Base(offset) + 4096 <= |file| {
      ResetKeeps(file, offset, c);
      FindExact(file, ResetStep(file, offset, c), offset, length);
    } else {
      ShortResetIsHalfWay(file, offset, c, offset, length);
      var load := Arriving(file, c, Message.Reset(offset));
      FindHalfWay(file, c, load, |load.bytes|, offset, length);
    }
  }

  lemma RetriedRight(file: ImageFile, c: Cache, offset: u32, length: u16)
    requires Coherent(file, c) && c.staged && 1 <= length <= MAX_PACKET && offset + length <= |file|
    ensures var load := Arriving(file, c, Message.Reset(offset));
            Retried(file, c, offset, length) == Bytes(file[offset..offset + length])
            <==> Base(offset) + 4096 <= |file|
                 || (Holds(c, offset, length) && !Exposed(file, c, load, |load.bytes|, offset, length))
  {
    var load := Arriving(file, c, Message.Reset(offset));
    ShownIsFile(file, c, load, |load.bytes|, offset, length);
  }

  lemma {:induction false} WorkedOneMore(file: ImageFile, s: Session, n: nat)
    requires s.cache.Shaped()
    ensures Worked(file, s, n + 1) == Next(file, Worked(file, s, n), Work)
    decreases n
  {
    if n > 0 { WorkedOneMore(file, Next(file, s, Work), n - 1); }
  }

  /** A missed request, with no RESET pending, queues one behind what is queued. */
  lemma MissAsks(file: ImageFile, s: Session, offset: u32, length: u16)
    requires s.cache.Shaped() && !s.cache.resumePending && Find(Size(file), s.cache, offset, length) == Miss
    ensures Next(file, s, Request(offset, length))
         == Session(s.cache.(resumePending := true), s.queue + [Message.Reset(offset)])
  {
  }

  lemma ResetAlone(file: ImageFile, c: Cache, offset: u32)
    requires c.Shaped()
    ensures Next(file, Session(c, [Message.Reset(offset)]), Work) == Session(ResetStep(file, offset, c), [])
  {
  }

  /** The worker doing READs and the RESET behind them. */
  lemma ResetDone(file: ImageFile, c: Cache, ahead: seq<Message>, offset: u32)
    requires Coherent(file, c) && c.staged && forall k :: 0 <= k < |ahead| ==> ahead[k].ReadNext?
    ensures var s := Session(c, ahead + [Message.Reset(offset)]);
            var read := Worked(file, s, |ahead|).cache;
            && Coherent(file, read) && read.staged && read.resumePending == c.resumePending
            && read.Low() == c.Low() + 2048 * Advances(file, c, |ahead|)
            && Worked(file, s, |ahead| + 1) == Session(ResetStep(file, offset, read), [])
  {
    var n, s := |ahead|, Session(c, ahead + [Message.Reset(offset)]);
    assert forall k :: 0 <= k < n ==> s.queue[k] == ahead[k];
    ReadsAdvance(file, s, n);
    var read := Worked(file, s, n);
    assert read == Session(read.cache, [Message.Reset(offset)]);
    WorkedOneMore(file, s, n);
    ResetAlone(file, read.cache, offset);
  }

  lemma MissedForGood(file: ImageFile, c: Cache, offset: u32, length: u16)
    requires c.Shaped() && c.resumePending && Find(Size(file), c, offset, length) == Miss
    ensures Next(file, Session(c, []), Request(offset, length)) == Session(c, [])
  {
  }

  /** The reply to the repeated request, given the cache the READs left and the session after the RESET:
      it is as `Retried` says, the file's bytes exactly if two whole chunks follow or the window holds the
      packet and shows it unexposed, and a miss changes nothing any more. */
  ghost predicate RepliedAsTold(file: ImageFile, read: Cache, e: Session, offset: u32, length: u16)
    requires e.cache.Shaped() && offset + length <= |file|
  {
    var reply, load := Find(Size(file), e.cache, offset, length), Arriving(file, read, Message.Reset(offset));
    && reply == Retried(file, read, offset, length)
    && (reply == Bytes(file[offset..offset + length])
        <==> Base(offset) + 4096 <= |file|
             || (Holds(read, offset, length) && !Exposed(file, read, load, |load.bytes|, offset, length)))
    && (reply == Miss ==> Next(file, e, Request(offset, length)) == e)
  }

  lemma RetryReplied(file: ImageFile, read: Cache, offset: u32, length: u16)
    requires Coherent(file, read) && read.staged && read.resumePending
    requires 1 <= length <= MAX_PACKET && offset + length <= |file|
    ensures RepliedAsTold(file, read, Session(ResetStep(file, offset, read), []), offset, length)
  {
    ResetRetried(file, read, offset, length);
    RetriedRight(file, read, offset, length);
    var c := ResetStep(file, offset, read);
    if Find(Size(file), c, offset, length) == Miss { MissedForGood(file, c, offset, length); }
  }

  /** A session with READs and then a RESET in its queue, as a miss leaves it (`MissAsks`): the reply to
      the request once the worker has done them all. If two whole chunks follow its aligned offset it is
      served right. If not, all depends on the window the READs have moved on: one that holds the packet
      serves it from the overwritten chunks, the file's bytes exactly if it is not exposed; otherwise it is
      missed again, or bad at the lower edge, and a miss asks for no further RESET. */
  lemma RetryServedExactly(file: ImageFile, c: Cache, ahead: seq<Message>, offset: u32, length: u16)
    returns (read: Cache, e: Session)
    requires Coherent(file, c) && c.staged && c.resumePending && forall k :: 0 <= k < |ahead| ==> ahead[k].ReadNext?
    requires 1 <= length <= MAX_PACKET && offset + length <= |file|
    ensures var s := Session(c, ahead + [Message.Reset(offset)]);
            read == Worked(file, s, |ahead|).cache && e == Worked(file, s, |ahead| + 1)
    ensures read.Low() == c.Low() + 2048 * Advances(file, c, |ahead|) && e.queue == []
    ensures RepliedAsTold(file, read, e, offset, length)
  {
    var s := Session(c, ahead + [Message.Reset(offset)]);
    ResetDone(file, c, ahead, offset);
    read, e := Worked(file, s, |ahead|).cache, Worked(file, s, |ahead| + 1);
    RetryReplied(file, read, offset, length);
  }

  // ---------- short RESETs ----------

  /** A RESET that cannot read two chunks leaves the old offsets over new contents: the even chunk now
      answers with the end of the file, so a read of it is right only where the two places agree. */
  lemma ShortResetMisplaces(file: ImageFile, c: Cache, offset: u32, k: nat)
    requires Coherent(file, c) && c.staged
    requires |file| < Base(offset) + 4096 && Base(offset) + k < |file|
    requires k < 2048 && c.offsetEven + k < |file|
    ensures Find(Size(file), ResetStep(file, offset, c), c.offsetEven + k, 1)
         == Bytes([file[Base(offset) + k]])
  {
    var c' := ResetStep(file, offset, c);
    var base := Base(offset);
    assert FileRead(file, base, 4096) == file[base..];
    assert c'.buf[k] == file[base + k];
    assert c'.buf[k..k + 1] == [file[base + k]];
  }

  /** Such a RESET in an image of 5000 bytes, zeros and then ones: its first byte is now served as a one. */
  lemma TailResumeCorrupts()
    ensures var file: ImageFile := seq(5000, i => if i < 4096 then 0 else 1);
            var c := StageStep(file, FRESH);
            Find(Size(file), c, 4500, 88) == Miss
            && Find(Size(file), ResetStep(file, 4500, c), 0, 1) == Bytes([1]) && file[0..1] == [0]
  {
    var file: ImageFile := seq(5000, i => if i < 4096 then 0 else 1);
    var c := StageStep(file, FRESH);
    StageKeeps(file, FRESH);
    FindExact(file, c, 4500, 88);
    ShortResetMisplaces(file, c, 4500, 0);
  }

  /** A controller reading in order, one packet past what the worker has ready. */
  function Outrun(): seq<Event> { [Work, Request(4000, 88), Request(4088, 88)] + [Work, Work] }

  /** That run: a READ is queued when the packet at 4088 is missed, and the RESET is queued behind it. */
  lemma OutrunRun(file: ImageFile) returns (s: Session)
    requires 4176 <= |file| < 6144
    ensures Coherent(file, s.cache) && s.cache.staged && !s.cache.resumePending && s.queue == [ReadNext]
    ensures Find(Size(file), s.cache, 4088, 88) == Miss
    ensures After(file, START, Outrun()) == Worked(file, Next(file, s, Request(4088, 88)), 2)
    ensures var read := Worked(file, Next(file, s, Request(4088, 88)), 1).cache;
            read.offsetEven == 4096 && read.offsetOdd == 2048
  {
    var c := StageStep(file, FRESH);
    StageKeeps(file, FRESH);
    FindExact(file, c, 4000, 88);
    FindExact(file, c, 4088, 88);
    s := Session(c, [ReadNext]);
    assert Next(file, START, Work) == Session(c, []);
    assert Next(file, Session(c, []), Request(4000, 88)) == s;
    var s2 := Next(file, s, Request(4088, 88));
    FoldAppend(Steps(file), START, [Work, Request(4000, 88), Request(4088, 88)], [Work, Work]);
    FoldThree(Steps(file), START, Work, Request(4000, 88), Request(4088, 88));
    FoldTwo(Steps(file), s2, Work, Work);
    WorkedOneMore(file, s2, 1);
    assert s2 == Session(c.(resumePending := true), [ReadNext, Message.Reset(4088)]);
    RequestIsAhead(file, c.(resumePending := true));
    WorkedOneMore(file, s2, 0);
  }

  /** Then the packet is served, and its byte at 4096 is the file's byte at 2048. */
  lemma OutrunCorrupts(file: ImageFile)
    requires 4176 <= |file| < 6144
    ensures var e := After(file, START, Outrun());
            var reply := Find(Size(file), e.cache, 4088, 88);
            reply.Bytes? && |reply.data| == 88 && reply.data[8] == file[2048]
  {
    var s := OutrunRun(file);
    MissAsks(file, s, 4088, 88);
    var read, _ := RetryServedExactly(file, s.cache.(resumePending := true), [ReadNext], 4088, 88);
    var load := Arriving(file, read, Message.Reset(4088));
    assert load == Incoming(0, file[2048..]) && IndexOf(read, 4096) == 0;
    assert ShownPacket(file, read, load, |load.bytes|, 4088, 88)[8] == file[2048];
  }
}
