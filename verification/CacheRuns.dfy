/** Every run of requests and worker steps: when what is served is the file. */
module CacheRuns {
  import opened Options
  import opened Words
  import opened CacheSpec
  import opened CacheProofs
  import opened CacheExposure
  import opened Runs

  /** A session's cache and the messages the worker has yet to process. */
  datatype Session = Session(cache: Cache, queue: seq<Message>)

  datatype Event = Work | Request(offset: u32, length: u16)

  const START := Session(FRESH, [Stage])

  function Next(file: ImageFile, s: Session, ev: Event): (r: Session)
    requires s.cache.Shaped()
    ensures r.cache.Shaped()
  {
    match ev
    case Work =>
      if s.queue == [] then s
      else (match WorkerStep(file, Size(file), s.cache, s.queue[0])
            case Done(c) => Session(c, s.queue[1..])
            case Fault => s)
    case Request(offset, length) =>
      var (c, asked) := Requested(Size(file), s.cache, offset, length);
      Session(c, s.queue + asked)
  }

  function Steps(file: ImageFile): (Session, Event) -> Session {
    (s: Session, ev: Event) => if s.cache.Shaped() then Next(file, s, ev) else s
  }

  /** Where a run leads. */
  function After(file: ImageFile, s: Session, run: seq<Event>): Session { Fold(Steps(file), s, run) }

  /** No packet is longer than a chunk. */
  ghost predicate PacketsFit(run: seq<Event>) {
    forall k :: 0 <= k < |run| && run[k].Request? ==> run[k].length <= MAX_PACKET
  }

  /** What is promised of one step: data is the file's, the only bad copy is the one below the window,
      and the worker never writes outside the buffer. */
  ghost predicate Faithful(file: ImageFile, s: Session, ev: Event)
    requires s.cache.Shaped()
  {
    match ev
    case Work => s.queue != [] ==> WorkerStep(file, Size(file), s.cache, s.queue[0]).Done?
    case Request(offset, length) =>
      match Find(Size(file), s.cache, offset, length)
      case Bytes(data) => offset + length <= |file| && data == file[offset..offset + length]
      case Bad => offset < s.cache.Low() < offset + length
      case _ => true
  }

  ghost predicate FaithfulRun(file: ImageFile, s: Session, run: seq<Event>)
    requires s.cache.Shaped()
    decreases |run|
  {
    run == [] || (Faithful(file, s, run[0]) && FaithfulRun(file, Next(file, s, run[0]), run[1..]))
  }

  // ---------- one RESET at a time ----------

  predicate Resets(queue: seq<Message>) {
    exists k :: 0 <= k < |queue| && queue[k].Reset?
  }

  ghost predicate OneReset(s: Session) {
    && (Resets(s.queue) ==> s.cache.resumePending)
    && forall j, k :: 0 <= j < k < |s.queue| ==> !(s.queue[j].Reset? && s.queue[k].Reset?)
  }

  lemma OneResetAsked(s: Session, size: u32, c: Cache, offset: u32, length: u16)
    requires OneReset(s) && c.resumePending == s.cache.resumePending
    ensures var (c', asked) := Requested(size, c, offset, length);
            OneReset(Session(s.cache.(resumePending := c'.resumePending), s.queue + asked))
  {
    var asked := Requested(size, c, offset, length).1;
    var queue := s.queue + asked;
    if k :| 0 <= k < |queue| && queue[k].Reset? && k < |s.queue| { assert s.queue[k].Reset?; }
  }

  lemma OneResetWorked(file: ImageFile, s: Session)
    requires s.cache.Shaped() && OneReset(s)
    ensures OneReset(Next(file, s, Work))
  {
    var s' := Next(file, s, Work);
    if s.queue != [] && s' != s {
      assert s'.queue == s.queue[1..];
      if k :| 0 <= k < |s'.queue| && s'.queue[k].Reset? { assert s.queue[k + 1].Reset?; }
      forall j, k | 0 <= j < k < |s'.queue| ensures !(s'.queue[j].Reset? && s'.queue[k].Reset?) {
        assert s'.queue[j] == s.queue[j + 1] && s'.queue[k] == s.queue[k + 1];
      }
    }
  }

  lemma OneResetKept(file: ImageFile, s: Session, ev: Event)
    requires s.cache.Shaped() && OneReset(s)
    ensures OneReset(Next(file, s, ev))
  {
    match ev {
      case Work => OneResetWorked(file, s);
      case Request(offset, length) =>
        OneResetAsked(s, Size(file), s.cache, offset, length);
        var c := Requested(Size(file), s.cache, offset, length).0;
        assert s.cache.(resumePending := c.resumePending) == c;
    }
  }

  /** In every run, short RESETs included, a request that may ask for a RESET finds none in the queue. */
  lemma {:induction false} NoneQueuedUnlessPending(file: ImageFile, s: Session, run: seq<Event>)
    requires s.cache.Shaped() && OneReset(s)
    ensures var e := After(file, s, run);
            !e.cache.resumePending ==> forall m :: m in e.queue ==> !m.Reset?
    decreases |run|
  {
    if run != [] {
      OneResetKept(file, s, run[0]);
      NoneQueuedUnlessPending(file, Next(file, s, run[0]), run[1..]);
    }
  }

  // ---------- the trace of a short RESET ----------

  /** Beside the session: the cache as it would be without the bytes a short RESET has spilt over it, and
      those bytes. */
  datatype Trace = Trace(session: Session, clean: Cache, spilt: Option<Incoming>)

  /** Two whole chunks do not follow the aligned offset. */
  predicate ComesUpShort(file: ImageFile, m: Message) {
    m.Reset? && |file| < Base(m.offset) + 4096
  }

  function Traced(s: Session): Trace { Trace(s, s.cache, None) }

  function WithOffsets(c: Cache, d: Cache): Cache {
    c.(offsetEven := d.offsetEven, offsetOdd := d.offsetOdd)
  }

  /** Until a RESET comes up short the cache is clean; after that the clean one moves with its offsets. */
  function NextTrace(file: ImageFile, t: Trace, ev: Event): (r: Trace)
    requires t.session.cache.Shaped()
    ensures r.session.cache.Shaped()
  {
    var s, s' := t.session, Next(file, t.session, ev);
    if t.spilt.Some? then Trace(s', WithOffsets(t.clean, s'.cache), t.spilt)
    else if ev.Work? && s.queue != [] && ComesUpShort(file, s.queue[0]) then
      Trace(s', s.cache, Some(Arriving(file, s.cache, s.queue[0])))
    else Traced(s')
  }

  /** The request is for a packet that shows spilt bytes, other ones than the file's. */
  ghost predicate Spoilt(file: ImageFile, t: Trace, ev: Event) {
    ev.Request? && t.spilt.Some? && ev.offset + ev.length <= |file|
    && Exposed(file, t.clean, t.spilt.value, |t.spilt.value.bytes|, ev.offset, ev.length)
  }

  ghost predicate NeverSpoilt(file: ImageFile, t: Trace, run: seq<Event>)
    requires t.session.cache.Shaped()
    decreases |run|
  {
    run == [] || (!Spoilt(file, t, run[0]) && NeverSpoilt(file, NextTrace(file, t, run[0]), run[1..]))
  }

  // ---------- what every step keeps ----------

  /** After a short RESET the file has been read to its end, no further one is asked for, and READs are
      all that is left in the queue. */
  ghost predicate Spilt(file: ImageFile, c: Cache, clean: Cache, load: Incoming)
    requires clean.Shaped()
  {
    && load.Fits() && clean.staged && c.position >= |file|
    && c == HalfWay(clean, load, |load.bytes|).(position := c.position, resumePending := true)
  }

  ghost predicate Sound(file: ImageFile, t: Trace) {
    var c, queue := t.session.cache, t.session.queue;
    && c.Shaped() && Coherent(file, t.clean) && OneReset(t.session)
    && (!c.staged ==> t.spilt.None? && (queue == [Stage] || queue == []))
    && (c.staged ==> forall m :: m in queue ==> !m.Stage?)
    && match t.spilt
       case None => t.clean == c
       case Some(load) => Spilt(file, c, t.clean, load) && forall m :: m in queue ==> m.ReadNext?
  }

  lemma ShortResetSpills(file: ImageFile, c: Cache, offset: u32)
    requires Coherent(file, c) && c.staged && c.resumePending && ComesUpShort(file, Message.Reset(offset))
    ensures Spilt(file, ResetStep(file, offset, c), c, Arriving(file, c, Message.Reset(offset)))
  {
    var load := Arriving(file, c, Message.Reset(offset));
    assert load.bytes[..|load.bytes|] == load.bytes;
  }

  /** From then on a READ finds nothing to read: it changes nothing, or, with the window at the very end of
      the file, moves it on by an empty chunk. */
  lemma SpiltRead(file: ImageFile, c: Cache, clean: Cache, load: Incoming)
    requires Coherent(file, clean) && Spilt(file, c, clean, load)
    ensures var r := ReadStep(file, Size(file), c);
            r.Done? && Spilt(file, r.cache, WithOffsets(clean, r.cache), load)
            && Coherent(file, WithOffsets(clean, r.cache))
  {
    assert Filled(c, OddIsOlder(c), []) == c;
    RequestIsAhead(file, clean);
    if ReadRequest(Size(file), c.Low()) == 0 {
      OffsetsAdvance(file, clean, clean.buf);
    } else {
      assert WithOffsets(clean, c) == clean;
    }
  }

  lemma WorkKeeps(file: ImageFile, t: Trace)
    requires Sound(file, t)
    ensures Sound(file, NextTrace(file, t, Work)) && Faithful(file, t.session, Work)
  {
    var c, queue := t.session.cache, t.session.queue;
    OneResetWorked(file, t.session);
    if queue == [] {
      assert WithOffsets(t.clean, c) == t.clean;
    } else {
      assert queue[0] in queue;
      assert forall m :: m in queue[1..] ==> m in queue;
      match queue[0]
      case Stage => StageKeeps(file, c);
      case ReadNext => if t.spilt.Some? { SpiltRead(file, c, t.clean, t.spilt.value); } else { ReadKeeps(file, c); }
      case Reset(offset) =>
        assert Resets(queue);
        if ComesUpShort(file, queue[0]) {
          ShortResetSpills(file, c, offset);
          AfterTheReset(t.session);
        } else {
          ResetKeeps(file, offset, c);
        }
    }
  }

  lemma AfterTheReset(s: Session)
    requires OneReset(s) && s.queue != [] && s.queue[0].Reset? && forall m :: m in s.queue ==> !m.Stage?
    ensures forall m :: m in s.queue[1..] ==> m.ReadNext?
  {
    forall m | m in s.queue[1..] ensures m.ReadNext? {
      var k :| 0 <= k < |s.queue[1..]| && s.queue[1..][k] == m;
      assert s.queue[k + 1] == m && m in s.queue;
    }
  }

  lemma RequestKeeps(file: ImageFile, t: Trace, offset: u32, length: u16)
    requires Sound(file, t)
    ensures Sound(file, NextTrace(file, t, Request(offset, length)))
  {
    OneResetKept(file, t.session, Request(offset, length));
    assert WithOffsets(t.clean, t.session.cache) == t.clean;
  }

  /** One request: the reply is faithful exactly if the packet is not spoilt. */
  lemma RequestExactly(file: ImageFile, t: Trace, offset: u32, length: u16)
    requires Sound(file, t) && length <= MAX_PACKET
    ensures Faithful(file, t.session, Request(offset, length)) <==> !Spoilt(file, t, Request(offset, length))
  {
    var c := t.session.cache;
    match t.spilt
    case None => FindSound(file, c, offset, length);
    case Some(load) =>
      if offset + length > |file| {
        PastTheEnd(file, c, offset, length);
      } else {
        SameFind(Size(file), c, HalfWay(t.clean, load, |load.bytes|), offset, length);
        HalfWayReply(file, t.clean, load, |load.bytes|, offset, length);
      }
  }

  // ---------- every run ----------

  lemma {:induction false} SoundRunExactly(file: ImageFile, t: Trace, run: seq<Event>)
    requires Sound(file, t) && PacketsFit(run)
    ensures FaithfulRun(file, t.session, run) <==> NeverSpoilt(file, t, run)
    decreases |run|
  {
    if run != [] {
      match run[0] {
        case Work => WorkKeeps(file, t);
        case Request(offset, length) => RequestKeeps(file, t, offset, length); RequestExactly(file, t, offset, length);
      }
      assert forall k :: 0 <= k < |run[1..]| ==> run[1..][k] == run[k + 1];
      SoundRunExactly(file, NextTrace(file, t, run[0]), run[1..]);
    }
  }

  /** Over every interleaving of the worker with requests at any offsets, resumes anywhere and redundant
      READs included, the replies are faithful exactly if none is for a packet that shows bytes spilt by a
      RESET that came up short. */
  lemma {:induction false} RepliesExactly(file: ImageFile, run: seq<Event>)
    requires PacketsFit(run)
    ensures FaithfulRun(file, START, run) <==> NeverSpoilt(file, Traced(START), run)
  {
    SoundRunExactly(file, Traced(START), run);
  }

  /** No request of the run resumes in the last two chunks' worth. */
  ghost predicate RoomyRun(file: ImageFile, s: Session, run: seq<Event>)
    requires s.cache.Shaped()
    decreases |run|
  {
    run == [] ||
    (&& (run[0].Request? && Resets(Requested(Size(file), s.cache, run[0].offset, run[0].length).1) ==>
           Base(run[0].offset) + 4096 <= |file|)
     && RoomyRun(file, Next(file, s, run[0]), run[1..]))
  }

  ghost predicate RoomInQueue(file: ImageFile, queue: seq<Message>) {
    forall k :: 0 <= k < |queue| ==> !ComesUpShort(file, queue[k])
  }

  lemma {:induction false} RoomyIsNeverSpoilt(file: ImageFile, s: Session, run: seq<Event>)
    requires s.cache.Shaped() && RoomInQueue(file, s.queue) && RoomyRun(file, s, run)
    ensures NeverSpoilt(file, Traced(s), run)
    decreases |run|
  {
    if run != [] {
      var s' := Next(file, s, run[0]);
      forall k | 0 <= k < |s'.queue| ensures !ComesUpShort(file, s'.queue[k]) {
        if run[0].Work? {
          if s' != s { assert s'.queue == s.queue[1..] && s'.queue[k] == s.queue[k + 1]; }
        } else if k < |s.queue| {
          assert s'.queue[k] == s.queue[k];
        } else if s'.queue[k].Reset? {
          var asked := Requested(Size(file), s.cache, run[0].offset, run[0].length).1;
          assert s'.queue[k] == asked[k - |s.queue|] && asked[0].Reset?;
        }
      }
      RoomyIsNeverSpoilt(file, s', run[1..]);
    }
  }

  /** The cache refines the file: in every run without such resumes whatever is served is the file's
      bytes. */
  lemma {:induction false} CacheRefinesFile(file: ImageFile, run: seq<Event>)
    requires PacketsFit(run) && RoomyRun(file, START, run)
    ensures FaithfulRun(file, START, run)
  {
    RoomyIsNeverSpoilt(file, START, run);
    RepliesExactly(file, run);
  }
}
