/** A controller that reads the image in order. */
module CacheDownload {
  import opened Options
  import opened Words
  import opened CacheSpec
  import opened CacheProofs
  import opened CacheRuns
  import opened Packets

  // ---------- waiting for the worker ----------

  /** A packet asked of a session: its bytes and the session afterwards, or nothing. */
  type Server = (Cache, nat, u16) -> Option<(seq<byte>, Cache)>

  /** One request answered, and the worker done with the READ it may have queued. */
  function Serve(file: ImageFile, c: Cache, offset: nat, length: u16): Option<(seq<byte>, Cache)> {
    if offset >= 0x1_0000_0000 || |c.buf| != 4096 then None
    else
      match Find(Size(file), c, offset, length)
      case Bytes(data) =>
        var (c', asked) := Requested(Size(file), c, offset, length);
        (match if asked == [] then Done(c') else WorkerStep(file, Size(file), c', asked[0])
         case Fault => None
         case Done(c'') => Some((data, c'')))
      case _ => None
  }

  function Controller(file: ImageFile): Server {
    (c: Cache, offset: nat, length: u16) => Serve(file, c, offset, length)
  }

  /** A controller asking for packet after packet: the concatenated replies, or nothing if one request
      was not served. */
  function Download(serve: Server, c: Cache, offset: nat, lengths: seq<u16>): Option<seq<byte>>
    decreases |lengths|
  {
    if lengths == [] then Some([])
    else
      match serve(c, offset, lengths[0])
      case None => None
      case Some((data, c')) =>
        match Download(serve, c', offset + |data|, lengths[1..])
        case None => None
        case Some(rest) => Some(data + rest)
  }

  /** Far enough ahead: the next packet is in the window, and stays in it when the window moves. */
  ghost predicate Ready(file: ImageFile, c: Cache, offset: nat) {
    Coherent(file, c) && c.staged && c.Low() <= offset
    && (offset + THRESHOLD <= c.bytesReadFile || c.bytesReadFile == |file|)
  }

  lemma PacketServed(file: ImageFile, c: Cache, offset: nat, length: u16) returns (c': Cache)
    requires Ready(file, c, offset) && 1 <= length <= THRESHOLD && offset + length <= |file|
    ensures Controller(file)(c, offset, length) == Some((file[offset..offset + length], c'))
    ensures Ready(file, c', offset + length)
  {
    FindExact(file, c, offset, length);
    ReadKeeps(file, c);
    c' := if AsksForNext(Size(file), c, offset, length) then ReadStep(file, Size(file), c).cache else c;
  }

  /** A server that answers a packet with the file's bytes and keeps being able to. */
  ghost predicate Reliable(serve: Server, file: seq<byte>, ready: (Cache, nat) -> bool) {
    forall c: Cache, offset: nat, n: u16 :: ready(c, offset) && 1 <= n <= THRESHOLD && offset + n <= |file| ==>
      var r := serve(c, offset, n);
      r.Some? && r.value.0 == file[offset..offset + n] && ready(r.value.1, offset + n)
  }

  lemma {:induction false} ReliableDownload(serve: Server, file: seq<byte>, ready: (Cache, nat) -> bool,
                                            c: Cache, offset: nat, lengths: seq<u16>)
    requires Reliable(serve, file, ready) && ready(c, offset)
    requires forall k :: 0 <= k < |lengths| ==> 1 <= lengths[k] <= THRESHOLD
    requires offset + Sum(lengths) <= |file|
    ensures Download(serve, c, offset, lengths) == Some(file[offset..offset + Sum(lengths)])
    decreases |lengths|
  {
    if lengths == [] {
      assert file[offset..offset] == [];
    } else {
      var n := lengths[0];
      var c' := serve(c, offset, n).value.1;
      ReliableDownload(serve, file, ready, c', offset + n, lengths[1..]);
      assert file[offset..offset + n] + file[offset + n..offset + Sum(lengths)] == file[offset..offset + Sum(lengths)];
    }
  }

  /** A controller reading the whole image in order, in packets of up to 1920 bytes, gets the image, and
      is never told to wait, exactly when the image fills the first two chunks. */
  lemma {:induction false} InOrderDownload(file: ImageFile, lengths: seq<u16>)
    requires forall k :: 0 <= k < |lengths| ==> 1 <= lengths[k] <= THRESHOLD
    requires Sum(lengths) == |file| > 0
    ensures Download(Controller(file), StageStep(file, FRESH), 0, lengths)
         == if |file| >= 4096 then Some(file[..]) else None
  {
    StageKeeps(file, FRESH);
    if |file| >= 4096 {
      var ready := (c: Cache, offset: nat) => Ready(file, c, offset);
      forall c: Cache, offset: nat, n: u16 | Ready(file, c, offset) && 1 <= n <= THRESHOLD && offset + n <= |file|
        ensures var r := Controller(file)(c, offset, n);
                r.Some? && r.value.0 == file[offset..offset + n] && Ready(file, r.value.1, offset + n)
      {
        var _ := PacketServed(file, c, offset, n);
      }
      ReliableDownload(Controller(file), file, ready, StageStep(file, FRESH), 0, lengths);
      assert file[0..|file|] == file[..];
    }
  }

  // ---------- not waiting for the worker ----------

  /** The controller's next packet, or a turn of the worker. */
  datatype Step = Packet(length: u16) | Turn

  /** A session asked for a packet: its bytes and the session afterwards, or nothing. */
  type Asking = (Session, nat, u16) -> Option<(seq<byte>, Session)>

  function Asked(file: ImageFile, s: Session, offset: nat, n: u16): Option<(seq<byte>, Session)> {
    if offset >= 0x1_0000_0000 || |s.cache.buf| != 4096 then None
    else
      match Find(Size(file), s.cache, offset, n)
      case Bytes(data) => Some((data, Next(file, s, Request(offset, n))))
      case _ => None
  }

  function Turned(file: ImageFile, s: Session): Session {
    if |s.cache.buf| != 4096 then s else Next(file, s, Work)
  }

  /** The replies in a row, or nothing as soon as one packet is not served. */
  function LaggingDownload(ask: Asking, work: Session -> Session, s: Session, offset: nat, steps: seq<Step>)
    : Option<seq<byte>>
    decreases |steps|
  {
    if steps == [] then Some([])
    else if steps[0].Turn? then LaggingDownload(ask, work, work(s), offset, steps[1..])
    else
      match ask(s, offset, steps[0].length)
      case None => None
      case Some((data, s')) =>
        match LaggingDownload(ask, work, s', offset + |data|, steps[1..])
        case None => None
        case Some(rest) => Some(data + rest)
  }

  function Asks(file: ImageFile): Asking { (s: Session, offset: nat, n: u16) => Asked(file, s, offset, n) }

  function Works(file: ImageFile): Session -> Session { (s: Session) => Turned(file, s) }

  /** How far the two have got: the next packet's offset, where the window begins, and the READs queued. */
  datatype Pace = Pace(offset: nat, low: nat, queued: nat)

  /** A packet must lie in the window, and queues a READ when it ends less than 1920 bytes before the end
      of a window that is not the last; a READ moves the window on by a chunk, as long as there is one. */
  function Paced(size: nat, p: Pace, step: Step): Option<Pace> {
    match step
    case Turn =>
      if p.queued == 0 then Some(p)
      else Some(Pace(p.offset, if p.low + 4096 <= size then p.low + 2048 else p.low, p.queued - 1))
    case Packet(n) =>
      if p.low <= p.offset && p.offset + n <= p.low + 4096 then
        var asks := p.low + 4096 < size && p.offset + n + THRESHOLD > p.low + 4096;
        Some(Pace(p.offset + n, p.low, if asks then p.queued + 1 else p.queued))
      else None
  }

  predicate KeepsPace(size: nat, p: Pace, steps: seq<Step>)
    decreases |steps|
  {
    steps == [] ||
    match Paced(size, p, steps[0])
    case None => false
    case Some(p') => KeepsPace(size, p', steps[1..])
  }

  function Total(steps: seq<Step>): nat {
    if steps == [] then 0 else (if steps[0].Packet? then steps[0].length else 0) + Total(steps[1..])
  }

  ghost predicate InPace(file: ImageFile, s: Session, p: Pace) {
    && Coherent(file, s.cache) && s.cache.staged && s.cache.Low() == p.low
    && |s.queue| == p.queued && forall k :: 0 <= k < |s.queue| ==> s.queue[k].ReadNext?
  }

  lemma TurnPaced(file: ImageFile, s: Session, p: Pace)
    requires InPace(file, s, p)
    ensures InPace(file, Turned(file, s), Paced(|file|, p, Turn).value)
  {
    if s.queue != [] { ReadKeeps(file, s.cache); }
  }

  lemma PacketPaced(file: ImageFile, s: Session, p: Pace, n: u16)
    requires InPace(file, s, p) && 1 <= n <= MAX_PACKET && p.offset + n <= |file|
    ensures match Paced(|file|, p, Packet(n))
            case None => Asked(file, s, p.offset, n) == None && !Holds(s.cache, p.offset, n)
            case Some(p') =>
              var r := Asked(file, s, p.offset, n);
              r.Some? && r.value.0 == file[p.offset..p'.offset] && InPace(file, r.value.1, p')
  {
    FindExact(file, s.cache, p.offset, n);
  }

  ghost predicate PacketsFine(steps: seq<Step>) {
    forall step :: step in steps && step.Packet? ==> 1 <= step.length <= MAX_PACKET
  }

  /** Sessions and a pace that go along with each other, whatever the step. */
  ghost predicate GoAlong(ask: Asking, work: Session -> Session, file: seq<byte>,
                          along: (Session, Pace) -> bool)
  {
    && (forall s: Session, p: Pace {:trigger work(s), along(s, p)} ::
          along(s, p) ==> along(work(s), Paced(|file|, p, Turn).value))
    && (forall s: Session, p: Pace, n: u16 {:trigger ask(s, p.offset, n), along(s, p)} ::
          along(s, p) && 1 <= n <= MAX_PACKET && p.offset + n <= |file| ==>
          match Paced(|file|, p, Packet(n))
          case None => ask(s, p.offset, n) == None
          case Some(p') =>
            var r := ask(s, p.offset, n);
            r.Some? && r.value.0 == file[p.offset..p'.offset] && along(r.value.1, p'))
  }

  /** A packet that is served comes before the rest. */
  lemma PacketFirst(ask: Asking, work: Session -> Session, file: seq<byte>, s: Session, steps: seq<Step>,
                    from: nat, to: nat, fine: bool)
    requires steps != [] && steps[0].Packet? && from + steps[0].length <= to <= |file|
    requires var r, mid := ask(s, from, steps[0].length), from + steps[0].length;
             && r.Some? && r.value.0 == file[from..mid]
             && LaggingDownload(ask, work, r.value.1, mid, steps[1..]) == if fine then Some(file[mid..to]) else None
    ensures LaggingDownload(ask, work, s, from, steps) == if fine then Some(file[from..to]) else None
  {
    var mid := from + steps[0].length;
    assert |file[from..mid]| == steps[0].length && file[from..mid] + file[mid..to] == file[from..to];
  }

  lemma {:induction false} LaggingExactly(ask: Asking, work: Session -> Session, file: seq<byte>,
                                          along: (Session, Pace) -> bool, s: Session, p: Pace, steps: seq<Step>)
    requires GoAlong(ask, work, file, along) && along(s, p)
    requires p.offset + Total(steps) <= |file| && PacketsFine(steps)
    ensures LaggingDownload(ask, work, s, p.offset, steps)
         == if KeepsPace(|file|, p, steps) then Some(file[p.offset..p.offset + Total(steps)]) else None
    decreases |steps|
  {
    if steps == [] {
      assert file[p.offset..p.offset] == [];
    } else {
      var rest, next := steps[1..], Paced(|file|, p, steps[0]);
      match steps[0] {
        case Turn =>
          LaggingExactly(ask, work, file, along, work(s), next.value, rest);
        case Packet(n) =>
          var r := ask(s, p.offset, n);
          if next.Some? {
            LaggingExactly(ask, work, file, along, r.value.1, next.value, rest);
            var fine := KeepsPace(|file|, next.value, rest);
            PacketFirst(ask, work, file, s, steps, p.offset, p.offset + Total(steps), fine);
          }
      }
    }
  }

  /** A controller reading in order without waiting gets the file's bytes, packet after packet, exactly if
      it keeps pace with the READs it queues: neither ahead of the window nor, when they have moved it on,
      behind it. Otherwise some packet is not served. */
  lemma InOrderWithoutWaiting(file: ImageFile, steps: seq<Step>)
    requires |file| >= 4096 && Total(steps) <= |file| && PacketsFine(steps)
    ensures LaggingDownload(Asks(file), Works(file), Next(file, START, Work), 0, steps)
         == if KeepsPace(|file|, Pace(0, 0, 0), steps) then Some(file[..Total(steps)]) else None
  {
    StageKeeps(file, FRESH);
    var along := (s: Session, p: Pace) => InPace(file, s, p);
    forall s: Session, p: Pace | InPace(file, s, p)
      ensures InPace(file, Works(file)(s), Paced(|file|, p, Turn).value)
    {
      TurnPaced(file, s, p);
    }
    forall s: Session, p: Pace, n: u16 | InPace(file, s, p) && 1 <= n <= MAX_PACKET && p.offset + n <= |file|
      ensures match Paced(|file|, p, Packet(n))
              case None => Asks(file)(s, p.offset, n) == None
              case Some(p') =>
                var r := Asks(file)(s, p.offset, n);
                r.Some? && r.value.0 == file[p.offset..p'.offset] && InPace(file, r.value.1, p')
    {
      PacketPaced(file, s, p, n);
    }
    LaggingExactly(Asks(file), Works(file), file, along, Next(file, START, Work), Pace(0, 0, 0), steps);
    assert file[0..Total(steps)] == file[..Total(steps)];
  }

  /** Two READs queued in one window leave the next packet behind, whatever its length. */
  lemma LeftBehind(size: nat, p: Pace, n: u16)
    requires p.queued >= 2 && p.low + 6144 <= size && p.offset < p.low + 4096
    ensures !KeepsPace(size, p, [Turn, Turn, Packet(n)])
  {
    var p1 := Paced(size, p, Turn).value;
    var p2 := Paced(size, p1, Turn).value;
    assert [Turn, Turn, Packet(n)][1..] == [Turn, Packet(n)] && [Turn, Packet(n)][1..] == [Packet(n)];
    assert p2.low == p.low + 4096 && !KeepsPace(size, p2, [Packet(n)]);
    assert !KeepsPace(size, p1, [Turn, Packet(n)]);
  }
}
