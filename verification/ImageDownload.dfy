/** A download as the controller sees it: requests, the worker, and the progress that is counted. */
module ImageDownload {
  import opened Options
  import opened Packets
  import opened Words
  import opened CacheSpec
  import opened CacheProofs
  import opened CacheDownload
  import opened DownloadProgress
  import CacheRuns

  /** The progress after a request got a reply: data advances it, the first miss moves it to the offset. */
  function Progressed(p: Progress, size: u32, reply: Reply, pending: bool, offset: u32, length: u16): Progress
    requires size > 0
  {
    match reply
    case Bytes(_) => Advance(p, size, length)
    case Miss => if pending then p else p.(bytesRead := offset)
    case _ => p
  }

  datatype Download = Download(session: CacheRuns.Session, progress: Progress)

  type Image = file: ImageFile | |file| > 0 witness [0]

  /** One step: a turn of the worker, or the packet at the controller's offset asked for. */
  function Fetch(file: Image, d: Download, offset: nat, step: Step): Download {
    if !d.session.cache.Shaped() || offset >= 0x1_0000_0000 then d
    else
      match step
      case Turn => d.(session := CacheRuns.Next(file, d.session, CacheRuns.Work))
      case Packet(n) =>
        var c := d.session.cache;
        Download(CacheRuns.Next(file, d.session, CacheRuns.Request(offset, n)),
                 Progressed(d.progress, Size(file), Find(Size(file), c, offset, n), c.resumePending, offset, n))
  }

  type Fetching = (Download, nat, Step) -> Download

  function Fetches(file: Image): Fetching {
    (d: Download, offset: nat, step: Step) => Fetch(file, d, offset, step)
  }

  /** The controller goes on by each packet it asked for. */
  function FetchAll(fetch: Fetching, d: Download, offset: nat, steps: seq<Step>): Download
    decreases |steps|
  {
    if steps == [] then d
    else FetchAll(fetch, fetch(d, offset, steps[0]), offset + Width(steps[0]), steps[1..])
  }

  function Width(step: Step): nat { if step.Packet? then step.length else 0 }

  function Lengths(steps: seq<Step>): seq<u16> {
    if steps == [] then []
    else (if steps[0].Packet? then [steps[0].length] else []) + Lengths(steps[1..])
  }

  lemma LengthsTail(steps: seq<Step>)
    requires steps != []
    ensures if steps[0].Packet? then
              Lengths(steps) != [] && Lengths(steps)[0] == steps[0].length && Lengths(steps)[1..] == Lengths(steps[1..])
            else Lengths(steps) == Lengths(steps[1..])
  {
    if steps[0].Turn? { assert [] + Lengths(steps[1..]) == Lengths(steps[1..]); }
  }

  // ---------- a download that keeps pace ----------

  ghost predicate AlongWith(file: Image, d: Download, p: Pace) { InPace(file, d.session, p) }

  lemma FetchPaced(file: Image, d: Download, p: Pace, step: Step)
    requires AlongWith(file, d, p) && Paced(|file|, p, step).Some?
    requires step.Packet? ==> 1 <= step.length <= MAX_PACKET && p.offset + step.length <= |file|
    requires p.offset <= |file|
    ensures var d', p' := Fetch(file, d, p.offset, step), Paced(|file|, p, step).value;
            && AlongWith(file, d', p') && p'.offset == p.offset + Width(step)
            && d'.progress == if step.Packet? then Advance(d.progress, Size(file), step.length) else d.progress
  {
    match step
    case Turn => TurnPaced(file, d.session, p);
    case Packet(n) => PacketPaced(file, d.session, p, n);
  }

  /** Fetching that counts every packet and goes along with a pace. */
  ghost predicate Counts(fetch: Fetching, size: u32, along: (Download, Pace) -> bool)
    requires size > 0
  {
    forall d: Download, p: Pace, step: Step {:trigger fetch(d, p.offset, step), along(d, p)} ::
      along(d, p) && Paced(size, p, step).Some? && p.offset + Width(step) <= size
      && (step.Packet? ==> 1 <= step.length <= MAX_PACKET) ==>
        var d', p' := fetch(d, p.offset, step), Paced(size, p, step).value;
        && along(d', p') && p'.offset == p.offset + Width(step)
        && d'.progress == if step.Packet? then Advance(d.progress, size, step.length) else d.progress
  }

  lemma {:induction false} AllCounted(fetch: Fetching, size: u32, along: (Download, Pace) -> bool,
                                      d: Download, p: Pace, steps: seq<Step>)
    requires size > 0 && Counts(fetch, size, along) && along(d, p)
    requires PacketsFine(steps) && KeepsPace(size, p, steps) && p.offset + Total(steps) <= size
    ensures FetchAll(fetch, d, p.offset, steps).progress == AdvanceAll(d.progress, size, Lengths(steps))
    decreases |steps|
  {
    if steps != [] {
      var step, rest := steps[0], steps[1..];
      var d', p' := fetch(d, p.offset, step), Paced(size, p, step).value;
      AllCounted(fetch, size, along, d', p', rest);
      AdvanceFirst(d.progress, size, steps);
      assert FetchAll(fetch, d, p.offset, steps) == FetchAll(fetch, d', p'.offset, rest);
    }
  }

  lemma AdvanceFirst(p: Progress, size: u32, steps: seq<Step>)
    requires size > 0 && steps != []
    ensures AdvanceAll(p, size, Lengths(steps))
         == AdvanceAll(if steps[0].Packet? then Advance(p, size, steps[0].length) else p, size, Lengths(steps[1..]))
  {
    LengthsTail(steps);
  }

  lemma {:induction false} LengthsSum(steps: seq<Step>)
    ensures Sum(Lengths(steps)) == Total(steps)
    ensures PacketsFine(steps) ==> forall k :: 0 <= k < |Lengths(steps)| ==> Lengths(steps)[k] >= 1
    decreases |steps|
  {
    if steps != [] {
      LengthsTail(steps);
      LengthsSum(steps[1..]);
    }
  }

  /** Whatever is downloaded in order and keeps pace, through the requests themselves: the bytes counted are
      the bytes served, the status events are those due, the download is complete exactly with the last
      byte, and then it is well reported. */
  lemma DownloadReported(file: Image, increment: u8, steps: seq<Step>)
    requires 4096 <= |file| && |file| * 100 < 0x1_0000_0000 && 1 <= increment <= 100
    requires PacketsFine(steps) && KeepsPace(|file|, Pace(0, 0, 0), steps) && Total(steps) <= |file|
    ensures var d := Download(CacheRuns.Next(file, CacheRuns.START, CacheRuns.Work), Start(increment));
            var p := FetchAll(Fetches(file), d, 0, steps).progress;
            && p.bytesRead == Total(steps) && (p.loadWaiting <==> Total(steps) == |file|)
            && p.reported == EventsDue(|file|, increment, Lengths(steps))
            && (Total(steps) == |file| ==> WellReported(p, increment))
  {
    StageKeeps(file, FRESH);
    var d := Download(CacheRuns.Next(file, CacheRuns.START, CacheRuns.Work), Start(increment));
    var along := (d: Download, p: Pace) => AlongWith(file, d, p);
    forall d: Download, p: Pace, step: Step | AlongWith(file, d, p) && Paced(|file|, p, step).Some?
      && p.offset + Width(step) <= |file| && (step.Packet? ==> 1 <= step.length <= MAX_PACKET)
      ensures var d', p' := Fetches(file)(d, p.offset, step), Paced(|file|, p, step).value;
              && AlongWith(file, d', p') && p'.offset == p.offset + Width(step)
              && d'.progress == if step.Packet? then Advance(d.progress, Size(file), step.length) else d.progress
    {
      FetchPaced(file, d, p, step);
    }
    AllCounted(Fetches(file), Size(file), along, d, Pace(0, 0, 0), steps);
    LengthsSum(steps);
    EventsExact(Size(file), increment, Lengths(steps));
    StatusEvents(Size(file), increment, Lengths(steps));
  }

  // ---------- waiting controllers keep pace ----------

  /** Each packet is followed by a turn of the worker. */
  function Waiting(lengths: seq<u16>): seq<Step> {
    if lengths == [] then [] else [Packet(lengths[0]), Turn] + Waiting(lengths[1..])
  }

  lemma {:induction false} WaitingKeepsPace(size: nat, p: Pace, lengths: seq<u16>)
    requires forall k :: 0 <= k < |lengths| ==> 1 <= lengths[k] <= 1920
    requires p.queued == 0 && p.low <= p.offset && p.offset + Sum(lengths) <= size
    requires p.offset + 1920 <= p.low + 4096 || size <= p.low + 4096
    ensures KeepsPace(size, p, Waiting(lengths)) && Lengths(Waiting(lengths)) == lengths
    ensures Total(Waiting(lengths)) == Sum(lengths) && PacketsFine(Waiting(lengths))
    decreases |lengths|
  {
    if lengths != [] {
      var n, rest, steps := lengths[0], lengths[1..], Waiting(lengths);
      var p1 := Paced(size, p, Packet(n)).value;
      var p2 := Paced(size, p1, Turn).value;
      WaitingKeepsPace(size, p2, rest);
      assert steps[1..] == [Turn] + Waiting(rest) && steps[1..][1..] == Waiting(rest);
      assert KeepsPace(size, p1, steps[1..]);
      assert Lengths(steps[1..]) == [] + Lengths(Waiting(rest)) && lengths == [n] + rest;
    }
  }

  // ---------- a download that misses ----------

  /** A first miss sets the count of bytes to the offset asked for; one while a RESET is pending, and a
      request that gets nothing or a bad copy, leave it. Nothing is reported or completed. */
  lemma MissCounts(file: Image, d: Download, offset: u32, n: u16)
    requires d.session.cache.Shaped() && !Find(Size(file), d.session.cache, offset, n).Bytes?
    ensures var d', c := Fetch(file, d, offset, Packet(n)), d.session.cache;
            && d'.progress == d.progress.(bytesRead := d'.progress.bytesRead)
            && d'.progress.bytesRead
               == (if Find(Size(file), c, offset, n) == Miss && !c.resumePending then offset else d.progress.bytesRead)
  {
  }
}
