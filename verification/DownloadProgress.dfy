/** How far the controller has got, and the status events reported on the way. */
module DownloadProgress {
  import opened Packets
  import opened Words

  /** `reported` is the history of broadcast percentages; `loadWaiting` marks the download complete. */
  datatype Progress = Progress(
    bytesRead: u32, percentNext: u8, percentIncrement: u8, loadWaiting: bool, reported: seq<u8>)

  function Start(increment: u8): Progress { Progress(0, 0, increment, false, []) }

  /** The percentage as a byte, computed in 32 bits. */
  function Percent(bytesRead: u32, size: u32): u8
    requires size > 0
  {
    U8(U32(bytesRead * 100) / size)
  }

  /** The status event, if one is due, for the percentage reached. */
  function Report(p: Progress, percent: u8, all: bool): Progress {
    if percent >= p.percentNext then
      p.(reported := p.reported + [percent], percentNext := U8(p.percentNext + p.percentIncrement))
    else if all then p.(reported := p.reported + [100])
    else p
  }

  /** After `quantity` bytes were sent. */
  function Advance(p: Progress, size: u32, quantity: u16): Progress
    requires size > 0
  {
    var bytesRead := U32(p.bytesRead + quantity);
    var percent := Percent(bytesRead, size);
    Report(p, percent, bytesRead >= size).(
      bytesRead := bytesRead, loadWaiting := p.loadWaiting || percent == 100 || bytesRead >= size)
  }

  function AdvanceAll(p: Progress, size: u32, lengths: seq<u16>): Progress
    requires size > 0
    decreases |lengths|
  {
    if lengths == [] then p else AdvanceAll(Advance(p, size, lengths[0]), size, lengths[1..])
  }

  // ---------- the events of one download ----------

  ghost predicate NonDecreasing(s: seq<u8>) { forall i, j :: 0 <= i < j < |s| ==> s[i] <= s[j] }

  /** Before the last packet: every event is below 100 and the next one due is a multiple of the increment. */
  ghost predicate Underway(p: Progress, size: u32) {
    && size > 0 && 1 <= p.percentIncrement <= 100
    && p.bytesRead < size && !p.loadWaiting
    && Due(p, Percent(p.bytesRead, size))
  }

  ghost predicate Due(p: Progress, percent: u8) {
    NextDue(p) && percent <= 99 && InOrderUpTo(p.reported, percent)
  }

  ghost predicate NextDue(p: Progress) {
    p.percentNext == |p.reported| * p.percentIncrement && p.percentNext <= 99 + p.percentIncrement
  }

  ghost predicate InOrderUpTo(s: seq<u8>, percent: u8) {
    NonDecreasing(s) && forall k :: 0 <= k < |s| ==> s[k] <= percent
  }

  lemma Cancel(x: int, y: int, d: int)
    requires d > 0 && x * d < y * d
    ensures x < y
  {
    assert (y - x) * d > 0;
  }

  lemma DivideMonotone(a: nat, b: nat, d: nat)
    requires d > 0 && a <= b
    ensures a / d <= b / d
  {
    var q, r := a / d, b / d;
    assert q * d <= a && b < r * d + d;
    assert (r + 1) * d == r * d + d;
    Cancel(q, r + 1, d);
  }

  lemma DivideBelow(a: nat, d: nat, q: nat)
    requires d > 0 && a < q * d
    ensures a / d < q
  {
    assert (a / d) * d <= a;
    Cancel(a / d, q, d);
  }

  lemma HundredTimes(n: nat, d: nat)
    requires d > 0 && n <= d
    ensures n * 100 / d <= 100 && (n * 100 / d == 100 <==> n == d)
  {
    DivideBelow(n * 100, d, 101);
    if n < d { DivideBelow(n * 100, d, 100); }
    else { DivideExact(d, 100); }
  }

  lemma DivideExact(d: nat, q: nat)
    requires d > 0
    ensures d * q / d == q
  {
    var r := d * q / d;
    assert r * d <= d * q < r * d + d == (r + 1) * d;
    Cancel(q, r + 1, d);
    DivideBelow(d * q, d, q + 1);
  }

  /** A quotient of at most 100 survives both truncations. */
  lemma PercentFits(bytesRead: u32, size: u32, q: nat)
    requires size > 0 && bytesRead * 100 < 0x1_0000_0000
    requires bytesRead * 100 / size == q <= 100
    ensures Percent(bytesRead, size) == q
  {
  }

  lemma PercentBounds(bytesRead: u32, size: u32)
    requires size > 0 && size * 100 < 0x1_0000_0000 && bytesRead <= size
    ensures Percent(bytesRead, size) == bytesRead * 100 / size <= 100
    ensures Percent(bytesRead, size) == 100 <==> bytesRead == size
  {
    HundredTimes(bytesRead, size);
    PercentFits(bytesRead, size, bytesRead * 100 / size);
  }

  lemma PercentMonotone(a: u32, b: u32, size: u32)
    requires size > 0 && size * 100 < 0x1_0000_0000 && a <= b <= size
    ensures Percent(a, size) <= Percent(b, size)
  {
    PercentBounds(a, size);
    PercentBounds(b, size);
    DivideMonotone(a * 100, b * 100, size);
  }

  lemma ReportKeepsNext(p: Progress, percent: u8)
    requires NextDue(p) && percent <= 99 && p.percentIncrement <= 100
    ensures NextDue(Report(p, percent, false))
  {
    var k, inc := |p.reported|, p.percentIncrement as int;
    assert (k + 1) * inc == k * inc + inc;
    var p' := Report(p, percent, false);
    assert |p'.reported| == if percent >= p.percentNext then k + 1 else k;
    assert p'.percentNext == |p'.reported| * inc;
  }

  lemma ReportKeepsDue(p: Progress, before: u8, percent: u8)
    requires Due(p, before) && before <= percent <= 99 && p.percentIncrement <= 100
    ensures Due(Report(p, percent, false), percent)
  {
    ReportKeepsNext(p, percent);
    assert InOrderUpTo(p.reported + [percent], percent);
  }

  lemma StaysUnderway(p: Progress, size: u32, n: u16)
    requires Underway(p, size) && size * 100 < 0x1_0000_0000
    requires n >= 1 && p.bytesRead + n < size
    ensures Underway(Advance(p, size, n), size)
  {
    PercentBounds(p.bytesRead + n, size);
    PercentMonotone(p.bytesRead, p.bytesRead + n, size);
    ReportKeepsDue(p, Percent(p.bytesRead, size), Percent(p.bytesRead + n, size));
  }

  /** The number of events: one for each multiple of the increment below 100, and the final one. */
  function EventLimit(increment: u8): nat
    requires increment > 0
  {
    (99 + increment) / increment + 1
  }

  /** The last packet reports 100, once and last, and completes the download. */
  lemma LastPacket(p: Progress, size: u32, n: u16)
    requires Underway(p, size) && size * 100 < 0x1_0000_0000
    requires p.bytesRead + n == size
    ensures var p' := Advance(p, size, n);
            p'.loadWaiting && p'.reported == p.reported + [100]
            && |p'.reported| <= EventLimit(p.percentIncrement)
            && p'.percentNext <= 200
  {
    PercentBounds(size, size);
    var k, inc := |p.reported|, p.percentIncrement as int;
    var limit := (99 + inc) / inc;
    assert 99 + inc < limit * inc + inc == (limit + 1) * inc;
    Cancel(k, limit + 1, inc);
    var p' := Advance(p, size, n);
    assert p'.reported == p.reported + [100] && p'.percentNext <= 200;
  }

  /** What a whole download reports: percentages that never fall, 100 exactly once and last, at most one
      event per multiple of the increment, and completion with the last packet and no earlier. */
  ghost predicate WellReported(p: Progress, increment: u8)
    requires increment > 0
  {
    && p.loadWaiting && NonDecreasing(p.reported) && p.reported != []
    && (forall k :: 0 <= k < |p.reported| ==> (p.reported[k] == 100 <==> k == |p.reported| - 1))
    && |p.reported| <= EventLimit(increment) <= 100 / increment + 2
    && p.percentNext <= 200
  }

  lemma {:induction false} PrefixUnderway(p: Progress, size: u32, lengths: seq<u16>)
    requires Underway(p, size) && size * 100 < 0x1_0000_0000
    requires forall k :: 0 <= k < |lengths| ==> lengths[k] >= 1
    requires p.bytesRead + Sum(lengths) < size
    ensures Underway(AdvanceAll(p, size, lengths), size)
    decreases |lengths|
  {
    if lengths != [] {
      StaysUnderway(p, size, lengths[0]);
      PrefixUnderway(Advance(p, size, lengths[0]), size, lengths[1..]);
    }
  }

  lemma LastReported(p: Progress, size: u32, n: u16)
    requires Underway(p, size) && size * 100 < 0x1_0000_0000 && p.bytesRead + n == size
    ensures WellReported(Advance(p, size, n), p.percentIncrement)
  {
    LastPacket(p, size, n);
    LimitInWords(p.percentIncrement);
  }

  lemma {:induction false} RestReported(p: Progress, size: u32, lengths: seq<u16>)
    requires Underway(p, size) && size * 100 < 0x1_0000_0000
    requires forall k :: 0 <= k < |lengths| ==> lengths[k] >= 1
    requires p.bytesRead + Sum(lengths) == size
    ensures WellReported(AdvanceAll(p, size, lengths), p.percentIncrement)
    decreases |lengths|
  {
    var n, rest := lengths[0], lengths[1..];
    if rest == [] {
      LastReported(p, size, n);
    } else {
      assert Sum(rest) >= rest[0] >= 1;
      StaysUnderway(p, size, n);
      RestReported(Advance(p, size, n), size, rest);
    }
  }

  /** Whatever the packet lengths of an in-order download are, its status events are well reported, and
      no part of it short of the image completes it. */
  lemma {:induction false} StatusEvents(size: u32, increment: u8, lengths: seq<u16>)
    requires size > 0 && size * 100 < 0x1_0000_0000 && 1 <= increment <= 100
    requires forall k :: 0 <= k < |lengths| ==> lengths[k] >= 1
    ensures Sum(lengths) == size ==> WellReported(AdvanceAll(Start(increment), size, lengths), increment)
    ensures Sum(lengths) < size ==> !AdvanceAll(Start(increment), size, lengths).loadWaiting
  {
    PercentBounds(0, size);
    if Sum(lengths) == size { RestReported(Start(increment), size, lengths); }
    if Sum(lengths) < size { PrefixUnderway(Start(increment), size, lengths); }
  }

  // ---------- which events ----------

  /** The events of a sequence of packets: after each one the percentage reached is due if it is at least
      as many increments as there were events before, and 100 is due at the end in any case. */
  ghost function EventsDue(size: nat, increment: nat, lengths: seq<u16>): seq<int>
    requires size > 0
    decreases |lengths|
  {
    if lengths == [] then []
    else
      var before, sum := EventsDue(size, increment, lengths[..|lengths| - 1]), Sum(lengths);
      if sum * 100 / size >= |before| * increment then before + [sum * 100 / size]
      else if sum >= size then before + [100]
      else before
  }

  lemma {:induction false} AdvanceOneMore(p: Progress, size: u32, lengths: seq<u16>, n: u16)
    requires size > 0
    ensures AdvanceAll(p, size, lengths + [n]) == Advance(AdvanceAll(p, size, lengths), size, n)
    ensures Sum(lengths + [n]) == Sum(lengths) + n
    decreases |lengths|
  {
    if lengths == [] {
      assert lengths + [n] == [n] && [n][1..] == [];
    } else {
      assert (lengths + [n])[1..] == lengths[1..] + [n];
      AdvanceOneMore(Advance(p, size, lengths[0]), size, lengths[1..], n);
    }
  }

  /** In order, as far as the end of the image: the bytes read are the sum of the packets, and the events
      reported are exactly those due. */
  lemma {:induction false} EventsExact(size: u32, increment: u8, lengths: seq<u16>)
    requires size > 0 && size * 100 < 0x1_0000_0000 && 1 <= increment <= 100
    requires (forall k :: 0 <= k < |lengths| ==> lengths[k] >= 1) && Sum(lengths) <= size
    ensures var p := AdvanceAll(Start(increment), size, lengths);
            p.bytesRead == Sum(lengths) && p.reported == EventsDue(size, increment, lengths)
            && p.percentIncrement == increment
    decreases |lengths|
  {
    if lengths != [] {
      var front, n := lengths[..|lengths| - 1], lengths[|lengths| - 1];
      assert lengths == front + [n];
      AdvanceOneMore(Start(increment), size, front, n);
      EventsExact(size, increment, front);
      PercentBounds(0, size);
      PrefixUnderway(Start(increment), size, front);
      PercentBounds(Sum(lengths), size);
    }
  }

  lemma LimitInWords(increment: u8)
    requires 1 <= increment <= 100
    ensures EventLimit(increment) <= 100 / increment + 2
  {
    var inc := increment as int;
    var a, b := (99 + inc) / inc, 100 / inc;
    assert a * inc <= 99 + inc && 100 < b * inc + inc;
    assert (b + 2) * inc == b * inc + inc + inc;
    Cancel(a, b + 2, inc);
  }
}
