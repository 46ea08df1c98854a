/** Which IR remotes were seen today and yesterday: two slots that roll with the day, kept in memory and
    in a 14-byte database record. */
module IrUsage {
  import opened Words

  const SECONDS_PER_DAY := 86400

  datatype Remote = XR2 | XR5 | XR11 | XR15 | OtherRemote

  datatype Usage = Usage(xr2: bool, xr5: bool, xr11: bool, xr15: bool, remote: bool)

  const UNSEEN := Usage(false, false, false, false, false)

  function Saw(u: Usage, r: Remote): bool {
    match r
    case XR2 => u.xr2 case XR5 => u.xr5 case XR11 => u.xr11 case XR15 => u.xr15 case OtherRemote => u.remote
  }

  function Seeing(u: Usage, r: Remote): Usage {
    match r
    case XR2 => u.(xr2 := true) case XR5 => u.(xr5 := true) case XR11 => u.(xr11 := true)
    case XR15 => u.(xr15 := true) case OtherRemote => u.(remote := true)
  }

  /** What is in memory: the slots of the day counted from 1970, and of the day before it. */
  datatype Memory = Memory(today: Usage, yesterday: Usage, day: u32)

  const BLANK := Memory(UNSEEN, UNSEEN, 0)

  // ---------- the record ----------

  function Flag(b: bool): u8 { if b then 1 else 0 }

  function Encode(m: Memory): seq<u8> {
    [Flag(m.today.xr2), Flag(m.today.xr5), Flag(m.today.xr11), Flag(m.today.xr15), Flag(m.today.remote),
     Flag(m.yesterday.xr2), Flag(m.yesterday.xr5), Flag(m.yesterday.xr11), Flag(m.yesterday.xr15),
     Flag(m.yesterday.remote),
     U8(m.day), U8(m.day / 0x100), U8(m.day / 0x1_0000), U8(m.day / 0x100_0000)]
  }

  function Decode(d: seq<u8>): Memory
    requires |d| == 14
  {
    Memory(Usage(d[0] != 0, d[1] != 0, d[2] != 0, d[3] != 0, d[4] != 0),
           Usage(d[5] != 0, d[6] != 0, d[7] != 0, d[8] != 0, d[9] != 0),
           U32((d[13] as int) * 0x100_0000 + (d[12] as int) * 0x1_0000 + (d[11] as int) * 0x100 + d[10]))
  }

  /** The record gives back the memory it was written from. */
  lemma RecordRoundTrip(m: Memory)
    ensures |Encode(m)| == 14 && Decode(Encode(m)) == m
  {
    DayBytes(m.day);
  }

  /** Which byte of the record is which: the five flags of today, those of yesterday, and the day, lowest byte
      first. */
  lemma RecordLayout(m: Memory)
    ensures var d, t, y := Encode(m), m.today, m.yesterday;
            && |d| == 14 && d[..5] == Flags(t) && d[5..10] == Flags(y)
            && d[10] == m.day % 0x100 && d[11] == m.day / 0x100 % 0x100
            && d[12] == m.day / 0x1_0000 % 0x100 && d[13] == m.day / 0x100_0000
  {
    ByteOf(m.day);
    ByteOf(m.day / 0x100);
    ByteOf(m.day / 0x1_0000);
    ByteOf(m.day / 0x100_0000);
  }

  ghost function Flags(u: Usage): seq<u8> {
    [if u.xr2 then 1 else 0, if u.xr5 then 1 else 0, if u.xr11 then 1 else 0, if u.xr15 then 1 else 0,
     if u.remote then 1 else 0]
  }

  lemma ByteOf(n: nat)
    ensures U8(n) == n % 0x100
  {
  }

  lemma DayBytes(day: u32)
    ensures U8(day / 0x100_0000) * 0x100_0000 + U8(day / 0x1_0000) * 0x1_0000 + U8(day / 0x100) * 0x100 + U8(day) == day
  {
    var n: int := day;
    assert n / 0x1_0000 == n / 0x100 / 0x100 && n / 0x100_0000 == n / 0x1_0000 / 0x100;
  }

  // ---------- the steps ----------

  /** Memory, the stored record (empty before the first write), and the last orderly shutdown. */
  datatype State = State(memory: Memory, record: seq<u8>, shutdownTime: nat)

  function DayOf(time: nat): u32 { U32(time / SECONDS_PER_DAY) }

  /** Rolls the slots to the day it is, and tells whether the day changed. */
  function DayChange(m: Memory, shutdownTime: nat, time: nat): (Memory, bool) {
    var change := U32(DayOf(time) - m.day);
    if time < shutdownTime || change == 0 then (m, false)
    else (Memory(UNSEEN, if change == 1 then m.today else UNSEEN, DayOf(time)), true)
  }

  function Write(s: State): State { s.(record := Encode(s.memory)) }

  /** A key, as far as it identifies a remote. A notification can also report another keypad or type. */
  datatype Key = Identifies(remote: Remote) | Notifies(remote: Remote, changed: bool) | Unrelated

  /** A control event from an IR or RF remote; `wellFormed` is its length check. */
  function ControlEvent(s: State, time: nat, key: Key, wellFormed: bool): State {
    var (rolled, dayChanged) := DayChange(s.memory, s.shutdownTime, time);
    if !wellFormed then s.(memory := rolled)
    else
      match key
      case Unrelated => if dayChanged then Write(s.(memory := rolled)) else s.(memory := rolled)
      case _ =>
        var seen := s.(memory := rolled.(today := Seeing(rolled.today, key.remote)));
        if dayChanged || !Saw(rolled.today, key.remote) || (key.Notifies? && key.changed) then Write(seen) else seen
  }

  /** Somebody asks for the usage. */
  function Query(s: State, time: nat): State {
    var (rolled, dayChanged) := DayChange(s.memory, s.shutdownTime, time);
    if dayChanged then Write(s.(memory := rolled)) else s.(memory := rolled)
  }

  function Shutdown(s: State, time: nat): State {
    if s.shutdownTime < time then s.(shutdownTime := time) else s
  }

  /** A restart: memory starts blank and is read back from the record, if there is one. */
  function Restart(s: State, time: nat): State {
    if |s.record| != 14 then s.(memory := BLANK)
    else
      var (rolled, dayChanged) := DayChange(Decode(s.record), s.shutdownTime, time);
      if dayChanged then Write(s.(memory := rolled)) else s.(memory := rolled)
  }

  datatype Event =
    | KeyEvent(time: nat, key: Key)
    | QueryEvent(time: nat)
    | ShutdownEvent(time: nat)
    | RestartEvent(time: nat)

  function Next(s: State, e: Event): State {
    match e
    case KeyEvent(time, key) => ControlEvent(s, time, key, true)
    case QueryEvent(time) => Query(s, time)
    case ShutdownEvent(time) => Shutdown(s, time)
    case RestartEvent(time) => Restart(s, time)
  }

  function Run(s: State, events: seq<Event>): State {
    if events == [] then s else Next(Run(s, events[..|events| - 1]), events[|events| - 1])
  }

  const INITIAL := State(BLANK, [], 0)

  class UsageTracker {
    var today: Usage
    var yesterday: Usage
    var day: u32
    var record: seq<u8>
    var shutdownTime: nat

    ghost function View(): State
      reads this
    {
      State(Memory(today, yesterday, day), record, shutdownTime)
    }

    constructor ()
      ensures View() == INITIAL
    {
      today, yesterday, day, record, shutdownTime := UNSEEN, UNSEEN, 0, [], 0;
    }

    method HandleDayChange(time: nat) returns (changed: bool)
      modifies `today, `yesterday, `day
      ensures (Memory(today, yesterday, day), changed)
           == DayChange(old(View()).memory, shutdownTime, time)
    {
      if time < shutdownTime {
        return false;
      }
      var now := DayOf(time);
      var dayChange := U32(now - day);
      if dayChange == 0 {
        return false;
      }
      yesterday := if dayChange == 1 then today else UNSEEN;
      today, day := UNSEEN, now;
      return true;
    }

    method WriteRecord()
      modifies `record
      ensures View() == Write(old(View()))
    {
      record := [Flag(today.xr2), Flag(today.xr5), Flag(today.xr11), Flag(today.xr15), Flag(today.remote),
                 Flag(yesterday.xr2), Flag(yesterday.xr5), Flag(yesterday.xr11), Flag(yesterday.xr15),
                 Flag(yesterday.remote),
                 U8(day), U8(day / 0x100), U8(day / 0x1_0000), U8(day / 0x100_0000)];
    }

    method HandleControlEvent(time: nat, key: Key, wellFormed: bool)
      modifies this
      ensures View() == ControlEvent(old(View()), time, key, wellFormed)
    {
      var needToUpdate := HandleDayChange(time);
      if !wellFormed {
        return;
      }
      if !key.Unrelated? {
        if !Saw(today, key.remote) || (key.Notifies? && key.changed) {
          today := Seeing(today, key.remote);
          needToUpdate := true;
        }
      }
      if needToUpdate {
        WriteRecord();
      }
    }

    method HandleQuery(time: nat) returns (usage: Memory)
      modifies this
      ensures View() == Query(old(View()), time) && usage == View().memory
    {
      var dayChanged := HandleDayChange(time);
      if dayChanged {
        WriteRecord();
      }
      usage := Memory(today, yesterday, day);
    }

    /** Reads the record at start-up, when memory is blank; only a change of day is written back. */
    method ReadRecord(time: nat)
      modifies this
      ensures View() == Restart(old(View()), time)
    {
      today, yesterday, day := UNSEEN, UNSEEN, 0;
      if |record| == 14 {
        var read := Decode(record);
        today, yesterday, day := read.today, read.yesterday, read.day;
        var dayChanged := HandleDayChange(time);
        if dayChanged {
          WriteRecord();
        }
      }
    }
  }

  // ---------- the full history ----------

  /** A remote seen on a day. */
  datatype Sighting = Sighting(day: int, remote: Remote)

  function Sightings(events: seq<Event>): set<Sighting> {
    if events == [] then {}
    else
      var e := events[|events| - 1];
      Sightings(events[..|events| - 1])
      + if e.KeyEvent? && !e.key.Unrelated? then {Sighting(DayOf(e.time), e.key.remote)} else {}
  }

  /** Each slot holds what the history has for its day. */
  ghost predicate SlotsRight(m: Memory, history: set<Sighting>) {
    && (forall r: Remote :: Saw(m.today, r) <==> Sighting(m.day, r) in history)
    && (forall r: Remote :: Saw(m.yesterday, r) <==> Sighting(m.day - 1, r) in history)
  }

  ghost predicate Refines(m: Memory, history: set<Sighting>) {
    SlotsRight(m, history) && forall h :: h in history ==> 0 <= h.day <= m.day
  }

  /** The record is the memory, or neither has been touched. */
  ghost predicate Persisted(s: State) {
    s.record == Encode(s.memory) || (s.record == [] && s.memory == BLANK)
  }

  /** Rolling to the same or a later day keeps the slots right. */
  lemma RollRefines(m: Memory, history: set<Sighting>, shutdownTime: nat, time: nat)
    requires Refines(m, history) && shutdownTime <= time && m.day <= DayOf(time)
    ensures var (rolled, changed) := DayChange(m, shutdownTime, time);
            Refines(rolled, history) && rolled.day == DayOf(time) && (changed <==> rolled != m)
  {
    var (rolled, _) := DayChange(m, shutdownTime, time);
    var change := DayOf(time) - m.day;
    assert U32(change) == change;
    forall r: Remote
      ensures Saw(rolled.today, r) <==> Sighting(rolled.day, r) in history
      ensures Saw(rolled.yesterday, r) <==> Sighting(rolled.day - 1, r) in history
    {
      assert change > 0 ==> Sighting(rolled.day, r) !in history;
      assert change > 1 ==> Sighting(rolled.day - 1, r) !in history;
    }
  }

  /** A clock set back rolls the slots too; they stay right exactly if nothing was seen on the day gone
      back to or the day before it. */
  lemma ClockSetBack(m: Memory, history: set<Sighting>, shutdownTime: nat, time: nat)
    requires Refines(m, history) && shutdownTime <= time && DayOf(time) < m.day < 0xFFFF_FFFF
    ensures SlotsRight(DayChange(m, shutdownTime, time).0, history)
            <==> forall h :: h in history ==> h.day != DayOf(time) && h.day != DayOf(time) - 1
  {
    var rolled := DayChange(m, shutdownTime, time).0;
    assert rolled == Memory(UNSEEN, UNSEEN, DayOf(time));
    if SlotsRight(rolled, history) {
      forall h | h in history ensures h.day != DayOf(time) && h.day != DayOf(time) - 1 {
        assert h == Sighting(h.day, h.remote);
        assert !Saw(rolled.today, h.remote) && !Saw(rolled.yesterday, h.remote);
      }
    }
  }

  /** A sighting on the current day is one more entry of the history and of today's slot. */
  lemma SeeingRefines(m: Memory, history: set<Sighting>, r: Remote)
    requires Refines(m, history)
    ensures Refines(m.(today := Seeing(m.today, r)), history + {Sighting(m.day, r)})
  {
    var m', history' := m.(today := Seeing(m.today, r)), history + {Sighting(m.day, r)};
    forall q: Remote
      ensures Saw(m'.today, q) <==> Sighting(m'.day, q) in history'
      ensures Saw(m'.yesterday, q) <==> Sighting(m'.day - 1, q) in history'
    {
      assert Saw(m'.today, q) <==> Saw(m.today, q) || q == r;
    }
  }

  // ---------- every run ----------

  /** Times that do not go back, on days a 32-bit count can tell. */
  ghost predicate Clocked(events: seq<Event>) {
    && (forall i, j :: 0 <= i <= j < |events| ==> events[i].time <= events[j].time)
    && (forall i :: 0 <= i < |events| ==> events[i].time / SECONDS_PER_DAY < 0x1_0000_0000)
  }

  ghost predicate Kept(s: State, events: seq<Event>) {
    && Refines(s.memory, Sightings(events)) && Persisted(s)
    && (events == [] ==> s == INITIAL)
    && (events != [] ==> s.shutdownTime <= events[|events| - 1].time
                         && s.memory.day <= DayOf(events[|events| - 1].time))
  }

  lemma DaysDoNotGoBack(a: nat, b: nat)
    requires a <= b && b / SECONDS_PER_DAY < 0x1_0000_0000
    ensures DayOf(a) <= DayOf(b)
  {
    assert a / SECONDS_PER_DAY <= b / SECONDS_PER_DAY;
  }

  /** A restart reads back what a day change alone would have left in memory. */
  lemma RestartLosesNothing(s: State, time: nat)
    requires s.record == Encode(s.memory)
    ensures Restart(s, time) == Query(s, time)
  {
    RecordRoundTrip(s.memory);
  }

  lemma StepKeeps(s: State, history: set<Sighting>, e: Event)
    requires Refines(s.memory, history) && Persisted(s) && s.shutdownTime <= e.time && s.memory.day <= DayOf(e.time)
    ensures var s' := Next(s, e);
            && Persisted(s') && s'.shutdownTime <= e.time && s'.memory.day <= DayOf(e.time)
            && Refines(s'.memory, if e.KeyEvent? && !e.key.Unrelated? then
                                    history + {Sighting(DayOf(e.time), e.key.remote)} else history)
  {
    RollRefines(s.memory, history, s.shutdownTime, e.time);
    var (rolled, changed) := DayChange(s.memory, s.shutdownTime, e.time);
    match e
    case KeyEvent(time, key) =>
      if !key.Unrelated? {
        SeeingRefines(rolled, history, key.remote);
        KeyPersists(s, e.time, key);
      }
    case RestartEvent(time) =>
      if s.record == Encode(s.memory) {
        RestartLosesNothing(s, time);
      }
    case _ =>
  }

  /** A key event that changes memory writes the record. */
  lemma KeyPersists(s: State, time: nat, key: Key)
    requires Persisted(s) && !key.Unrelated?
    ensures Persisted(ControlEvent(s, time, key, true))
  {
    var (rolled, changed) := DayChange(s.memory, s.shutdownTime, time);
    if !changed && Saw(rolled.today, key.remote) {
      assert rolled == s.memory && rolled.today == Seeing(rolled.today, key.remote);
    }
  }

  lemma {:induction false} RunKeeps(events: seq<Event>)
    requires Clocked(events)
    ensures Kept(Run(INITIAL, events), events)
    decreases |events|
  {
    if events == [] {
      assert Refines(BLANK, {});
    } else {
      var front, e := events[..|events| - 1], events[|events| - 1];
      forall i | 0 <= i < |front| ensures front[i] == events[i] {}
      RunKeeps(front);
      if front != [] { DaysDoNotGoBack(front[|front| - 1].time, e.time); }
      StepKeeps(Run(INITIAL, front), Sightings(front), e);
      assert Sightings(events) == Sightings(front)
        + if e.KeyEvent? && !e.key.Unrelated? then {Sighting(DayOf(e.time), e.key.remote)} else {};
    }
  }

  /** The two-slot record stands for the full history: with a clock that does not go back, over every run
      of keys, queries, shutdowns and restarts, each slot tells exactly the remotes seen on its day, and
      the stored record reads back as the memory. */
  lemma TwoSlotsRefineHistory(events: seq<Event>)
    requires Clocked(events)
    ensures var s := Run(INITIAL, events);
            && (forall r: Remote :: Saw(s.memory.today, r) <==> Sighting(s.memory.day, r) in Sightings(events))
            && (forall r: Remote :: Saw(s.memory.yesterday, r) <==> Sighting(s.memory.day - 1, r) in Sightings(events))
            && (|s.record| == 14 ==> Decode(s.record) == s.memory)
            && (|s.record| != 14 ==> s.memory == BLANK && Sightings(events) == {})
  {
    RunKeeps(events);
    KeptTells(Run(INITIAL, events), Sightings(events));
  }

  lemma KeptTells(s: State, history: set<Sighting>)
    requires Refines(s.memory, history) && Persisted(s)
    ensures forall r: Remote :: Saw(s.memory.today, r) <==> Sighting(s.memory.day, r) in history
    ensures forall r: Remote :: Saw(s.memory.yesterday, r) <==> Sighting(s.memory.day - 1, r) in history
    ensures |s.record| == 14 ==> Decode(s.record) == s.memory
    ensures |s.record| != 14 ==> s.memory == BLANK && history == {}
  {
    RecordRoundTrip(s.memory);
    if |s.record| != 14 { BlankIsUnseen(history); }
  }

  lemma BlankIsUnseen(history: set<Sighting>)
    requires Refines(BLANK, history)
    ensures history == {}
  {
    assert forall r: Remote :: !Saw(UNSEEN, r);
    forall h | h in history ensures h == Sighting(0, h.remote) && !Saw(UNSEEN, h.remote) {
    }
  }

  /** An event of the wrong length rolls the slots and returns before the record is written: the record is
      still the memory exactly if the day had not changed. */
  lemma MalformedEventStale(s: State, time: nat, key: Key)
    requires s.record == Encode(s.memory)
    ensures var s' := ControlEvent(s, time, key, false);
            s'.record == Encode(s'.memory) <==> !DayChange(s.memory, s.shutdownTime, time).1
  {
    var s' := ControlEvent(s, time, key, false);
    RecordRoundTrip(s.memory);
    RecordRoundTrip(s'.memory);
  }

  // ---------- the roll and the shutdown time ----------

  /** The roll, on a day a 32-bit count can tell: not before the shutdown time and not on the same day; else
      today becomes yesterday if it was the day before, and both are cleared otherwise. */
  lemma RollExactly(m: Memory, shutdownTime: nat, time: nat)
    requires time / 86400 < 0x1_0000_0000
    ensures var (rolled, changed), day := DayChange(m, shutdownTime, time), time / 86400;
            if time < shutdownTime || day == m.day then rolled == m && !changed
            else
              && changed && rolled.day == day && (forall r: Remote :: !Saw(rolled.today, r))
              && if day == m.day + 1 || (day == 0 && m.day == 0xFFFF_FFFF) then rolled.yesterday == m.today
                 else forall r: Remote :: !Saw(rolled.yesterday, r)
  {
  }

  /** Before the shutdown time a query changes nothing and a restart only reads the record back; a key is
      still noted, on whatever day the slots are, and the slots stay on it. */
  lemma BeforeShutdownTime(s: State, time: nat, key: Key)
    requires time < s.shutdownTime
    ensures Query(s, time) == s
    ensures |s.record| == 14 ==> Restart(s, time) == s.(memory := Decode(s.record))
    ensures var m := ControlEvent(s, time, key, true).memory;
            && m.day == s.memory.day && m.yesterday == s.memory.yesterday
            && forall r: Remote ::
                 Saw(m.today, r) <==> Saw(s.memory.today, r) || (!key.Unrelated? && key.remote == r)
  {
  }

  /** An event that identifies a remote on a day. */
  ghost predicate SeenAt(e: Event, r: Remote, day: int) {
    e.KeyEvent? && !e.key.Unrelated? && e.key.remote == r && e.time / 86400 == day
  }

  lemma {:induction false} SightingsAre(events: seq<Event>, r: Remote, day: int)
    requires forall i :: 0 <= i < |events| ==> events[i].time / SECONDS_PER_DAY < 0x1_0000_0000
    ensures Sighting(day, r) in Sightings(events) <==> exists i :: 0 <= i < |events| && SeenAt(events[i], r, day)
    decreases |events|
  {
    if events != [] {
      var front, e := events[..|events| - 1], events[|events| - 1];
      assert forall i :: 0 <= i < |front| ==> front[i] == events[i];
      SightingsAre(front, r, day);
      if i :| 0 <= i < |events| && SeenAt(events[i], r, day) {
        if i < |front| { assert SeenAt(front[i], r, day); }
      }
      if i :| 0 <= i < |front| && SeenAt(front[i], r, day) { assert SeenAt(events[i], r, day); }
      if Sighting(day, r) in Sightings(events) && Sighting(day, r) !in Sightings(front) {
        assert SeenAt(events[|events| - 1], r, day);
      }
    }
  }

  lemma SlotsTell(m: Memory, events: seq<Event>, r: Remote)
    requires SlotsRight(m, Sightings(events))
    requires forall i :: 0 <= i < |events| ==> events[i].time / SECONDS_PER_DAY < 0x1_0000_0000
    ensures Saw(m.today, r) <==> exists i :: 0 <= i < |events| && SeenAt(events[i], r, m.day)
    ensures Saw(m.yesterday, r) <==> exists i :: 0 <= i < |events| && SeenAt(events[i], r, m.day - 1)
  {
    SightingsAre(events, r, m.day);
    SightingsAre(events, r, m.day - 1);
  }

  lemma QueryKeeps(events: seq<Event>, time: nat)
    requires Clocked(events + [QueryEvent(time)])
    ensures var m := Run(INITIAL, events + [QueryEvent(time)]).memory;
            m.day == time / 86400 && SlotsRight(m, Sightings(events))
  {
    var all, s := events + [QueryEvent(time)], Run(INITIAL, events);
    assert all[..|all| - 1] == events && all[|all| - 1] == QueryEvent(time);
    assert Clocked(events) by { forall i | 0 <= i < |events| ensures events[i] == all[i] {} }
    RunKeeps(events);
    if events != [] {
      assert all[|events| - 1] == events[|events| - 1];
      DaysDoNotGoBack(events[|events| - 1].time, time);
    }
    RollRefines(s.memory, Sightings(events), s.shutdownTime, time);
    assert Run(INITIAL, all) == Query(s, time);
  }

  /** What a query tells, in plain time: with a clock that does not go back, a remote is in today's slot
      exactly if one of its keys came on the day of the query, and in yesterday's exactly if one came on the
      day before. */
  lemma QueryTells(events: seq<Event>, time: nat, r: Remote)
    requires Clocked(events + [QueryEvent(time)])
    ensures var m := Run(INITIAL, events + [QueryEvent(time)]).memory;
            && m.day == time / 86400
            && (Saw(m.today, r) <==> exists i :: 0 <= i < |events| && SeenAt(events[i], r, time / 86400))
            && (Saw(m.yesterday, r) <==> exists i :: 0 <= i < |events| && SeenAt(events[i], r, time / 86400 - 1))
  {
    QueryKeeps(events, time);
    var all := events + [QueryEvent(time)];
    assert forall i :: 0 <= i < |events| ==> events[i] == all[i];
    SlotsTell(Run(INITIAL, all).memory, events, r);
  }

  /** The time of the latest shutdown. */
  ghost function Latest(events: seq<Event>): nat {
    if events == [] then 0
    else
      var before, e := Latest(events[..|events| - 1]), events[|events| - 1];
      if e.ShutdownEvent? && e.time > before then e.time else before
  }

  lemma NextShutdown(s: State, e: Event)
    ensures Next(s, e).shutdownTime == if e.ShutdownEvent? && e.time > s.shutdownTime then e.time else s.shutdownTime
  {
  }

  /** The shutdown time is that of the latest shutdown of the run. */
  lemma {:induction false} LatestShutdown(events: seq<Event>)
    ensures Run(INITIAL, events).shutdownTime == Latest(events)
    decreases |events|
  {
    if events != [] {
      LatestShutdown(events[..|events| - 1]);
      NextShutdown(Run(INITIAL, events[..|events| - 1]), events[|events| - 1]);
    }
  }
}
