/** No binding mode is left on for ever. */
module PairingProofs {
  import opened PairingSpec

  ghost predicate CloseQueued(s: State) {
    exists k :: 0 <= k < |s.queue| && s.queue[k].Close?
  }

  /** A nonzero tag stands for a live timer of its mode. */
  ghost predicate TagLive(s: State, kind: Kind) {
    Of(s, kind).tag != 0 ==> Of(s, kind).tag in s.timers && s.timers[Of(s, kind).tag] == kind
  }

  /** An active mode has a live timer, or the CLOSE that will end it is queued. */
  ghost predicate Guarded(s: State, kind: Kind) {
    Of(s, kind).active ==> Of(s, kind).tag != 0 || CloseQueued(s)
  }

  ghost predicate TimersKept(s: State) {
    && s.nextSource > 0 && (forall t :: t in s.timers ==> 0 < t < s.nextSource)
    && TagLive(s, Button) && TagLive(s, Screen) && TagLive(s, OneTouch)
  }

  ghost predicate Kept(s: State) {
    && TimersKept(s)
    && !(s.button.active && s.screen.active)
    && Guarded(s, Button) && Guarded(s, Screen)
  }

  predicate AllOff(s: State) {
    !s.button.active && !s.screen.active && !s.oneTouch.active && !s.windowActive
  }

  // ---------- one step ----------

  lemma DestroyTimerKeeps(s: State, kind: Kind)
    requires TimersKept(s)
    ensures var d := DestroyTimer(s, kind);
            TimersKept(d) && Of(d, kind) == Mode(Of(s, kind).active, 0) && d.queue == s.queue
            && forall k: Kind :: k != kind ==> Of(d, k) == Of(s, k)
  {
  }

  lemma StartTimerKeeps(s: State, kind: Kind)
    requires TimersKept(s)
    ensures var c := StartTimer(s, kind);
            TimersKept(c) && Of(c, kind) == Mode(Of(s, kind).active, s.nextSource) && c.queue == s.queue
            && forall k: Kind :: k != kind ==> Of(c, k) == Of(s, k)
  {
  }

  lemma SetActiveKeeps(s: State, kind: Kind, active: bool)
    requires TimersKept(s)
    ensures var c := SetActive(s, kind, active);
            TimersKept(c) && Of(c, kind) == Mode(active, Of(s, kind).tag)
            && c.queue == s.queue && c.nextSource == s.nextSource
            && forall k: Kind :: k != kind ==> Of(c, k) == Of(s, k)
  {
  }

  lemma StopKeeps(s: State, kind: Kind)
    requires TimersKept(s)
    ensures var c := Stop(s, kind);
            TimersKept(c) && !Of(c, kind).active && c == c.(windowActive := s.windowActive, queue := s.queue)
            && forall k: Kind :: k != kind ==> Of(c, k) == Of(s, k)
  {
  }

  lemma {:induction false} StopAllEnds(s: State, kinds: seq<Kind>)
    requires TimersKept(s)
    ensures var c := StopAll(s, kinds);
            TimersKept(c) && c.queue == s.queue && (s.windowActive == c.windowActive)
            && forall k: Kind :: k in kinds || !Of(s, k).active ==> !Of(c, k).active
    decreases |kinds|
  {
    if kinds != [] {
      StopKeeps(s, kinds[0]);
      StopAllEnds(Stop(s, kinds[0]), kinds[1..]);
    }
  }

  lemma RecordKeeps(s: State, kind: Kind)
    requires TimersKept(s)
    ensures var c := Record(s, kind);
            TimersKept(c) && c.queue == s.queue && c.windowActive == s.windowActive
            && forall k: Kind :: Of(c, k) == Of(s, k)
  {
  }

  lemma CloseModeKeeps(s: State, kind: Kind)
    requires TimersKept(s)
    ensures var c := CloseMode(s, kind);
            TimersKept(c) && !Of(c, kind).active && c.queue == s.queue && c.windowActive == s.windowActive
            && forall k: Kind :: k != kind ==> Of(c, k) == Of(s, k)
  {
    StopKeeps(s, kind);
    RecordKeeps(Stop(s, kind), kind);
  }

  lemma {:induction false} CloseModesEnd(s: State, kinds: seq<Kind>)
    requires TimersKept(s)
    ensures var c := CloseModes(s, kinds);
            TimersKept(c) && c.queue == s.queue && c.windowActive == s.windowActive
            && forall k: Kind :: k in kinds || !Of(s, k).active ==> !Of(c, k).active
    decreases |kinds|
  {
    if kinds != [] {
      CloseModeKeeps(s, kinds[0]);
      CloseModesEnd(CloseMode(s, kinds[0]), kinds[1..]);
    }
  }

  /** Every processed CLOSE, whatever its reason, leaves all three modes off and the window inactive. */
  lemma CloseEndsAll(s: State, reason: Reason)
    requires TimersKept(s)
    ensures TimersKept(ClosePairing(s, reason)) && AllOff(ClosePairing(s, reason))
    ensures ClosePairing(s, reason).queue == s.queue
  {
    CloseModesEnd(CloseWindow(s, reason), ALL_MODES);
    var c := ClosePairing(s, reason);
    assert !Of(c, Button).active && !Of(c, Screen).active && !Of(c, OneTouch).active;
  }

  lemma StartPairingKeeps(s: State, mode: nat)
    requires Kept(s)
    ensures Kept(StartPairing(s, mode)) && Guarded(StartPairing(s, mode), OneTouch)
  {
    StopAllEnds(s, ALL_MODES);
    var off := StopAll(s, ALL_MODES);
    assert !Of(off, Button).active && !Of(off, Screen).active && !Of(off, OneTouch).active;
    StartFromOff(off, mode);
  }

  /** Switching a mode on together with its timer. */
  lemma OnWithTimer(s: State, kind: Kind)
    requires TimersKept(s)
    ensures var c := StartTimer(SetActive(s, kind, true), kind);
            TimersKept(c) && Of(c, kind).active && Of(c, kind).tag != 0 && c.queue == s.queue
            && forall k: Kind :: k != kind ==> Of(c, k) == Of(s, k)
  {
    SetActiveKeeps(s, kind, true);
    StartTimerKeeps(SetActive(s, kind, true), kind);
  }

  lemma StartFromOff(s: State, mode: nat)
    requires TimersKept(s) && !s.button.active && !s.screen.active && !s.oneTouch.active
    ensures Kept(SwitchOn(s, mode)) && Guarded(SwitchOn(s, mode), OneTouch)
  {
    var w := StatusSet(s.(windowActive := true), NoDiscoveryRequest).(autobind := false);
    assert TimersKept(w) && w.button == s.button && w.screen == s.screen && w.oneTouch == s.oneTouch;
    var kind := if mode == 0 then Button else if mode == 1 then Screen else OneTouch;
    OnWithTimer(w, kind);
    var c := SwitchOn(s, mode);
    assert Of(c, Button) == c.button && Of(c, Screen) == c.screen && Of(c, OneTouch) == c.oneTouch;
    assert forall k: Kind :: k != kind ==> !Of(w, k).active;
  }

  /** Switching one of two modes on with a new timer, and the other one off. */
  lemma Switched(s: State, on: Kind, off: Kind)
    requires Kept(s) && on != off && off != OneTouch && on != OneTouch
    ensures var d := SetActive(SetActive(DestroyTimer(s, on), on, true), off, false);
            var c := StartTimer(d, on);
            TimersKept(c) && Of(c, on).active && Of(c, on).tag != 0 && !Of(c, off).active
            && c.oneTouch == s.oneTouch && c.queue == s.queue
  {
    var a := DestroyTimer(s, on);
    DestroyTimerKeeps(s, on);
    SetActiveKeeps(a, on, true);
    SetActiveKeeps(SetActive(a, on, true), off, false);
    StartTimerKeeps(SetActive(SetActive(a, on, true), off, false), on);
    assert Of(s, OneTouch) == s.oneTouch;
  }

  /** Switching one of them off, with its timer. */
  lemma SwitchedOff(s: State, kind: Kind)
    requires TimersKept(s)
    ensures var c := SetActive(DestroyTimer(s, kind), kind, false);
            TimersKept(c) && !Of(c, kind).active && c.queue == s.queue
            && forall k: Kind :: k != kind ==> Of(c, k) == Of(s, k)
  {
    DestroyTimerKeeps(s, kind);
    SetActiveKeeps(DestroyTimer(s, kind), kind, false);
  }

  lemma ButtonPropertyKeeps(s: State, value: nat)
    requires Kept(s)
    ensures Kept(ButtonProperty(s, value)) && ButtonProperty(s, value).oneTouch == s.oneTouch
    ensures ButtonProperty(s, value).queue == s.queue
  {
    if value == 0 {
      SwitchedOff(s, Button);
      FewerModes(s, ButtonProperty(s, value));
      assert Of(ButtonProperty(s, value), OneTouch) == Of(s, OneTouch);
    } else if value == 1 {
      Switched(s, Button, Screen);
    }
  }

  lemma ScreenPropertyKeeps(s: State, value: nat)
    requires Kept(s)
    ensures Kept(ScreenProperty(s, value)) && ScreenProperty(s, value).oneTouch == s.oneTouch
    ensures ScreenProperty(s, value).queue == s.queue
  {
    if value == 0 {
      SwitchedOff(s, Screen);
      FewerModes(s, ScreenProperty(s, value));
      assert Of(ScreenProperty(s, value), OneTouch) == Of(s, OneTouch);
    } else if value == 1 {
      Switched(s, Screen, Button);
    }
  }

  lemma AutobindConfigKeeps(s: State, pass: nat, fail: nat)
    requires Kept(s)
    ensures Kept(AutobindConfig(s, pass, fail))
    ensures InRange(pass) && InRange(fail) ==> Guarded(AutobindConfig(s, pass, fail), OneTouch)
  {
    var d := DestroyTimer(s, OneTouch);
    DestroyTimerKeeps(s, OneTouch);
    SetActiveKeeps(d, Screen, false);
    StartTimerKeeps(SetActive(d, Screen, false), OneTouch);
  }

  /** A queued CLOSE stays queued until it is processed. */
  lemma QueueTail(s: State)
    requires s.queue != [] && !s.queue[0].Close? && CloseQueued(s)
    ensures CloseQueued(s.(queue := s.queue[1..]))
  {
    var k :| 0 <= k < |s.queue| && s.queue[k].Close?;
    assert s.queue[1..][k - 1].Close?;
  }

  lemma QueueGrows(s: State, m: Message)
    ensures CloseQueued(s) || m.Close? ==> CloseQueued(s.(queue := s.queue + [m]))
  {
    if k :| 0 <= k < |s.queue| && s.queue[k].Close? {
      assert (s.queue + [m])[k].Close?;
    }
    if m.Close? { assert (s.queue + [m])[|s.queue|].Close?; }
  }

  lemma FireKeeps(s: State, source: nat)
    requires Kept(s)
    ensures Kept(Fire(s, source)) && (source in s.timers ==> CloseQueued(Fire(s, source)))
  {
    QueueGrows(s, Close(Timeout));
    if source in s.timers { assert Fire(s, source).queue == s.queue + [Close(Timeout)]; }
  }

  /** A state that only lost modes, or kept them, and kept its queued CLOSE, is as guarded as before. */
  lemma FewerModes(s: State, c: State)
    requires Kept(s) && TimersKept(c)
    requires forall k: Kind :: Of(c, k) == Of(s, k) || !Of(c, k).active
    requires CloseQueued(s) ==> CloseQueued(c)
    ensures Kept(c) && (Guarded(s, OneTouch) ==> Guarded(c, OneTouch))
  {
    assert Of(c, Button) == Of(s, Button) || !c.button.active;
    assert Of(c, Screen) == Of(s, Screen) || !c.screen.active;
    assert Of(c, OneTouch) == Of(s, OneTouch) || !c.oneTouch.active;
  }

  lemma StopMessageKeeps(s: State, kind: Kind)
    requires Kept(s) && s.queue != [] && !s.queue[0].Close?
    ensures var c := Stop(s.(queue := s.queue[1..]), kind);
            Kept(c) && (Guarded(s, OneTouch) ==> Guarded(c, OneTouch))
  {
    var rest := s.(queue := s.queue[1..]);
    if CloseQueued(s) { QueueTail(s); }
    assert forall k: Kind :: Of(rest, k) == Of(s, k);
    StopKeeps(rest, kind);
    var c := Stop(rest, kind);
    assert c.queue == rest.queue;
    FewerModes(s, c);
  }

  lemma StatusMessageKeeps(s: State, status: BindStatus)
    requires Kept(s) && s.queue != [] && !s.queue[0].Close?
    ensures var c := StatusSet(s.(queue := s.queue[1..]), status);
            Kept(c) && (Guarded(s, OneTouch) ==> Guarded(c, OneTouch))
  {
    if CloseQueued(s) { QueueTail(s); }
    var rest := s.(queue := s.queue[1..]);
    var c := StatusSet(rest, status);
    assert c == rest.(status := c.status) && forall k: Kind :: Of(c, k) == Of(s, k);
    FewerModes(s, c);
  }

  lemma ProcessKeeps(s: State)
    requires Kept(s)
    ensures Kept(Process(s))
    ensures Guarded(s, OneTouch) ==> Guarded(Process(s), OneTouch)
  {
    if s.queue != [] {
      match s.queue[0] {
        case Close(reason) => CloseEndsAll(s.(queue := s.queue[1..]), reason);
        case StopButton => StopMessageKeeps(s, Button);
        case StopScreen => StopMessageKeeps(s, Screen);
        case StopOneTouch => StopMessageKeeps(s, OneTouch);
        case SetStatus(status) => StatusMessageKeeps(s, status);
      }
    }
  }

  lemma ProcessedQueue(s: State)
    requires Kept(s) && s.queue != []
    ensures Process(s).queue == s.queue[1..]
    ensures s.queue[0].Close? || AllOff(s) ==> AllOff(Process(s))
  {
    var rest := s.(queue := s.queue[1..]);
    match s.queue[0] {
      case Close(reason) => CloseEndsAll(rest, reason);
      case _ =>
    }
  }

  /** Every event keeps the two binding modes apart and each active one guarded. */
  lemma NextKeeps(s: State, e: Event)
    requires Kept(s)
    ensures Kept(Next(s, e))
  {
    match e
    case StartEvent(mode, _) => StartPairingKeeps(s, mode);
    case EndEvent(_) => CloseEndsAll(s, EndPairing);
    case ButtonEvent(value, _) => ButtonPropertyKeeps(s, value);
    case ScreenEvent(value, _) => ScreenPropertyKeeps(s, value);
    case AutobindEvent(pass, fail, _) => AutobindConfigKeeps(s, pass, fail);
    case TimerEvent(source) => FireKeeps(s, source);
    case PostEvent(message) => QueueGrows(s, message);
    case ProcessEvent => ProcessKeeps(s);
  }

  // ---------- every run ----------

  lemma {:induction false} RunKeeps(s: State, events: seq<Event>)
    requires Kept(s)
    ensures Kept(Run(s, events))
    decreases |events|
  {
    if events != [] {
      NextKeeps(s, events[0]);
      RunKeeps(Next(s, events[0]), events[1..]);
    }
  }

  /** In every reachable state button and screen binding are never both on, and each one that is on has a
      live timer or a CLOSE queued. */
  lemma ModesGuarded(events: seq<Event>)
    ensures var s := Run(INITIAL, events);
            && !(s.button.active && s.screen.active)
            && (s.button.active ==> (s.button.tag in s.timers && s.timers[s.button.tag] == Button) || CloseQueued(s))
            && (s.screen.active ==> (s.screen.tag in s.timers && s.timers[s.screen.tag] == Screen) || CloseQueued(s))
  {
    RunKeeps(INITIAL, events);
  }

  // ---------- no mode stays on ----------

  /** The main thread working off its queue. */
  function Drain(s: State, n: nat): State
    decreases n
  {
    if n == 0 then s else Drain(Process(s), n - 1)
  }

  lemma {:induction false} DrainEnds(s: State)
    requires Kept(s) && (AllOff(s) || CloseQueued(s))
    ensures AllOff(Drain(s, |s.queue|)) && Drain(s, |s.queue|).queue == []
    decreases |s.queue|
  {
    if s.queue != [] {
      ProcessKeeps(s);
      ProcessedQueue(s);
      if !s.queue[0].Close? && CloseQueued(s) { QueueTail(s); }
      DrainEnds(Process(s));
    }
  }

  /** From every reachable state with a binding mode on: once its timer, if it has one, has fired and the
      queue has been worked off, all modes are off and the window is inactive. */
  lemma ActiveModeEnds(events: seq<Event>, kind: Kind)
    requires kind != OneTouch && Of(Run(INITIAL, events), kind).active
    ensures var s := Run(INITIAL, events);
            var fired := if Of(s, kind).tag == 0 then s else Fire(s, Of(s, kind).tag);
            AllOff(Drain(fired, |fired.queue|))
  {
    RunKeeps(INITIAL, events);
    var s := Run(INITIAL, events);
    FireKeeps(s, Of(s, kind).tag);
    DrainEnds(if Of(s, kind).tag == 0 then s else Fire(s, Of(s, kind).tag));
  }

  // ---------- the third mode ----------

  /** An autobind configuration with a threshold out of range, while one-touch binding is on with no CLOSE
      queued, takes its timer away and gives it no other. */
  ghost predicate Strands(s: State, e: Event) {
    e.AutobindEvent? && e.networkValid && !(InRange(e.pass) && InRange(e.fail))
    && s.oneTouch.active && !CloseQueued(s)
  }

  lemma AutobindStrands(s: State, pass: nat, fail: nat)
    requires Kept(s) && Guarded(s, OneTouch)
    ensures Guarded(AutobindConfig(s, pass, fail), OneTouch) <==> !Strands(s, AutobindEvent(pass, fail, true))
  {
    AutobindConfigKeeps(s, pass, fail);
    DestroyTimerKeeps(s, OneTouch);
  }

  /** One-touch binding stays guarded across an event exactly when the event does not strand it. */
  lemma OneTouchGuardedExactly(s: State, e: Event)
    requires Kept(s) && Guarded(s, OneTouch)
    ensures Guarded(Next(s, e), OneTouch) <==> !Strands(s, e)
  {
    match e
    case StartEvent(mode, _) => StartPairingKeeps(s, mode);
    case EndEvent(_) => CloseEndsAll(s, EndPairing);
    case ButtonEvent(value, _) => ButtonPropertyKeeps(s, value);
    case ScreenEvent(value, _) => ScreenPropertyKeeps(s, value);
    case AutobindEvent(pass, fail, _) => AutobindStrands(s, pass, fail);
    case TimerEvent(source) => FireKeeps(s, source);
    case PostEvent(message) => QueueGrows(s, message);
    case ProcessEvent => ProcessKeeps(s);
  }

  /** A one-touch pairing, and then a configuration with thresholds of zero: the mode is on for good. */
  lemma OneTouchStranded()
    ensures var s := Run(INITIAL, [StartEvent(2, true), AutobindEvent(0, 0, true)]);
            s.oneTouch.active && s.timers == map[] && s.queue == []
  {
    var e1, e2 := StartEvent(2, true), AutobindEvent(0, 0, true);
    assert [e1, e2][1..] == [e2] && [e2][1..] == [];
    StopAllEnds(INITIAL, ALL_MODES);
    assert StopAll(INITIAL, ALL_MODES) == INITIAL by {
      assert ALL_MODES[1..] == [Screen, OneTouch] && [Screen, OneTouch][1..] == [OneTouch] && [OneTouch][1..] == [];
      assert StopAll(INITIAL, [OneTouch]) == INITIAL;
      assert StopAll(INITIAL, [Screen, OneTouch]) == INITIAL;
    }
    var s1 := Next(INITIAL, e1);
    assert s1.timers == map[1 := OneTouch] && s1.oneTouch == Mode(true, 1) && s1.queue == [];
    assert Run(s1, [e2]) == Next(s1, e2);
  }

  ghost predicate NeverStrands(s: State, events: seq<Event>)
    decreases |events|
  {
    events == [] || (!Strands(s, events[0]) && NeverStrands(Next(s, events[0]), events[1..]))
  }

  ghost predicate GuardedThroughout(s: State, events: seq<Event>)
    decreases |events|
  {
    Guarded(s, OneTouch) && (events == [] || GuardedThroughout(Next(s, events[0]), events[1..]))
  }

  lemma {:induction false} GuardedRun(s: State, events: seq<Event>)
    requires Kept(s) && Guarded(s, OneTouch)
    ensures GuardedThroughout(s, events) <==> NeverStrands(s, events)
    ensures NeverStrands(s, events) ==> Guarded(Run(s, events), OneTouch)
    decreases |events|
  {
    if events != [] {
      NextKeeps(s, events[0]);
      OneTouchGuardedExactly(s, events[0]);
      var next := Next(s, events[0]);
      if Guarded(next, OneTouch) {
        GuardedRun(next, events[1..]);
      } else {
        assert !GuardedThroughout(next, events[1..]);
      }
    }
  }

  /** Over every run, one-touch binding is guarded throughout exactly if no event strands it. */
  lemma OneTouchGuardedThroughout(events: seq<Event>)
    ensures GuardedThroughout(INITIAL, events) <==> NeverStrands(INITIAL, events)
  {
    GuardedRun(INITIAL, events);
  }

  /** And then it ends as the other two do. */
  lemma OneTouchEnds(events: seq<Event>)
    requires NeverStrands(INITIAL, events) && Run(INITIAL, events).oneTouch.active
    ensures var s := Run(INITIAL, events);
            var fired := if s.oneTouch.tag == 0 then s else Fire(s, s.oneTouch.tag);
            AllOff(Drain(fired, |fired.queue|))
  {
    RunKeeps(INITIAL, events);
    GuardedRun(INITIAL, events);
    var s := Run(INITIAL, events);
    FireKeeps(s, s.oneTouch.tag);
    DrainEnds(if s.oneTouch.tag == 0 then s else Fire(s, s.oneTouch.tag));
  }

  // ---------- what closing records ----------

  /** How many of the given modes, screen binding aside, are on. */
  function OthersOn(s: State, kinds: seq<Kind>): nat {
    if kinds == [] then 0
    else (if kinds[0] != Screen && Of(s, kinds[0]).active then 1 else 0) + OthersOn(s, kinds[1..])
  }

  lemma {:induction false} OthersOnSame(s: State, c: State, kinds: seq<Kind>)
    requires forall k :: k in kinds ==> Of(s, k) == Of(c, k)
    ensures OthersOn(s, kinds) == OthersOn(c, kinds)
  {
    if kinds != [] { OthersOnSame(s, c, kinds[1..]); }
  }

  ghost predicate Distinct(kinds: seq<Kind>) {
    forall i, j :: 0 <= i < j < |kinds| ==> kinds[i] != kinds[j]
  }

  /** Stopping a mode touches nothing but that mode and the timers. */
  lemma StopIs(s: State, kind: Kind)
    ensures var c := Stop(s, kind);
            && c.status == s.status && c.autobind == s.autobind
            && c.screenFailures == s.screenFailures && c.screenError == s.screenError
            && c.otherFailures == s.otherFailures && c.otherError == s.otherError
            && forall k: Kind :: k != kind ==> Of(c, k) == Of(s, k)
  {
  }

  lemma CloseModeRecords(s: State, kind: Kind)
    ensures var c, counted := CloseMode(s, kind), s.status != Success && Of(s, kind).active;
            && c.status == s.status && c.autobind == s.autobind
            && c.screenFailures == s.screenFailures + (if counted && kind == Screen then 1 else 0)
            && c.screenError == (if counted && kind == Screen then s.status else s.screenError)
            && c.otherFailures == s.otherFailures + (if counted && kind != Screen then 1 else 0)
            && c.otherError == (if counted && kind != Screen then s.status else s.otherError)
            && forall k: Kind :: k != kind ==> Of(c, k) == Of(s, k)
  {
    StopIs(s, kind);
    var d := Stop(s, kind);
    assert forall k: Kind :: Of(Record(d, kind), k) == Of(d, k);
  }

  lemma {:induction false} CloseModesRecord(s: State, kinds: seq<Kind>)
    requires Distinct(kinds)
    ensures var c, screenOn := CloseModes(s, kinds), Screen in kinds && s.screen.active;
            var counted := s.status != Success;
            && c.status == s.status && c.autobind == s.autobind
            && c.screenFailures == s.screenFailures + (if counted && screenOn then 1 else 0)
            && c.screenError == (if counted && screenOn then s.status else s.screenError)
            && c.otherFailures == s.otherFailures + (if counted then OthersOn(s, kinds) else 0)
            && c.otherError == (if counted && OthersOn(s, kinds) > 0 then s.status else s.otherError)
    decreases |kinds|
  {
    if kinds != [] {
      var c, rest := CloseMode(s, kinds[0]), kinds[1..];
      assert kinds[0] !in rest;
      CloseModeRecords(s, kinds[0]);
      CloseModesRecord(c, rest);
      assert Screen in rest ==> Of(c, Screen) == Of(s, Screen);
      OthersOnSame(s, c, rest);
    }
  }

  /** What closing leaves as the status: that of the reason for an active window, and the old one when the
      window was closed already or its end was asked for. */
  function StatusAfter(s: State, reason: Reason): BindStatus {
    if !s.windowActive || reason == EndPairing then s.status
    else if reason == PairingSuccess then Success
    else WindowTimeout
  }

  /** What closing records: one failure for each mode that was on, with the status then reached as its
      error, unless that is a success; autobinding comes back on when an active window is ended or times
      out. */
  lemma CloseRecords(s: State, reason: Reason)
    ensures var c, status := ClosePairing(s, reason), StatusAfter(s, reason);
            var counted := status != Success;
            var on := (if s.button.active then 1 else 0) + (if s.oneTouch.active then 1 else 0);
            && c.status == status
            && c.autobind == (s.autobind || (s.windowActive && reason != PairingSuccess))
            && c.screenFailures == s.screenFailures + (if counted && s.screen.active then 1 else 0)
            && c.screenError == (if counted && s.screen.active then status else s.screenError)
            && c.otherFailures == s.otherFailures + (if counted then on else 0)
            && c.otherError == (if counted && on > 0 then status else s.otherError)
  {
    var w := CloseWindow(s, reason);
    CloseModesRecord(w, ALL_MODES);
    OthersOfAll(w);
  }

  lemma OthersOfAll(s: State)
    ensures OthersOn(s, ALL_MODES) == (if s.button.active then 1 else 0) + (if s.oneTouch.active then 1 else 0)
  {
    var all := ALL_MODES;
    assert all[1..] == [Screen, OneTouch] && [Screen, OneTouch][1..] == [OneTouch] && [OneTouch][1..] == [];
    assert OthersOn(s, [OneTouch]) == if s.oneTouch.active then 1 else 0;
    assert OthersOn(s, [Screen, OneTouch]) == OthersOn(s, [OneTouch]);
  }
}
