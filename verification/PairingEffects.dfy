/** What each pairing request and message does, field by field. */
module PairingEffects {
  import opened PairingSpec
  import opened PairingProofs

  /** The mode's timer runs, and is its own. */
  ghost predicate Timed(s: State, mode: Mode, kind: Kind) {
    mode.tag in s.timers && s.timers[mode.tag] == kind
  }

  /** A timer gone: the one a tag stood for, if any. */
  function Without(timers: map<nat, Kind>, tag: nat): map<nat, Kind> {
    if tag == 0 then timers else timers - {tag}
  }

  /** A timer gone if its mode was on. */
  function WithoutActive(timers: map<nat, Kind>, mode: Mode): map<nat, Kind> {
    if mode.active then Without(timers, mode.tag) else timers
  }

  /** What requests about the modes leave alone. */
  ghost predicate RestKept(s: State, c: State) {
    && c.queue == s.queue && c.screenFailures == s.screenFailures && c.screenError == s.screenError
    && c.otherFailures == s.otherFailures && c.otherError == s.otherError
  }

  ghost predicate WindowKept(s: State, c: State) {
    c.windowActive == s.windowActive && c.status == s.status && c.autobind == s.autobind
  }

  /** At first everything is off, no timer runs, nothing is queued and nothing has been counted. */
  lemma InitiallyOff()
    ensures AllOff(INITIAL) && INITIAL.timers == map[] && INITIAL.queue == [] && !INITIAL.autobind
    ensures INITIAL.button.tag == INITIAL.screen.tag == INITIAL.oneTouch.tag == 0
    ensures INITIAL.screenFailures == INITIAL.otherFailures == 0
  {
  }

  // ---------- starting ----------

  lemma StopOne(s: State, kind: Kind)
    ensures var c := Stop(s, kind);
            && RestKept(s, c) && WindowKept(s, c) && c.nextSource == s.nextSource
            && Of(c, kind) == (if Of(s, kind).active then Mode(false, 0) else Of(s, kind))
            && c.timers == WithoutActive(s.timers, Of(s, kind))
            && forall k: Kind :: k != kind ==> Of(c, k) == Of(s, k)
  {
  }

  lemma InTurn(s: State)
    ensures StopAll(s, ALL_MODES) == Stop(Stop(Stop(s, Button), Screen), OneTouch)
    ensures CloseModes(s, ALL_MODES) == CloseMode(CloseMode(CloseMode(s, Button), Screen), OneTouch)
  {
    var all := ALL_MODES;
    assert all[1..] == [Screen, OneTouch] && [Screen, OneTouch][1..] == [OneTouch] && [OneTouch][1..] == [];
    var a := Stop(s, Button);
    assert StopAll(a, [Screen, OneTouch]) == StopAll(Stop(a, Screen), [OneTouch]);
    var c := CloseMode(s, Button);
    assert CloseModes(c, [Screen, OneTouch]) == CloseModes(CloseMode(c, Screen), [OneTouch]);
  }

  lemma StopAllIs(s: State)
    ensures var c := StopAll(s, ALL_MODES);
            && RestKept(s, c) && WindowKept(s, c) && c.nextSource == s.nextSource
            && (forall k: Kind :: Of(c, k) == if Of(s, k).active then Mode(false, 0) else Of(s, k))
            && c.timers == WithoutActive(WithoutActive(WithoutActive(s.timers, s.button), s.screen), s.oneTouch)
  {
    InTurn(s);
    var a := Stop(s, Button);
    var b := Stop(a, Screen);
    StopOne(s, Button);
    StopOne(a, Screen);
    StopOne(b, OneTouch);
    assert Of(a, Screen) == Of(s, Screen) == s.screen && Of(b, OneTouch) == Of(a, OneTouch) == s.oneTouch;
    assert Of(b, Button) == Of(a, Button) && Of(s, Button) == s.button;
  }

  lemma SwitchOnIs(s: State, mode: nat)
    requires !s.button.active && !s.screen.active && !s.oneTouch.active
    ensures var c := SwitchOn(s, mode);
            && (c.button.active <==> mode == 0) && (c.screen.active <==> mode == 1)
            && (c.oneTouch.active <==> mode == 2)
            && (mode == 0 ==> Timed(c, c.button, Button)) && (mode == 1 ==> Timed(c, c.screen, Screen))
            && (mode == 2 ==> Timed(c, c.oneTouch, OneTouch))
            && c.timers.Keys == s.timers.Keys + (if mode <= 2 then {s.nextSource} else {})
            && c.windowActive && !c.autobind && c.status == NoDiscoveryRequest && RestKept(s, c)
  {
  }

  /** Starting a pairing: with mode 0 button binding is on, with 1 screen binding, with 2 one-touch, each
      with a timer of its own, and no other; with any other number none is. The window is active, autobinding
      off and the status set back. The timers of the modes that were on are gone and no others. */
  lemma StartedMode(s: State, mode: nat)
    requires Kept(s)
    ensures var c := Next(s, StartEvent(mode, true));
            && (c.button.active <==> mode == 0) && (c.screen.active <==> mode == 1)
            && (c.oneTouch.active <==> mode == 2)
            && (mode == 0 ==> Timed(c, c.button, Button)) && (mode == 1 ==> Timed(c, c.screen, Screen))
            && (mode == 2 ==> Timed(c, c.oneTouch, OneTouch))
            && c.timers.Keys
               == WithoutActive(WithoutActive(WithoutActive(s.timers, s.button), s.screen), s.oneTouch).Keys
                  + (if mode <= 2 then {s.nextSource} else {})
            && c.windowActive && !c.autobind && c.status == NoDiscoveryRequest && RestKept(s, c)
    ensures Next(s, StartEvent(mode, false)) == s
  {
    StopAllIs(s);
    var off := StopAll(s, ALL_MODES);
    assert !Of(off, Button).active && !Of(off, Screen).active && !Of(off, OneTouch).active;
    SwitchOnIs(off, mode);
  }

  // ---------- the properties ----------

  /** The button property: 0 switches button binding off and takes its timer; 1 switches it on with a new
      timer in place of the old one, and screen binding off but not its timer; others do nothing. */
  lemma ButtonSet(s: State, value: nat)
    requires Kept(s)
    ensures var c := Next(s, ButtonEvent(value, true));
            RestKept(s, c) && WindowKept(s, c) && c.oneTouch == s.oneTouch && c.screen.tag == s.screen.tag
            && if value == 0 then
                 c.button == Mode(false, 0) && c.screen == s.screen && c.timers == Without(s.timers, s.button.tag)
               else if value == 1 then
                 c.button.active && !c.screen.active && Timed(c, c.button, Button)
                 && c.timers.Keys == Without(s.timers, s.button.tag).Keys + {c.button.tag} && c.button.tag !in s.timers
               else c == s
    ensures Next(s, ButtonEvent(value, false)) == s
  {
  }

  /** The screen property, likewise. */
  lemma ScreenSet(s: State, value: nat)
    requires Kept(s)
    ensures var c := Next(s, ScreenEvent(value, true));
            RestKept(s, c) && WindowKept(s, c) && c.oneTouch == s.oneTouch && c.button.tag == s.button.tag
            && if value == 0 then
                 c.screen == Mode(false, 0) && c.button == s.button && c.timers == Without(s.timers, s.screen.tag)
               else if value == 1 then
                 c.screen.active && !c.button.active && Timed(c, c.screen, Screen)
                 && c.timers.Keys == Without(s.timers, s.screen.tag).Keys + {c.screen.tag} && c.screen.tag !in s.timers
               else c == s
    ensures Next(s, ScreenEvent(value, false)) == s
  {
  }

  lemma AutobindParts(s: State)
    requires Kept(s)
    ensures var d := DestroyTimer(s, OneTouch);
            var c := StartTimer(SetActive(d, Screen, false), OneTouch);
            && d == s.(oneTouch := Mode(s.oneTouch.active, 0), timers := Without(s.timers, s.oneTouch.tag))
            && c == d.(screen := Mode(false, s.screen.tag), oneTouch := Mode(s.oneTouch.active, s.nextSource),
                       timers := d.timers[s.nextSource := OneTouch], nextSource := s.nextSource + 1)
            && s.nextSource !in s.timers
  {
  }

  /** The autobind configuration: with both thresholds from 1 to 7 screen binding goes off and one-touch
      gets a new timer, on or not; with one out of range its timer goes and nothing else happens. */
  lemma AutobindSet(s: State, pass: nat, fail: nat)
    requires Kept(s)
    ensures var c := Next(s, AutobindEvent(pass, fail, true));
            RestKept(s, c) && WindowKept(s, c) && c.button == s.button && c.screen.tag == s.screen.tag
            && c.oneTouch.active == s.oneTouch.active
            && if 1 <= pass <= 7 && 1 <= fail <= 7 then
                 !c.screen.active && Timed(c, c.oneTouch, OneTouch) && c.oneTouch.tag !in s.timers
                 && c.timers.Keys == Without(s.timers, s.oneTouch.tag).Keys + {c.oneTouch.tag}
               else
                 c.oneTouch.tag == 0 && c.screen == s.screen && c.timers == Without(s.timers, s.oneTouch.tag)
    ensures Next(s, AutobindEvent(pass, fail, false)) == s
  {
    AutobindParts(s);
  }

  // ---------- timers and messages ----------

  /** A timer that fires is gone, queues a CLOSE for a timeout and clears its mode's tag; the mode stays on. */
  lemma TimerFired(s: State, source: nat)
    requires Kept(s)
    ensures var c := Next(s, TimerEvent(source));
            if source !in s.timers then c == s
            else
              && c == s.(button := c.button, screen := c.screen, oneTouch := c.oneTouch,
                         timers := s.timers - {source}, queue := s.queue + [Close(Timeout)])
              && c.button == (if s.timers[source] == Button then s.button.(tag := 0) else s.button)
              && c.screen == (if s.timers[source] == Screen then s.screen.(tag := 0) else s.screen)
              && c.oneTouch == (if s.timers[source] == OneTouch then s.oneTouch.(tag := 0) else s.oneTouch)
  {
  }

  /** A STOP ends the one mode it is for, if that is on, together with its timer. */
  lemma StopProcessed(s: State)
    requires s.queue != []
    ensures var c, m := Next(s, ProcessEvent), s.queue[0];
            && (m.StopButton? ==>
                  c == s.(queue := s.queue[1..], timers := WithoutActive(s.timers, s.button),
                          button := if s.button.active then Mode(false, 0) else s.button))
            && (m.StopScreen? ==>
                  c == s.(queue := s.queue[1..], timers := WithoutActive(s.timers, s.screen),
                          screen := if s.screen.active then Mode(false, 0) else s.screen))
            && (m.StopOneTouch? ==>
                  c == s.(queue := s.queue[1..], timers := WithoutActive(s.timers, s.oneTouch),
                          oneTouch := if s.oneTouch.active then Mode(false, 0) else s.oneTouch))
  {
  }

  /** A status message is taken over, but for a HAL failure after an ASB failure. */
  lemma StatusProcessed(s: State, status: BindStatus)
    requires s.queue != [] && s.queue[0] == SetStatus(status)
    ensures var c := Next(s, ProcessEvent);
            c == s.(queue := s.queue[1..], status := c.status)
            && (c.status == status || (status == HalFailure && c.status == s.status == AsbFailure))
            && (status == HalFailure && s.status == AsbFailure ==> c.status == AsbFailure)
  {
  }

  /** What was recorded when everything was closed for a reason. */
  ghost predicate ClosedFor(s: State, c: State, reason: Reason) {
    var on := (if s.button.active then 1 else 0) + (if s.oneTouch.active then 1 else 0);
    && AllOff(c)
    && c.status == (if !s.windowActive || reason == EndPairing then s.status
                    else if reason == PairingSuccess then Success else WindowTimeout)
    && c.autobind == (s.autobind || (s.windowActive && reason != PairingSuccess))
    && c.screenFailures == s.screenFailures + (if c.status != Success && s.screen.active then 1 else 0)
    && c.screenError == (if c.status != Success && s.screen.active then c.status else s.screenError)
    && c.otherFailures == s.otherFailures + (if c.status != Success then on else 0)
    && c.otherError == (if c.status != Success && on > 0 then c.status else s.otherError)
  }

  lemma CloseOne(s: State, kind: Kind)
    ensures CloseMode(s, kind).timers == WithoutActive(s.timers, Of(s, kind))
    ensures forall k: Kind :: k != kind ==> Of(CloseMode(s, kind), k) == Of(s, k)
  {
    StopOne(s, kind);
    var d := Stop(s, kind);
    assert Record(d, kind).timers == d.timers && forall k: Kind :: Of(Record(d, kind), k) == Of(d, k);
  }

  /** Closing takes the timers of the modes that were on and no others. */
  lemma CloseTimers(s: State, reason: Reason)
    ensures ClosePairing(s, reason).timers
         == WithoutActive(WithoutActive(WithoutActive(s.timers, s.button), s.screen), s.oneTouch)
  {
    var w := CloseWindow(s, reason);
    assert w.timers == s.timers;
    assert Of(w, Button) == s.button && Of(w, Screen) == s.screen && Of(w, OneTouch) == s.oneTouch;
    InTurn(w);
    var a := CloseMode(w, Button);
    CloseOne(w, Button);
    CloseOne(a, Screen);
    CloseOne(CloseMode(a, Screen), OneTouch);
    assert Of(a, Screen) == Of(w, Screen) && Of(CloseMode(a, Screen), OneTouch) == Of(a, OneTouch) == Of(w, OneTouch);
  }

  /** A CLOSE closes everything for its own reason, the end of pairing mode for the reason END. */
  lemma CloseProcessed(s: State)
    requires Kept(s)
    ensures s.queue != [] && s.queue[0].Close? ==>
              var c := Next(s, ProcessEvent);
              ClosedFor(s, c, s.queue[0].reason) && c.queue == s.queue[1..]
              && c.timers == WithoutActive(WithoutActive(WithoutActive(s.timers, s.button), s.screen), s.oneTouch)
    ensures var c := Next(s, EndEvent(true));
            ClosedFor(s, c, EndPairing) && c.queue == s.queue
            && c.timers == WithoutActive(WithoutActive(WithoutActive(s.timers, s.button), s.screen), s.oneTouch)
    ensures Next(s, EndEvent(false)) == s
  {
    CloseEndsAll(s, EndPairing);
    CloseRecords(s, EndPairing);
    CloseTimers(s, EndPairing);
    if s.queue != [] && s.queue[0].Close? {
      var rest, reason := s.(queue := s.queue[1..]), s.queue[0].reason;
      CloseEndsAll(rest, reason);
      CloseRecords(rest, reason);
      CloseTimers(rest, reason);
    }
  }
}
