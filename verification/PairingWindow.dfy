/** The Control Manager's pairing window, as its main thread handles it. */
module PairingWindow {
  import opened Options
  import opened PairingSpec

  class Manager {
    const networks: set<nat>
    var bindingButton: bool
    var bindingButtonTimeoutTag: nat
    var bindingScreenActive: bool
    var screenBindTimeoutTag: nat
    var oneTouchAutobindActive: bool
    var oneTouchAutobindTimeoutTag: nat
    var windowActive: bool
    var bindStatus: BindStatus
    var autobind: bool
    /** The main loop's live timeout sources. */
    var timers: map<nat, Kind>
    var nextSource: nat
    var queue: seq<Message>
    var screenFailures: nat
    var screenError: BindStatus
    var otherFailures: nat
    var otherError: BindStatus

    ghost function View(): State
      reads this
    {
      State(Mode(bindingButton, bindingButtonTimeoutTag), Mode(bindingScreenActive, screenBindTimeoutTag),
            Mode(oneTouchAutobindActive, oneTouchAutobindTimeoutTag), windowActive, bindStatus, autobind,
            timers, nextSource, queue, screenFailures, screenError, otherFailures, otherError)
    }

    constructor (networks: set<nat>)
      ensures this.networks == networks && View() == INITIAL
    {
      this.networks := networks;
      bindingButton, bindingButtonTimeoutTag := false, 0;
      bindingScreenActive, screenBindTimeoutTag := false, 0;
      oneTouchAutobindActive, oneTouchAutobindTimeoutTag := false, 0;
      windowActive, bindStatus, autobind := false, NoDiscoveryRequest, false;
      timers, nextSource, queue := map[], 1, [];
      screenFailures, screenError, otherFailures, otherError := 0, NoDiscoveryRequest, 0, NoDiscoveryRequest;
    }

    /** Requests are for all networks or for a known one. */
    predicate Known(network: Option<nat>) { network.None? || network.value in networks }

    predicate Concerns(network: Option<nat>, n: nat) { network.None? || network.value == n }

    /** Goes through the networks, to set the binding configuration of those the request is for. */
    method AnyNetwork(network: Option<nat>) returns (found: bool)
      ensures found <==> exists n :: n in networks && Concerns(network, n)
    {
      found := false;
      var left := networks;
      while left != {}
        invariant left <= networks
        invariant found <==> exists n :: n in networks && n !in left && Concerns(network, n)
        decreases |left|
      {
        var n :| n in left;
        left := left - {n};
        if Concerns(network, n) {
          found := true;
        }
      }
    }

    /** Registers a timeout source and returns its id. */
    method CreateTimeout(kind: Kind) returns (tag: nat)
      modifies `timers, `nextSource
      ensures tag == old(nextSource) && nextSource == tag + 1 && timers == old(timers)[tag := kind]
    {
      tag := nextSource;
      timers, nextSource := timers[tag := kind], nextSource + 1;
    }

    method DestroyTimeout(tag: nat)
      modifies `timers
      ensures timers == if tag == 0 then old(timers) else old(timers) - {tag}
    {
      if tag != 0 {
        timers := timers - {tag};
      }
    }

    method DestroyOneTouchTimer()
      modifies this
      ensures View() == DestroyTimer(old(View()), OneTouch)
    {
      DestroyTimeout(oneTouchAutobindTimeoutTag);
      oneTouchAutobindTimeoutTag := 0;
    }

    method StopMode(kind: Kind)
      modifies this
      ensures View() == Stop(old(View()), kind)
    {
      match kind {
        case Button =>
          if bindingButton {
            DestroyTimeout(bindingButtonTimeoutTag);
            bindingButton, bindingButtonTimeoutTag := false, 0;
          }
        case Screen =>
          if bindingScreenActive {
            DestroyTimeout(screenBindTimeoutTag);
            bindingScreenActive, screenBindTimeoutTag := false, 0;
          }
        case OneTouch =>
          if oneTouchAutobindActive {
            DestroyTimeout(oneTouchAutobindTimeoutTag);
            oneTouchAutobindActive, oneTouchAutobindTimeoutTag := false, 0;
          }
      }
    }

    method SetBindStatus(status: BindStatus)
      modifies `bindStatus
      ensures View() == StatusSet(old(View()), status)
    {
      if status == HalFailure && bindStatus == AsbFailure {
        return;
      }
      bindStatus := status;
    }

    method StopAllModes()
      modifies this
      ensures View() == StopAll(old(View()), ALL_MODES)
    {
      StopMode(Button);
      ghost var s1 := View();
      StopMode(Screen);
      ghost var s2 := View();
      StopMode(OneTouch);
      assert ALL_MODES[1..] == [Screen, OneTouch] && [Screen, OneTouch][1..] == [OneTouch] && [OneTouch][1..] == [];
      assert View() == StopAll(s2, [OneTouch]) == StopAll(s1, [Screen, OneTouch]);
    }

    /** Switches a mode on and starts its timer. */
    method StartMode(kind: Kind)
      modifies this
      ensures View() == StartTimer(SetActive(old(View()), kind, true), kind)
    {
      var tag := CreateTimeout(kind);
      match kind {
        case Button => bindingButton, bindingButtonTimeoutTag := true, tag;
        case Screen => bindingScreenActive, screenBindTimeoutTag := true, tag;
        case OneTouch => oneTouchAutobindActive, oneTouchAutobindTimeoutTag := true, tag;
      }
    }

    /** Opens the window and starts the mode it is for. */
    method OpenWindow(network: Option<nat>, mode: nat) returns (ok: bool)
      modifies this
      ensures View() == SwitchOn(old(View()), mode)
      ensures ok <==> mode <= 1 || (mode == 2 && exists n :: n in networks && Concerns(network, n))
    {
      windowActive := true;
      SetBindStatus(NoDiscoveryRequest);
      autobind := false;
      ok := mode <= 1;
      if mode == 0 {
        StartMode(Button);
      } else if mode == 1 {
        StartMode(Screen);
      } else if mode == 2 {
        StartMode(OneTouch);
        ok := AnyNetwork(network);
      }
    }

    /** One-touch binding starts even where no network takes it; only the result tells. */
    method StartPairingMode(network: Option<nat>, mode: nat) returns (ok: bool)
      modifies this
      ensures View() == Next(old(View()), StartEvent(mode, Known(network)))
      ensures ok <==> Known(network) && mode <= 2 && (mode == 2 ==> networks != {})
    {
      if !Known(network) {
        return false;
      }
      StopAllModes();
      ok := OpenWindow(network, mode);
    }

    method EndPairingMode(network: Option<nat>) returns (ok: bool)
      modifies this
      ensures View() == Next(old(View()), EndEvent(Known(network)))
      ensures ok <==> Known(network)
    {
      ok := Known(network);
      if ok {
        ClosePairingWindow(EndPairing);
      }
    }

    /** Counts a failed pairing, with the status it ended in. */
    method RecordFailure(kind: Kind)
      modifies `screenFailures, `screenError, `otherFailures, `otherError
      ensures View() == Record(old(View()), kind)
    {
      if kind == Screen {
        screenFailures, screenError := screenFailures + 1, bindStatus;
      } else {
        otherFailures, otherError := otherFailures + 1, bindStatus;
      }
    }

    method CloseOneMode(kind: Kind)
      modifies this
      ensures View() == CloseMode(old(View()), kind)
    {
      var active := match kind
                    case Button => bindingButton
                    case Screen => bindingScreenActive
                    case OneTouch => oneTouchAutobindActive;
      if active {
        StopMode(kind);
        if bindStatus != Success {
          RecordFailure(kind);
        }
      }
    }

    method ClosePairingWindow(reason: Reason)
      modifies this
      ensures View() == ClosePairing(old(View()), reason)
    {
      if windowActive {
        windowActive := false;
        match reason {
          case PairingSuccess => SetBindStatus(Success);
          case EndPairing => autobind := true;
          case Timeout =>
            SetBindStatus(WindowTimeout);
            autobind := true;
        }
      }
      ghost var w := View();
      assert w == CloseWindow(old(View()), reason);
      CloseOneMode(Button);
      ghost var s1 := View();
      CloseOneMode(Screen);
      ghost var s2 := View();
      CloseOneMode(OneTouch);
      assert ALL_MODES[1..] == [Screen, OneTouch] && [Screen, OneTouch][1..] == [OneTouch] && [OneTouch][1..] == [];
      assert View() == CloseModes(s2, [OneTouch]) == CloseModes(s1, [Screen, OneTouch]);
    }

    method SetButtonProperty(network: Option<nat>, value: nat) returns (ok: bool)
      modifies this
      ensures View() == Next(old(View()), ButtonEvent(value, Known(network)))
      ensures ok <==> Known(network) && value <= 1
    {
      if !Known(network) {
        return false;
      }
      ok := true;
      if value == 0 {
        DestroyTimeout(bindingButtonTimeoutTag);
        bindingButton, bindingButtonTimeoutTag := false, 0;
      } else if value == 1 {
        DestroyTimeout(bindingButtonTimeoutTag);
        bindingScreenActive := false;
        StartMode(Button);
      } else {
        ok := false;
      }
    }

    method SetScreenProperty(network: Option<nat>, value: nat) returns (ok: bool)
      modifies this
      ensures View() == Next(old(View()), ScreenEvent(value, Known(network)))
      ensures ok <==> Known(network) && value <= 1
    {
      if !Known(network) {
        return false;
      }
      ok := true;
      if value == 0 {
        DestroyTimeout(screenBindTimeoutTag);
        bindingScreenActive, screenBindTimeoutTag := false, 0;
      } else if value == 1 {
        DestroyTimeout(screenBindTimeoutTag);
        bindingButton := false;
        StartMode(Screen);
      } else {
        ok := false;
      }
    }

    method ConfigureAutobind(network: Option<nat>, pass: nat, fail: nat) returns (ok: bool)
      modifies this
      ensures View() == AutobindConfig(old(View()), pass, fail)
      ensures ok <==> InRange(pass) && InRange(fail) && exists n :: n in networks && Concerns(network, n)
    {
      DestroyOneTouchTimer();
      ok := false;
      if InRange(pass) && InRange(fail) {
        bindingScreenActive := false;
        ok := AnyNetwork(network);
        oneTouchAutobindTimeoutTag := CreateTimeout(OneTouch);
      }
    }

    method SetAutobindConfig(network: Option<nat>, pass: nat, fail: nat) returns (ok: bool)
      modifies this
      ensures View() == Next(old(View()), AutobindEvent(pass, fail, Known(network)))
      ensures ok <==> Known(network) && InRange(pass) && InRange(fail) && networks != {}
    {
      if !Known(network) {
        return false;
      }
      ok := ConfigureAutobind(network, pass, fail);
    }

    /** The callback of a timer of the main loop. */
    method TimeoutFired(source: nat)
      requires source in timers
      modifies this
      ensures View() == Fire(old(View()), source)
    {
      queue := queue + [Close(Timeout)];
      match timers[source] {
        case Button => bindingButtonTimeoutTag := 0;
        case Screen => screenBindTimeoutTag := 0;
        case OneTouch => oneTouchAutobindTimeoutTag := 0;
      }
      timers := timers - {source};
    }

    /** One turn of the main thread's loop, for the messages that concern pairing. */
    method ProcessMessage()
      requires queue != []
      modifies this
      ensures View() == Process(old(View()))
    {
      var m := queue[0];
      queue := queue[1..];
      match m {
        case Close(reason) => ClosePairingWindow(reason);
        case StopButton => StopMode(Button);
        case StopScreen => StopMode(Screen);
        case StopOneTouch => StopMode(OneTouch);
        case SetStatus(status) => SetBindStatus(status);
      }
    }
  }
}
