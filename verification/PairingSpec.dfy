/** The pairing window: three binding modes, their timers, and the messages that close them. */
module PairingSpec {

  datatype Kind = Button | Screen | OneTouch

  /** A mode and the tag of its timer; tag 0 means none. */
  datatype Mode = Mode(active: bool, tag: nat)

  datatype BindStatus =
    | Success | NoDiscoveryRequest | NoPairingRequest | HalFailure | Blackout | AsbFailure
    | KeyExchangeFailure | PingFailure | ValidationFailure | RibUpdateFailure | WindowTimeout | UnknownFailure

  datatype Reason = PairingSuccess | EndPairing | Timeout

  /** What the main thread finds in its queue. */
  datatype Message =
    | Close(reason: Reason) | StopButton | StopScreen | StopOneTouch | SetStatus(status: BindStatus)

  const THRESHOLD_MIN := 1
  const THRESHOLD_MAX := 7

  /** `timers` are the timeout sources alive in the main loop, by source id, with the mode each one ends. */
  datatype State = State(
    button: Mode, screen: Mode, oneTouch: Mode,
    windowActive: bool, status: BindStatus, autobind: bool,
    timers: map<nat, Kind>, nextSource: nat, queue: seq<Message>,
    screenFailures: nat, screenError: BindStatus, otherFailures: nat, otherError: BindStatus)

  function Of(s: State, kind: Kind): Mode {
    match kind case Button => s.button case Screen => s.screen case OneTouch => s.oneTouch
  }

  function With(s: State, kind: Kind, mode: Mode): State {
    match kind
    case Button => s.(button := mode)
    case Screen => s.(screen := mode)
    case OneTouch => s.(oneTouch := mode)
  }

  // ---------- timers ----------

  /** Starts a timer and overwrites the tag; a timer the tag stood for before stays alive. */
  function StartTimer(s: State, kind: Kind): State {
    With(s, kind, Of(s, kind).(tag := s.nextSource)).(
      timers := s.timers[s.nextSource := kind], nextSource := s.nextSource + 1)
  }

  function DestroyTimer(s: State, kind: Kind): State {
    if Of(s, kind).tag == 0 then s
    else With(s, kind, Of(s, kind).(tag := 0)).(timers := s.timers - {Of(s, kind).tag})
  }

  /** A timer's callback queues a CLOSE, clears its mode's tag and is not called again. */
  function Fire(s: State, source: nat): State {
    if source !in s.timers then s
    else
      var kind := s.timers[source];
      With(s, kind, Of(s, kind).(tag := 0)).(timers := s.timers - {source}, queue := s.queue + [Close(Timeout)])
  }

  function SetActive(s: State, kind: Kind, active: bool): State {
    With(s, kind, Of(s, kind).(active := active))
  }

  /** Ends a mode, if active, together with its timer. */
  function Stop(s: State, kind: Kind): State {
    if Of(s, kind).active then SetActive(DestroyTimer(s, kind), kind, false) else s
  }

  function StopAll(s: State, kinds: seq<Kind>): State
    decreases |kinds|
  {
    if kinds == [] then s else StopAll(Stop(s, kinds[0]), kinds[1..])
  }

  /** The order in which the handlers go through the modes. */
  const ALL_MODES := [Button, Screen, OneTouch]

  // ---------- handlers ----------

  /** A HAL failure does not replace an ASB failure. */
  function StatusSet(s: State, status: BindStatus): State {
    if status == HalFailure && s.status == AsbFailure then s else s.(status := status)
  }

  function StartPairing(s: State, mode: nat): State {
    SwitchOn(StopAll(s, ALL_MODES), mode)
  }

  /** With all modes off, opens the window and switches one on together with its timer. */
  function SwitchOn(s: State, mode: nat): State {
    var w := StatusSet(s.(windowActive := true), NoDiscoveryRequest).(autobind := false);
    if mode == 0 then StartTimer(SetActive(w, Button, true), Button)
    else if mode == 1 then StartTimer(SetActive(w, Screen, true), Screen)
    else if mode == 2 then StartTimer(SetActive(w, OneTouch, true), OneTouch)
    else w
  }

  /** What closing does to the window itself. */
  function CloseWindow(s: State, reason: Reason): State {
    if !s.windowActive then s
    else
      var c := s.(windowActive := false);
      match reason
      case PairingSuccess => StatusSet(c, Success)
      case EndPairing => c.(autobind := true)
      case Timeout => StatusSet(c, WindowTimeout).(autobind := true)
  }

  /** Counts a failed pairing, with the status it ended in. */
  function Record(s: State, kind: Kind): State {
    if kind == Screen then s.(screenFailures := s.screenFailures + 1, screenError := s.status)
    else s.(otherFailures := s.otherFailures + 1, otherError := s.status)
  }

  /** Ends a mode, if active, and counts it as a failure unless pairing succeeded. */
  function CloseMode(s: State, kind: Kind): State {
    if !Of(s, kind).active then s
    else if s.status == Success then Stop(s, kind)
    else Record(Stop(s, kind), kind)
  }

  function CloseModes(s: State, kinds: seq<Kind>): State
    decreases |kinds|
  {
    if kinds == [] then s else CloseModes(CloseMode(s, kinds[0]), kinds[1..])
  }

  function ClosePairing(s: State, reason: Reason): State {
    CloseModes(CloseWindow(s, reason), ALL_MODES)
  }

  /** The property that switches button binding: its screen counterpart goes off, not so that one's timer. */
  function ButtonProperty(s: State, value: nat): State {
    if value == 0 then SetActive(DestroyTimer(s, Button), Button, false)
    else if value == 1 then
      StartTimer(SetActive(SetActive(DestroyTimer(s, Button), Button, true), Screen, false), Button)
    else s
  }

  function ScreenProperty(s: State, value: nat): State {
    if value == 0 then SetActive(DestroyTimer(s, Screen), Screen, false)
    else if value == 1 then
      StartTimer(SetActive(SetActive(DestroyTimer(s, Screen), Screen, true), Button, false), Screen)
    else s
  }

  predicate InRange(threshold: nat) { THRESHOLD_MIN <= threshold <= THRESHOLD_MAX }

  /** The one-touch timer is destroyed first, even when the thresholds turn out to be out of range. */
  function AutobindConfig(s: State, pass: nat, fail: nat): State {
    var d := DestroyTimer(s, OneTouch);
    if !InRange(pass) || !InRange(fail) then d
    else StartTimer(SetActive(d, Screen, false), OneTouch)
  }

  function Process(s: State): State {
    if s.queue == [] then s
    else
      var rest := s.(queue := s.queue[1..]);
      match s.queue[0]
      case Close(reason) => ClosePairing(rest, reason)
      case StopButton => Stop(rest, Button)
      case StopScreen => Stop(rest, Screen)
      case StopOneTouch => Stop(rest, OneTouch)
      case SetStatus(status) => StatusSet(rest, status)
  }

  // ---------- events ----------

  /** Requests name a network; one that is neither all networks nor a known one is turned away. */
  datatype Event =
    | StartEvent(mode: nat, networkValid: bool)
    | EndEvent(networkValid: bool)
    | ButtonEvent(value: nat, networkValid: bool)
    | ScreenEvent(value: nat, networkValid: bool)
    | AutobindEvent(pass: nat, fail: nat, networkValid: bool)
    | TimerEvent(source: nat)
    | PostEvent(message: Message)
    | ProcessEvent

  function Next(s: State, e: Event): State {
    match e
    case StartEvent(mode, valid) => if valid then StartPairing(s, mode) else s
    case EndEvent(valid) => if valid then ClosePairing(s, EndPairing) else s
    case ButtonEvent(value, valid) => if valid then ButtonProperty(s, value) else s
    case ScreenEvent(value, valid) => if valid then ScreenProperty(s, value) else s
    case AutobindEvent(pass, fail, valid) => if valid then AutobindConfig(s, pass, fail) else s
    case TimerEvent(source) => Fire(s, source)
    case PostEvent(message) => s.(queue := s.queue + [message])
    case ProcessEvent => Process(s)
  }

  function Run(s: State, events: seq<Event>): State
    decreases |events|
  {
    if events == [] then s else Run(Next(s, events[0]), events[1..])
  }

  const INITIAL := State(Mode(false, 0), Mode(false, 0), Mode(false, 0), false, NoDiscoveryRequest, false,
                         map[], 1, [], 0, NoDiscoveryRequest, 0, NoDiscoveryRequest)
}
