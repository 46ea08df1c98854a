/** The download sessions: the counters, the queue to the worker thread, and the temporary files.
    Steps are as in non-interactive operation (`download.interactive` off). */
module SessionSpec {
  import opened Options
  import opened Words

  type ControllerId = u8

  const SIMULTANEOUS_SESSIONS := 2

  /** `fileOpen` tells whether the worker has opened the image; a running timer remembers its image id. */
  datatype Session = Session(
    image: nat, background: bool, inProgress: bool, loadWaiting: bool, fileOpen: bool, timer: Option<nat>)

  /** STAGE and UNSTAGE carry the counters as they were when the message was queued. */
  datatype Message =
    | Stage(id: ControllerId, image: nat, sessionCount: u32, rf4ceCount: u32, readerCount: u32)
    | Read(id: ControllerId, image: nat)
    | Unstage(id: ControllerId, image: nat, sessionCount: u32, rf4ceCount: u32, readerCount: u32)

  /** The temporary directory, its rf4ce directory, and the archives extracted there, by image id. */
  datatype TempFiles = TempFiles(dir: bool, rf4ceDir: bool, archives: set<nat>)

  datatype State = State(
    backgroundPref: bool,
    sessions: map<ControllerId, Session>,
    sessionCount: u32, activeCount: u32, rf4ceCount: u32,
    readers: seq<u32>,
    queue: seq<Message>, files: TempFiles, voiceBlocked: bool)

  // ---------- the temporary files ----------

  function MakeDir(f: TempFiles): TempFiles { f.(dir := true) }

  function MakeRf4ceDir(f: TempFiles): TempFiles { if f.dir then f.(rf4ceDir := true) else f }

  /** Extracting makes the directories it misses. */
  function Extract(f: TempFiles, image: nat): TempFiles {
    var f' := if f.rf4ceDir then f else MakeRf4ceDir(MakeDir(f));
    f'.(archives := f'.archives + {image})
  }

  function RemoveArchive(f: TempFiles, image: nat): TempFiles { f.(archives := f.archives - {image}) }

  function RemoveRf4ceDir(f: TempFiles): TempFiles { f.(rf4ceDir := false, archives := {}) }

  function RemoveDir(f: TempFiles): TempFiles { TempFiles(false, false, {}) }

  // ---------- the controller's side ----------

  /** A controller may begin again only on the image it is on. */
  function Begin(s: State, id: ControllerId, image: nat, manualPoll: bool, resume: bool): (State, bool) {
    if image >= |s.readers| then (s, false)
    else if id in s.sessions && s.sessions[id].image == image then (s, true)
    else if id !in s.sessions && s.activeCount >= SIMULTANEOUS_SESSIONS then (s, false)
    else
      var a := if id in s.sessions then s else Acquire(s, id, image);
      var b := a.(queue := a.queue + [Stage(id, image, a.sessionCount, a.rf4ceCount, a.readers[image])]);
      var n := b.sessions[id];
      var n' := n.(inProgress := true,
                   timer := if resume then n.timer else Some(image),
                   background := n.background && !manualPoll);
      (b.(sessions := b.sessions[id := n'], voiceBlocked := b.voiceBlocked || !n'.background), true)
  }

  /** A new session, counted in every counter. */
  function Acquire(s: State, id: ControllerId, image: nat): State
    requires image < |s.readers|
  {
    s.(sessionCount := U32(s.sessionCount + 1), activeCount := U32(s.activeCount + 1),
       rf4ceCount := U32(s.rf4ceCount + 1), readers := s.readers[image := U32(s.readers[image] as int + 1)],
       sessions := s.sessions[id := Session(image, s.backgroundPref, false, false, false, None)])
  }

  function OneLessActive(s: State): u32 {
    if s.activeCount > 0 then s.activeCount - 1 else 0
  }

  /** A data request delivered the last bytes of the image. */
  function DownloadedAll(s: State, id: ControllerId): State {
    if id !in s.sessions || s.sessions[id].loadWaiting then s
    else s.(sessions := s.sessions[id := s.sessions[id].(loadWaiting := true)], activeCount := OneLessActive(s))
  }

  /** A data request asked the worker for the next chunk. */
  function RequestedRead(s: State, id: ControllerId, image: nat): State {
    s.(queue := s.queue + [Read(id, image)])
  }

  predicate Foreground(n: Session) { n.inProgress && !n.background }

  /** The download is over, for whatever reason: voice is unblocked unless another one keeps it blocked. */
  function DownloadComplete(s: State, id: ControllerId): State
    requires id in s.sessions
  {
    var n := s.sessions[id];
    if !n.inProgress then s
    else if n.background then s.(sessions := s.sessions[id := n.(inProgress := false)])
    else
      var sessions := s.sessions[id := n.(inProgress := false, background := s.backgroundPref)];
      s.(sessions := sessions,
         voiceBlocked := s.voiceBlocked && exists k :: k in sessions && Foreground(sessions[k]))
  }

  function LoadInfo(s: State, id: ControllerId): State {
    if id in s.sessions then DownloadComplete(s, id) else s
  }

  function End(s: State, id: ControllerId, image: nat): State {
    if image >= |s.readers| || id !in s.sessions then s
    else
      var a := DownloadComplete(s, id);
      var b := a.(activeCount := if a.sessions[id].loadWaiting then a.activeCount else OneLessActive(a),
                  readers := a.readers[image := U32(a.readers[image] as int - 1)],
                  rf4ceCount := U32(a.rf4ceCount - 1), sessionCount := U32(a.sessionCount - 1));
      b.(queue := b.queue + [Unstage(id, image, b.sessionCount, b.rf4ceCount, b.readers[image])])
  }

  /** What naming a controller that has no session puts into the map. */
  const BLANK_SESSION := Session(0, false, false, false, false, None)

  /** The session timer ends the session it was started for. If that one is gone, because its UNSTAGE was
      processed while the callback waited for the lock, clearing its timer tag makes a blank one; that is
      if the callback's parameters, which UNSTAGE has freed, can still be read. */
  function TimedOut(s: State, id: ControllerId): State {
    if id !in s.sessions then s.(sessions := s.sessions[id := BLANK_SESSION])
    else if s.sessions[id].timer.None? then s
    else
      var a := End(s, id, s.sessions[id].timer.value);
      a.(sessions := a.sessions[id := a.sessions[id].(timer := None)])
  }

  // ---------- the worker's side ----------

  function Work(s: State): State {
    if s.queue == [] then s
    else
      var rest := s.(queue := s.queue[1..]);
      match s.queue[0]
      case Read(_, _) => rest
      case Stage(id, image, sessionCount, rf4ceCount, readerCount) =>
        if id !in s.sessions then rest
        else
          var f1 := if sessionCount == 1 then MakeDir(s.files) else s.files;
          var f2 := if rf4ceCount == 1 then MakeRf4ceDir(f1) else f1;
          var f3 := if readerCount == 1 then Extract(f2, image) else f2;
          rest.(files := f3, sessions := s.sessions[id := s.sessions[id].(fileOpen := image in f3.archives)])
      case Unstage(id, image, sessionCount, rf4ceCount, readerCount) =>
        var f1 := if readerCount == 0 then RemoveArchive(s.files, image) else s.files;
        var f2 := if rf4ceCount == 0 then RemoveRf4ceDir(f1) else f1;
        var f3 := if sessionCount == 0 then RemoveDir(f2) else f2;
        rest.(files := f3, sessions := s.sessions - {id})
  }

  // ---------- runs ----------

  datatype Event =
    | BeginEvent(id: ControllerId, image: nat, manualPoll: bool, resume: bool)
    | ReadEvent(id: ControllerId, image: nat)
    | LastReadEvent(id: ControllerId)
    | LoadInfoEvent(id: ControllerId)
    | EndEvent(id: ControllerId, image: nat)
    | TimerEvent(id: ControllerId)
    | PreferenceEvent(background: bool)
    | WorkEvent

  function Next(s: State, e: Event): State {
    match e
    case BeginEvent(id, image, manualPoll, resume) => Begin(s, id, image, manualPoll, resume).0
    case ReadEvent(id, image) => RequestedRead(s, id, image)
    case LastReadEvent(id) => DownloadedAll(s, id)
    case LoadInfoEvent(id) => LoadInfo(s, id)
    case EndEvent(id, image) => End(s, id, image)
    case TimerEvent(id) => TimedOut(s, id)
    case PreferenceEvent(background) => s.(backgroundPref := background)
    case WorkEvent => Work(s)
  }

  function Run(s: State, events: seq<Event>): State
    decreases |events|
  {
    if events == [] then s else Run(Next(s, events[0]), events[1..])
  }

  /** Before the first session: nothing counted, nothing queued, no temporary files. */
  function Initial(images: nat, background: bool): State {
    State(background, map[], 0, 0, 0, seq(images, _ => 0), [], TempFiles(false, false, {}), false)
  }
}
