/** What holds in every state that allowed steps can reach. */
module SessionResults {
  import opened Options
  import opened Words
  import opened SessionSpec
  import opened SessionProofs
  import opened SessionSteps

  /** A run from the start, with nothing begun yet, of steps the controllers may take. */
  ghost predicate Reached(images: nat, background: bool, events: seq<Event>, s: State) {
    var start := Initial(images, background);
    AllowedRun(start, events) && s == Run(start, events)
  }

  lemma ReachedIsKept(images: nat, background: bool, events: seq<Event>, s: State)
    requires Reached(images, background, events, s)
    ensures Kept(s)
  {
    InitiallyKept(images, background);
    RunKeeps(Initial(images, background), events);
  }

  // ---------- conservation ----------

  function PendingUnstages(queue: seq<Message>): nat {
    if queue == [] then 0 else (if queue[0].Unstage? then 1 else 0) + PendingUnstages(queue[1..])
  }

  lemma {:induction false} UnstagesAreDistinct(staged: set<ControllerId>, sessions: Sessions, queue: seq<Message>)
    requires QueueTells(staged, sessions, queue)
    ensures |Ending(queue)| == PendingUnstages(queue) && Ending(queue) <= sessions.Keys
    decreases |queue|
  {
    if queue != [] {
      match queue[0]
      case Read(_, _) => UnstagesAreDistinct(staged, sessions, queue[1..]);
      case Stage(id, _, _, _, _) => UnstagesAreDistinct(staged + {id}, sessions, queue[1..]);
      case Unstage(id, _, _, _, _) =>
        UnstagesAreDistinct(staged - {id}, sessions - {id}, queue[1..]);
        assert id !in Ending(queue[1..]);
    }
  }

  /** Conservation: the counters are the known sessions less the queued UNSTAGEs, every image's reader
      count is the number of its sessions not ended yet, and the active count those still downloading. */
  lemma SessionsConserved(images: nat, background: bool, events: seq<Event>, s: State)
    requires Reached(images, background, events, s)
    ensures s.sessionCount == s.rf4ceCount == |s.sessions| - PendingUnstages(s.queue)
    ensures forall i :: 0 <= i < |s.readers| ==>
              s.readers[i] == |set id | id in Live(s) && s.sessions[id].image == i|
    ensures s.activeCount == |set id | id in Live(s) && !s.sessions[id].loadWaiting| <= SIMULTANEOUS_SESSIONS
  {
    ReachedIsKept(images, background, events, s);
    UnstagesAreDistinct(Staged(s), s.sessions, s.queue);
    SizeIsCardinality(Live(s));
    SizeIsCardinality(Downloading(s));
    assert Downloading(s) == set id | id in Live(s) && !s.sessions[id].loadWaiting;
    forall i | 0 <= i < |s.readers|
      ensures s.readers[i] == |set id | id in Live(s) && s.sessions[id].image == i|
    {
      SizeIsCardinality(ReadersOf(Live(s), s.sessions, i));
      assert ReadersOf(Live(s), s.sessions, i) == set id | id in Live(s) && s.sessions[id].image == i;
    }
  }

  /** Voice is blocked exactly while a foreground download runs. */
  lemma VoiceBlockedExactly(images: nat, background: bool, events: seq<Event>, s: State)
    requires Reached(images, background, events, s)
    ensures s.voiceBlocked <==> exists id :: id in s.sessions && s.sessions[id].inProgress && !s.sessions[id].background
  {
    ReachedIsKept(images, background, events, s);
    if id :| id in s.sessions && s.sessions[id].inProgress && !s.sessions[id].background {
      assert Foreground(s.sessions[id]);
    }
  }

  /** No step takes a counter below zero: ending a session finds every count it lowers above zero. */
  lemma NoUnderflow(images: nat, background: bool, events: seq<Event>, s: State, id: ControllerId)
    requires Reached(images, background, events, s) && id in Live(s)
    ensures s.sessionCount > 0 && s.rf4ceCount > 0
    ensures s.sessions[id].image < |s.readers| && s.readers[s.sessions[id].image] > 0
    ensures !s.sessions[id].loadWaiting ==> s.activeCount > 0
  {
    ReachedIsKept(images, background, events, s);
    EndCounts(s, id);
  }

  /** What a controller without a session gets: a place exactly if fewer than two downloads are active, in
      the foreground exactly if it asked for that by a manual poll or the setting says so. */
  lemma BeginGrants(images: nat, background: bool, events: seq<Event>, s: State,
                    id: ControllerId, image: nat, manualPoll: bool, resume: bool)
    requires Reached(images, background, events, s) && id !in s.sessions
    ensures var (s', ready) := Begin(s, id, image, manualPoll, resume);
            && (ready <==> image < |s.readers| && |set k | k in Live(s) && !s.sessions[k].loadWaiting| < 2)
            && (ready ==> && Live(s') == Live(s) + {id} && id in Downloading(s')
                          && (Foreground(s'.sessions[id]) <==> manualPoll || !s.backgroundPref)
                          && s'.sessions[id].timer == if resume then None else Some(image))
            && (!ready ==> s' == s)
  {
    ReachedIsKept(images, background, events, s);
    ActiveIsDownloading(s);
    var (s', ready) := Begin(s, id, image, manualPoll, resume);
    if ready {
      BeginJoins(s, id, image, manualPoll, resume);
    }
  }

  lemma ActiveIsDownloading(s: State)
    requires Kept(s)
    ensures s.activeCount == |set k | k in Live(s) && !s.sessions[k].loadWaiting|
  {
    SizeIsCardinality(Downloading(s));
    assert Downloading(s) == set k | k in Live(s) && !s.sessions[k].loadWaiting;
  }

  lemma BeginJoins(s: State, id: ControllerId, image: nat, manualPoll: bool, resume: bool)
    requires Kept(s) && id !in s.sessions && Begin(s, id, image, manualPoll, resume).1
    ensures var s' := Begin(s, id, image, manualPoll, resume).0;
            Live(s') == Live(s) + {id} && id in Downloading(s')
  {
    var s' := Begin(s, id, image, manualPoll, resume).0;
    StagedIsKnown(Staged(s), s.sessions, s.queue);
    EndingAppend(s.queue, s'.queue[|s.queue|]);
    assert s'.queue == s.queue + [s'.queue[|s.queue|]];
  }

  // ---------- the snapshots ----------

  function Worked(s: State, n: nat): State {
    if n == 0 then s else Work(Worked(s, n - 1))
  }

  lemma {:induction false} WorkedKeeps(s: State, n: nat)
    requires Kept(s) && n <= |s.queue|
    ensures Kept(Worked(s, n)) && Worked(s, n).queue == s.queue[n..]
  {
    if n > 0 {
      WorkedKeeps(s, n - 1);
      WorkKeeps(Worked(s, n - 1));
    }
  }

  /** What the files on disk are just after a message was processed: as its snapshot of the counters says. */
  ghost predicate FilesAsTold(f: TempFiles, m: Message)
    requires !m.Read?
  {
    && (f.dir <==> m.sessionCount > 0)
    && (f.rf4ceDir <==> m.rf4ceCount > 0)
    && (m.image in f.archives <==> m.readerCount > 0)
  }

  lemma HeadTellsFiles(s: State)
    requires Kept(s) && s.queue != [] && !s.queue[0].Read?
    ensures FilesAsTold(Work(s).files, s.queue[0])
  {
    var m, s' := s.queue[0], Work(s);
    WorkKeeps(s);
    var after := if m.Stage? then Staged(s) + {m.id} else Staged(s) - {m.id};
    StagedIsKnown(Staged(s), s.sessions, s.queue);
    if m.Stage? { StageFiles(s); } else { UnstageFiles(s); }
    assert Staged(s') == after;
    CountOfUsers(s, after, m.image);
    assert forall id :: id in after ==> s'.sessions[id].image == s.sessions[id].image;
    if InUse(s', m.image) {
      var id :| id in Staged(s') && s'.sessions[id].image == m.image;
      assert id in after && s.sessions[id].image == m.image;
    } else {
      forall id | id in after ensures s.sessions[id].image != m.image { assert id in Staged(s'); }
    }
  }

  /** The counters carried in the queue refine the counters: after any part of the queue was processed,
      the directories exist and the archive is extracted exactly if the last message's snapshot says so,
      however far the counters themselves have moved on. */
  lemma SnapshotsRefineCounters(images: nat, background: bool, events: seq<Event>, s: State, n: nat)
    requires Reached(images, background, events, s)
    requires n < |s.queue| && !s.queue[n].Read?
    ensures FilesAsTold(Worked(s, n + 1).files, s.queue[n])
  {
    ReachedIsKept(images, background, events, s);
    WorkedKeeps(s, n);
    HeadTellsFiles(Worked(s, n));
  }

  /** Every queued STAGE will find its session and the image file it opens. */
  lemma EveryStageOpens(images: nat, background: bool, events: seq<Event>, s: State, n: nat)
    requires Reached(images, background, events, s)
    requires n < |s.queue| && s.queue[n].Stage?
    ensures s.queue[n].id in Worked(s, n).sessions
    ensures s.queue[n].id in Worked(s, n + 1).sessions && Worked(s, n + 1).sessions[s.queue[n].id].fileOpen
  {
    ReachedIsKept(images, background, events, s);
    WorkedKeeps(s, n);
    StageFiles(Worked(s, n));
  }

  /** Once the worker has caught up, the files on disk are those of the sessions not ended. */
  lemma CaughtUp(images: nat, background: bool, events: seq<Event>, s: State)
    requires Reached(images, background, events, s)
    ensures var w := Worked(s, |s.queue|);
            w.queue == [] && w.sessions.Keys == Live(w) == Staged(w)
            && (w.files.dir <==> w.sessionCount > 0) && (w.files.rf4ceDir <==> w.rf4ceCount > 0)
            && forall i :: 0 <= i < |w.readers| ==> (i in w.files.archives <==> w.readers[i] > 0)
  {
    ReachedIsKept(images, background, events, s);
    WorkedKeeps(s, |s.queue|);
    var w := Worked(s, |s.queue|);
    CountOfUsers(w, Live(w), 0);
    forall i | 0 <= i < |w.readers| ensures i in w.files.archives <==> w.readers[i] > 0 {
      CountOfUsers(w, Live(w), i);
      if w.readers[i] > 0 {
        var id :| id in Live(w) && w.sessions[id].image == i;
        assert id in Staged(w);
      }
    }
  }

  // ---------- ending twice ----------

  lemma RunOfThree(s: State, e1: Event, e2: Event, e3: Event)
    ensures Run(s, [e1, e2, e3]) == Next(Next(Next(s, e1), e2), e3)
  {
    assert [e1, e2, e3][1..] == [e2, e3] && [e2, e3][1..] == [e3] && [e3][1..] == [];
    assert Run(Next(Next(s, e1), e2), [e3]) == Next(Next(Next(s, e1), e2), e3);
  }

  /** A download that is begun and ended, and whose timer fires before the worker gets to its UNSTAGE, takes
      the counters below zero, that is, to their highest value. */
  lemma TimerAfterEnd(images: nat, background: bool, id: ControllerId, image: nat)
    requires image < images
    ensures var s := Run(Initial(images, background),
                         [BeginEvent(id, image, false, false), EndEvent(id, image), TimerEvent(id)]);
            id in s.sessions && image < |s.readers|
            && s.sessionCount == s.rf4ceCount == s.readers[image] == 0xFFFF_FFFF
  {
    RunOfThree(Initial(images, background), BeginEvent(id, image, false, false), EndEvent(id, image), TimerEvent(id));
  }

  // ---------- what the requests do ----------

  /** Another session keeps voice blocked. */
  ghost predicate OtherForeground(s: State, id: ControllerId) {
    exists k :: k in s.sessions && k != id && s.sessions[k].inProgress && !s.sessions[k].background
  }

  lemma DownloadOver(s: State, id: ControllerId)
    requires Kept(s) && id in s.sessions
    ensures var d := DownloadComplete(s, id);
            var n, n' := s.sessions[id], d.sessions[id];
            && d.sessions == s.sessions[id := n'] && n' == n.(inProgress := false, background := n'.background)
            && n'.background == (if n.inProgress && !n.background then s.backgroundPref else n.background)
            && d == s.(sessions := d.sessions, voiceBlocked := d.voiceBlocked)
            && (d.voiceBlocked <==> OtherForeground(s, id))
  {
    DownloadCompleteKeeps(s, id);
    var d := DownloadComplete(s, id);
    assert s.sessions[id := s.sessions[id]] == s.sessions;
    if k :| k in d.sessions && Foreground(d.sessions[k]) {
      assert k != id && s.sessions[k] == d.sessions[k];
    }
    if k :| k in s.sessions && k != id && s.sessions[k].inProgress && !s.sessions[k].background {
      assert Foreground(d.sessions[k]);
    }
  }

  /** A load request ends the download of its session: that session is not in progress any more, and if it
      was in the foreground its setting is the preference again; voice is blocked exactly if another
      session is downloading in the foreground; nothing else changes. */
  lemma LoadEndsDownload(images: nat, background: bool, events: seq<Event>, s: State, id: ControllerId)
    requires Reached(images, background, events, s) && id in s.sessions
    ensures var l := Next(s, LoadInfoEvent(id));
            var n, n' := s.sessions[id], l.sessions[id];
            && !n'.inProgress && l.sessions == s.sessions[id := n']
            && n' == n.(inProgress := false, background := n'.background)
            && n'.background == (if n.inProgress && !n.background then s.backgroundPref else n.background)
            && l == s.(sessions := l.sessions, voiceBlocked := l.voiceBlocked)
            && (l.voiceBlocked <==> OtherForeground(s, id))
  {
    ReachedIsKept(images, background, events, s);
    DownloadOver(s, id);
  }

  /** Ending a live session ends its download in the same way, counts it out once everywhere, and tells the
      worker the counts. */
  lemma EndCountsOut(images: nat, background: bool, events: seq<Event>, s: State, id: ControllerId)
    requires Reached(images, background, events, s) && id in Live(s)
    ensures s.sessions[id].image < |s.readers|
    ensures var image, n := s.sessions[id].image, s.sessions[id];
            var e := Next(s, EndEvent(id, image));
            && |e.readers| == |s.readers| && e.sessionCount == s.sessionCount - 1 && e.rf4ceCount == s.rf4ceCount - 1
            && e.activeCount == s.activeCount - (if n.loadWaiting then 0 else 1)
            && e.readers[image] == s.readers[image] as int - 1 && e.readers == s.readers[image := e.readers[image]]
            && e.queue == s.queue + [Unstage(id, image, e.sessionCount, e.rf4ceCount, e.readers[image])]
            && id in e.sessions && !e.sessions[id].inProgress && e.sessions == s.sessions[id := e.sessions[id]]
            && (e.voiceBlocked <==> OtherForeground(s, id))
            && e.files == s.files && e.backgroundPref == s.backgroundPref
  {
    NoUnderflow(images, background, events, s, id);
    ReachedIsKept(images, background, events, s);
    DownloadOver(s, id);
  }

  /** The timer of a live session ends it just like that, and is gone afterwards. */
  lemma TimerEnds(images: nat, background: bool, events: seq<Event>, s: State, id: ControllerId)
    requires Reached(images, background, events, s) && id in Live(s) && s.sessions[id].timer.Some?
    ensures var e, t := Next(s, EndEvent(id, s.sessions[id].image)), Next(s, TimerEvent(id));
            && id in e.sessions && t == e.(sessions := e.sessions[id := e.sessions[id].(timer := None)])
  {
    ReachedIsKept(images, background, events, s);
    EndCountsOut(images, background, events, s, id);
  }

  /** The last bytes of an image free the place of its session among the active ones, once. */
  lemma LastReadFrees(images: nat, background: bool, events: seq<Event>, s: State, id: ControllerId)
    requires Reached(images, background, events, s) && id in Live(s)
    ensures var l := Next(s, LastReadEvent(id));
            if s.sessions[id].loadWaiting then l == s
            else l.activeCount == s.activeCount - 1
                 && l == s.(activeCount := l.activeCount,
                            sessions := s.sessions[id := s.sessions[id].(loadWaiting := true)])
  {
    NoUnderflow(images, background, events, s, id);
  }

  /** Beginning again on the session's own image is granted and changes nothing; on another image it stages
      that one without counting it, and the session stays on its own. */
  lemma BeginAgain(s: State, id: ControllerId, image: nat, manualPoll: bool, resume: bool)
    requires id in s.sessions
    ensures var (b, ready) := Begin(s, id, image, manualPoll, resume);
            if image >= |s.readers| then b == s && !ready
            else if s.sessions[id].image == image then b == s && ready
            else
              && ready && b.sessions.Keys == s.sessions.Keys && b.sessions[id].image == s.sessions[id].image
              && b.sessionCount == s.sessionCount && b.activeCount == s.activeCount && b.rf4ceCount == s.rf4ceCount
              && b.readers == s.readers && b.files == s.files
              && b.queue == s.queue + [Stage(id, image, s.sessionCount, s.rf4ceCount, s.readers[image])]
              && b.sessions[id].inProgress && b.sessions[id].background == (s.sessions[id].background && !manualPoll)
              && b.sessions[id].timer == (if resume then s.sessions[id].timer else Some(image))
              && (b.voiceBlocked <==> s.voiceBlocked || !b.sessions[id].background)
  {
  }

  /** The worker's turn, for whatever state: a STAGE that finds its session makes the directories and extracts
      the archive where its snapshot counts one, extracting also making the directories it misses, and
      opens the image if its archive is there; an UNSTAGE takes away what its snapshot counts none of, and
      the session; a READ does nothing here. */
  lemma WorkExactly(s: State)
    requires s.queue != []
    ensures var w, m := Next(s, WorkEvent), s.queue[0];
            && w == s.(queue := s.queue[1..], files := w.files, sessions := w.sessions)
            && match m
               case Read(_, _) => w.files == s.files && w.sessions == s.sessions
               case Stage(id, image, sessionCount, rf4ceCount, readerCount) =>
                 if id !in s.sessions then w.files == s.files && w.sessions == s.sessions
                 else
                   && w.files.dir == (s.files.dir || sessionCount == 1 || (readerCount == 1 && !s.files.rf4ceDir))
                   && w.files.rf4ceDir
                      == (s.files.rf4ceDir || (rf4ceCount == 1 && (s.files.dir || sessionCount == 1))
                          || readerCount == 1)
                   && w.files.archives == s.files.archives + (if readerCount == 1 then {image} else {})
                   && w.sessions == s.sessions[id := s.sessions[id].(fileOpen := image in w.files.archives)]
               case Unstage(id, image, sessionCount, rf4ceCount, readerCount) =>
                 && w.files.dir == (s.files.dir && sessionCount != 0)
                 && w.files.rf4ceDir == (s.files.rf4ceDir && sessionCount != 0 && rf4ceCount != 0)
                 && w.files.archives == (if sessionCount == 0 || rf4ceCount == 0 then {}
                                         else if readerCount == 0 then s.files.archives - {image} else s.files.archives)
                 && w.sessions == s.sessions - {id}
  {
  }

  /** What a data request and a change of the preference do to the books. */
  lemma SmallSteps(s: State, id: ControllerId, image: nat, background: bool)
    ensures Next(s, ReadEvent(id, image)) == s.(queue := s.queue + [Read(id, image)])
    ensures Next(s, PreferenceEvent(background)) == s.(backgroundPref := background)
  {
  }
}
