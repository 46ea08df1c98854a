/** Every step keeps the counters, the temporary files and the voice flag right, exactly when it is one
    the controllers may take. */
module SessionSteps {
  import opened Options
  import opened Words
  import opened SessionSpec
  import opened SessionProofs

  // ---------- which steps are allowed ----------

  /** A controller begins again only on its own image, reads and ends only a session not ended yet, and
      ends it for its own image; a timer outlives neither its session's end nor the session. */
  ghost predicate Allowed(s: State, e: Event) {
    match e
    case BeginEvent(id, image, _, _) => image < |s.readers| && id in s.sessions ==> s.sessions[id].image == image
    case LastReadEvent(id) =>
      id in s.sessions && !s.sessions[id].loadWaiting ==> id in Live(s) || s.activeCount == 0
    case EndEvent(id, image) =>
      image < |s.readers| && id in s.sessions ==> id in Live(s) && s.sessions[id].image == image
    case TimerEvent(id) => id in s.sessions && (s.sessions[id].timer.Some? ==> id in Live(s))
    case _ => true
  }

  // ---------- counting ----------

  lemma {:induction false} Bounded(ids: set<ControllerId>, n: nat)
    requires forall id :: id in ids ==> id < n
    ensures |ids| <= n
  {
    if n > 0 {
      Bounded(ids - {n - 1}, n - 1);
    } else {
      assert ids == {};
    }
  }

  lemma CountPlus(ids: set<ControllerId>, id: ControllerId)
    requires id !in ids
    ensures U32(Size(ids) + 1) == Size(ids + {id}) == Size(ids) + 1
  {
    SizeIsCardinality(ids);
    SizeIsCardinality(ids + {id});
    Bounded(ids + {id}, 256);
  }

  lemma CountMinus(ids: set<ControllerId>, id: ControllerId)
    requires id in ids
    ensures U32(Size(ids) - 1) == Size(ids - {id}) == Size(ids) - 1 >= 0
  {
    SizeIsCardinality(ids);
    SizeIsCardinality(ids - {id});
    Bounded(ids, 256);
  }

  // ---------- Begin ----------

  /** The sets after a session was added. */
  lemma Added(live: set<ControllerId>, sessions: Sessions, id: ControllerId, n: Session, image: nat)
    requires live <= sessions.Keys && id !in sessions
    ensures DownloadingIn(live + {id}, sessions[id := n])
         == if n.loadWaiting then DownloadingIn(live, sessions) else DownloadingIn(live, sessions) + {id}
    ensures ReadersOf(live + {id}, sessions[id := n], image)
         == if n.image == image then ReadersOf(live, sessions, image) + {id} else ReadersOf(live, sessions, image)
    ensures StagedIn(sessions[id := n]) == if n.fileOpen then StagedIn(sessions) + {id} else StagedIn(sessions)
  {
  }

  lemma BeginCounts(s: State, id: ControllerId, image: nat, n: Session)
    requires Counted(s) && id !in s.sessions && image < |s.readers| && s.activeCount < SIMULTANEOUS_SESSIONS
    requires n.image == image && !n.loadWaiting
    ensures Counts(Acquire(s, id, image).(sessions := s.sessions[id := n]), Live(s) + {id})
  {
    var s' := Acquire(s, id, image).(sessions := s.sessions[id := n]);
    CountPlus(Live(s), id);
    Added(Live(s), s.sessions, id, n, image);
    CountPlus(DownloadingIn(Live(s), s.sessions), id);
    CountPlus(ReadersOf(Live(s), s.sessions, image), id);
    forall i | 0 <= i < |s.readers|
      ensures s'.readers[i] == Size(ReadersOf(Live(s) + {id}, s'.sessions, i))
    {
      Added(Live(s), s.sessions, id, n, i);
    }
  }

  lemma BeginQueues(s: State, id: ControllerId, image: nat, n: Session)
    requires Kept(s) && id !in s.sessions && image < |s.readers| && s.activeCount < SIMULTANEOUS_SESSIONS
    requires n.image == image && !n.loadWaiting && !n.fileOpen
    ensures var a := Acquire(s, id, image);
            var queue := s.queue + [Stage(id, image, a.sessionCount, a.rf4ceCount, a.readers[image])];
            QueueTells(Staged(s), s.sessions[id := n], queue) && Ending(queue) == Ending(s.queue)
  {
    var a := Acquire(s, id, image);
    var m := Stage(id, image, a.sessionCount, a.rf4ceCount, a.readers[image]);
    BeginCounts(s, id, image, n);
    EndingAppend(s.queue, m);
    AppendStage(Staged(s), s.sessions, n, s.queue, m, Live(s));
  }

  /** The files stay right while the staged sessions stay staged, on their images. */
  lemma FilesStay(s: State, s': State)
    requires FilesKept(s) && s'.files == s.files && Staged(s') == Staged(s)
    requires forall id :: id in Staged(s) ==> s'.sessions[id].image == s.sessions[id].image
    ensures FilesKept(s')
  {
    forall i ensures InUse(s', i) == InUse(s, i) {
      if id :| id in Staged(s) && s.sessions[id].image == i {
        assert id in Staged(s') && s'.sessions[id].image == i;
      }
    }
  }

  /** What a granted request changes. */
  lemma BeginIs(s: State, id: ControllerId, image: nat, manualPoll: bool, resume: bool)
    requires id !in s.sessions && Begin(s, id, image, manualPoll, resume).1
    ensures var s' := Begin(s, id, image, manualPoll, resume).0;
            && image < |s.readers| && s.activeCount < SIMULTANEOUS_SESSIONS
            && id in s'.sessions && s'.sessions == s.sessions[id := s'.sessions[id]]
            && s'.sessions[id].image == image && !s'.sessions[id].loadWaiting && !s'.sessions[id].fileOpen
            && var a := Acquire(s, id, image);
               s' == a.(sessions := s'.sessions, voiceBlocked := s'.voiceBlocked,
                        queue := s.queue + [Stage(id, image, a.sessionCount, a.rf4ceCount, a.readers[image])])
  {
  }

  lemma BeginKeepsBooks(s: State, id: ControllerId, image: nat, manualPoll: bool, resume: bool)
    requires Kept(s) && id !in s.sessions && Begin(s, id, image, manualPoll, resume).1
    ensures var s' := Begin(s, id, image, manualPoll, resume).0;
            Counted(s') && QueueTells(Staged(s'), s'.sessions, s'.queue) && Staged(s') == Staged(s)
            && id in s'.sessions && s'.sessions == s.sessions[id := s'.sessions[id]]
  {
    var s' := Begin(s, id, image, manualPoll, resume).0;
    BeginIs(s, id, image, manualPoll, resume);
    var n := s'.sessions[id];
    BeginCounts(s, id, image, n);
    BeginQueues(s, id, image, n);
    Added(Live(s), s.sessions, id, n, image);
    StagedIsKnown(Staged(s), s.sessions, s.queue);
    assert Live(s') == Live(s) + {id};
  }

  lemma BeginKeeps(s: State, id: ControllerId, image: nat, manualPoll: bool, resume: bool)
    requires Kept(s) && Allowed(s, BeginEvent(id, image, manualPoll, resume))
    ensures Kept(Begin(s, id, image, manualPoll, resume).0)
  {
    if id !in s.sessions && Begin(s, id, image, manualPoll, resume).1 {
      var s' := Begin(s, id, image, manualPoll, resume).0;
      BeginKeepsBooks(s, id, image, manualPoll, resume);
      FilesStay(s, s');
      VoiceAfter(s, s', id);
    }
  }

  /** The voice flag when one session changed, not out of the foreground, and the others did not. */
  lemma VoiceAfter(s: State, s': State, id: ControllerId)
    requires VoiceKept(s) && id in s'.sessions && s'.sessions == s.sessions[id := s'.sessions[id]]
    requires id in s.sessions && Foreground(s.sessions[id]) ==> Foreground(s'.sessions[id])
    requires s'.voiceBlocked == (s.voiceBlocked || Foreground(s'.sessions[id]))
    ensures VoiceKept(s')
  {
    if k :| k in s.sessions && Foreground(s.sessions[k]) {
      assert Foreground(s'.sessions[k]);
    }
  }

  // ---------- changes of one session ----------

  /** A session's download flags changed, not its image, nor whether it is staged or complete. */
  ghost predicate Retouched(s: State, s': State, id: ControllerId) {
    && id in s.sessions && id in s'.sessions
    && s'.sessions == s.sessions[id := s'.sessions[id]]
    && s' == s.(sessions := s'.sessions, voiceBlocked := s'.voiceBlocked)
    && var n, n' := s.sessions[id], s'.sessions[id];
       n' == n.(inProgress := n'.inProgress, background := n'.background, timer := n'.timer)
       && (n'.inProgress ==> n.inProgress) && (n'.timer.Some? ==> n'.timer == n.timer)
  }

  lemma RetouchKeeps(s: State, s': State, id: ControllerId)
    requires Kept(s) && Retouched(s, s', id) && VoiceKept(s')
    ensures Kept(s') && Live(s') == Live(s)
  {
    AlikeTells(Staged(s), s.sessions, s'.sessions, s.queue);
    assert Staged(s') == Staged(s) && Live(s') == Live(s);
    assert Downloading(s') == Downloading(s);
    forall i ensures ReadersOf(Live(s), s'.sessions, i) == ReadersOf(Live(s), s.sessions, i) {}
    FilesStay(s, s');
  }

  /** Voice stays blocked after a download is over exactly if another foreground one is running. */
  lemma DownloadCompleteKeeps(s: State, id: ControllerId)
    requires Kept(s) && id in s.sessions
    ensures Kept(DownloadComplete(s, id)) && Retouched(s, DownloadComplete(s, id), id)
    ensures Live(DownloadComplete(s, id)) == Live(s) && !DownloadComplete(s, id).sessions[id].inProgress
  {
    var s' := DownloadComplete(s, id);
    assert s.sessions[id := s.sessions[id]] == s.sessions;
    assert VoiceKept(s') by {
      if s' != s {
        if k :| k in s.sessions && Foreground(s.sessions[k]) && k != id {
          assert Foreground(s'.sessions[k]);
        }
        if k :| k in s'.sessions && Foreground(s'.sessions[k]) {
          assert Foreground(s.sessions[k]);
        }
      }
    }
    RetouchKeeps(s, s', id);
  }

  /** Completing the download of a session not ended yet frees its place among the active ones. */
  lemma DownloadedAllKeeps(s: State, id: ControllerId)
    requires Kept(s) && Allowed(s, LastReadEvent(id))
    ensures Kept(DownloadedAll(s, id))
  {
    var s' := DownloadedAll(s, id);
    if s' != s {
      AlikeTells(Staged(s), s.sessions, s'.sessions, s.queue);
      assert Staged(s') == Staged(s) && Live(s') == Live(s);
      forall i ensures ReadersOf(Live(s), s'.sessions, i) == ReadersOf(Live(s), s.sessions, i) {}
      if id in Live(s) {
        CountMinus(Downloading(s), id);
        assert Downloading(s') == Downloading(s) - {id};
      } else {
        assert Downloading(s') == Downloading(s);
      }
      FilesStay(s, s');
      assert VoiceKept(s') by {
        if k :| k in s.sessions && Foreground(s.sessions[k]) { assert Foreground(s'.sessions[k]); }
        if k :| k in s'.sessions && Foreground(s'.sessions[k]) { assert Foreground(s.sessions[k]); }
      }
    }
  }

  // ---------- End ----------

  /** The counters after a live session was ended. */
  lemma EndCounts(a: State, id: ControllerId)
    requires Kept(a) && id in Live(a)
    ensures var image := a.sessions[id].image;
            var b := a.(activeCount := if a.sessions[id].loadWaiting then a.activeCount else OneLessActive(a),
                        readers := a.readers[image := U32(a.readers[image] as int - 1)],
                        rf4ceCount := U32(a.rf4ceCount - 1), sessionCount := U32(a.sessionCount - 1));
            Counts(b, Live(a) - {id})
            && a.sessionCount > 0 && a.rf4ceCount > 0 && a.readers[image] > 0
            && (!a.sessions[id].loadWaiting ==> a.activeCount > 0)
  {
    var image, live := a.sessions[id].image, Live(a);
    CountMinus(live, id);
    CountMinus(ReadersOf(live, a.sessions, image), id);
    if a.sessions[id].loadWaiting {
      assert DownloadingIn(live - {id}, a.sessions) == DownloadingIn(live, a.sessions);
    } else {
      CountMinus(Downloading(a), id);
      assert DownloadingIn(live - {id}, a.sessions) == DownloadingIn(live, a.sessions) - {id};
    }
    forall i | 0 <= i < |a.readers|
      ensures ReadersOf(live - {id}, a.sessions, i)
           == if i == image then ReadersOf(live, a.sessions, i) - {id} else ReadersOf(live, a.sessions, i)
    {}
  }

  lemma EndKeeps(s: State, id: ControllerId, image: nat)
    requires Kept(s) && Allowed(s, EndEvent(id, image))
    ensures Kept(End(s, id, image))
  {
    var s' := End(s, id, image);
    if s' != s {
      DownloadCompleteKeeps(s, id);
      var a := DownloadComplete(s, id);
      EndCounts(a, id);
      var m := s'.queue[|s'.queue| - 1];
      assert s'.queue == a.queue + [m];
      EndingAppend(a.queue, m);
      assert Live(s') == Live(a) - {id} && Staged(s') == Staged(a);
      AppendUnstage(Staged(a), a.sessions, a.queue, m, Live(a));
      FilesStay(a, s');
    }
  }

  /** A timer that fires for a session not ended yet ends it like any other. */
  lemma TimedOutKeeps(s: State, id: ControllerId)
    requires Kept(s) && Allowed(s, TimerEvent(id))
    ensures Kept(TimedOut(s, id))
  {
    if id in s.sessions && s.sessions[id].timer.Some? {
      var a := End(s, id, s.sessions[id].timer.value);
      EndKeeps(s, id, s.sessions[id].timer.value);
      var s' := TimedOut(s, id);
      assert VoiceKept(s') by {
        if k :| k in a.sessions && Foreground(a.sessions[k]) { assert Foreground(s'.sessions[k]); }
        if k :| k in s'.sessions && Foreground(s'.sessions[k]) { assert Foreground(a.sessions[k]); }
      }
      RetouchKeeps(a, s', id);
    }
  }

  // ---------- the worker ----------

  /** An archive's snapshot count says whether another session has the image open. */
  lemma CountOfUsers(s: State, ids: set<ControllerId>, image: nat)
    requires ids <= s.sessions.Keys
    ensures Size(ReadersOf(ids, s.sessions, image)) == 0
            <==> forall id :: id in ids ==> s.sessions[id].image != image
    ensures Size(ids) == 0 <==> ids == {}
  {
    SizeIsCardinality(ids);
    SizeIsCardinality(ReadersOf(ids, s.sessions, image));
    if id :| id in ids && s.sessions[id].image == image {
      assert id in ReadersOf(ids, s.sessions, image);
    }
    if Size(ReadersOf(ids, s.sessions, image)) != 0 {
      var id :| id in ReadersOf(ids, s.sessions, image);
    }
  }

  lemma OneAtLeast(ids: set<ControllerId>, id: ControllerId)
    ensures Size(ids + {id}) == 1 <==> ids <= {id}
    ensures Size(ids + {id}) > 0
  {
    SizeIsCardinality(ids + {id});
    SizeIsCardinality(ids + {id} - {id});
    assert |ids + {id} - {id}| == |ids + {id}| - 1;
    assert ids + {id} - {id} == {} <==> ids <= {id};
  }

  /** STAGE finds its session, makes the directories and extracts the archive if it is the first to need
      them, and so finds its image file. */
  lemma StageFiles(s: State)
    requires Kept(s) && s.queue != [] && s.queue[0].Stage?
    ensures var m, s' := s.queue[0], Work(s);
            m.id in s.sessions && m.id !in Staged(s) && s'.sessions[m.id].fileOpen
            && Staged(s') == Staged(s) + {m.id} && FilesKept(s')
            && s'.sessions == s.sessions[m.id := s.sessions[m.id].(fileOpen := true)]
  {
    var m, s' := s.queue[0], Work(s);
    var after := Staged(s) + {m.id};
    OneAtLeast(Staged(s), m.id);
    OneAtLeast(ReadersOf(Staged(s), s.sessions, m.image), m.id);
    assert ReadersOf(after, s.sessions, m.image) == ReadersOf(Staged(s), s.sessions, m.image) + {m.id};
    assert m.readerCount == 1 <==> !InUse(s, m.image) by {
      if id :| id in Staged(s) && s.sessions[id].image == m.image {
        assert id in ReadersOf(Staged(s), s.sessions, m.image) && id != m.id;
      }
      if m.readerCount != 1 {
        var id :| id in ReadersOf(Staged(s), s.sessions, m.image) && id != m.id;
      }
    }
    assert m.sessionCount == 1 <==> Staged(s) == {};
    assert s'.files == TempFiles(true, true, s.files.archives + {m.image});
    assert Staged(s') == after;
    forall i ensures InUse(s', i) <==> InUse(s, i) || i == m.image {
      if id :| id in Staged(s) && s.sessions[id].image == i { assert id in after && s'.sessions[id].image == i; }
      if i == m.image { assert m.id in after && s'.sessions[m.id].image == i; }
    }
  }

  /** UNSTAGE removes the archive and the directories once nobody needs them any more. */
  lemma UnstageFiles(s: State)
    requires Kept(s) && s.queue != [] && s.queue[0].Unstage?
    ensures var m, s' := s.queue[0], Work(s);
            m.id in Staged(s) && Staged(s') == Staged(s) - {m.id} && FilesKept(s')
  {
    var m, s' := s.queue[0], Work(s);
    var after := Staged(s) - {m.id};
    CountOfUsers(s, after, m.image);
    assert Staged(s') == after;
    assert InUse(s, m.image) by { assert m.id in Staged(s); }
    forall i
      ensures InUse(s', i) <==> exists id :: id in after && s.sessions[id].image == i
      ensures i != m.image ==> (InUse(s', i) <==> InUse(s, i))
    {
      if id :| id in after && s.sessions[id].image == i { assert id in Staged(s') && s'.sessions[id].image == i; }
      if id :| id in Staged(s) && s.sessions[id].image == i && i != m.image {
        assert id in Staged(s') && s'.sessions[id].image == i;
      }
    }
  }

  lemma StageKeeps(s: State)
    requires Kept(s) && s.queue != [] && s.queue[0].Stage?
    ensures Kept(Work(s))
  {
    var m, s' := s.queue[0], Work(s);
    StageFiles(s);
    AlikeTells(Staged(s'), s.sessions, s'.sessions, s'.queue);
    assert Ending(s.queue) == Ending(s'.queue);
    assert Live(s') == Live(s) && Downloading(s') == Downloading(s);
    forall i ensures ReadersOf(Live(s), s'.sessions, i) == ReadersOf(Live(s), s.sessions, i) {}
    VoiceAfter(s, s', m.id);
  }

  lemma UnstageKeeps(s: State)
    requires Kept(s) && s.queue != [] && s.queue[0].Unstage?
    ensures Kept(Work(s))
  {
    var m, s' := s.queue[0], Work(s);
    UnstageFiles(s);
    LiveAfterHead(s.sessions, s.queue, Live(s));
    assert Live(s') == Live(s) && Downloading(s') == Downloading(s);
    forall i ensures ReadersOf(Live(s), s'.sessions, i) == ReadersOf(Live(s), s.sessions, i) {}
    assert VoiceKept(s') by {
      if k :| k in s.sessions && Foreground(s.sessions[k]) {
        assert k != m.id && Foreground(s'.sessions[k]);
      }
    }
  }

  lemma WorkKeeps(s: State)
    requires Kept(s)
    ensures Kept(Work(s))
  {
    if s.queue != [] {
      match s.queue[0]
      case Read(_, _) =>
        assert Ending(s.queue) == Ending(s.queue[1..]);
        assert Live(Work(s)) == Live(s);
        FilesStay(s, Work(s));
      case Stage(_, _, _, _, _) => StageKeeps(s);
      case Unstage(_, _, _, _, _) => UnstageKeeps(s);
    }
  }

  // ---------- every step, every run ----------

  lemma ReadKeeps(s: State, id: ControllerId, image: nat)
    requires Kept(s)
    ensures Kept(RequestedRead(s, id, image))
  {
    var s' := RequestedRead(s, id, image);
    AppendRead(Staged(s), s.sessions, s.queue, Read(id, image));
    EndingAppend(s.queue, Read(id, image));
    assert Live(s') == Live(s);
    FilesStay(s, s');
  }

  lemma AllowedKeeps(s: State, e: Event)
    requires Kept(s) && Allowed(s, e)
    ensures Kept(Next(s, e))
  {
    match e
    case BeginEvent(id, image, manualPoll, resume) => BeginKeeps(s, id, image, manualPoll, resume);
    case ReadEvent(id, image) => ReadKeeps(s, id, image);
    case LastReadEvent(id) => DownloadedAllKeeps(s, id);
    case LoadInfoEvent(id) => if id in s.sessions { DownloadCompleteKeeps(s, id); }
    case EndEvent(id, image) => EndKeeps(s, id, image);
    case TimerEvent(id) => TimedOutKeeps(s, id);
    case PreferenceEvent(background) => FilesStay(s, Next(s, e));
    case WorkEvent => WorkKeeps(s);
  }

  /** Ending a session a second time counts down for a session that is no longer counted. */
  lemma SecondEndMiscounts(s: State, id: ControllerId)
    requires Kept(s) && id in s.sessions && id !in Live(s)
    ensures var s' := End(s, id, s.sessions[id].image); s'.sessionCount != Size(Live(s')) && id in s'.sessions
  {
    var image := s.sessions[id].image;
    DownloadCompleteKeeps(s, id);
    var a, s' := DownloadComplete(s, id), End(s, id, image);
    EndingAppend(a.queue, s'.queue[|s'.queue| - 1]);
    assert Live(s') == Live(s);
    SizeIsCardinality(Live(s));
    Bounded(Live(s), 256);
  }

  /** A timer that fires after its session has gone leaves a session that nobody counted. */
  lemma LateTimerMiscounts(s: State, id: ControllerId)
    requires Kept(s) && id !in s.sessions
    ensures var s' := TimedOut(s, id); id in Live(s') && s'.sessionCount == Size(Live(s')) - 1
    ensures TimedOut(s, id) == s.(sessions := s.sessions[id := Session(0, false, false, false, false, None)])
  {
    StagedIsKnown(Staged(s), s.sessions, s.queue);
    assert Live(TimedOut(s, id)) == Live(s) + {id};
    CountPlus(Live(s), id);
  }

  /** A STAGE or UNSTAGE queued for another image than the session's. */
  lemma OtherImageMiscounts(s: State, m: Message)
    requires s.queue != [] && s.queue[|s.queue| - 1] == m && !m.Read?
    requires m.id in s.sessions && s.sessions[m.id].image != m.image
    ensures !Kept(s)
  {
    var front := s.queue[..|s.queue| - 1];
    assert s.queue == front + [m];
    if Kept(s) { AppendedMatches(Staged(s), s.sessions, front, m); }
  }

  /** Data read to its end for a session that has been ended, while others are active. */
  lemma LateReadMiscounts(s: State, id: ControllerId)
    requires Kept(s) && !Allowed(s, LastReadEvent(id))
    ensures !Kept(DownloadedAll(s, id))
  {
    var s' := DownloadedAll(s, id);
    assert Live(s') == Live(s) && Downloading(s') == Downloading(s);
  }

  lemma TimerMiscounts(s: State, id: ControllerId)
    requires Kept(s) && !Allowed(s, TimerEvent(id))
    ensures !Kept(TimedOut(s, id))
  {
    var s' := TimedOut(s, id);
    if id in s.sessions {
      SecondEndMiscounts(s, id);
      assert Live(s') == Live(End(s, id, s.sessions[id].image));
    } else {
      LateTimerMiscounts(s, id);
    }
  }

  /** Which steps keep the books: exactly the allowed ones. The other steps break them at once. */
  lemma KeptExactly(s: State, e: Event)
    requires Kept(s)
    ensures Kept(Next(s, e)) <==> Allowed(s, e)
  {
    if Allowed(s, e) {
      AllowedKeeps(s, e);
    } else {
      match e
      case BeginEvent(id, image, manualPoll, resume) =>
        var s' := Begin(s, id, image, manualPoll, resume).0;
        OtherImageMiscounts(s', s'.queue[|s.queue|]);
      case LastReadEvent(id) => LateReadMiscounts(s, id);
      case EndEvent(id, image) =>
        var s' := End(s, id, image);
        if s.sessions[id].image != image { OtherImageMiscounts(s', s'.queue[|s.queue|]); }
        else { SecondEndMiscounts(s, id); }
      case TimerEvent(id) => TimerMiscounts(s, id);
    }
  }

  ghost predicate AllowedRun(s: State, events: seq<Event>)
    decreases |events|
  {
    events == [] || (Allowed(s, events[0]) && AllowedRun(Next(s, events[0]), events[1..]))
  }

  lemma {:induction false} RunKeeps(s: State, events: seq<Event>)
    requires Kept(s) && AllowedRun(s, events)
    ensures Kept(Run(s, events))
    decreases |events|
  {
    if events != [] {
      AllowedKeeps(s, events[0]);
      RunKeeps(Next(s, events[0]), events[1..]);
    }
  }

  lemma InitiallyKept(images: nat, background: bool)
    ensures Kept(Initial(images, background))
  {
    var s := Initial(images, background);
    assert Live(s) == {} && Downloading(s) == {} && Staged(s) == {};
    forall i ensures ReadersOf({}, s.sessions, i) == {} {}
  }
}
