/** What every run of the session steps keeps. */
module SessionProofs {
  import opened Words
  import opened SessionSpec

  type Sessions = map<ControllerId, Session>

  // ---------- the invariant ----------

  /** The number of ids in a set, counted one by one. */
  ghost function Size(ids: set<ControllerId>): nat {
    if ids == {} then 0 else var id :| id in ids; 1 + Size(ids - {id})
  }

  lemma {:induction false} SizeIsCardinality(ids: set<ControllerId>)
    ensures Size(ids) == |ids|
  {
    if ids != {} {
      var id :| id in ids && Size(ids) == 1 + Size(ids - {id});
      SizeIsCardinality(ids - {id});
    }
  }

  /** The sessions of a set that read a given image. */
  ghost function ReadersOf(ids: set<ControllerId>, sessions: Sessions, image: nat): set<ControllerId> {
    set id | id in ids && id in sessions && sessions[id].image == image
  }

  /** A snapshot tells the numbers of a set of sessions. */
  ghost predicate Tells(m: Message, ids: set<ControllerId>, sessions: Sessions)
    requires !m.Read?
  {
    m.sessionCount == m.rf4ceCount == Size(ids) && m.readerCount == Size(ReadersOf(ids, sessions, m.image))
  }

  /** The queue from its head on, given the sessions the worker has staged and all sessions known:
      each STAGE finds a session not staged yet, each UNSTAGE a staged one that is over, each snapshot
      tells the numbers as of its own message, and at the end no session is left unaccounted for. */
  ghost predicate QueueTells(staged: set<ControllerId>, sessions: Sessions, queue: seq<Message>)
    decreases |queue|
  {
    if queue == [] then staged == sessions.Keys
    else
      match queue[0]
      case Read(_, _) => QueueTells(staged, sessions, queue[1..])
      case Stage(id, image, _, _, _) =>
        && id in sessions && id !in staged && sessions[id].image == image
        && Tells(queue[0], staged + {id}, sessions)
        && QueueTells(staged + {id}, sessions, queue[1..])
      case Unstage(id, image, _, _, _) =>
        && id in sessions && id in staged && sessions[id].image == image && !sessions[id].inProgress
        && Tells(queue[0], staged - {id}, sessions)
        && QueueTells(staged - {id}, sessions - {id}, queue[1..])
  }

  ghost function StagedIn(sessions: Sessions): set<ControllerId> {
    set id | id in sessions && sessions[id].fileOpen
  }

  /** The sessions that have been ended: their UNSTAGE is queued. */
  ghost function Ending(queue: seq<Message>): set<ControllerId>
    decreases |queue|
  {
    if queue == [] then {}
    else (if queue[0].Unstage? then {queue[0].id} else {}) + Ending(queue[1..])
  }

  /** Those of a set whose download is not complete. */
  ghost function DownloadingIn(live: set<ControllerId>, sessions: Sessions): set<ControllerId> {
    set id | id in live && id in sessions && !sessions[id].loadWaiting
  }

  ghost function Staged(s: State): set<ControllerId> { StagedIn(s.sessions) }

  ghost function Live(s: State): set<ControllerId> { s.sessions.Keys - Ending(s.queue) }

  ghost function Downloading(s: State): set<ControllerId> { DownloadingIn(Live(s), s.sessions) }

  ghost predicate Counted(s: State) {
    Counts(s, Live(s))
  }

  /** The counters count the given sessions, in all and image by image, and those still downloading. */
  ghost predicate Counts(s: State, live: set<ControllerId>) {
    && s.sessionCount == s.rf4ceCount == Size(live)
    && s.activeCount == Size(DownloadingIn(live, s.sessions)) <= SIMULTANEOUS_SESSIONS
    && forall i :: 0 <= i < |s.readers| ==> s.readers[i] == Size(ReadersOf(live, s.sessions, i))
  }

  ghost predicate FilesKept(s: State) {
    && (s.files.dir <==> Staged(s) != {})
    && (s.files.rf4ceDir <==> Staged(s) != {})
    && forall i :: i in s.files.archives <==> InUse(s, i)
  }

  /** Some session has the image open. */
  ghost predicate InUse(s: State, image: nat) {
    exists id :: id in Staged(s) && s.sessions[id].image == image
  }

  ghost predicate VoiceKept(s: State) {
    s.voiceBlocked <==> exists id :: id in s.sessions && Foreground(s.sessions[id])
  }

  ghost predicate Kept(s: State) {
    && QueueTells(Staged(s), s.sessions, s.queue)
    && Counted(s) && FilesKept(s) && VoiceKept(s)
    && (forall id :: id in s.sessions ==> s.sessions[id].image < |s.readers|)
    && (forall id :: id in s.sessions && s.sessions[id].timer.Some? ==>
          s.sessions[id].timer.value == s.sessions[id].image)
  }

  // ---------- the queue ----------

  /** What a snapshot tells of a set depends on the images of its sessions only. */
  lemma TellsSame(m: Message, ids: set<ControllerId>, a: Sessions, b: Sessions)
    requires !m.Read?
    requires forall id :: id in ids ==> id in a && id in b && a[id].image == b[id].image
    ensures Tells(m, ids, a) == Tells(m, ids, b)
  {
    assert ReadersOf(ids, a, m.image) == ReadersOf(ids, b, m.image);
  }

  lemma {:induction false} StagedIsKnown(staged: set<ControllerId>, sessions: Sessions, queue: seq<Message>)
    requires QueueTells(staged, sessions, queue)
    ensures staged <= sessions.Keys && Ending(queue) <= sessions.Keys
    decreases |queue|
  {
    if queue != [] {
      match queue[0]
      case Read(_, _) => StagedIsKnown(staged, sessions, queue[1..]);
      case Stage(id, _, _, _, _) => StagedIsKnown(staged + {id}, sessions, queue[1..]);
      case Unstage(id, _, _, _, _) =>
        StagedIsKnown(staged - {id}, sessions - {id}, queue[1..]);
        assert staged <= (staged - {id}) + {id} && (sessions - {id}).Keys <= sessions.Keys;
    }
  }

  lemma {:induction false} EndingAppend(queue: seq<Message>, m: Message)
    ensures Ending(queue + [m]) == Ending(queue) + if m.Unstage? then {m.id} else {}
    decreases |queue|
  {
    if queue != [] {
      assert (queue + [m])[1..] == queue[1..] + [m];
      EndingAppend(queue[1..], m);
    }
  }

  lemma LiveAfterHead(sessions: Sessions, queue: seq<Message>, live: set<ControllerId>)
    requires queue != [] && queue[0].Unstage? && live == sessions.Keys - Ending(queue)
    ensures live == (sessions - {queue[0].id}).Keys - Ending(queue[1..])
    ensures queue[0].id !in live
  {
  }

  /** Sessions that agree on keys and images, none of them newly in progress, are told alike. */
  ghost predicate Alike(a: Sessions, b: Sessions) {
    a.Keys == b.Keys && forall id :: id in a ==> a[id].image == b[id].image && (b[id].inProgress ==> a[id].inProgress)
  }

  lemma {:induction false} AlikeTells(staged: set<ControllerId>, a: Sessions, b: Sessions, queue: seq<Message>)
    requires Alike(a, b) && QueueTells(staged, a, queue)
    ensures QueueTells(staged, b, queue)
    decreases |queue|
  {
    if queue != [] {
      StagedIsKnown(staged, a, queue);
      match queue[0]
      case Read(_, _) => AlikeTells(staged, a, b, queue[1..]);
      case Stage(id, _, _, _, _) =>
        TellsSame(queue[0], staged + {id}, a, b);
        AlikeTells(staged + {id}, a, b, queue[1..]);
      case Unstage(id, _, _, _, _) =>
        TellsSame(queue[0], staged - {id}, a, b);
        AlikeTells(staged - {id}, a - {id}, b - {id}, queue[1..]);
    }
  }

  lemma {:induction false} AppendRead(staged: set<ControllerId>, sessions: Sessions, queue: seq<Message>, m: Message)
    requires QueueTells(staged, sessions, queue) && m.Read?
    ensures QueueTells(staged, sessions, queue + [m])
    decreases |queue|
  {
    if queue != [] {
      assert (queue + [m])[1..] == queue[1..] + [m];
      match queue[0]
      case Read(_, _) => AppendRead(staged, sessions, queue[1..], m);
      case Stage(id, _, _, _, _) => AppendRead(staged + {id}, sessions, queue[1..], m);
      case Unstage(id, _, _, _, _) => AppendRead(staged - {id}, sessions - {id}, queue[1..], m);
    }
  }

  lemma StageAlone(staged: set<ControllerId>, a: Sessions, n: Session, m: Message)
    requires staged == a.Keys && m.Stage? && m.id !in a && n.image == m.image
    requires Tells(m, staged + {m.id}, a[m.id := n])
    ensures QueueTells(staged, a[m.id := n], [m])
  {
    assert QueueTells(staged + {m.id}, a[m.id := n], []);
    assert [m][1..] == [];
  }

  lemma {:induction false} AppendStage(staged: set<ControllerId>, a: Sessions, n: Session, queue: seq<Message>,
                                       m: Message, live: set<ControllerId>)
    requires QueueTells(staged, a, queue) && live == a.Keys - Ending(queue)
    requires m.Stage? && m.id !in a && n.image == m.image
    requires Tells(m, live + {m.id}, a[m.id := n])
    ensures QueueTells(staged, a[m.id := n], queue + [m])
    decreases |queue|
  {
    if queue == [] {
      assert live == staged && queue + [m] == [m];
      StageAlone(staged, a, n, m);
    } else {
      var b, rest := a[m.id := n], queue[1..];
      assert queue + [m] == [queue[0]] + rest + [m] && (queue + [m])[1..] == rest + [m];
      StagedIsKnown(staged, a, queue);
      match queue[0]
      case Read(_, _) => AppendStage(staged, a, n, rest, m, live);
      case Stage(id, _, _, _, _) =>
        TellsSame(queue[0], staged + {id}, a, b);
        AppendStage(staged + {id}, a, n, rest, m, live);
      case Unstage(id, _, _, _, _) =>
        LiveAfterHead(a, queue, live);
        TellsSame(m, live + {m.id}, b, (a - {id})[m.id := n]);
        AppendStage(staged - {id}, a - {id}, n, rest, m, live);
        StageBehindUnstage(staged, a, n, queue[0], rest, m);
    }
  }

  lemma StageBehindUnstage(staged: set<ControllerId>, a: Sessions, n: Session, head: Message, rest: seq<Message>,
                           m: Message)
    requires m.id !in a && staged <= a.Keys && head.Unstage?
    requires head.id in staged && a[head.id].image == head.image && !a[head.id].inProgress
    requires Tells(head, staged - {head.id}, a)
    requires QueueTells(staged - {head.id}, (a - {head.id})[m.id := n], rest + [m])
    ensures QueueTells(staged, a[m.id := n], [head] + rest + [m])
  {
    var b := a[m.id := n];
    TellsSame(head, staged - {head.id}, a, b);
    assert (a - {head.id})[m.id := n] == b - {head.id};
    assert ([head] + rest + [m])[1..] == rest + [m];
  }

  lemma {:induction false} AppendUnstage(staged: set<ControllerId>, a: Sessions, queue: seq<Message>,
                                         m: Message, live: set<ControllerId>)
    requires QueueTells(staged, a, queue) && live == a.Keys - Ending(queue)
    requires m.Unstage? && m.id in live && a[m.id].image == m.image && !a[m.id].inProgress
    requires Tells(m, live - {m.id}, a)
    ensures QueueTells(staged, a, queue + [m])
    decreases |queue|
  {
    if queue == [] {
      assert live == staged && (a - {m.id}).Keys == a.Keys - {m.id};
    } else {
      assert (queue + [m])[1..] == queue[1..] + [m];
      match queue[0]
      case Read(_, _) => AppendUnstage(staged, a, queue[1..], m, live);
      case Stage(id, _, _, _, _) => AppendUnstage(staged + {id}, a, queue[1..], m, live);
      case Unstage(id, _, _, _, _) =>
        TellsSame(m, live - {m.id}, a - {id}, a);
        LiveAfterHead(a, queue, live);
        AppendUnstage(staged - {id}, a - {id}, queue[1..], m, live);
    }
  }

  /** A message that does not match its session's image cannot be accounted for. */
  lemma {:induction false} AppendedMatches(staged: set<ControllerId>, sessions: Sessions, queue: seq<Message>,
                                           m: Message)
    requires QueueTells(staged, sessions, queue + [m]) && !m.Read?
    ensures m.id in sessions && sessions[m.id].image == m.image
    decreases |queue|
  {
    if queue == [] {
      assert (queue + [m])[0] == m;
    } else {
      assert (queue + [m])[0] == queue[0] && (queue + [m])[1..] == queue[1..] + [m];
      match queue[0]
      case Read(_, _) => AppendedMatches(staged, sessions, queue[1..], m);
      case Stage(id, _, _, _, _) => AppendedMatches(staged + {id}, sessions, queue[1..], m);
      case Unstage(id, _, _, _, _) => AppendedMatches(staged - {id}, sessions - {id}, queue[1..], m);
    }
  }
}
