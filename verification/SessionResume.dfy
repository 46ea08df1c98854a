/** After a restart: the interrupted downloads that can go on, and those that must wait. */
module SessionResume {
  import opened Options
  import opened Words
  import opened SessionSpec
  import opened SessionProofs
  import opened SessionSteps
  import ImageSelection

  /** An interrupted download: whose it is, and the controller whose image is to be found again. */
  datatype Entry = Entry(id: ControllerId, controller: ImageSelection.Controller, manualPoll: bool)

  type Images = seq<ImageSelection.Image>

  function Selected(images: Images, e: Entry): Option<nat> {
    var choice := ImageSelection.Select(e.controller, images);
    if choice.found then Some(choice.id) else None
  }

  /** One entry: whether its download was started, and the state after. */
  function ResumeOne(s: State, images: Images, e: Entry): (State, bool) {
    match Selected(images, e)
    case None => (s, false)
    case Some(image) => Begin(s, e.id, image, e.manualPoll, true)
  }

  /** The pass over the list: the state after it, and the entries left in the list. */
  function ResumeAll(s: State, images: Images, entries: seq<Entry>): (State, seq<Entry>)
    decreases |entries|
  {
    if entries == [] then (s, [])
    else
      var (s1, started) := ResumeOne(s, images, entries[0]);
      var (s2, left) := ResumeAll(s1, images, entries[1..]);
      (s2, if started then left else [entries[0]] + left)
  }

  /** The entries, in their order, that have no image to load or no session. */
  function Unstarted(s: State, images: Images, entries: seq<Entry>): seq<Entry> {
    if entries == [] then []
    else
      var e := entries[0];
      (if Selected(images, e).Some? && e.id in s.sessions then [] else [e]) + Unstarted(s, images, entries[1..])
  }

  lemma {:induction false} SelectedInTable(c: ImageSelection.Controller, images: Images)
    ensures ImageSelection.Select(c, images).found ==> ImageSelection.Select(c, images).id < |images|
  {
    if images != [] { SelectedInTable(c, images[..|images| - 1]); }
  }

  // ---------- the list ----------

  /** One entry: started exactly if it has an image and a session afterwards, and otherwise, if it has an
      image, both places are taken. */
  lemma ResumeOneIs(s: State, images: Images, e: Entry)
    requires s.activeCount <= SIMULTANEOUS_SESSIONS && |images| == |s.readers|
    ensures var (s', started) := ResumeOne(s, images, e);
            && |images| == |s'.readers| && s.activeCount <= s'.activeCount <= SIMULTANEOUS_SESSIONS
            && (started <==> Selected(images, e).Some? && e.id in s'.sessions)
            && (!started ==> s' == s)
            && (!started && Selected(images, e).Some? ==> s.activeCount == SIMULTANEOUS_SESSIONS)
            && (started && e.id !in s.sessions ==> s'.sessions[e.id].image == Selected(images, e).value
                                                   && s'.activeCount == s.activeCount + 1)
            && (started && e.id in s.sessions ==> s'.activeCount == s.activeCount)
            && (forall id :: id in s.sessions ==> id in s'.sessions && s'.sessions[id].image == s.sessions[id].image)
            && (forall id :: id in s'.sessions ==> id in s.sessions || (started && id == e.id))
  {
    SelectedInTable(e.controller, images);
  }

  /** A place once taken stays taken: no session is added when both are. */
  lemma {:induction false} FullStaysFull(s: State, images: Images, entries: seq<Entry>)
    requires |images| == |s.readers| && s.activeCount == SIMULTANEOUS_SESSIONS
    ensures var s' := ResumeAll(s, images, entries).0;
            s'.activeCount == SIMULTANEOUS_SESSIONS && s'.sessions.Keys == s.sessions.Keys
    decreases |entries|
  {
    if entries != [] {
      ResumeOneIs(s, images, entries[0]);
      FullStaysFull(ResumeOne(s, images, entries[0]).0, images, entries[1..]);
    }
  }

  /** The resume pass, for every list: what is left are, in their order, exactly the entries with no image
      or no session; every session there was is still there, on its image; no more than two downloads are
      active; and an entry with an image is left waiting only if two are. */
  lemma {:induction false} ResumePass(s: State, images: Images, entries: seq<Entry>)
    requires s.activeCount <= SIMULTANEOUS_SESSIONS && |images| == |s.readers|
    ensures var (s', left) := ResumeAll(s, images, entries);
            && s'.activeCount <= SIMULTANEOUS_SESSIONS
            && left == Unstarted(s', images, entries)
            && (forall id :: id in s.sessions ==> id in s'.sessions && s'.sessions[id].image == s.sessions[id].image)
            && (forall e :: e in left && Selected(images, e).Some? ==> s'.activeCount == SIMULTANEOUS_SESSIONS)
    decreases |entries|
  {
    if entries != [] {
      var e, rest := entries[0], entries[1..];
      ResumeOneIs(s, images, e);
      var (s1, started) := ResumeOne(s, images, e);
      ResumePass(s1, images, rest);
      if !started && Selected(images, e).Some? {
        FullStaysFull(s1, images, rest);
      }
    }
  }

  /** An entry whose controller has no session gets one exactly if an image is selected for it, forced or not,
      and fewer than two downloads are active: on that image, downloading, in the background unless that
      was a manual poll or is not preferred, and with no timer. */
  lemma ResumedSession(s: State, images: Images, e: Entry)
    requires |images| == |s.readers| && e.id !in s.sessions
    ensures var (s', started) := ResumeOne(s, images, e);
            var choice := ImageSelection.Select(e.controller, images);
            && (started <==> choice.found && s.activeCount < 2)
            && (started ==> e.id in s'.sessions
                            && s'.sessions[e.id]
                               == Session(choice.id, s.backgroundPref && !e.manualPoll, true, false, false, None))
  {
    SelectedInTable(e.controller, images);
  }

  // ---------- the books ----------

  /** The images the sessions are on. */
  function Taken(s: State): map<ControllerId, nat> {
    map id | id in s.sessions :: s.sessions[id].image
  }

  /** Going through the list with the controllers' images and the places that are free: no controller that
      has a session, or gets one on the way, is on the list for another image. */
  predicate OneImageEach(taken: map<ControllerId, nat>, places: nat, images: Images, entries: seq<Entry>)
    decreases |entries|
  {
    if entries == [] then true
    else
      var e, rest := entries[0], entries[1..];
      match Selected(images, e)
      case None => OneImageEach(taken, places, images, rest)
      case Some(image) =>
        if e.id in taken then taken[e.id] == image && OneImageEach(taken, places, images, rest)
        else if places == 0 then OneImageEach(taken, 0, images, rest)
        else OneImageEach(taken[e.id := image], places - 1, images, rest)
  }

  /** A message that names another image than its session is on. */
  predicate Mismatches(m: Message, sessions: Sessions) {
    !m.Read? && m.id in sessions && sessions[m.id].image != m.image
  }

  ghost predicate Mismatched(s: State) {
    exists k :: 0 <= k < |s.queue| && Mismatches(s.queue[k], s.sessions)
  }

  lemma {:induction false} QueueMatches(staged: set<ControllerId>, sessions: Sessions, queue: seq<Message>, k: nat)
    requires QueueTells(staged, sessions, queue) && k < |queue| && !queue[k].Read?
    ensures queue[k].id in sessions && sessions[queue[k].id].image == queue[k].image
    decreases |queue|
  {
    if k > 0 {
      assert queue[1..][k - 1] == queue[k];
      match queue[0]
      case Read(_, _) => QueueMatches(staged, sessions, queue[1..], k - 1);
      case Stage(id, _, _, _, _) => QueueMatches(staged + {id}, sessions, queue[1..], k - 1);
      case Unstage(id, _, _, _, _) => QueueMatches(staged - {id}, sessions - {id}, queue[1..], k - 1);
    }
  }

  lemma MismatchedIsNotKept(s: State)
    requires Mismatched(s)
    ensures !Kept(s)
  {
    if Kept(s) {
      var k :| 0 <= k < |s.queue| && Mismatches(s.queue[k], s.sessions);
      QueueMatches(Staged(s), s.sessions, s.queue, k);
    }
  }

  /** Nothing in the pass takes a message out of the queue or a session off its image. */
  lemma {:induction false} MismatchStays(s: State, images: Images, entries: seq<Entry>)
    requires s.activeCount <= SIMULTANEOUS_SESSIONS && |images| == |s.readers| && Mismatched(s)
    ensures Mismatched(ResumeAll(s, images, entries).0)
    decreases |entries|
  {
    if entries != [] {
      var s1 := ResumeOne(s, images, entries[0]).0;
      ResumeOneIs(s, images, entries[0]);
      assert s.queue <= s1.queue;
      var k :| 0 <= k < |s.queue| && Mismatches(s.queue[k], s.sessions);
      assert s1.queue[k] == s.queue[k] && Mismatches(s1.queue[k], s1.sessions);
      MismatchStays(s1, images, entries[1..]);
    }
  }

  lemma ResumedOnOther(s: State, images: Images, e: Entry)
    requires Selected(images, e).Some? && |images| == |s.readers|
    requires e.id in s.sessions && s.sessions[e.id].image != Selected(images, e).value
    ensures Mismatched(ResumeOne(s, images, e).0)
  {
    SelectedInTable(e.controller, images);
    var s1 := ResumeOne(s, images, e).0;
    assert Mismatches(s1.queue[|s.queue|], s1.sessions);
  }

  lemma ResumeOneKeeps(s: State, images: Images, e: Entry)
    requires Kept(s) && |images| == |s.readers|
    requires Selected(images, e).Some? && e.id in s.sessions ==> s.sessions[e.id].image == Selected(images, e).value
    ensures Kept(ResumeOne(s, images, e).0)
  {
    if Selected(images, e).Some? {
      AllowedKeeps(s, BeginEvent(e.id, Selected(images, e).value, e.manualPoll, true));
    }
  }

  lemma TakenAfter(s: State, images: Images, e: Entry)
    requires s.activeCount <= SIMULTANEOUS_SESSIONS && |images| == |s.readers|
    ensures var s1 := ResumeOne(s, images, e).0;
            if Selected(images, e).None? || (e.id !in s.sessions && s.activeCount == SIMULTANEOUS_SESSIONS) then s1 == s
            else if e.id in s.sessions then Taken(s1) == Taken(s) && s1.activeCount == s.activeCount
            else Taken(s1) == Taken(s)[e.id := Selected(images, e).value] && s1.activeCount == s.activeCount + 1
  {
    ResumeOneIs(s, images, e);
    var s1 := ResumeOne(s, images, e).0;
    if Selected(images, e).Some? && e.id in s.sessions { assert s1.sessions.Keys == s.sessions.Keys; }
  }

  /** The pass keeps the books exactly if every controller is on the list for one image. */
  lemma {:induction false} ResumeKeepsExactly(s: State, images: Images, entries: seq<Entry>)
    requires Kept(s) && |images| == |s.readers|
    ensures Kept(ResumeAll(s, images, entries).0)
            <==> OneImageEach(Taken(s), SIMULTANEOUS_SESSIONS - s.activeCount, images, entries)
    decreases |entries|
  {
    if entries != [] {
      var e, rest := entries[0], entries[1..];
      var s1 := ResumeOne(s, images, e).0;
      ResumeOneIs(s, images, e);
      if Selected(images, e).Some? && e.id in s.sessions && s.sessions[e.id].image != Selected(images, e).value {
        ResumedOnOther(s, images, e);
        MismatchStays(s1, images, rest);
        MismatchedIsNotKept(ResumeAll(s, images, entries).0);
      } else {
        ResumeOneKeeps(s, images, e);
        TakenAfter(s, images, e);
        ResumeKeepsExactly(s1, images, rest);
      }
    }
  }
}
