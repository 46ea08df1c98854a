/** The device update engine: the sessions of all controllers, and the worker thread's queue. */
module DeviceUpdate {
  import opened Options
  import opened Words
  import opened SessionSpec
  import opened SessionResume
  import ImageSelection

  class Engine {
    var backgroundPref: bool
    const images: Images
    /** The number of sessions reading each image. */
    var readers: seq<u32>
    var sessions: map<ControllerId, Session>
    var sessionCount: u32
    var activeCount: u32
    var rf4ceCount: u32
    var queue: seq<Message>
    var files: TempFiles
    /** The voice object's "device update in progress" flag. */
    var voiceBlocked: bool

    ghost function View(): State
      reads this
    {
      State(backgroundPref, sessions, sessionCount, activeCount, rf4ceCount, readers, queue, files, voiceBlocked)
    }

    constructor (images: Images, background: bool)
      ensures this.images == images && View() == Initial(|images|, background)
    {
      this.images, backgroundPref := images, background;
      readers, sessions := seq(|images|, _ => 0), map[];
      sessionCount, activeCount, rf4ceCount := 0, 0, 0;
      queue, files, voiceBlocked := [], TempFiles(false, false, {}), false;
    }

    /** A new session, counted in every counter. */
    method CreateSession(id: ControllerId, image: nat)
      requires image < |readers|
      modifies this
      ensures View() == Acquire(old(View()), id, image)
    {
      sessionCount := U32(sessionCount + 1);
      activeCount := U32(activeCount + 1);
      rf4ceCount := U32(rf4ceCount + 1);
      readers := readers[image := U32(readers[image] as int + 1)];
      sessions := sessions[id := Session(image, backgroundPref, false, false, false, None)];
    }

    method BeginDownload(id: ControllerId, image: nat, manualPoll: bool, resume: bool) returns (ready: bool)
      modifies this
      ensures (View(), ready) == Begin(old(View()), id, image, manualPoll, resume)
    {
      if image >= |readers| {
        return false;
      }
      if id in sessions && sessions[id].image == image {
        return true;
      } else if id !in sessions {
        if activeCount >= SIMULTANEOUS_SESSIONS {
          return false;
        }
        CreateSession(id, image);
      }
      queue := queue + [Stage(id, image, sessionCount, rf4ceCount, readers[image])];
      var n := sessions[id];
      if !resume {
        n := n.(timer := Some(image));
      }
      if manualPoll {
        n := n.(background := false);
      }
      if !n.background {
        voiceBlocked := true;
      }
      n := n.(inProgress := true);
      sessions := sessions[id := n];
      ready := true;
    }

    method CompleteDownload(id: ControllerId)
      requires id in sessions
      modifies `sessions, `voiceBlocked
      ensures View() == DownloadComplete(old(View()), id)
    {
      var n := sessions[id];
      if n.inProgress {
        sessions := sessions[id := n.(inProgress := false)];
        if !n.background {
          sessions := sessions[id := n.(inProgress := false, background := backgroundPref)];
          assert sessions == old(sessions)[id := sessions[id]];
          var foreground := AnyForeground();
          if !foreground {
            voiceBlocked := false;
          }
        }
      }
    }

    /** Goes through the sessions until one is found that runs in the foreground. */
    method AnyForeground() returns (found: bool)
      ensures found <==> exists k :: k in sessions && Foreground(sessions[k])
    {
      found := false;
      var left := sessions.Keys;
      while left != {}
        invariant left <= sessions.Keys
        invariant forall k :: k in sessions && k !in left ==> !Foreground(sessions[k])
        decreases |left|
      {
        var it :| it in left;
        left := left - {it};
        if !sessions[it].background && sessions[it].inProgress {
          return true;
        }
      }
    }

    /** The bookkeeping of a data request that completes the image. */
    method NoteDownloaded(id: ControllerId)
      modifies `sessions, `activeCount
      ensures View() == DownloadedAll(old(View()), id)
    {
      if id in sessions && !sessions[id].loadWaiting {
        sessions := sessions[id := sessions[id].(loadWaiting := true)];
        if activeCount > 0 {
          activeCount := activeCount - 1;
        }
      }
    }

    method LoadImageInfo(id: ControllerId)
      modifies `sessions, `voiceBlocked
      ensures View() == LoadInfo(old(View()), id)
    {
      if id in sessions {
        CompleteDownload(id);
      }
    }

    method EndSession(id: ControllerId, image: nat)
      modifies this
      ensures View() == End(old(View()), id, image)
    {
      if image >= |readers| || id !in sessions {
        return;
      }
      CompleteDownload(id);
      if !sessions[id].loadWaiting {
        if activeCount > 0 {
          activeCount := activeCount - 1;
        }
      }
      readers := readers[image := U32(readers[image] as int - 1)];
      rf4ceCount := U32(rf4ceCount - 1);
      sessionCount := U32(sessionCount - 1);
      queue := queue + [Unstage(id, image, sessionCount, rf4ceCount, readers[image])];
    }

    method SessionTimedOut(id: ControllerId)
      requires id in sessions ==> sessions[id].timer.Some?
      modifies this
      ensures View() == TimedOut(old(View()), id)
    {
      if id !in sessions {
        sessions := sessions[id := BLANK_SESSION];
        return;
      }
      EndSession(id, sessions[id].timer.value);
      sessions := sessions[id := sessions[id].(timer := None)];
    }

    /** One turn of the worker's loop, for the messages that concern the sessions. */
    method ProcessMessage()
      requires queue != []
      modifies this
      ensures View() == Work(old(View()))
    {
      var m := queue[0];
      queue := queue[1..];
      match m {
        case Read(_, _) =>
        case Stage(id, image, _, _, _) =>
          if id in sessions {
            if m.sessionCount == 1 { files := MakeDir(files); }
            if m.rf4ceCount == 1 { files := MakeRf4ceDir(files); }
            if m.readerCount == 1 { files := Extract(files, image); }
            sessions := sessions[id := sessions[id].(fileOpen := image in files.archives)];
          }
        case Unstage(id, image, _, _, _) =>
          sessions := sessions - {id};
          if m.readerCount == 0 { files := RemoveArchive(files, image); }
          if m.rf4ceCount == 0 { files := RemoveRf4ceDir(files); }
          if m.sessionCount == 0 { files := RemoveDir(files); }
      }
    }

    /** Looks for the entry's image, and begins its download if there is one. */
    method ResumeEntry(e: Entry) returns (ready: bool)
      modifies this
      ensures (View(), ready) == ResumeOne(old(View()), images, e)
    {
      ready := false;
      var choice := ImageSelection.IsImageAvailable(e.controller, images);
      if choice.found {
        ready := BeginDownload(e.id, choice.id, e.manualPoll, true);
      }
    }

    /** Tries every interrupted download, and takes those that were started off the list. */
    method ResumeCheck(entries: seq<Entry>) returns (left: seq<Entry>)
      modifies this
      ensures (View(), left) == ResumeAll(old(View()), images, entries)
    {
      left := entries;
      var it := 0;
      assert entries[0..] == entries && entries[..0] + ResumeAll(View(), images, entries).1
          == ResumeAll(View(), images, entries).1;
      while it < |left|
        invariant it <= |left| <= |entries|
        invariant var (s, rest) := ResumeAll(View(), images, left[it..]);
                  ResumeAll(old(View()), images, entries) == (s, left[..it] + rest)
        decreases |left| - it
      {
        var e := left[it];
        ghost var done, rest := left[..it], left[it + 1..];
        assert left[it..] == [e] + rest && left[it..][1..] == rest;
        var ready := ResumeEntry(e);
        if ready {
          left := left[..it] + left[it + 1..];
          assert left[..it] == done && left[it..] == rest;
        } else {
          it := it + 1;
          assert left[..it] == done + [e];
          assert done + ([e] + ResumeAll(View(), images, rest).1) == left[..it] + ResumeAll(View(), images, rest).1;
        }
      }
      assert left[it..] == [] && left[..it] + [] == left;
    }
  }
}
