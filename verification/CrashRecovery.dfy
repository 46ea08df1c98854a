/** Escalation over failed boots: count, restore the backups, then delete the database. */
module CrashRecovery {
  import opened Options
  import opened Words

  /** What survives a failed boot in shared memory. */
  datatype Shared = Shared(crashCount: u32, invalidHalNvm: bool, invalidDb: bool)

  const CLEARED := Shared(0, false, false)

  /** How the box is built and set up: with or without HAL NVM, and the configured threshold. */
  datatype Box = Box(hasHalNvm: bool, threshold: u32) {
    function Limit(): u32 { U32(2 * threshold) }
    /** Any threshold but zero that two of still fit 32 bits. */
    predicate Sensible() { 1 <= threshold < 0x8000_0000 }
  }

  /** The timestamps of the two backup files, where they can be read. */
  datatype Backups = Backups(hal: Option<nat>, db: Option<nat>)

  datatype Action = Counted | Restored | NoBackup | Inconsistent | Deleted(halToo: bool) | LoopReported

  // ---------- one boot ----------

  predicate InvalidData(box: Box, s: Shared) { s.invalidDb || (box.hasHalNvm && s.invalidHalNvm) }

  /** The check made before anything else is initialised. Without HAL NVM its backup time stays zero. */
  function Check(box: Box, s: Shared, b: Backups): (Shared, Action) {
    var c := s.(invalidDb := false, invalidHalNvm := s.invalidHalNvm && !box.hasHalNvm);
    var once := c.(crashCount := U32(s.crashCount + 1));
    if s.crashCount >= box.Limit() && InvalidData(box, s) then
      (c.(crashCount := 0), Deleted(box.hasHalNvm && s.invalidHalNvm))
    else if s.crashCount >= box.Limit() then (c, LoopReported)
    else if s.crashCount >= box.threshold then
      if box.hasHalNvm && b.hal.None? then (once, NoBackup)
      else if b.db.None? then (once, NoBackup)
      else if (if box.hasHalNvm then b.hal.value else 0) != b.db.value then
        (c.(crashCount := box.Limit()), Inconsistent)
      else (once, Restored)
    else (once, Counted)
  }

  /** How the rest of a boot goes: it succeeds, or fails and may mark the data it found invalid. */
  datatype Outcome = Succeeds | Fails(marksHalNvm: bool, marksDb: bool)

  datatype Boot = Boot(backups: Backups, outcome: Outcome)

  function Booted(box: Box, s: Shared, boot: Boot): Shared {
    var c := Check(box, s, boot.backups).0;
    match boot.outcome
    case Succeeds => CLEARED
    case Fails(hal, db) => c.(invalidHalNvm := c.invalidHalNvm || hal, invalidDb := c.invalidDb || db)
  }

  function After(box: Box, s: Shared, boots: seq<Boot>): Shared
    decreases |boots|
  {
    if boots == [] then s else After(box, Booted(box, s, boots[0]), boots[1..])
  }

  function Actions(box: Box, s: Shared, boots: seq<Boot>): (actions: seq<Action>)
    ensures |actions| == |boots|
    decreases |boots|
  {
    if boots == [] then []
    else [Check(box, s, boots[0].backups).1] + Actions(box, Booted(box, s, boots[0]), boots[1..])
  }

  function CountRestores(actions: seq<Action>): nat {
    if actions == [] then 0 else (if actions[0] == Restored then 1 else 0) + CountRestores(actions[1..])
  }

  class RecoveryManager {
    const box: Box
    var crashCount: u32
    var invalidHalNvm: bool
    var invalidDb: bool

    ghost function View(): Shared
      reads this
    {
      Shared(crashCount, invalidHalNvm, invalidDb)
    }

    constructor (box: Box)
      ensures this.box == box && View() == CLEARED
    {
      this.box, crashCount, invalidHalNvm, invalidDb := box, 0, false, false;
    }

    method CrashRecoveryCheck(b: Backups) returns (action: Action)
      modifies this
      ensures (View(), action) == Check(box, old(View()), b)
    {
      var halInvalid, dbInvalid := false, false;
      if box.hasHalNvm {
        halInvalid := invalidHalNvm;
        if halInvalid { invalidHalNvm := false; }
      }
      dbInvalid := invalidDb;
      if dbInvalid { invalidDb := false; }
      var limit := U32(2 * box.threshold);
      if crashCount >= limit && (halInvalid || dbInvalid) {
        crashCount := 0;
        return Deleted(halInvalid);
      } else if crashCount >= limit {
        return LoopReported;
      } else if crashCount >= box.threshold {
        var halTime, dbTime := 0, 0;
        if box.hasHalNvm {
          if b.hal.None? {
            crashCount := U32(crashCount + 1);
            return NoBackup;
          }
          halTime := b.hal.value;
        }
        if b.db.None? {
          crashCount := U32(crashCount + 1);
          return NoBackup;
        }
        dbTime := b.db.value;
        if halTime != dbTime {
          crashCount := limit;
          return Inconsistent;
        }
        crashCount := U32(crashCount + 1);
        return Restored;
      } else {
        crashCount := U32(crashCount + 1);
        return Counted;
      }
    }

    /** Initialisation got through: the count is cleared and the shared memory given up. */
    method BootSucceeded()
      modifies this
      ensures View() == CLEARED
    {
      crashCount, invalidHalNvm, invalidDb := 0, false, false;
    }
  }

  // ---------- over all boot sequences ----------

  /** The count never passes twice the threshold. */
  lemma {:induction false} CountBounded(box: Box, s: Shared, boots: seq<Boot>)
    requires box.Sensible() && s.crashCount <= 2 * box.threshold
    ensures After(box, s, boots).crashCount <= 2 * box.threshold
    decreases |boots|
  {
    if boots != [] { CountBounded(box, Booted(box, s, boots[0]), boots[1..]); }
  }

  ghost predicate AllFail(boots: seq<Boot>) {
    forall k :: 0 <= k < |boots| ==> boots[k].outcome.Fails?
  }

  /** Failed boots, none of which deletes the database. */
  ghost predicate Struggling(box: Box, s: Shared, boots: seq<Boot>)
    decreases |boots|
  {
    boots == [] || (boots[0].outcome.Fails? && !Check(box, s, boots[0].backups).1.Deleted?
                    && Struggling(box, Booted(box, s, boots[0]), boots[1..]))
  }

  /** Between successes and deletions the backups are restored at most as often as the count has steps
      left from the threshold to twice the threshold, so never more often than the threshold. */
  lemma {:induction false} RestoresBounded(box: Box, s: Shared, boots: seq<Boot>)
    requires box.Sensible() && s.crashCount <= 2 * box.threshold && Struggling(box, s, boots)
    ensures CountRestores(Actions(box, s, boots))
         <= if s.crashCount <= box.threshold then box.threshold else 2 * box.threshold - s.crashCount
    decreases |boots|
  {
    if boots != [] {
      var rest := boots[1..];
      RestoresBounded(box, Booted(box, s, boots[0]), rest);
      assert Actions(box, s, boots)[1..] == Actions(box, Booted(box, s, boots[0]), rest);
    }
  }

  /** Failing boots always get there: within as many of them as the count is short of twice the
      threshold, the count is exactly that. */
  lemma {:induction false} LimitReached(box: Box, s: Shared, boots: seq<Boot>) returns (k: nat)
    requires box.Sensible() && s.crashCount <= 2 * box.threshold && AllFail(boots)
    requires |boots| >= 2 * box.threshold - s.crashCount
    ensures k <= |boots| && k <= 2 * box.threshold - s.crashCount
    ensures After(box, s, boots[..k]).crashCount == 2 * box.threshold
    decreases |boots|
  {
    if s.crashCount == 2 * box.threshold {
      k := 0;
    } else {
      var j := LimitReached(box, Booted(box, s, boots[0]), boots[1..]);
      k := j + 1;
      assert boots[..k][0] == boots[0] && boots[..k][1..] == boots[1..][..j];
    }
  }

  /** At the limit a boot deletes the database and starts over exactly if the last one left invalid data
      behind; otherwise it changes nothing. */
  lemma AtTheLimit(box: Box, s: Shared, b: Backups)
    requires box.Sensible() && s.crashCount == 2 * box.threshold
    ensures var (c, action) := Check(box, s, b);
            if InvalidData(box, s) then action.Deleted? && c.crashCount == 0
            else action == LoopReported && c.crashCount == 2 * box.threshold
  {
  }

  /** With valid data the loop is not left by failing: the count stays at the limit, whatever the backups. */
  lemma {:induction false} ValidDataLoops(box: Box, s: Shared, boots: seq<Boot>)
    requires box.Sensible() && s.crashCount == 2 * box.threshold && !InvalidData(box, s)
    requires forall k :: 0 <= k < |boots| ==> boots[k].outcome == Fails(false, false)
    ensures After(box, s, boots).crashCount == 2 * box.threshold
    ensures forall k :: 0 <= k < |boots| ==> Actions(box, s, boots)[k] == LoopReported
    decreases |boots|
  {
    if boots != [] {
      var s' := Booted(box, s, boots[0]);
      ValidDataLoops(box, s', boots[1..]);
      forall k | 0 <= k < |boots| ensures Actions(box, s, boots)[k] == LoopReported {
        if k > 0 { assert Actions(box, s, boots)[k] == Actions(box, s', boots[1..])[k - 1]; }
      }
    }
  }

  /** When the backups are restored. A box without HAL NVM compares the database backup's time with zero,
      so it restores only a backup dated zero, and jumps to the limit for any other. */
  lemma RestoredExactly(box: Box, s: Shared, b: Backups)
    requires box.Sensible()
    ensures Check(box, s, b).1 == Restored <==>
            && box.threshold <= s.crashCount < 2 * box.threshold
            && b.db.Some?
            && (if box.hasHalNvm then b.hal == b.db else b.db.value == 0)
    ensures !box.hasHalNvm && box.threshold <= s.crashCount < 2 * box.threshold && b.db.Some? && b.db.value != 0
            ==> Check(box, s, b).0.crashCount == 2 * box.threshold
  {
  }

  /** What a check does, by the count alone and the flags it finds: which action it takes, the count it
      leaves, and the flags it clears. A success clears everything. */
  lemma CheckExactly(box: Box, s: Shared, b: Backups, boot: Boot)
    requires box.Sensible()
    ensures var (c, action) := Check(box, s, b);
            var t, invalid := box.threshold, s.invalidDb || (box.hasHalNvm && s.invalidHalNvm);
            && !c.invalidDb && (c.invalidHalNvm <==> s.invalidHalNvm && !box.hasHalNvm)
            && (action == Counted <==> s.crashCount < t)
            && (action == LoopReported <==> s.crashCount >= 2 * t && !invalid)
            && (action.Deleted? <==> s.crashCount >= 2 * t && invalid)
            && (action.Deleted? ==> (action.halToo <==> box.hasHalNvm && s.invalidHalNvm))
            && (action == NoBackup <==> t <= s.crashCount < 2 * t && ((box.hasHalNvm && b.hal.None?) || b.db.None?))
            && (action == Inconsistent <==>
                  t <= s.crashCount < 2 * t && b.db.Some?
                  && if box.hasHalNvm then b.hal.Some? && b.hal != b.db else b.db.value != 0)
            && c.crashCount == (match action
                                case Deleted(_) => 0
                                case LoopReported => s.crashCount
                                case Inconsistent => 2 * t
                                case _ => s.crashCount + 1)
    ensures boot.outcome.Succeeds? ==> Booted(box, s, boot) == Shared(0, false, false)
    ensures boot.outcome.Fails? ==>
              var c, after := Check(box, s, boot.backups).0, Booted(box, s, boot);
              && after.crashCount == c.crashCount
              && (after.invalidHalNvm <==> c.invalidHalNvm || boot.outcome.marksHalNvm)
              && (after.invalidDb <==> c.invalidDb || boot.outcome.marksDb)
  {
  }
}
