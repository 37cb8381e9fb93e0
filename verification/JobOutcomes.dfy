/** What a job leaves behind: what is recorded of it, what becomes of its entry, and why. */
module JobOutcomes {
  import opened StoreModel
  import opened SyncEngine
  import opened JobRuns

  // ----- Matching -----

  /** An entry has work of its own unless it stands as the machine has it. */
  lemma LocalIntentIs(s: SyncState)
    ensures HasLocalIntent(s) <==> s != Synced && s != RemoteOnly
  {
  }

  /** A rename finds the entry it was made for, and no entry with other content, if the job says what that is. */
  lemma RenameFindsOwn(e: Entry, j: Job)
    requires e.sync == PendingRename
    ensures e.cachePath == j.cachePath && e.md5 == j.md5 && e.size == j.size ==> RenameMatches(e, j)
    ensures j.cachePath == "" && j.md5 == "" && j.size == 0 ==> RenameMatches(e, j)
    ensures RenameMatches(e, j) && j.cachePath != "" && j.md5 != "" && j.size != 0 ==>
              e.cachePath == j.cachePath && e.md5 == j.md5 && e.size == j.size
    ensures RenameMatches(e, j) ==> e.md5 == j.md5 || j.md5 == ""
    ensures RenameMatches(e, j) ==> e.size == j.size || j.size == 0
    ensures RenameMatches(e, j) ==> e.cachePath == j.cachePath || j.cachePath == ""
  {
  }

  // ----- Recording an outcome -----

  /** z is m but for the first job with the identifier, which only took another state, number of attempts and
      message. */
  ghost predicate OnlyItsJob(m: Model, z: Model, id: int, state: JobState, attempts: nat, message: string, now: Time) {
    && Find(m.jobs, id) < |m.jobs| == |z.jobs|
    && var k := Find(m.jobs, id);
       && z.nextJob == m.nextJob && z.active == m.active
       && (forall i :: 0 <= i < |m.jobs| && i != k ==> z.jobs[i] == m.jobs[i])
       && z.jobs[k] == m.jobs[k].(state := state, attempts := attempts, lastError := message, updatedAt := now)
  }

  /** A success is recorded on the job alone: it is done, with one more attempt and no error, and no entry
      changes. */
  lemma SuccessRecorded(m: Model, j: Job, now: Time)
    requires KnowsJob(m, j)
    ensures var z := RecordSuccess(m, j, now);
            OnlyItsJob(m, z, j.id, Done, m.jobs[Find(m.jobs, j.id)].attempts + 1, "", now) && z.entries == m.entries
  {
    var x, f := m.jobs[Find(m.jobs, j.id)], Succeeded;
    assert f(x) == Succeeded(x);
  }

  /** The state in which an entry waits for a job of this kind. */
  function WaitingState(kind: JobKind): SyncState {
    match kind
    case Upload => PendingUpload
    case Delete => PendingDelete
    case Rename => PendingRename
    case Mkdir => PendingUpload
    case OtherKind(_) => Error
  }

  /** A failure counts the attempt that was made: with attempts left the job is queued and its entry waits again;
      otherwise both have failed. */
  lemma FailureCounts(cfg: Config, m: Model, j: Job, message: string, now: Time)
    requires KnowsJob(m, j)
    ensures var z := RecordFailure(cfg, m, j, message, now);
            var again := j.attempts + 1 < cfg.maxAttempts;
            && OnlyItsJob(m, z, j.id, if again then Queued else Failed, j.attempts + 1, message, now)
            && z.entries == EntryAfterFailure(m, j, if again then WaitingState(j.kind) else Error, message, now)
  {
    hide StillWaits;
    var f := (x: Job) => FailedOnce(cfg, j, message, x);
    EntryFollows(Apply(m, UpdateJob(j.id, f), now), j, FailedSync(j.kind, Terminal(cfg, j)), message, now);
  }

  /** Done on the machine but not recorded: the job has failed for good, whatever its attempts. */
  lemma CompletedFailureRecorded(m: Model, j: Job, message: string, now: Time)
    requires KnowsJob(m, j)
    ensures var z := RecordCompletedFailure(m, j, message, now);
            && OnlyItsJob(m, z, j.id, Failed, m.jobs[Find(m.jobs, j.id)].attempts + 1, message, now)
            && z.entries == EntryAfterFailure(m, j, Error, message, now)
  {
    var f := (x: Job) => FailedForGood(message, x);
    EntryFollows(Apply(m, UpdateJob(j.id, f), now), j, Error, message, now);
  }

  /** Whether the entry still waits for this job. */
  predicate StillWaits(e: Entry, j: Job, sync: SyncState) {
    match j.kind
    case Upload => SameFile(e, j) && e.sync in {PendingUpload, Uploading, sync}
    case Delete => e.sync in {PendingDelete, Deleting}
    case Rename => e.sync == PendingRename
    case Mkdir => e.sync == PendingUpload
    case OtherKind(_) => e.sync in {PendingUpload, Uploading, PendingDelete, Deleting, PendingRename}
  }

  /** The entries with the job's own in its new state, if it still waits for the job. */
  function EntryAfterFailure(m: Model, j: Job, sync: SyncState, message: string, now: Time): map<string, Entry> {
    if j.path in m.entries && StillWaits(m.entries[j.path], j, sync) then
      m.entries[j.path := m.entries[j.path].(sync := sync, error := message, updatedAt := now)]
    else m.entries
  }

  lemma EntryFollows(m: Model, j: Job, sync: SyncState, message: string, now: Time)
    ensures FailEntry(m, j, sync, message, now)
         == m.(entries := EntryAfterFailure(m, j, sync, message, now))
  {
    hide OnlySync, Apply;
    SyncIsOnlySync(m, j.path, sync, message, FailOp(j, sync, message).match_, now);
    if j.path in m.entries {
      MatchIsWaiting(m.entries[j.path], j, sync, message);
    }
  }

  lemma MatchIsWaiting(e: Entry, j: Job, sync: SyncState, message: string)
    ensures FailOp(j, sync, message).match_(e) <==> StillWaits(e, j, sync)
  {
  }

  // ----- The next attempt -----

  /** An attempt of the job may begin, and finds its entry waiting. */
  predicate MayRun(m: Model, j: Job) {
    && KnowsJob(m, j) && m.jobs[Find(m.jobs, j.id)].state == Queued
    && j.path in m.entries
    && match j.kind
       case Upload => UploadMarks(m, j, Uploading)
       case Delete => m.entries[j.path].sync in {PendingDelete, Deleting}
       case Rename => RenameMatches(m.entries[j.path], j)
       case Mkdir => m.entries[j.path].isDir && m.entries[j.path].sync == PendingUpload
       case OtherKind(_) => false
  }

  /** A job that failed with attempts left may run again: it is queued, and its entry waits for it as before. */
  lemma FailureMayRunAgain(cfg: Config, m: Model, j: Job, message: string, now: Time)
    requires KnowsJob(m, j) && j.path in m.entries && !j.kind.OtherKind?
    requires StillWaits(m.entries[j.path], j, WaitingState(j.kind))
    requires j.kind == Rename ==> RenameMatches(m.entries[j.path], j)
    requires j.kind == Mkdir ==> m.entries[j.path].isDir
    requires j.attempts + 1 < cfg.maxAttempts
    ensures MayRun(RecordFailure(cfg, m, j, message, now), j)
  {
    FailureCounts(cfg, m, j, message, now);
    hide RecordFailure;
    var z := RecordFailure(cfg, m, j, message, now);
    SamePlace(m, z, j.id);
  }

  lemma SamePlace(m: Model, z: Model, id: int)
    requires Find(m.jobs, id) < |m.jobs| == |z.jobs|
    requires forall i :: 0 <= i < |m.jobs| ==> z.jobs[i].id == m.jobs[i].id
    ensures Find(z.jobs, id) == Find(m.jobs, id)
  {
    var k := Find(m.jobs, id);
    UpdateIs(z.jobs, id, k, x => x);
  }

  // ----- A run nobody disturbs -----

  /** What an undisturbed run that succeeds makes of the entries. */
  function EntriesAfterSuccess(m: Model, j: Job, now: Time): map<string, Entry>
    requires j.path in m.entries
  {
    var e := m.entries[j.path];
    match j.kind
    case Upload => m.entries[j.path := e.(sync := Synced, error := "", updatedAt := now)]
    case Delete => m.entries - {j.path}
    case Rename =>
      if j.destPath == j.path || (j.destPath in m.entries && HasLocalIntent(m.entries[j.destPath].sync)) then
        m.entries - {j.path}
      else
        (m.entries - {j.path})[j.destPath :=
          Normalize(e.(path := j.destPath, sync := Synced, error := "")).(updatedAt := now)]
    case Mkdir => m.entries[j.path := e.(sync := Synced, error := "", updatedAt := now)]
    case OtherKind(_) => m.entries
  }

  /** Begin, decide, operate, complete, record: with the times of the store's sections. */
  function Undisturbed(t: seq<Time>): seq<Step>
    requires |t| == 4
  {
    [Begin(t[0], false), Accept, Decide(t[1], false), Operate(true), Complete(t[2], false), Succeed(t[3], false)]
  }

  lemma Snoc(cfg: Config, j: Job, m: Model, steps: seq<Step>, step: Step)
    requires ValidRun(cfg, j, m, steps) && Enabled(After(cfg, j, m, steps), step)
    ensures ValidRun(cfg, j, m, steps + [step])
    ensures After(cfg, j, m, steps + [step]) == Do(cfg, j, After(cfg, j, m, steps), step)
  {
    hide Do, Enabled;
    assert (steps + [step])[..|steps|] == steps;
  }

  lemma NothingDone(cfg: Config, j: Job, m: Model)
    ensures ValidRun(cfg, j, m, []) && After(cfg, j, m, []) == Run(m, Dialing, [])
  {
  }

  /** The entries once the job is under way. */
  function Underway(m: Model, j: Job, now: Time): Model {
    match j.kind
    case Upload => MarkUpload(m, j, Uploading, "", now)
    case Delete => MarkDeleting(m, j, now)
    case _ => m
  }

  function Completed(m: Model, j: Job, now: Time): Model {
    match j.kind
    case Upload => MarkUpload(m, j, Synced, "", now)
    case Delete => DropEntry(m, j, now)
    case Rename => MoveEntry(m, j, now)
    case Mkdir => MarkMade(m, j, now)
    case OtherKind(_) => m
  }

  lemma BeginRuns(m: Model, j: Job, now: Time)
    requires KnowsJob(m, j) && m.jobs[Find(m.jobs, j.id)].state == Queued
    ensures var z, k := Apply(m, StartJob(j.id), now), Find(m.jobs, j.id);
            z == m.(jobs := m.jobs[k := m.jobs[k].(state := Running, updatedAt := now)]) && Find(z.jobs, j.id) == k
  {
    var z, k := Apply(m, StartJob(j.id), now), Find(m.jobs, j.id);
    UpdateIs(z.jobs, j.id, k, x => x);
  }

  lemma EntriesCompleted(m: Model, j: Job, decided: Time, now: Time)
    requires MayRun(m.(jobs := [j.(state := Queued)]), j)
    ensures Completed(Underway(m, j, decided), j, now)
         == m.(entries := EntriesAfterSuccess(m, j, now))
  {
    hide HasLocalIntent, Normalize, Find;
    var e := m.entries[j.path];
    match j.kind
    case Upload => MarkedTwice(m, j, decided, now);
    case Delete =>
      var marked := e.(sync := Deleting, error := "", updatedAt := decided);
      assert Underway(m, j, decided) == m.(entries := m.entries[j.path := marked]);
      assert m.entries[j.path := marked] - {j.path} == m.entries - {j.path};
    case Rename => EntryMoved(m, j, now);
    case Mkdir =>
    case OtherKind(_) =>
  }

  lemma MarkedTwice(m: Model, j: Job, decided: Time, now: Time)
    requires j.kind == Upload && UploadMarks(m, j, Uploading)
    ensures MarkUpload(MarkUpload(m, j, Uploading, "", decided), j, Synced, "", now)
         == m.(entries := m.entries[j.path := m.entries[j.path].(sync := Synced, error := "", updatedAt := now)])
  {
    hide MarkUpload;
    UploadMarksExactly(m, j, Uploading, "", decided);
    UploadMarksExactly(MarkUpload(m, j, Uploading, "", decided), j, Synced, "", now);
  }

  lemma EntryMoved(m: Model, j: Job, now: Time)
    requires j.kind == Rename && j.path in m.entries && RenameMatches(m.entries[j.path], j)
    ensures MoveEntry(m, j, now) == m.(entries := EntriesAfterSuccess(m, j, now))
  {
    hide Normalize;
    var e := m.entries[j.path];
    var moved := Normalize(e.(path := j.destPath, sync := Synced, error := "")).(updatedAt := now);
    if j.destPath != j.path {
      assert m.entries[j.destPath := moved] - {j.path} == (m.entries - {j.path})[j.destPath := moved];
    }
  }

  /** A run that nobody disturbs and that goes through leaves the job done, with one more attempt and no error,
      and its entry as the kind of job has it: uploaded or made and synced, gone, or moved and synced. */
  lemma UndisturbedSucceeds(cfg: Config, j: Job, m: Model, t: seq<Time>)
    requires |t| == 4 && MayRun(m, j)
    ensures var run := Undisturbed(t);
            && ValidRun(cfg, j, m, run)
            && var r := After(cfg, j, m, run);
               && r.phase.Over?
               && OnlyItsJob(m, r.m, j.id, Done, m.jobs[Find(m.jobs, j.id)].attempts + 1, "", t[3])
               && r.m.entries == EntriesAfterSuccess(m, j, t[2])
  {
    hide ValidRun, After, Underway, Completed, RecordSuccess, Apply, OnlyItsJob, MayRun;
    var run, begun := Undisturbed(t), Apply(m, StartJob(j.id), t[0]);
    var completed := Completed(Underway(begun, j, t[1]), j, t[2]);
    UndisturbedWorks(cfg, j, m, t);
    UndisturbedCompletes(j, After(cfg, j, m, run[..4]), t[2]);
    assert run[..4] + [run[4]] == run[..5] && run[..5] + [run[5]] == run;
    Snoc(cfg, j, m, run[..4], run[4]);
    Snoc(cfg, j, m, run[..5], run[5]);
    UndisturbedEntries(m, j, t);
    SuccessRecorded(completed, j, t[3]);
    ItsJobTwice(m, completed, RecordSuccess(completed, j, t[3]), j.id, t[3]);
  }

  /** The first four steps. */
  lemma UndisturbedWorks(cfg: Config, j: Job, m: Model, t: seq<Time>)
    requires |t| == 4 && MayRun(m, j)
    ensures var run, begun := Undisturbed(t), Apply(m, StartJob(j.id), t[0]);
            && ValidRun(cfg, j, m, run[..4])
            && var r := After(cfg, j, m, run[..4]); r.phase.Worked? && r.m == Underway(begun, j, t[1])
    ensures !j.kind.OtherKind?
  {
    hide ValidRun, After, Underway, Apply, UploadMatches, RenameMatches;
    var run, none := Undisturbed(t), [];
    var begun := Apply(m, StartJob(j.id), t[0]);
    BeginRuns(m, j, t[0]);
    NothingDone(cfg, j, m);
    assert run[..0] == none && run[..0] + [run[0]] == run[..1] && run[..1] + [run[1]] == run[..2];
    Snoc(cfg, j, m, none, run[0]);
    Snoc(cfg, j, m, run[..1], run[1]);
    UndisturbedDecides(cfg, j, Run(begun, Deciding, [Section(m, begun)]), t[1]);
    assert run[..2] + [run[2]] == run[..3] && run[..3] + [run[3]] == run[..4];
    Snoc(cfg, j, m, run[..2], run[2]);
    Snoc(cfg, j, m, run[..3], run[3]);
  }

  lemma UndisturbedCompletes(j: Job, r: Run, now: Time)
    requires r.phase.Worked? && !j.kind.OtherKind?
    ensures var z := DoComplete(r, j, now, false); z.phase.Succeeding? && z.m == Completed(r.m, j, now)
  {
    hide MarkUpload, DropEntry, MoveEntry, MarkMade;
  }

  lemma UndisturbedEntries(m: Model, j: Job, t: seq<Time>)
    requires |t| == 4 && MayRun(m, j)
    ensures var begun := Apply(m, StartJob(j.id), t[0]);
            var z := Completed(Underway(begun, j, t[1]), j, t[2]);
            && OnlyItsJob(m, z, j.id, Running, m.jobs[Find(m.jobs, j.id)].attempts,
                          m.jobs[Find(m.jobs, j.id)].lastError, t[0])
            && z.entries == EntriesAfterSuccess(m, j, t[2])
            && KnowsJob(m, j) && KnowsJob(z, j) && Find(z.jobs, j.id) == Find(m.jobs, j.id)
  {
    hide Underway, Completed, Apply, UploadMatches, RenameMatches, EntriesAfterSuccess;
    BeginRuns(m, j, t[0]);
    var begun := Apply(m, StartJob(j.id), t[0]);
    EntriesCompleted(begun, j, t[1], t[2]);
    SameEntriesSame(m, begun, j, t[2]);
  }

  lemma SameEntriesSame(m: Model, z: Model, j: Job, now: Time)
    requires m.entries == z.entries && j.path in m.entries
    ensures EntriesAfterSuccess(m, j, now) == EntriesAfterSuccess(z, j, now)
  {
    hide Normalize, HasLocalIntent;
  }

  /** Running, then done. */
  lemma ItsJobTwice(m: Model, y: Model, z: Model, id: int, now: Time)
    requires Find(m.jobs, id) < |m.jobs| && Find(y.jobs, id) == Find(m.jobs, id)
    requires var x := m.jobs[Find(m.jobs, id)];
             exists t :: OnlyItsJob(m, y, id, Running, x.attempts, x.lastError, t)
    requires Find(y.jobs, id) < |y.jobs|
    requires OnlyItsJob(y, z, id, Done, y.jobs[Find(y.jobs, id)].attempts + 1, "", now)
    ensures OnlyItsJob(m, z, id, Done, m.jobs[Find(m.jobs, id)].attempts + 1, "", now)
  {
  }

  lemma UndisturbedDecides(cfg: Config, j: Job, r: Run, now: Time)
    requires r.phase.Deciding? && MayRun(r.m.(jobs := [j.(state := Queued)]), j)
    ensures var z := Do(cfg, j, r, Decide(now, false)); z.phase.Working? && z.m == Underway(r.m, j, now)
  {
    hide MarkUpload, MarkDeleting, UploadMatches, RenameMatches, Find;
  }

  // ----- Done only once done -----

  /** The machine has carried the job out: every operation of the run went through, and unless an upload found
      its file gone there was one. */
  ghost predicate CarriedOut(j: Job, log: seq<Event>) {
    && (forall k :: 0 <= k < |log| && log[k].OnMachine? ==> log[k].ok)
    && (j.kind != Upload ==> exists k :: 0 <= k < |log| && log[k].OnMachine?)
  }

  /** Before the operation the log holds none; after one that went through the machine has carried it out. */
  ghost predicate PhaseTells(j: Job, r: Run) {
    && (r.phase in {Dialing, Started, Deciding, Working} ==> forall k :: 0 <= k < |r.log| ==> r.log[k].Section?)
    && (r.phase in {Worked, Succeeding, FailingAfterwards} ==> CarriedOut(j, r.log))
    && (r.phase.Worked? ==> exists k :: 0 <= k < |r.log| && r.log[k].OnMachine?)
  }

  lemma StepTells(cfg: Config, j: Job, r: Run, step: Step)
    requires PhaseTells(j, r) && Enabled(r, step)
    ensures PhaseTells(j, Do(cfg, j, r, step))
  {
    hide Apply, MarkUpload, MarkDeleting, DropEntry, MoveEntry, MarkMade, RecordSuccess, RecordFailure,
      RecordCompletedFailure, UploadMarks, Find;
    var log := Do(cfg, j, r, step).log;
    assert forall k :: 0 <= k < |r.log| ==> log[k] == r.log[k];
    if step.Operate? {
      assert log[|r.log|].OnMachine?;
    }
  }

  lemma {:induction false} AlwaysTells(cfg: Config, j: Job, m: Model, steps: seq<Step>)
    requires ValidRun(cfg, j, m, steps)
    ensures PhaseTells(j, After(cfg, j, m, steps))
  {
    hide PhaseTells, Do, Enabled;
    if steps == [] {
      NothingTold(j, m);
    } else {
      AlwaysTells(cfg, j, m, steps[..|steps| - 1]);
      StepTells(cfg, j, After(cfg, j, m, steps[..|steps| - 1]), steps[|steps| - 1]);
    }
  }

  lemma NothingTold(j: Job, m: Model)
    ensures PhaseTells(j, Run(m, Dialing, []))
  {
  }

  /** Over every run, whatever clients do: a job is recorded as done only when the machine has carried it out,
      and then, if the store still knows it, it is done in that very section, with no error. */
  lemma DoneOnlyWhenCarriedOut(cfg: Config, j: Job, m: Model, steps: seq<Step>, now: Time)
    requires ValidRun(cfg, j, m, steps) && Enabled(After(cfg, j, m, steps), Succeed(now, false))
    ensures var r, z := After(cfg, j, m, steps), Do(cfg, j, After(cfg, j, m, steps), Succeed(now, false));
            && CarriedOut(j, r.log) && z.phase.Over? && z.log == r.log + [Section(r.m, z.m)]
            && z.m.entries == r.m.entries
            && if KnowsJob(r.m, j) then
                 OnlyItsJob(r.m, z.m, j.id, Done, r.m.jobs[Find(r.m.jobs, j.id)].attempts + 1, "", now)
               else z.m == r.m
  {
    hide ValidRun, After, CarriedOut;
    AlwaysTells(cfg, j, m, steps);
    var r := After(cfg, j, m, steps);
    if KnowsJob(r.m, j) {
      SuccessRecorded(r.m, j, now);
    }
  }

  /** So does a job whose completion could not be recorded fail for good only then. */
  lemma FailsForGoodWhenCarriedOut(cfg: Config, j: Job, m: Model, steps: seq<Step>, message: string, now: Time)
    requires ValidRun(cfg, j, m, steps) && Enabled(After(cfg, j, m, steps), FailAfterwards(message, now, false))
    ensures CarriedOut(j, After(cfg, j, m, steps).log)
  {
    hide ValidRun, After, CarriedOut;
    AlwaysTells(cfg, j, m, steps);
  }
}
