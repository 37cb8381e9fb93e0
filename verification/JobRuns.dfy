/** One job running on the machine while clients change the store between any two of its steps. */
module JobRuns {
  import opened StoreModel
  import opened SyncEngine

  // ----- Decisions about entries -----

  /** The entry still is the file the upload job was made for. */
  predicate SameFile(e: Entry, j: Job) {
    !e.isDir && e.cachePath == j.cachePath && e.md5 == j.md5 && e.size == j.size
  }

  predicate UploadMatches(e: Entry, j: Job, sync: SyncState) {
    SameFile(e, j) && (e.sync == PendingUpload || e.sync == Uploading || e.sync == sync)
  }

  predicate RenameMatches(e: Entry, j: Job) {
    && e.sync == PendingRename
    && (j.cachePath != "" ==> e.cachePath == j.cachePath)
    && (j.md5 != "" ==> e.md5 == j.md5)
    && (j.size == 0 || e.size == j.size)
  }

  predicate HasLocalIntent(s: SyncState) {
    s in {LocalOnly, PendingUpload, Uploading, PendingDelete, Deleting, PendingRename, Error}
  }

  /** The states of an entry with a job on its way. */
  const WAITING := {PendingUpload, PendingDelete, PendingRename, Uploading, Deleting}

  function FailedSync(kind: JobKind, terminal: bool): SyncState {
    if terminal then Error
    else match kind
      case Upload => PendingUpload
      case Mkdir => PendingUpload
      case Delete => PendingDelete
      case Rename => PendingRename
      case OtherKind(_) => Error
  }

  // ----- Store sections of a run -----

  function MarkUpload(m: Model, j: Job, sync: SyncState, message: string, now: Time): Model {
    Apply(m, SetEntrySync(j.path, sync, message, e => UploadMatches(e, j, sync)), now)
  }

  predicate UploadMarks(m: Model, j: Job, sync: SyncState) {
    j.path in m.entries && UploadMatches(m.entries[j.path], j, sync)
  }

  function MarkDeleting(m: Model, j: Job, now: Time): Model {
    Apply(m, SetEntrySync(j.path, Deleting, "", (e: Entry) => e.sync in {PendingDelete, Deleting}), now)
  }

  function DropEntry(m: Model, j: Job, now: Time): Model {
    Apply(m, DeleteEntry(j.path, (e: Entry) => e.sync in {PendingDelete, Deleting}), now)
  }

  function MoveEntry(m: Model, j: Job, now: Time): Model {
    if j.path in m.entries && RenameMatches(m.entries[j.path], j) then
      if j.destPath in m.entries && HasLocalIntent(m.entries[j.destPath].sync) then
        Apply(m, DeleteEntry(j.path, e => true), now)
      else
        var moved := m.entries[j.path].(path := j.destPath, sync := Synced, error := "");
        Apply(Apply(m, PutEntry(moved), now), DeleteEntry(j.path, e => true), now)
    else m
  }

  function MarkMade(m: Model, j: Job, now: Time): Model {
    Apply(m, SetEntrySync(j.path, Synced, "", (e: Entry) => e.isDir && e.sync == PendingUpload), now)
  }

  /** The update of the entry of a job that failed. */
  function FailOp(j: Job, sync: SyncState, message: string): Op {
    match j.kind
    case Upload => SetEntrySync(j.path, sync, message, e => UploadMatches(e, j, sync))
    case Delete => SetEntrySync(j.path, sync, message, (e: Entry) => e.sync in {PendingDelete, Deleting})
    case Rename => SetEntrySync(j.path, sync, message, (e: Entry) => e.sync in {PendingRename})
    case Mkdir => SetEntrySync(j.path, sync, message, (e: Entry) => e.sync in {PendingUpload})
    case OtherKind(_) => SetEntrySync(j.path, sync, message, (e: Entry) => e.sync in WAITING)
  }

  function FailEntry(m: Model, j: Job, sync: SyncState, message: string, now: Time): Model {
    Apply(m, FailOp(j, sync, message), now)
  }

  function RecordSuccess(m: Model, j: Job, now: Time): Model {
    Apply(m, UpdateJob(j.id, Succeeded), now)
  }

  predicate KnowsJob(m: Model, j: Job) {
    Find(m.jobs, j.id) < |m.jobs|
  }

  /** One batch: if the job is gone, the entry stays too. */
  function RecordFailure(cfg: Config, m: Model, j: Job, message: string, now: Time): Model {
    var f := (x: Job) => FailedOnce(cfg, j, message, x);
    if !KnowsJob(m, j) then m
    else FailEntry(Apply(m, UpdateJob(j.id, f), now), j, FailedSync(j.kind, Terminal(cfg, j)), message, now)
  }

  function RecordCompletedFailure(m: Model, j: Job, message: string, now: Time): Model {
    var f := (x: Job) => FailedForGood(message, x);
    if KnowsJob(m, j) then FailEntry(Apply(m, UpdateJob(j.id, f), now), j, Error, message, now) else m
  }

  // ----- The run -----

  datatype Phase =
    | Dialing | Started | Deciding | Working | Worked
    | Succeeding | Failing | FailingAfterwards | Over

  /** What a run does: a locked section of the store, or an operation on the machine. */
  datatype Event = Section(before: Model, after: Model) | OnMachine(at: Model, ok: bool)

  datatype Run = Run(m: Model, phase: Phase, log: seq<Event>)

  /** `storeFails` says that the durable write failed, which undoes the section. */
  datatype Step =
    | Clients(m: Model)                              // any change to the store
    | DialFails
    | Begin(now: Time, storeFails: bool)             // marks the job running
    | Refuse                                         // the path is not one of the machine's files
    | Accept
    | Decide(now: Time, storeFails: bool)            // before the machine operation
    | Operate(ok: bool)
    | Complete(now: Time, storeFails: bool)          // after it
    | Succeed(now: Time, storeFails: bool)
    | Fail(message: string, now: Time, storeFails: bool)
    | FailAfterwards(message: string, now: Time, storeFails: bool)

  predicate Enabled(r: Run, step: Step) {
    match step
    case Clients(_) => true
    case DialFails => r.phase.Dialing?
    case Begin(_, _) => r.phase.Dialing?
    case Refuse => r.phase.Started?
    case Accept => r.phase.Started?
    case Decide(_, _) => r.phase.Deciding?
    case Operate(_) => r.phase.Working?
    case Complete(_, _) => r.phase.Worked?
    case Succeed(_, _) => r.phase.Succeeding?
    case Fail(_, _, _) => r.phase.Failing?
    case FailAfterwards(_, _, _) => r.phase.FailingAfterwards?
  }

  function Commit(r: Run, z: Model, fails: bool, phase: Phase, failed: Phase): Run {
    if fails then r.(phase := failed) else Run(z, phase, r.log + [Section(r.m, z)])
  }

  function DoBegin(r: Run, j: Job, now: Time, fails: bool): Run {
    var k := Find(r.m.jobs, j.id);
    if k == |r.m.jobs| || r.m.jobs[k].state != Queued then r.(phase := Over)
    else Commit(r, Apply(r.m, StartJob(j.id), now), fails, Started, Failing)
  }

  function DoDecide(r: Run, j: Job, now: Time, fails: bool): Run {
    match j.kind
    case Upload =>
      if UploadMarks(r.m, j, Uploading) then Commit(r, MarkUpload(r.m, j, Uploading, "", now), fails, Working, Failing)
      else r.(phase := Succeeding)
    case Delete => Commit(r, MarkDeleting(r.m, j, now), fails, Working, Failing)
    case Rename => r.(phase := Working)
    case Mkdir => r.(phase := Working)
    case OtherKind(_) => r.(phase := Failing)
  }

  function DoComplete(r: Run, j: Job, now: Time, fails: bool): Run {
    match j.kind
    case Upload => Commit(r, MarkUpload(r.m, j, Synced, "", now), fails, Succeeding, FailingAfterwards)
    case Delete => Commit(r, DropEntry(r.m, j, now), fails, Succeeding, FailingAfterwards)
    case Rename => Commit(r, MoveEntry(r.m, j, now), fails, Succeeding, FailingAfterwards)
    case Mkdir => Commit(r, MarkMade(r.m, j, now), fails, Succeeding, FailingAfterwards)
    case OtherKind(_) => r
  }

  function Do(cfg: Config, j: Job, r: Run, step: Step): Run
    requires Enabled(r, step)
  {
    match step
    case Clients(m) => r.(m := m)
    case DialFails => r.(phase := Failing)
    case Begin(now, fails) => DoBegin(r, j, now, fails)
    case Refuse => r.(phase := Failing)
    case Accept => r.(phase := Deciding)
    case Decide(now, fails) => DoDecide(r, j, now, fails)
    case Operate(ok) => Run(r.m, if ok then Worked else Failing, r.log + [OnMachine(r.m, ok)])
    case Complete(now, fails) => DoComplete(r, j, now, fails)
    case Succeed(now, fails) => Commit(r, RecordSuccess(r.m, j, now), fails, Over, FailingAfterwards)
    case Fail(message, now, fails) => Commit(r, RecordFailure(cfg, r.m, j, message, now), fails, Over, Over)
    case FailAfterwards(message, now, fails) =>
      Commit(r, RecordCompletedFailure(r.m, j, message, now), fails, Over, Over)
  }

  ghost predicate ValidRun(cfg: Config, j: Job, m: Model, steps: seq<Step>)
    decreases |steps|, 0
  {
    steps == [] || (ValidRun(cfg, j, m, steps[..|steps| - 1])
                    && Enabled(After(cfg, j, m, steps[..|steps| - 1]), steps[|steps| - 1]))
  }

  ghost function After(cfg: Config, j: Job, m: Model, steps: seq<Step>): Run
    requires ValidRun(cfg, j, m, steps)
    decreases |steps|, 1
  {
    if steps == [] then Run(m, Dialing, [])
    else Do(cfg, j, After(cfg, j, m, steps[..|steps| - 1]), steps[|steps| - 1])
  }

  // ----- What a section may do -----

  /** b is a but for one entry's sync state, message and time. */
  predicate OnlySync(a: map<string, Entry>, b: map<string, Entry>, p: string) {
    && p in a && b.Keys == a.Keys
    && b == a[p := a[p].(sync := b[p].sync, error := b[p].error, updatedAt := b[p].updatedAt)]
  }

  /** Apart from its own job, a run leaves the queue alone, and it may touch entries only so. */
  ghost predicate Legitimate(j: Job, a: Model, b: Model) {
    && a.nextJob == b.nextJob && a.active == b.active && |a.jobs| == |b.jobs|
    && (forall k :: 0 <= k < |a.jobs| && a.jobs[k].id != j.id ==> b.jobs[k] == a.jobs[k])
    && (a.entries != b.entries ==> j.path in a.entries && MayTouch(j, a.entries, b.entries))
  }

  predicate MayTouch(j: Job, a: map<string, Entry>, b: map<string, Entry>)
    requires j.path in a
  {
    var e := a[j.path];
    match j.kind
    case Upload => SameFile(e, j) && OnlySync(a, b, j.path)
    case Delete => e.sync in {PendingDelete, Deleting} && (b == a - {j.path} || OnlySync(a, b, j.path))
    case Rename => e.sync == PendingRename && (OnlySync(a, b, j.path) || Moved(j, a, b))
    case Mkdir => e.sync == PendingUpload && OnlySync(a, b, j.path)
    case OtherKind(_) => OnlySync(a, b, j.path)
  }

  /** The entry left its path; unless the destination has work of its own waiting, which then stays
      as it was, it is there now, synced. */
  predicate Moved(j: Job, a: map<string, Entry>, b: map<string, Entry>)
    requires j.path in a
  {
    && RenameMatches(a[j.path], j) && j.path !in b
    && (j.destPath in a && HasLocalIntent(a[j.destPath].sync) && j.destPath != j.path ==> b == a - {j.path})
    && (j.destPath != j.path && !(j.destPath in a && HasLocalIntent(a[j.destPath].sync)) ==>
          && j.destPath in b && b[j.destPath].sync == Synced && b[j.destPath].cachePath == a[j.path].cachePath
          && b[j.destPath].md5 == a[j.path].md5 && b - {j.destPath} == a - {j.path, j.destPath})
  }

  // ----- Each section is legitimate -----

  /** Only jobs with the identifier may differ. */
  ghost predicate OtherJobsSame(id: int, a: Model, b: Model) {
    && a.nextJob == b.nextJob && a.active == b.active && |a.jobs| == |b.jobs|
    && (forall k :: 0 <= k < |a.jobs| && a.jobs[k].id != id ==> b.jobs[k] == a.jobs[k])
  }

  lemma UpdateIsLocal(m: Model, id: int, f: Job -> Job, now: Time)
    ensures var z := Apply(m, UpdateJob(id, f), now); OtherJobsSame(id, m, z) && z.entries == m.entries
  {
  }

  lemma StartIsLocal(m: Model, id: int, now: Time)
    ensures OtherJobsSame(id, m, Apply(m, StartJob(id), now)) && Apply(m, StartJob(id), now).entries == m.entries
  {
  }

  lemma SyncIsOnlySync(m: Model, path: string, sync: SyncState, message: string, ok: Entry -> bool, now: Time)
    ensures var z := Apply(m, SetEntrySync(path, sync, message, ok), now);
            && z == m.(entries := z.entries)
            && (path in m.entries && ok(m.entries[path]) ==>
                  && OnlySync(m.entries, z.entries, path)
                  && z.entries[path] == m.entries[path].(sync := sync, error := message, updatedAt := now))
            && (!(path in m.entries && ok(m.entries[path])) ==> z == m)
  {
  }

  /** An upload marks its entry exactly when the entry still is its file and is in a state to be
      marked; otherwise it changes nothing. */
  lemma UploadMarksExactly(m: Model, j: Job, sync: SyncState, message: string, now: Time)
    ensures var z := MarkUpload(m, j, sync, message, now);
            if UploadMarks(m, j, sync) then
              var marked := m.entries[j.path].(sync := sync, error := message, updatedAt := now);
              z == m.(entries := m.entries[j.path := marked])
            else z == m
  {
  }

  /** A delete that went through removes the entry exactly when it is still to be deleted. */
  lemma DropsExactly(m: Model, j: Job, now: Time)
    ensures var z := DropEntry(m, j, now);
            && (j.path in m.entries ==> (j.path in z.entries <==> m.entries[j.path].sync !in {PendingDelete, Deleting}))
            && z.entries - {j.path} == m.entries - {j.path} && z.jobs == m.jobs
  {
  }

  /** A rename that went through moves its entry exactly when the entry still waits for it: to the
      destination, synced and with the same content.  It gives way if local work waits there; and a
      rename onto its own path always does, since the entry itself is such work, and is dropped. */
  lemma MovesExactly(m: Model, j: Job, now: Time)
    ensures var z := MoveEntry(m, j, now);
            if j.path in m.entries && RenameMatches(m.entries[j.path], j) then
              && z.entries - {j.destPath} == m.entries - {j.path, j.destPath} && z.jobs == m.jobs
              && (if j.destPath == j.path then j.path !in z.entries
                  else if j.destPath in m.entries && HasLocalIntent(m.entries[j.destPath].sync) then
                    j.destPath in z.entries && z.entries[j.destPath] == m.entries[j.destPath]
                  else
                    && j.destPath in z.entries
                    && var e, was := z.entries[j.destPath], m.entries[j.path];
                       && e.sync == Synced && e.path == j.destPath
                       && e.md5 == was.md5 && e.size == was.size && e.cachePath == was.cachePath)
            else z == m
  {
  }

  lemma FailEntryLegit(m: Model, j: Job, sync: SyncState, message: string, now: Time)
    ensures Legitimate(j, m, FailEntry(m, j, sync, message, now))
  {
    hide OnlySync;
    SyncIsOnlySync(m, j.path, sync, message, FailOp(j, sync, message).match_, now);
  }

  lemma MoveLegit(m: Model, j: Job, now: Time)
    requires j.kind == Rename
    ensures Legitimate(j, m, MoveEntry(m, j, now))
  {
    hide OnlySync;
  }

  /** A job's update, then a change of its entry. */
  lemma BothLegit(j: Job, a: Model, b: Model, c: Model)
    requires OtherJobsSame(j.id, a, b) && b.entries == a.entries && Legitimate(j, b, c)
    ensures Legitimate(j, a, c)
  {
    hide MayTouch;
  }

  lemma SuccessLegit(m: Model, j: Job, now: Time)
    ensures Legitimate(j, m, RecordSuccess(m, j, now))
  {
    hide Apply, MayTouch;
    UpdateIsLocal(m, j.id, Succeeded, now);
  }

  lemma FailureLegit(cfg: Config, m: Model, j: Job, message: string, now: Time)
    ensures Legitimate(j, m, RecordFailure(cfg, m, j, message, now))
  {
    hide Apply, FailEntry, MayTouch, FailedSync;
    var f := (x: Job) => FailedOnce(cfg, j, message, x);
    UpdateIsLocal(m, j.id, f, now);
    FailEntryLegit(Apply(m, UpdateJob(j.id, f), now), j, FailedSync(j.kind, Terminal(cfg, j)), message, now);
    if KnowsJob(m, j) {
      BothLegit(j, m, Apply(m, UpdateJob(j.id, f), now), RecordFailure(cfg, m, j, message, now));
    }
  }

  lemma CompletedFailureLegit(m: Model, j: Job, message: string, now: Time)
    ensures Legitimate(j, m, RecordCompletedFailure(m, j, message, now))
  {
    hide Apply, FailEntry, MayTouch;
    var f := (x: Job) => FailedForGood(message, x);
    UpdateIsLocal(m, j.id, f, now);
    FailEntryLegit(Apply(m, UpdateJob(j.id, f), now), j, Error, message, now);
    if KnowsJob(m, j) {
      BothLegit(j, m, Apply(m, UpdateJob(j.id, f), now), RecordCompletedFailure(m, j, message, now));
    }
  }

  lemma CompleteLegit(m: Model, j: Job, now: Time)
    ensures j.kind == Upload ==> Legitimate(j, m, MarkUpload(m, j, Uploading, "", now))
    ensures j.kind == Upload ==> Legitimate(j, m, MarkUpload(m, j, Synced, "", now))
    ensures j.kind == Delete ==> Legitimate(j, m, MarkDeleting(m, j, now)) && Legitimate(j, m, DropEntry(m, j, now))
    ensures j.kind == Mkdir ==> Legitimate(j, m, MarkMade(m, j, now))
  {
    hide OnlySync;
    SyncIsOnlySync(m, j.path, Uploading, "", e => UploadMatches(e, j, Uploading), now);
    SyncIsOnlySync(m, j.path, Synced, "", e => UploadMatches(e, j, Synced), now);
    SyncIsOnlySync(m, j.path, Deleting, "", (e: Entry) => e.sync in {PendingDelete, Deleting}, now);
    SyncIsOnlySync(m, j.path, Synced, "", (e: Entry) => e.isDir && e.sync == PendingUpload, now);
  }

  // ----- Whole runs -----

  ghost predicate LegitimateLog(j: Job, log: seq<Event>) {
    forall k :: 0 <= k < |log| && log[k].Section? ==> Legitimate(j, log[k].before, log[k].after)
  }

  /** The section that decides to start an upload. */
  ghost predicate Marked(j: Job, e: Event) {
    && e.Section? && j.path in e.before.entries && SameFile(e.before.entries[j.path], j)
    && j.path in e.after.entries
    && var was, now := e.before.entries[j.path], e.after.entries[j.path];
       now == was.(sync := Uploading, error := "", updatedAt := now.updatedAt)
  }

  ghost predicate TransfersMarked(j: Job, r: Run) {
    && (forall k :: 0 <= k < |r.log| && r.log[k].OnMachine? ==> k > 0 && Marked(j, r.log[k - 1]))
    && (r.phase.Working? ==> |r.log| > 0 && Marked(j, r.log[|r.log| - 1]))
  }

  lemma StepLegit(cfg: Config, j: Job, r: Run, step: Step)
    requires LegitimateLog(j, r.log) && Enabled(r, step)
    ensures LegitimateLog(j, Do(cfg, j, r, step).log)
  {
    hide Legitimate, Apply, MarkUpload, MarkDeleting, DropEntry, MoveEntry, MarkMade, RecordSuccess, RecordFailure,
      RecordCompletedFailure, UploadMarks, Find;
    match step
    case Begin(now, _) =>
      StartLegit(r.m, j, now);
    case Decide(now, _) => CompleteLegit(r.m, j, now);
    case Complete(now, _) =>
      CompleteLegit(r.m, j, now);
      if j.kind == Rename {
        MoveLegit(r.m, j, now);
      }
    case Succeed(now, _) => SuccessLegit(r.m, j, now);
    case Fail(message, now, _) => FailureLegit(cfg, r.m, j, message, now);
    case FailAfterwards(message, now, _) => CompletedFailureLegit(r.m, j, message, now);
    case _ =>
  }

  lemma StartLegit(m: Model, j: Job, now: Time)
    ensures Legitimate(j, m, Apply(m, StartJob(j.id), now))
  {
    hide Apply, MayTouch;
    StartIsLocal(m, j.id, now);
  }

  lemma {:induction false} AlwaysLegit(cfg: Config, j: Job, m: Model, steps: seq<Step>)
    requires ValidRun(cfg, j, m, steps)
    ensures LegitimateLog(j, After(cfg, j, m, steps).log)
  {
    hide LegitimateLog, Do, Enabled;
    if steps == [] {
      NothingYet(j);
    } else {
      AlwaysLegit(cfg, j, m, steps[..|steps| - 1]);
      StepLegit(cfg, j, After(cfg, j, m, steps[..|steps| - 1]), steps[|steps| - 1]);
    }
  }

  lemma NothingYet(j: Job)
    ensures LegitimateLog(j, [])
  {
  }

  /** Whatever clients do to the store during an upload, each change the run makes to an entry is to
      its own, at a moment when that entry still is the file it was made for, and changes only the
      sync state; so a newer upload is never marked by an older job. */
  lemma UploadNeverStale(cfg: Config, j: Job, m: Model, steps: seq<Step>, k: nat)
    requires ValidRun(cfg, j, m, steps) && j.kind == Upload
    requires k < |After(cfg, j, m, steps).log| && After(cfg, j, m, steps).log[k].Section?
    ensures var a, b := After(cfg, j, m, steps).log[k].before.entries, After(cfg, j, m, steps).log[k].after.entries;
            a != b ==>
              && j.path in a && OnlySync(a, b, j.path)
              && var e := a[j.path]; !e.isDir && e.cachePath == j.cachePath && e.md5 == j.md5 && e.size == j.size
  {
    hide After, ValidRun, OnlySync;
    AlwaysLegit(cfg, j, m, steps);
  }

  /** A delete removes an entry only while it is still to be deleted, and touches no other. */
  lemma DeleteNeverStale(cfg: Config, j: Job, m: Model, steps: seq<Step>, k: nat)
    requires ValidRun(cfg, j, m, steps) && j.kind == Delete
    requires k < |After(cfg, j, m, steps).log| && After(cfg, j, m, steps).log[k].Section?
    ensures var a, b := After(cfg, j, m, steps).log[k].before.entries, After(cfg, j, m, steps).log[k].after.entries;
            a != b ==>
              && j.path in a && a[j.path].sync in {PendingDelete, Deleting}
              && (b == a - {j.path} || OnlySync(a, b, j.path))
  {
    hide After, ValidRun, OnlySync;
    AlwaysLegit(cfg, j, m, steps);
  }

  /** A rename moves its entry only while it still waits to be renamed, and never over work that waits
      at the destination. */
  lemma RenameNeverStale(cfg: Config, j: Job, m: Model, steps: seq<Step>, k: nat)
    requires ValidRun(cfg, j, m, steps) && j.kind == Rename
    requires k < |After(cfg, j, m, steps).log| && After(cfg, j, m, steps).log[k].Section?
    ensures var a, b := After(cfg, j, m, steps).log[k].before.entries, After(cfg, j, m, steps).log[k].after.entries;
            && (a != b ==> j.path in a && a[j.path].sync == PendingRename)
            && (j.destPath != j.path && j.destPath in a && HasLocalIntent(a[j.destPath].sync) ==>
                  j.destPath in b && b[j.destPath] == a[j.destPath])
  {
    hide After, ValidRun, HasLocalIntent;
    AlwaysLegit(cfg, j, m, steps);
  }

  lemma StepMarked(cfg: Config, j: Job, r: Run, step: Step)
    requires j.kind == Upload && TransfersMarked(j, r) && Enabled(r, step)
    ensures TransfersMarked(j, Do(cfg, j, r, step))
  {
    hide Apply, RecordSuccess, RecordFailure, RecordCompletedFailure, Find, Marked, MarkUpload, UploadMarks;
    if step.Decide? && UploadMarks(r.m, j, Uploading) {
      MarkIsMarked(r.m, j, step.now);
    }
  }

  lemma MarkIsMarked(m: Model, j: Job, now: Time)
    requires UploadMarks(m, j, Uploading)
    ensures Marked(j, Section(m, MarkUpload(m, j, Uploading, "", now)))
  {
  }

  lemma {:induction false} AlwaysMarked(cfg: Config, j: Job, m: Model, steps: seq<Step>)
    requires ValidRun(cfg, j, m, steps) && j.kind == Upload
    ensures TransfersMarked(j, After(cfg, j, m, steps))
  {
    hide TransfersMarked, Do, Enabled;
    if steps == [] {
      NoTransferYet(j, m);
    } else {
      AlwaysMarked(cfg, j, m, steps[..|steps| - 1]);
      StepMarked(cfg, j, After(cfg, j, m, steps[..|steps| - 1]), steps[|steps| - 1]);
    }
  }

  lemma NoTransferYet(j: Job, m: Model)
    ensures TransfersMarked(j, Run(m, Dialing, []))
  {
  }

  /** A transfer to the machine starts only right after the section that found the entry to be the
      job's file and marked it as uploading. */
  lemma TransferOnlyWhenMatching(cfg: Config, j: Job, m: Model, steps: seq<Step>, k: nat)
    requires ValidRun(cfg, j, m, steps) && j.kind == Upload
    requires k < |After(cfg, j, m, steps).log| && After(cfg, j, m, steps).log[k].OnMachine?
    ensures k > 0 && Marked(j, After(cfg, j, m, steps).log[k - 1])
  {
    hide After, ValidRun, Marked;
    AlwaysMarked(cfg, j, m, steps);
  }

  /** A failing mkdir marks the entry at its path exactly when an upload is pending there, whether the
      entry is a directory or a file. */
  lemma MkdirFailureMarks(cfg: Config, m: Model, j: Job, message: string, now: Time)
    requires j.kind == Mkdir
    ensures var entries := RecordFailure(cfg, m, j, message, now).entries;
            if KnowsJob(m, j) && j.path in m.entries && m.entries[j.path].sync == PendingUpload then
              var sync := FailedSync(Mkdir, Terminal(cfg, j));
              entries == m.entries[j.path := m.entries[j.path].(sync := sync, error := message, updatedAt := now)]
            else entries == m.entries
  {
  }

  /** So a file waiting to be uploaded where a directory was to be made ends up in the failed job's
      error state. */
  lemma MkdirFailureTouchesFile()
    ensures var e := Entry("/sd/gcodes/a", false, 3, "m", "c", CacheReady, 0, PendingUpload, "", 0);
            var j := Job(1, Mkdir, "/sd/gcodes/a", "", "", "", 0, Running, 7, "", 0, 0);
            var z := RecordFailure(DEFAULTS, Model(map[e.path := e], [j], 2, ""), j, "x", 0);
            z.entries == map[e.path := e.(sync := Error, error := "x")] && !e.isDir
  {
    var e := Entry("/sd/gcodes/a", false, 3, "m", "c", CacheReady, 0, PendingUpload, "", 0);
    var j := Job(1, Mkdir, "/sd/gcodes/a", "", "", "", 0, Running, 7, "", 0, 0);
    MkdirFailureMarks(DEFAULTS, Model(map[e.path := e], [j], 2, ""), j, "x", 0);
  }
}
