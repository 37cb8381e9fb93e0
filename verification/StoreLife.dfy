/** What every sequence of operations keeps: how a job may change, what an entry says about its cache, and
    that a backup restores to the model it was taken from. */
module StoreLife {
  import opened StoreModel

  // ----- Jobs -----

  /** The same job, further on. */
  predicate SameJob(y: Job, z: Job) {
    z == y.(state := z.state, attempts := z.attempts, lastError := z.lastError, updatedAt := z.updatedAt)
  }

  /** The operations that leave every job in its place. */
  predicate InPlace(op: Op) {
    match op
    case UpdateJob(_, _) => false
    case PruneDoneJobs(_) => false
    case PruneFailedJobs(_) => false
    case ReplaceModel(_, _, _, _) => false
    case _ => true
  }

  /** The operation gives up waiting jobs of this path and kind. */
  predicate GivesUp(m: Model, op: Op, y: Job) {
    match op
    case DiscardEntry(path, kinds) => path in m.entries && y.path == path && y.kind in kinds
    case DiscardJobs(path, kinds) => y.path == path && y.kind in kinds
    case SupersedeQueuedUploads(path) => y.path == path && y.kind == Upload
    case _ => false
  }

  /** A job starts only when queued, and only by being started; it is queued again only by a retry of a
      failed one, with its attempts forgotten; and it is done only by being given up while it waits.  Nothing
      else changes it, and it stays the job it was. */
  lemma JobLifecycle(m: Model, op: Op, now: Time, i: nat)
    requires Distinct(m.jobs) && InPlace(op) && i < |m.jobs|
    ensures i < |Apply(m, op, now).jobs|
    ensures var y, z := m.jobs[i], Apply(m, op, now).jobs[i];
            && SameJob(y, z)
            && (if op == StartJob(y.id) && y.state == Queued then z == y.(state := Running, updatedAt := now)
                else if op == RetryJob(y.id) && y.state == Failed then
                  z == y.(state := Queued, attempts := 0, lastError := "", updatedAt := now)
                else if GivesUp(m, op, y) && (y.state == Queued || y.state == Failed) then
                  z == y.(state := Done, lastError := "", updatedAt := now)
                else z == y)
  {
    hide Trim, Normalize, Update, Distinct;
    match op
    case StartJob(id) => UpdateAt(m.jobs, id, j => Start(j, now), i);
    case RetryJob(id) => UpdateAt(m.jobs, id, j => Retry(j, now), i);
    case _ =>
  }

  lemma UpdateAt(jobs: seq<Job>, id: int, f: Job -> Job, i: nat)
    requires Distinct(jobs) && i < |jobs|
    ensures Update(jobs, id, f)[i] == if jobs[i].id == id then f(jobs[i]) else jobs[i]
  {
  }

  /** A new job is queued under an identifier of its own, behind all others. */
  lemma EnqueueIsNew(m: Model, j: Job, now: Time)
    requires IdsOk(m)
    ensures var z := Apply(m, Enqueue(j), now);
            && |z.jobs| == |m.jobs| + 1 && z.jobs[..|m.jobs|] == m.jobs && z.entries == m.entries
            && var n := z.jobs[|m.jobs|];
               && SameJob(j.(id := n.id, createdAt := now), n) && n.attempts == j.attempts && n.lastError == j.lastError
               && n.state == Queued && n.updatedAt == now
               && (forall k :: 0 <= k < |m.jobs| ==> m.jobs[k].id < n.id)
  {
  }

  lemma {:induction false} NoneKept(jobs: seq<Job>)
    ensures PruneFailed(jobs, 0) == NotFailed(jobs)
  {
    hide Failures;
    if jobs != [] {
      NoneKept(jobs[1..]);
    }
  }

  /** A limit of zero or less leaves no failed job, and every other. */
  lemma PruneAllFailures(m: Model, k: int, now: Time)
    requires k <= 0
    ensures Apply(m, PruneFailedJobs(k), now) == m.(jobs := NotFailed(m.jobs))
  {
    NoneKept(m.jobs);
  }

  // ----- Entries -----

  /** An entry without a cached file says so, and one with a file says how far that can be trusted. */
  predicate CacheSaid(e: Entry) {
    && (e.isDir || e.cachePath == "" ==> e.cacheState == CacheNone)
    && e.cacheState != Unset && (e.cacheState == CacheNone ==> e.cacheCheckedAt == 0)
  }

  /** Normalising an entry makes it so, leaves one that is so alone, and changes nothing else. */
  lemma NormalizeSays(e: Entry)
    ensures CacheSaid(Normalize(e)) && (CacheSaid(e) ==> Normalize(e) == e && NormalizeLoaded(e) == e)
    ensures Normalize(e) == e.(cacheState := Normalize(e).cacheState, cacheCheckedAt := Normalize(e).cacheCheckedAt)
    ensures e.cacheState in {CacheReady, CacheValidating} && !e.isDir && e.cachePath != "" ==> Normalize(e) == e
    ensures e.cacheState == Unset && !e.isDir && e.cachePath != "" ==> Normalize(e).cacheState == CacheReady
  {
  }

  /** Every entry stands under its own path. */
  ghost predicate EntriesOk(m: Model) {
    forall p :: p in m.entries ==> CacheSaid(m.entries[p]) && m.entries[p].path == p
  }

  /** An operation changes the entry of one path: it is put there, its sync state changes, or it goes; and
      what an entry says about its cache stays sound. */
  lemma EntryLifecycle(m: Model, op: Op, now: Time, p: string)
    requires EntriesOk(m) && !op.ReplaceModel?
    ensures var z := Apply(m, op, now);
            && EntriesOk(z)
            && (if op.PutEntry? && op.e.path == p then
                  p in z.entries && z.entries[p] == Normalize(op.e).(updatedAt := now)
                else if op.SetEntrySync? && op.path == p && p in m.entries && op.match_(m.entries[p]) then
                  p in z.entries
                  && z.entries[p] == m.entries[p].(sync := op.sync, error := op.message, updatedAt := now)
                else if op.DeleteEntry? && op.path == p && p in m.entries && op.match_(m.entries[p]) then
                  p !in z.entries
                else if op.DiscardEntry? && op.path == p then p !in z.entries
                else (p in z.entries <==> p in m.entries) && (p in m.entries ==> z.entries[p] == m.entries[p]))
  {
    hide Trim, Discard, Update, PruneDone, PruneFailed, CacheSaid, Normalize;
    if op.PutEntry? {
      NormalizeSays(op.e);
      SaidLater(Normalize(op.e), now);
    }
    if op.SetEntrySync? && op.path in m.entries {
      SaidAfterSync(m.entries[op.path], op.sync, op.message, now);
    }
  }

  lemma SaidLater(e: Entry, now: Time)
    ensures CacheSaid(e.(updatedAt := now)) == CacheSaid(e)
  {
  }

  lemma SaidAfterSync(e: Entry, sync: SyncState, message: string, now: Time)
    ensures CacheSaid(e.(sync := sync, error := message, updatedAt := now)) == CacheSaid(e)
  {
  }

  // ----- Backups -----

  /** What a store's model always is. */
  ghost predicate Sound(m: Model) {
    IdsOk(m) && m.nextJob > 0 && EntriesOk(m) && Trim(m.active) == m.active
  }

  lemma TrimTwice(path: string)
    ensures Trim(Trim(path)) == Trim(path)
  {
    hide IsSpace;
    var i, j := TrimIsMiddle(path);
    var t := Trim(path);
    if t != "" {
      assert t[0] == path[i] && t[|t| - 1] == path[j - 1];
    }
  }

  /** The operations keep it, if updates keep identifiers and a model put in place of another is sound. */
  lemma ApplyKeepsSound(m: Model, op: Op, now: Time)
    requires Sound(m) && KeepsIds(op)
    requires op.ReplaceModel? ==> Sound(Model(op.entries, op.jobs, op.nextJob, op.active))
    ensures Sound(Apply(m, op, now))
  {
    hide IdsOk, EntriesOk, Trim, Discard, Update, PruneDone, PruneFailed, Normalize, KeepsIds;
    if !op.ReplaceModel? {
      ApplyKeepsIds(m, op, now);
      EntryLifecycle(m, op, now, "");
      if op.SetActive? {
        TrimTwice(op.path);
      }
    }
  }

  lemma {:induction false} ApplyAllKeepsSound(m: Model, ops: seq<Op>, now: Time)
    requires Sound(m)
    requires forall i :: 0 <= i < |ops| ==> KeepsIds(ops[i]) && !ops[i].ReplaceModel?
    ensures Sound(ApplyAll(m, ops, now))
  {
    hide Sound, KeepsIds, Apply;
    if ops != [] {
      ApplyAllKeepsSound(m, ops[..|ops| - 1], now);
      ApplyKeepsSound(ApplyAll(m, ops[..|ops| - 1], now), ops[|ops| - 1], now);
    }
  }

  /** The model after some batches on an empty store. */
  function AfterBatches(calls: seq<BatchCall>): Model {
    if calls == [] then EMPTY
    else ApplyAll(AfterBatches(calls[..|calls| - 1]), calls[|calls| - 1].ops, calls[|calls| - 1].now)
  }

  /** Whatever was done to a store since it was empty, its backup restores to the very same model. */
  lemma {:induction false} BackupRestores(calls: seq<BatchCall>)
    requires forall i, k :: 0 <= i < |calls| && 0 <= k < |calls[i].ops| ==>
                 KeepsIds(calls[i].ops[k]) && !calls[i].ops[k].ReplaceModel?
    ensures Restored(AfterBatches(calls)) == AfterBatches(calls) && Sound(AfterBatches(calls))
  {
    hide ApplyAll, KeepsIds, Restored, Sound;
    if calls == [] {
      EmptySound();
    } else {
      var n := |calls| - 1;
      BackupRestores(calls[..n]);
      ApplyAllKeepsSound(AfterBatches(calls[..n]), calls[n].ops, calls[n].now);
    }
    SoundRestores(AfterBatches(calls));
  }

  lemma EmptySound()
    ensures Sound(EMPTY)
  {
  }

  lemma SoundRestores(m: Model)
    requires Sound(m)
    ensures Restored(m) == m
  {
    hide Trim, CacheSaid, NormalizeLoaded, IdsOk;
    RestoredIds(m);
    forall p | p in m.entries ensures NormalizeLoaded(m.entries[p]) == m.entries[p] {
      NormalizeSays(m.entries[p]);
    }
    assert Restored(m).entries == m.entries;
    PositiveNext(m);
  }

  lemma PositiveNext(m: Model)
    requires Sound(m)
    ensures MaxNext(m.jobs, m.nextJob) == m.nextJob
  {
  }

  /** A restored model has every entry of the backup and no other, changed only in what it says about a
      missing cache. */
  lemma RestoredEntries(m: Model, p: string)
    ensures p in Restored(m).entries <==> p in m.entries
    ensures p in m.entries ==>
              var was, e := m.entries[p], Restored(m).entries[p];
              && (e.isDir || e.cachePath == "" ==> e.cacheState == CacheNone && e.cacheCheckedAt == 0)
              && e == was.(cacheState := e.cacheState, cacheCheckedAt := e.cacheCheckedAt)
              && (!was.isDir && was.cachePath != "" ==> e == was)
  {
    hide Trim;
  }
}
