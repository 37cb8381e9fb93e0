/** The sync engine's writes to the store, each one batch. */
module EngineStore {
  import opened StoreModel
  import opened SyncEngine
  import opened Store
  import opened JobRuns

  class Engine {
    const store: Store
    const cfg: Config

    constructor (s: Store, c: Config)
      ensures store == s && cfg == c
    {
      store, cfg := s, c;
    }

    /** Marks the entry of an upload; `matched` says whether it still was the job's file. */
    method SetUploadJobSync(job: Job, sync: SyncState, message: string, now: Time, flushFails: bool)
      returns (matched: bool, ok: bool)
      requires store.Valid()
      modifies store, store.Records()
      ensures store.Valid() && fresh(store.Records() - old(store.Records()))
      ensures ok ==> store.Memory() == MarkUpload(old(store.Memory()), job, sync, message, now)
      ensures !ok ==> store.Memory() == old(store.Memory())
      ensures matched == UploadMarks(old(store.Memory()), job, sync) && (!flushFails ==> ok)
      ensures old(store.disk) == old(store.Memory()) ==> store.disk == store.Memory()
    {
      ghost var m := store.Memory();
      matched := job.path in store.entries && UploadMatches(store.entries[job.path].v, job, sync);
      var op := SetEntrySync(job.path, sync, message, e => UploadMatches(e, job, sync));
      OneOp(m, op, now);
      ok := store.Batch([op], now, false, flushFails);
    }

    method RecordRunning(job: Job, now: Time, flushFails: bool) returns (started: bool, ok: bool)
      requires store.Valid()
      modifies store, store.Records()
      ensures store.Valid() && fresh(store.Records() - old(store.Records()))
      ensures ok ==> store.Memory() == Apply(old(store.Memory()), StartJob(job.id), now)
      ensures !ok ==> store.Memory() == old(store.Memory())
      ensures !flushFails ==> ok
      ensures var js := old(store.Memory()).jobs;
              started == (Find(js, job.id) < |js| && js[Find(js, job.id)].state == Queued)
      ensures old(store.disk) == old(store.Memory()) ==> store.disk == store.Memory()
    {
      ghost var m := store.Memory();
      var js := JobValues(store.jobs);
      started := Find(js, job.id) < |js| && js[Find(js, job.id)].state == Queued;
      OneOp(m, StartJob(job.id), now);
      ok := store.Batch([StartJob(job.id)], now, false, flushFails);
    }

    method RecordSuccess(job: Job, now: Time, flushFails: bool) returns (ok: bool)
      requires store.Valid()
      modifies store, store.Records()
      ensures store.Valid() && fresh(store.Records() - old(store.Records()))
      ensures store.Memory() == if ok then JobRuns.RecordSuccess(old(store.Memory()), job, now) else old(store.Memory())
      ensures KnowsJob(old(store.Memory()), job) && !flushFails ==> ok
      ensures old(store.disk) == old(store.Memory()) ==> store.disk == store.Memory()
    {
      ghost var m := store.Memory();
      var known := Find(JobValues(store.jobs), job.id) < |store.jobs|;
      var op := UpdateJob(job.id, Succeeded);
      OneOp(m, op, now);
      ok := store.Batch([op], now, !known, flushFails);
    }

    /** The failed job and its entry change in one batch, which fails if the job is gone. */
    method RecordFailure(job: Job, message: string, now: Time, flushFails: bool) returns (ok: bool)
      requires store.Valid()
      modifies store, store.Records()
      ensures store.Valid() && fresh(store.Records() - old(store.Records()))
      ensures ok ==> store.Memory() == JobRuns.RecordFailure(cfg, old(store.Memory()), job, message, now)
      ensures !ok ==> store.Memory() == old(store.Memory())
      ensures ok ==> KnowsJob(old(store.Memory()), job)
      ensures KnowsJob(old(store.Memory()), job) && !flushFails ==> ok
      ensures old(store.disk) == old(store.Memory()) ==> store.disk == store.Memory()
    {
      hide ApplyAll, JobRuns.RecordFailure, FailOp, FailureUpdate;
      if KnowsJob(store.Memory(), job) {
        FailureOps(cfg, store.Memory(), job, message, now);
      }
      var known := Find(JobValues(store.jobs), job.id) < |store.jobs|;
      var mark := FailOp(job, FailedSync(job.kind, Terminal(cfg, job)), message);
      ok := store.Batch([FailureUpdate(cfg, job, message), mark], now, !known, flushFails);
    }

    /** The same when the machine is done but the store could not say so: the job has failed for good. */
    method RecordMachineCompletedFailure(job: Job, message: string, now: Time, flushFails: bool) returns (ok: bool)
      requires store.Valid()
      modifies store, store.Records()
      ensures store.Valid() && fresh(store.Records() - old(store.Records()))
      ensures ok ==> store.Memory() == RecordCompletedFailure(old(store.Memory()), job, message, now)
      ensures !ok ==> store.Memory() == old(store.Memory())
      ensures ok ==> KnowsJob(old(store.Memory()), job)
      ensures KnowsJob(old(store.Memory()), job) && !flushFails ==> ok
      ensures old(store.disk) == old(store.Memory()) ==> store.disk == store.Memory()
    {
      hide ApplyAll, RecordCompletedFailure, FailOp, CompletedUpdate;
      if KnowsJob(store.Memory(), job) {
        CompletedOps(store.Memory(), job, message, now);
      }
      var known := Find(JobValues(store.jobs), job.id) < |store.jobs|;
      ok := store.Batch([CompletedUpdate(job, message), FailOp(job, Error, message)], now, !known, flushFails);
    }
  }

  function FailureUpdate(cfg: Config, job: Job, message: string): Op {
    UpdateJob(job.id, (x: Job) => FailedOnce(cfg, job, message, x))
  }

  function CompletedUpdate(job: Job, message: string): Op {
    UpdateJob(job.id, (x: Job) => FailedForGood(message, x))
  }

  lemma CompletedOps(m: Model, job: Job, message: string, now: Time)
    requires KnowsJob(m, job)
    ensures
              ApplyAll(m, [CompletedUpdate(job, message), FailOp(job, Error, message)], now)
           == RecordCompletedFailure(m, job, message, now)
  {
    hide Apply, ApplyAll, FailOp;
    TwoOps(m, CompletedUpdate(job, message), FailOp(job, Error, message), now);
  }

  lemma FailureOps(cfg: Config, m: Model, job: Job, message: string, now: Time)
    requires KnowsJob(m, job)
    ensures var mark := FailOp(job, FailedSync(job.kind, Terminal(cfg, job)), message);
            var z := ApplyAll(m, [FailureUpdate(cfg, job, message), mark], now);
            z == JobRuns.RecordFailure(cfg, m, job, message, now)
  {
    hide Apply, ApplyAll, FailOp;
    var mark := FailOp(job, FailedSync(job.kind, Terminal(cfg, job)), message);
    TwoOps(m, FailureUpdate(cfg, job, message), mark, now);
  }

  lemma OneOp(m: Model, op: Op, now: Time)
    ensures ApplyAll(m, [op], now) == Apply(m, op, now)
  {
    hide Apply;
    assert [op][..0] == [];
  }

  lemma TwoOps(m: Model, a: Op, b: Op, now: Time)
    ensures ApplyAll(m, [a, b], now) == Apply(Apply(m, a, now), b, now)
  {
    hide Apply;
    OneOp(m, a, now);
    assert [a, b][..1] == [a];
  }
}
