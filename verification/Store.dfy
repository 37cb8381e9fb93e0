/** The store in memory.  Entries and jobs are records that the mutators change in place through
    shared references, so undoing a failed batch needs the copies taken before it. */
module Store {
  import opened StoreModel

  class EntryRec {
    var v: Entry
    constructor (e: Entry)
      ensures v == e
    {
      v := e;
    }
  }

  class JobRec {
    var v: Job
    constructor (j: Job)
      ensures v == j
    {
      v := j;
    }
  }

  ghost predicate Injective(entries: map<string, EntryRec>) {
    forall p, q :: p in entries && q in entries && p != q ==> entries[p] != entries[q]
  }

  ghost predicate NoRepeats(jobs: seq<JobRec>) {
    forall i, j :: 0 <= i < j < |jobs| ==> jobs[i] != jobs[j]
  }

  function EntryValues(entries: map<string, EntryRec>): (r: map<string, Entry>)
    reads entries.Values
    ensures r.Keys == entries.Keys
  {
    map p | p in entries :: entries[p].v
  }

  function JobValues(jobs: seq<JobRec>): (r: seq<Job>)
    reads jobs
    ensures |r| == |jobs| && forall i :: 0 <= i < |r| ==> r[i] == jobs[i].v
  {
    if jobs == [] then [] else JobValues(jobs[..|jobs| - 1]) + [jobs[|jobs| - 1].v]
  }

  /** A copy of the model that shares no record with it. */
  datatype Snapshot = Snapshot(entries: map<string, EntryRec>, jobs: seq<JobRec>, nextJob: int, active: string)

  class Store {
    var entries: map<string, EntryRec>
    var jobs: seq<JobRec>
    var nextJob: int
    var active: string
    /** Whether the current batch changed anything. */
    var dirty: bool
    /** What was last written to disk. */
    var disk: Model

    ghost function Records(): set<object>
      reads this`entries, this`jobs
    {
      var e: set<object> := entries.Values;
      var j: set<object> := set r: JobRec | r in jobs;
      e + j
    }

    ghost predicate Valid()
      reads this`entries, this`jobs
    {
      Injective(entries) && NoRepeats(jobs)
    }

    ghost function Memory(): Model
      reads this`entries, this`jobs, this`nextJob, this`active, entries.Values, jobs
    {
      Model(EntryValues(entries), JobValues(jobs), nextJob, active)
    }

    constructor ()
      ensures Valid() && Memory() == EMPTY && disk == EMPTY && fresh(Records())
    {
      entries, jobs, nextJob, active, dirty, disk := map[], [], 1, "", false, EMPTY;
      new;
      assert EntryValues(entries) == map[];
    }

    // ----- Mutators -----

    method PutEntry(e: Entry, now: Time)
      requires Valid()
      modifies this`entries, this`dirty
      ensures Valid() && Memory() == Apply(old(Memory()), Op.PutEntry(e), now) && dirty
      ensures fresh(Records() - old(Records()))
    {
      var rec := new EntryRec(Normalize(e).(updatedAt := now));
      entries := entries[e.path := rec];
      dirty := true;
      assert EntryValues(entries) == old(EntryValues(entries))[e.path := rec.v];
    }

    method SetEntrySync(path: string, sync: SyncState, message: string, match_: Entry -> bool, now: Time)
      returns (ok: bool)
      requires Valid()
      modifies this`dirty, entries.Values
      ensures Valid() && Memory() == Apply(old(Memory()), Op.SetEntrySync(path, sync, message, match_), now)
      ensures ok == (path in old(Memory()).entries && match_(old(Memory()).entries[path]))
      ensures dirty == (old(dirty) || ok) && (ok || Memory() == old(Memory()))
    {
      if path !in entries || !match_(entries[path].v) {
        return false;
      }
      var rec := entries[path];
      rec.v := rec.v.(sync := sync, error := message, updatedAt := now);
      dirty := true;
      assert EntryValues(entries) == old(EntryValues(entries))[path := rec.v];
      return true;
    }

    method DeleteEntry(path: string, match_: Entry -> bool, now: Time) returns (ok: bool)
      requires Valid()
      modifies this`entries, this`dirty
      ensures Valid() && Memory() == Apply(old(Memory()), Op.DeleteEntry(path, match_), now)
      ensures ok == (path in old(Memory()).entries && match_(old(Memory()).entries[path]))
      ensures dirty == (old(dirty) || ok) && Records() <= old(Records())
    {
      if path !in entries || !match_(entries[path].v) {
        return false;
      }
      entries := entries - {path};
      dirty := true;
      assert EntryValues(entries) == old(EntryValues(entries)) - {path};
      return true;
    }

    /** The queued and failed jobs for a path, of the given kinds. */
    method MatchingQueuedOrFailedJobs(path: string, kinds: set<JobKind>) returns (out: seq<JobRec>)
      ensures forall r :: r in out <==> r in jobs && Discards(r.v, path, kinds)
      ensures forall r :: r in out ==> r in jobs
    {
      out := [];
      for i := 0 to |jobs|
        invariant forall r :: r in out <==> r in jobs[..i] && Discards(r.v, path, kinds)
      {
        if Discards(jobs[i].v, path, kinds) {
          out := out + [jobs[i]];
        }
        assert jobs[..i + 1] == jobs[..i] + [jobs[i]];
      }
      assert jobs[..|jobs|] == jobs;
    }

    method FinishMatching(path: string, kinds: set<JobKind>, now: Time) returns (n: nat)
      modifies jobs
      ensures JobValues(jobs) == Discard(old(JobValues(jobs)), path, kinds, now)
      ensures n > 0 || JobValues(jobs) == old(JobValues(jobs))
    {
      hide JobValues, Discard, Discards, Injective;
      var out := MatchingQueuedOrFailedJobs(path, kinds);
      n := |out|;
      for i := 0 to n
        invariant forall k :: 0 <= k < |jobs| ==>
                      jobs[k].v == if jobs[k] in out[..i] then Finish(old(jobs[k].v), now) else old(jobs[k].v)
      {
        assert out[i] in out;
        InPrefix(out, i);
        out[i].v := Finish(out[i].v, now);
      }
      assert out[..n] == out;
      assert n == 0 ==> forall k | 0 <= k < |jobs| :: jobs[k] !in out;
    }

    method DiscardJobs(path: string, kinds: set<JobKind>, now: Time) returns (n: nat)
      requires Valid()
      modifies this`dirty, jobs
      ensures JobValues(jobs) == Discard(old(JobValues(jobs)), path, kinds, now)
      ensures dirty == (old(dirty) || n > 0) && (n > 0 || JobValues(jobs) == old(JobValues(jobs)))
    {
      hide JobValues, Discard, Injective, NoRepeats;
      n := FinishMatching(path, kinds, now);
      dirty := dirty || n > 0;
    }

    method DiscardEntry(path: string, kinds: set<JobKind>, now: Time) returns (ok: bool)
      requires Valid()
      modifies this`entries, this`dirty, jobs
      ensures Valid() && ok == (path in old(entries)) && dirty == (old(dirty) || ok)
      ensures entries == old(entries) - {path} && EntryValues(entries) == old(EntryValues(entries)) - {path}
      ensures JobValues(jobs) == if ok then Discard(old(JobValues(jobs)), path, kinds, now) else old(JobValues(jobs))
    {
      hide JobValues, Discard;
      if path !in entries {
        assert entries - {path} == entries;
        assert EntryValues(entries) - {path} == EntryValues(entries);
        return false;
      }
      EntryRemoved(entries, path);
      entries := entries - {path};
      dirty := true;
      var n := FinishMatching(path, kinds, now);
      return true;
    }

    method SupersedeQueuedUploads(path: string, now: Time) returns (n: nat)
      requires Valid()
      modifies this`dirty, jobs
      ensures JobValues(jobs) == Discard(old(JobValues(jobs)), path, {Upload}, now)
      ensures dirty == (old(dirty) || n > 0) && (n > 0 || JobValues(jobs) == old(JobValues(jobs)))
    {
      hide JobValues, Discard;
      n := 0;
      ghost var was := JobValues(jobs);
      for i := 0 to |jobs|
        invariant forall k :: 0 <= k < i ==>
                      jobs[k].v == if Discards(was[k], path, {Upload}) then Finish(was[k], now) else was[k]
        invariant forall k :: i <= k < |jobs| ==> jobs[k].v == was[k]
        invariant dirty == (old(dirty) || n > 0) && (n == 0 ==> JobValues(jobs) == was)
      {
        var j := jobs[i];
        if j.v.kind == Upload && j.v.path == path && (j.v.state == Queued || j.v.state == Failed) {
          j.v := Finish(j.v, now);
          n := n + 1;
          dirty := true;
        }
      }
    }

    method Enqueue(j: Job, now: Time) returns (added: Job)
      requires Valid()
      modifies this`jobs, this`nextJob, this`dirty
      ensures Valid() && dirty && nextJob == old(nextJob) + 1
      ensures added == j.(id := old(nextJob), state := Queued, createdAt := now, updatedAt := now)
      ensures JobValues(jobs) == old(JobValues(jobs)) + [added]
      ensures |jobs| > 0 && jobs[..|jobs| - 1] == old(jobs) && fresh(jobs[|jobs| - 1])
    {
      added := j.(id := nextJob, state := Queued, createdAt := now, updatedAt := now);
      nextJob := nextJob + 1;
      var rec := new JobRec(added);
      jobs := jobs + [rec];
      dirty := true;
      assert jobs[..|jobs| - 1] == old(jobs);
    }

    /** Changes the first job with the id. */
    method UpdateJob(id: int, mutate: Job -> Job, now: Time) returns (ok: bool)
      requires Valid()
      modifies this`dirty, jobs
      ensures JobValues(jobs) == Update(old(JobValues(jobs)), id, j => mutate(j).(updatedAt := now))
      ensures ok <==> Find(old(JobValues(jobs)), id) < |jobs|
      ensures dirty == (old(dirty) || ok) && (ok || JobValues(jobs) == old(JobValues(jobs)))
    {
      hide JobValues, Find, Update, Injective;
      ghost var was := JobValues(jobs);
      ghost var f := (j: Job) => mutate(j).(updatedAt := now);
      for i := 0 to |jobs|
        invariant forall k :: 0 <= k < i ==> was[k].id != id
        invariant dirty == old(dirty) && JobValues(jobs) == was
      {
        var j := jobs[i];
        assert j.v == was[i] && forall k | 0 <= k < |jobs| && k != i :: jobs[k] != j;
        if j.v.id == id {
          UpdateIs(was, id, i, f);
          j.v := mutate(j.v).(updatedAt := now);
          dirty := true;
          assert JobValues(jobs) == was[i := j.v];
          return true;
        }
      }
      UpdateMisses(was, id, f);
      return false;
    }

    method StartJob(id: int, now: Time) returns (ok: bool)
      requires Valid()
      modifies this`dirty, jobs
      ensures JobValues(jobs) == Update(old(JobValues(jobs)), id, j => Start(j, now))
      ensures var js := old(JobValues(jobs)); ok == (Find(js, id) < |js| && js[Find(js, id)].state == Queued)
      ensures dirty == (old(dirty) || ok) && (ok || JobValues(jobs) == old(JobValues(jobs)))
    {
      hide JobValues, Find, Update, Injective;
      ghost var was := JobValues(jobs);
      ghost var f := (j: Job) => Start(j, now);
      for i := 0 to |jobs|
        invariant forall k :: 0 <= k < i ==> was[k].id != id
        invariant dirty == old(dirty) && JobValues(jobs) == was
      {
        var j := jobs[i];
        assert j.v == was[i] && forall k | 0 <= k < |jobs| && k != i :: jobs[k] != j;
        if j.v.id == id {
          UpdateIs(was, id, i, f);
          if j.v.state != Queued {
            assert was[i := f(was[i])] == was;
            return false;
          }
          j.v := j.v.(state := Running, updatedAt := now);
          dirty := true;
          assert JobValues(jobs) == was[i := j.v];
          return true;
        }
      }
      UpdateMisses(was, id, f);
      return false;
    }

    method RetryJob(id: int, now: Time) returns (ok: bool)
      requires Valid()
      modifies this`dirty, jobs
      ensures JobValues(jobs) == Update(old(JobValues(jobs)), id, j => Retry(j, now))
      ensures var js := old(JobValues(jobs)); ok == (Find(js, id) < |js| && js[Find(js, id)].state == Failed)
      ensures dirty == (old(dirty) || ok) && (ok || JobValues(jobs) == old(JobValues(jobs)))
    {
      hide JobValues, Find, Update, Injective;
      ghost var was := JobValues(jobs);
      ghost var f := (j: Job) => Retry(j, now);
      for i := 0 to |jobs|
        invariant forall k :: 0 <= k < i ==> was[k].id != id
        invariant dirty == old(dirty) && JobValues(jobs) == was
      {
        var j := jobs[i];
        assert j.v == was[i] && forall k | 0 <= k < |jobs| && k != i :: jobs[k] != j;
        if j.v.id == id {
          UpdateIs(was, id, i, f);
          if j.v.state != Failed {
            assert was[i := f(was[i])] == was;
            return false;
          }
          j.v := j.v.(state := Queued, attempts := 0, lastError := "", updatedAt := now);
          dirty := true;
          assert JobValues(jobs) == was[i := j.v];
          return true;
        }
      }
      UpdateMisses(was, id, f);
      return false;
    }

    method PruneDoneJobs(cutoff: Time) returns (removed: nat)
      requires Valid()
      modifies this`jobs, this`dirty
      ensures Valid() && JobValues(jobs) == PruneDone(old(JobValues(jobs)), cutoff)
      ensures removed == |old(jobs)| - |jobs| && forall j :: j in jobs ==> j in old(jobs)
      ensures removed == 0 ==> jobs == old(jobs)
      ensures dirty == (old(dirty) || removed > 0)
    {
      hide JobValues, PruneDone, Within;
      var kept;
      kept, removed := NotYetPruned(cutoff);
      PruneDoneAll(JobValues(jobs), cutoff);
      if removed == 0 {
        return 0;
      }
      jobs := kept;
      dirty := true;
    }

    method NotYetPruned(cutoff: Time) returns (kept: seq<JobRec>, removed: nat)
      requires Valid()
      ensures JobValues(kept) == PruneDone(JobValues(jobs), cutoff) && removed == |jobs| - |kept|
      ensures NoRepeats(kept) && forall j :: j in kept ==> j in jobs
    {
      hide JobValues, PruneDone, NoRepeats, Picked;
      ghost var all := JobValues(jobs);
      kept, removed := [], 0;
      PickNone(jobs);
      for i := 0 to |jobs|
        invariant removed + |kept| == i && Picked(kept, jobs, i)
        invariant JobValues(kept) + PruneDone(all[i..], cutoff) == PruneDone(all, cutoff)
      {
        var j := jobs[i];
        PruneDoneStep(all, i, cutoff, JobValues(kept));
        AppendValue(kept, j);
        PickNext(kept, jobs, i);
        if j.v.state == Done && j.v.updatedAt < cutoff {
          removed := removed + 1;
        } else {
          kept := kept + [j];
        }
      }
      PruneDoneEnd(all, cutoff, JobValues(kept));
      PickedEnd(kept, jobs);
    }

    method PruneFailedJobs(maxPerPath: int) returns (removed: nat)
      requires Valid()
      modifies this`jobs, this`dirty
      ensures Valid() && JobValues(jobs) == PruneFailed(old(JobValues(jobs)), AtLeastZero(maxPerPath))
      ensures removed == |old(jobs)| - |jobs| && forall j :: j in jobs ==> j in old(jobs)
      ensures removed == 0 ==> jobs == old(jobs)
      ensures dirty == (old(dirty) || removed > 0)
    {
      hide JobValues, PruneFailed;
      var k := if maxPerPath < 0 then 0 else maxPerPath;
      var keep;
      keep, removed := MarkNewestFailures(k);
      PruneFailedAll(JobValues(jobs), k);
      if removed == 0 {
        return 0;
      }
      var kept := KeepMarked(keep, k);
      jobs := kept;
      dirty := true;
    }

    /** Walking back from the newest job, keeps the first k failures met for each path. */
    method MarkNewestFailures(k: nat) returns (keep: array<bool>, removed: nat)
      ensures fresh(keep) && keep.Length == |jobs|
      ensures forall i :: 0 <= i < |jobs| ==> keep[i] == !Goes(JobValues(jobs)[i..], k)
      ensures removed == |jobs| - |PruneFailed(JobValues(jobs), k)|
    {
      hide JobValues, PruneFailed, Failures, Goes;
      ghost var all := JobValues(jobs);
      keep := new bool[|jobs|];
      var counts: map<string, nat> := map[];
      removed := 0;
      NothingAfter(all, k);
      var i := |jobs|;
      while i > 0
        invariant 0 <= i <= |jobs| && |all| == |jobs| && JobValues(jobs) == all
        invariant forall j :: i <= j < |jobs| ==> keep[j] == !Goes(all[j..], k)
        invariant Counted(counts, all[i..], k)
        invariant removed == |all| - i - |PruneFailed(all[i..], k)|
        modifies keep
      {
        i := i - 1;
        var j := jobs[i].v;
        assert all[i..][1..] == all[i + 1..];
        CountOne(counts, all[i..], k);
        if j.state != Failed {
          keep[i] := true;
        } else if (if j.path in counts then counts[j.path] else 0) < k {
          counts := counts[j.path := (if j.path in counts then counts[j.path] else 0) + 1];
          keep[i] := true;
        } else {
          removed := removed + 1;
          keep[i] := false;
        }
      }
      assert all[0..] == all;
    }

    method KeepMarked(keep: array<bool>, k: nat) returns (kept: seq<JobRec>)
      requires Valid() && keep.Length == |jobs|
      requires forall i :: 0 <= i < |jobs| ==> keep[i] == !Goes(JobValues(jobs)[i..], k)
      ensures JobValues(kept) == PruneFailed(JobValues(jobs), k)
      ensures NoRepeats(kept) && forall j :: j in kept ==> j in jobs
    {
      hide JobValues, PruneFailed, NoRepeats, Picked, Goes;
      ghost var all := JobValues(jobs);
      kept := [];
      PickNone(jobs);
      for i := 0 to |jobs|
        invariant Picked(kept, jobs, i)
        invariant JobValues(kept) + PruneFailed(all[i..], k) == PruneFailed(all, k)
      {
        PruneFailedStep(all, i, k, JobValues(kept));
        AppendValue(kept, jobs[i]);
        PickNext(kept, jobs, i);
        if keep[i] {
          kept := kept + [jobs[i]];
        }
      }
      PruneFailedEnd(all, k, JobValues(kept));
      PickedEnd(kept, jobs);
    }

    method SetActive(path: string)
      modifies this`active, this`dirty
      ensures active == Trim(path) && dirty == (old(dirty) || Trim(path) != old(active))
    {
      var trimmed := Trim(path);
      if active != trimmed {
        active := trimmed;
        dirty := true;
      }
    }

    /** Takes over records made for the new model. */
    method ReplaceModel(es: map<string, Entry>, js: seq<Job>, next: int, act: string)
      modifies this`entries, this`jobs, this`nextJob, this`active, this`dirty
      ensures Valid() && Memory() == Model(es, js, next, act) && dirty
      ensures (forall p :: p in entries ==> fresh(entries[p])) && forall r :: r in jobs ==> fresh(r)
    {
      hide Injective, NoRepeats, Memory, SnapshotModel;
      var copy := CopyModel(Model(es, js, next, act));
      RestoreSnapshot(copy);
      dirty := true;
    }

    // ----- Snapshots -----

    /** A deep copy: no record of it is one of the store's. */
    method TakeSnapshot() returns (snap: Snapshot)
      requires Valid()
      ensures SnapshotModel(snap) == Memory()
      ensures Injective(snap.entries) && NoRepeats(snap.jobs)
      ensures (forall p :: p in snap.entries ==> fresh(snap.entries[p])) && forall r :: r in snap.jobs ==> fresh(r)
    {
      snap := CopyModel(Model(EntryValues(entries), JobValues(jobs), nextJob, active));
    }

    method RestoreSnapshot(snap: Snapshot)
      requires Injective(snap.entries) && NoRepeats(snap.jobs)
      modifies this`entries, this`jobs, this`nextJob, this`active
      ensures Valid() && Memory() == SnapshotModel(snap) && entries == snap.entries && jobs == snap.jobs
    {
      entries, jobs, nextJob, active := snap.entries, snap.jobs, snap.nextJob, snap.active;
    }

    // ----- Batches -----

    method Perform(op: Op, now: Time)
      requires Valid()
      modifies this`entries, this`jobs, this`nextJob, this`active, this`dirty, Records()
      ensures Valid() && Memory() == Apply(old(Memory()), op, now)
      ensures (old(dirty) ==> dirty) && (!dirty ==> Memory() == old(Memory()))
      ensures fresh(Records() - old(Records()))
    {
      hide EntryValues, JobValues, Discard, Update, PruneDone, PruneFailed, Injective, NoRepeats;
      match op
      case PutEntry(e) => PutEntry(e, now);
      case SetEntrySync(path, sync, message, m) => var _ := SetEntrySync(path, sync, message, m, now);
      case DeleteEntry(path, m) => var _ := DeleteEntry(path, m, now);
      case SetActive(path) => SetActive(path);
      case ReplaceModel(es, js, next, act) => ReplaceModel(es, js, next, act);
      case DiscardEntry(_, _) => PerformOnQueue(op, now);
      case Enqueue(_) => PerformOnQueue(op, now);
      case PruneDoneJobs(_) => PerformOnQueue(op, now);
      case PruneFailedJobs(_) => PerformOnQueue(op, now);
      case DiscardJobs(_, _) => PerformInPlace(op, now);
      case SupersedeQueuedUploads(_) => PerformInPlace(op, now);
      case UpdateJob(_, _) => PerformOnJob(op, now);
      case StartJob(_) => PerformOnJob(op, now);
      case RetryJob(_) => PerformInPlace(op, now);
    }

    method PerformOnQueue(op: Op, now: Time)
      requires Valid() && (op.DiscardEntry? || op.Enqueue? || op.PruneDoneJobs? || op.PruneFailedJobs?)
      modifies this`entries, this`jobs, this`nextJob, this`dirty, jobs
      ensures Valid() && Memory() == Apply(old(Memory()), op, now)
      ensures (old(dirty) ==> dirty) && (!dirty ==> Memory() == old(Memory()))
      ensures fresh(Records() - old(Records()))
    {
      hide EntryValues, JobValues, Discard, PruneDone, PruneFailed, Injective, NoRepeats;
      match op
      case DiscardEntry(path, kinds) => var _ := DiscardEntry(path, kinds, now);
      case Enqueue(j) => var _ := Enqueue(j, now);
      case PruneDoneJobs(cutoff) => var _ := PruneDoneJobs(cutoff);
      case PruneFailedJobs(k) => var _ := PruneFailedJobs(k);
    }

    method PerformInPlace(op: Op, now: Time)
      requires Valid() && (op.DiscardJobs? || op.SupersedeQueuedUploads? || op.RetryJob?)
      modifies this`dirty, jobs
      ensures Memory() == Apply(old(Memory()), op, now)
      ensures (old(dirty) ==> dirty) && (!dirty ==> Memory() == old(Memory()))
    {
      hide EntryValues, JobValues, Discard, Update, Find, Retry, Injective, NoRepeats;
      match op
      case DiscardJobs(path, kinds) => var _ := DiscardJobs(path, kinds, now);
      case SupersedeQueuedUploads(path) => var _ := SupersedeQueuedUploads(path, now);
      case RetryJob(id) => var _ := RetryJob(id, now);
    }

    method PerformOnJob(op: Op, now: Time)
      requires Valid() && (op.UpdateJob? || op.StartJob?)
      modifies this`dirty, jobs
      ensures Memory() == Apply(old(Memory()), op, now)
      ensures (old(dirty) ==> dirty) && (!dirty ==> Memory() == old(Memory()))
    {
      hide EntryValues, JobValues, Update, Find, Start, Retry, Injective, NoRepeats;
      match op
      case UpdateJob(id, f) => var _ := UpdateJob(id, f, now);
      case StartJob(id) => var _ := StartJob(id, now);
    }

    method PerformAll(ops: seq<Op>, now: Time)
      requires Valid()
      modifies this`entries, this`jobs, this`nextJob, this`active, this`dirty, Records()
      ensures Valid() && Memory() == ApplyAll(old(Memory()), ops, now)
      ensures (old(dirty) ==> dirty) && (!dirty ==> Memory() == old(Memory()))
      ensures fresh(Records() - old(Records()))
    {
      hide Memory, Apply, Injective, NoRepeats;
      for i := 0 to |ops|
        invariant Valid() && Memory() == ApplyAll(old(Memory()), ops[..i], now)
        invariant (old(dirty) ==> dirty) && (!dirty ==> Memory() == old(Memory()))
        invariant fresh(Records() - old(Records()))
      {
        assert ops[..i + 1][..i] == ops[..i];
        Perform(ops[i], now);
      }
      assert ops[..|ops|] == ops;
    }

    method Flush()
      modifies this`disk
      ensures disk == Memory()
    {
      disk := Model(EntryValues(entries), JobValues(jobs), nextJob, active);
    }

    /** Runs the operations, then writes the model out if anything changed.  If the batch's function
        or the write fails, everything is as it was before. */
    method Batch(ops: seq<Op>, now: Time, fnFails: bool, flushFails: bool) returns (ok: bool)
      requires Valid()
      modifies this, Records()
      ensures Valid() && fresh(Records() - old(Records()))
      ensures ok == !(fnFails || (dirty && flushFails))
      ensures !ok ==> Memory() == old(Memory()) && disk == old(disk)
      ensures BatchEffect(Durable(old(Memory()), old(disk)), BatchCall(ops, now, fnFails, flushFails), dirty,
                          Durable(Memory(), disk))
    {
      hide Memory, SnapshotModel, ApplyAll, Injective, NoRepeats, BatchEffect;
      ghost var was := Durable(Memory(), disk);
      ghost var call := BatchCall(ops, now, fnFails, flushFails);
      var snap := TakeSnapshot();
      dirty := false;
      assert forall r | r in snap.entries.Values :: r !in Records();
      assert forall r | r in snap.jobs :: r !in Records();
      PerformAll(ops, now);
      assert SnapshotModel(snap) == was.memory;
      EffectCases(was, call, dirty, Memory());
      if fnFails {
        RestoreSnapshot(snap);
        return false;
      }
      if !dirty {
        return true;
      }
      if flushFails {
        RestoreSnapshot(snap);
        return false;
      }
      Flush();
      return true;
    }

    /** Replaces the model by a backup. */
    method Restore(backup: Model, now: Time, flushFails: bool) returns (ok: bool)
      requires Valid()
      modifies this, Records()
      ensures Valid() && fresh(Records() - old(Records())) && (!flushFails ==> ok)
      ensures Memory() == if ok then Restored(backup) else old(Memory())
      ensures old(disk) == old(Memory()) ==> disk == Memory()
      ensures !ok ==> disk == old(disk)
    {
      hide Memory, MaxNext;
      var es := map p | p in backup.entries :: NormalizeLoaded(backup.entries[p]);
      var next := NextAfter(backup);
      var op := Op.ReplaceModel(es, backup.jobs, next, Trim(backup.active));
      assert [op][..0] == [];
      ok := Batch([op], now, false, flushFails);
    }
  }

  method NextAfter(backup: Model) returns (next: int)
    ensures next == if MaxNext(backup.jobs, backup.nextJob) <= 0 then 1 else MaxNext(backup.jobs, backup.nextJob)
  {
    next := backup.nextJob;
    for i := 0 to |backup.jobs|
      invariant next == MaxNext(backup.jobs[..i], backup.nextJob)
    {
      assert backup.jobs[..i + 1][..i] == backup.jobs[..i];
      if backup.jobs[i].id >= next {
        next := backup.jobs[i].id + 1;
      }
    }
    assert backup.jobs[..|backup.jobs|] == backup.jobs;
    if next <= 0 {
      next := 1;
    }
  }

  lemma EffectCases(s: Durable, b: BatchCall, dirty: bool, m: Model)
    requires m == ApplyAll(s.memory, b.ops, b.now) && (!dirty ==> m == s.memory)
    ensures b.fnFails || (dirty && b.flushFails) ==> BatchEffect(s, b, dirty, s)
    ensures !b.fnFails && !dirty ==> BatchEffect(s, b, dirty, Durable(m, s.disk))
    ensures !b.fnFails && !(dirty && b.flushFails) && dirty ==> BatchEffect(s, b, dirty, Durable(m, m))
  {
  }

  lemma EntryRemoved(entries: map<string, EntryRec>, path: string)
    ensures EntryValues(entries - {path}) == EntryValues(entries) - {path}
  {
  }

  ghost function SnapshotModel(snap: Snapshot): Model
    reads snap.entries.Values, snap.jobs
  {
    Model(EntryValues(snap.entries), JobValues(snap.jobs), snap.nextJob, snap.active)
  }

  method CopyModel(m: Model) returns (copy: Snapshot)
    ensures SnapshotModel(copy) == m && Injective(copy.entries) && NoRepeats(copy.jobs)
    ensures (forall p :: p in copy.entries ==> fresh(copy.entries[p])) && forall r :: r in copy.jobs ==> fresh(r)
  {
    hide EntryValues, JobValues, Injective, NoRepeats;
    var e := CopyEntries(m.entries);
    var j := CopyJobs(m.jobs);
    copy := Snapshot(e, j, m.nextJob, m.active);
  }

  method CopyEntries(es: map<string, Entry>) returns (copy: map<string, EntryRec>)
    ensures EntryValues(copy) == es && Injective(copy)
    ensures forall p :: p in copy ==> fresh(copy[p])
  {
    copy := map[];
    var keys := es.Keys;
    while keys != {}
      invariant keys <= es.Keys && copy.Keys == es.Keys - keys
      invariant forall p :: p in copy ==> fresh(copy[p]) && copy[p].v == es[p]
      invariant Injective(copy)
      decreases |keys|
    {
      var p :| p in keys;
      var rec := new EntryRec(es[p]);
      copy := copy[p := rec];
      keys := keys - {p};
    }
  }

  method CopyJobs(js: seq<Job>) returns (copy: seq<JobRec>)
    ensures JobValues(copy) == js && NoRepeats(copy)
    ensures forall r :: r in copy ==> fresh(r)
  {
    copy := [];
    for i := 0 to |js|
      invariant |copy| == i && NoRepeats(copy)
      invariant forall k :: 0 <= k < i ==> fresh(copy[k]) && copy[k].v == js[k]
    {
      var rec := new JobRec(js[i]);
      copy := copy + [rec];
    }
  }

  function CountOf(counts: map<string, nat>, path: string): nat {
    if path in counts then counts[path] else 0
  }

  function CountIf(counts: map<string, nat>, path: string, counted: bool): map<string, nat> {
    if counted then counts[path := CountOf(counts, path) + 1] else counts
  }

  /** The counts stop at k. */
  ghost predicate Counted(counts: map<string, nat>, rest: seq<Job>, k: nat) {
    forall p: string :: CountOf(counts, p) == if |Failures(rest, p)| < k then |Failures(rest, p)| else k
  }

  lemma NothingAfter(all: seq<Job>, k: nat)
    ensures Counted(map[], all[|all|..], k) && PruneFailed(all[|all|..], k) == []
  {
  }

  lemma CountOne(counts: map<string, nat>, rest: seq<Job>, k: nat)
    requires rest != [] && Counted(counts, rest[1..], k)
    ensures var j := rest[0];
            && Goes(rest, k) == (j.state == Failed && CountOf(counts, j.path) >= k)
            && |PruneFailed(rest, k)| == |PruneFailed(rest[1..], k)| + (if Goes(rest, k) then 0 else 1)
            && Counted(CountIf(counts, j.path, j.state == Failed && !Goes(rest, k)), rest, k)
  {
    hide PruneFailed, Goes;
    hide Counted;
    PruneFailedLength(rest, k);
    GoesWhen(rest, k);
    assert Counted(counts, rest[1..], k);
    CountedNext(counts, rest, k);
  }

  lemma GoesWhen(rest: seq<Job>, k: nat)
    requires rest != []
    ensures Goes(rest, k) == (rest[0].state == Failed && |Failures(rest[1..], rest[0].path)| >= k)
  {
  }

  lemma PruneFailedLength(rest: seq<Job>, k: nat)
    requires rest != []
    ensures |PruneFailed(rest, k)| == |PruneFailed(rest[1..], k)| + (if Goes(rest, k) then 0 else 1)
  {
  }

  lemma CountedNext(counts: map<string, nat>, rest: seq<Job>, k: nat)
    requires rest != [] && Counted(counts, rest[1..], k)
    ensures var j := rest[0];
            var goes := |Failures(rest[1..], j.path)| >= k;
            && (j.state == Failed ==> goes == (CountOf(counts, j.path) >= k))
            && Counted(CountIf(counts, j.path, j.state == Failed && !goes), rest, k)
  {
    var j := rest[0];
    forall p: string
      ensures Failures(rest, p) == (if j.state == Failed && j.path == p then [j] else []) + Failures(rest[1..], p)
    {
    }
    hide Failures;
    assert CountOf(counts, j.path) >= k <==> |Failures(rest[1..], j.path)| >= k;
  }

  lemma PruneFailedStep(all: seq<Job>, i: nat, k: nat, p: seq<Job>)
    requires i < |all| && p + PruneFailed(all[i..], k) == PruneFailed(all, k)
    ensures (if Goes(all[i..], k) then p else p + [all[i]]) + PruneFailed(all[i + 1..], k) == PruneFailed(all, k)
  {
    assert all[i..][1..] == all[i + 1..];
    assert PruneFailed(all[i..], k) == (if Goes(all[i..], k) then [] else [all[i]]) + PruneFailed(all[i + 1..], k);
    hide PruneFailed, Goes;
  }

  lemma PruneFailedEnd(all: seq<Job>, k: nat, p: seq<Job>)
    requires p + PruneFailed(all[|all|..], k) == PruneFailed(all, k)
    ensures p == PruneFailed(all, k)
  {
  }

  lemma InPrefix(out: seq<JobRec>, i: nat)
    requires i < |out|
    ensures forall r :: r in out[..i + 1] <==> r in out[..i] || r == out[i]
  {
    assert out[..i + 1] == out[..i] + [out[i]];
  }

  lemma PickNone(jobs: seq<JobRec>)
    ensures Picked([], jobs, 0) && JobValues([]) == []
  {
  }

  /** The records kept come from the first i. */
  ghost predicate Picked(kept: seq<JobRec>, jobs: seq<JobRec>, i: nat) {
    i <= |jobs| && NoRepeats(kept) && forall k :: 0 <= k < |kept| ==> kept[k] in jobs[..i]
  }

  lemma PickNext(kept: seq<JobRec>, jobs: seq<JobRec>, i: nat)
    requires i < |jobs| && Picked(kept, jobs, i) && NoRepeats(jobs)
    ensures Picked(kept, jobs, i + 1) && Picked(kept + [jobs[i]], jobs, i + 1)
  {
    assert jobs[..i + 1] == jobs[..i] + [jobs[i]];
  }

  lemma PickedEnd(kept: seq<JobRec>, jobs: seq<JobRec>)
    requires Picked(kept, jobs, |jobs|)
    ensures NoRepeats(kept) && forall j :: j in kept ==> j in jobs
  {
    assert jobs[..|jobs|] == jobs;
  }

  lemma AppendValue(kept: seq<JobRec>, j: JobRec)
    ensures JobValues(kept + [j]) == JobValues(kept) + [j.v]
  {
    assert (kept + [j])[..|kept|] == kept;
  }

  lemma PruneDoneStep(all: seq<Job>, i: nat, cutoff: Time, p: seq<Job>)
    requires i < |all| && p + PruneDone(all[i..], cutoff) == PruneDone(all, cutoff)
    ensures var goes := all[i].state == Done && all[i].updatedAt < cutoff;
            (if goes then p else p + [all[i]]) + PruneDone(all[i + 1..], cutoff) == PruneDone(all, cutoff)
  {
    assert all[i..][1..] == all[i + 1..];
  }

  lemma PruneDoneEnd(all: seq<Job>, cutoff: Time, p: seq<Job>)
    requires p + PruneDone(all[|all|..], cutoff) == PruneDone(all, cutoff)
    ensures p == PruneDone(all, cutoff)
  {
  }
}
