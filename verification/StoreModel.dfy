/** The catalog and the job queue as values, and what each operation of a batch does to them. */
module StoreModel {
  type Time = int

  datatype SyncState =
    Synced | LocalOnly | PendingUpload | Uploading | PendingDelete | Deleting | PendingRename | RemoteOnly | Error

  datatype CacheState = Unset | CacheNone | CacheReady | CacheValidating

  datatype Entry = Entry(path: string, isDir: bool, size: int, md5: string, cachePath: string,
                         cacheState: CacheState, cacheCheckedAt: Time, sync: SyncState, error: string, updatedAt: Time)

  datatype JobKind = Upload | Delete | Rename | Mkdir | OtherKind(name: string)

  datatype JobState = Queued | Running | Done | Failed

  datatype Job = Job(id: int, kind: JobKind, path: string, destPath: string, cachePath: string, md5: string, size: int,
                     state: JobState, attempts: nat, lastError: string, createdAt: Time, updatedAt: Time)

  datatype Model = Model(entries: map<string, Entry>, jobs: seq<Job>, nextJob: int, active: string)

  const EMPTY := Model(map[], [], 1, "")

  /** The mutators of a batch.  The unconditional and the state-conditional forms of an entry update
      are the matching form with a constant match or one on the sync state. */
  datatype Op =
    | PutEntry(e: Entry)
    | SetEntrySync(path: string, sync: SyncState, message: string, match_: Entry -> bool)
    | DeleteEntry(path: string, match_: Entry -> bool)
    | DiscardEntry(path: string, kinds: set<JobKind>)
    | DiscardJobs(path: string, kinds: set<JobKind>)
    | SupersedeQueuedUploads(path: string)
    | Enqueue(j: Job)
    | UpdateJob(id: int, mutate: Job -> Job)
    | StartJob(id: int)
    | RetryJob(id: int)
    | PruneDoneJobs(cutoff: Time)
    | PruneFailedJobs(maxPerPath: int)
    | SetActive(path: string)
    | ReplaceModel(entries: map<string, Entry>, jobs: seq<Job>, nextJob: int, active: string)

  function Normalize(e: Entry): Entry {
    if e.isDir || e.cachePath == "" then e.(cacheState := CacheNone, cacheCheckedAt := 0)
    else if e.cacheState == Unset then e.(cacheState := CacheReady)
    else if e.cacheState == CacheNone then e.(cacheCheckedAt := 0)
    else e
  }

  function NormalizeLoaded(e: Entry): Entry {
    if e.isDir || e.cachePath == "" then e.(cacheState := CacheNone, cacheCheckedAt := 0) else e
  }

  /** White space, as Unicode defines it. */
  predicate IsSpace(c: char) {
    var n := c as int;
    || 9 <= n <= 13 || n == 0x20 || n == 0x85 || n == 0xA0 || n == 0x1680 || 0x2000 <= n <= 0x200A
    || n == 0x2028 || n == 0x2029 || n == 0x202F || n == 0x205F || n == 0x3000
  }

  /** The path without white space at either end. */
  function Trim(path: string): string {
    if path == "" then ""
    else if IsSpace(path[0]) then Trim(path[1..])
    else if IsSpace(path[|path| - 1]) then Trim(path[..|path| - 1])
    else path
  }

  /** What is left is a stretch of the path with nothing but white space on either side of it, and it
      is empty or has white space at neither end. */
  lemma {:induction false} TrimIsMiddle(path: string) returns (i: nat, j: nat)
    ensures i <= j <= |path| && Trim(path) == path[i..j]
    ensures forall k :: 0 <= k < |path| && !(i <= k < j) ==> IsSpace(path[k])
    ensures i < j ==> !IsSpace(path[i]) && !IsSpace(path[j - 1])
  {
    hide IsSpace;
    if path == "" {
      i, j := 0, 0;
    } else if IsSpace(path[0]) {
      i, j := TrimIsMiddle(path[1..]);
      assert forall k :: 1 <= k < |path| ==> path[k] == path[1..][k - 1];
      i, j := i + 1, j + 1;
    } else if IsSpace(path[|path| - 1]) {
      i, j := TrimIsMiddle(path[..|path| - 1]);
    } else {
      i, j := 0, |path|;
    }
  }

  function Finish(j: Job, now: Time): Job {
    j.(state := Done, lastError := "", updatedAt := now)
  }

  predicate Discards(j: Job, path: string, kinds: set<JobKind>) {
    j.path == path && j.kind in kinds && (j.state == Queued || j.state == Failed)
  }

  function Discard(jobs: seq<Job>, path: string, kinds: set<JobKind>, now: Time): (r: seq<Job>)
    ensures |r| == |jobs|
    ensures forall i :: 0 <= i < |r| ==>
                r[i] == if Discards(jobs[i], path, kinds) then Finish(jobs[i], now) else jobs[i]
  {
    if jobs == [] then []
    else
      var j := jobs[0];
      [if Discards(j, path, kinds) then Finish(j, now) else j] + Discard(jobs[1..], path, kinds, now)
  }

  /** The place of the first job with the id, or the length of the queue. */
  function Find(jobs: seq<Job>, id: int): (k: nat)
    ensures k <= |jobs| && (k < |jobs| ==> jobs[k].id == id)
    ensures forall i :: 0 <= i < k ==> jobs[i].id != id
  {
    if jobs == [] || jobs[0].id == id then 0 else 1 + Find(jobs[1..], id)
  }

  function Update(jobs: seq<Job>, id: int, f: Job -> Job): (r: seq<Job>)
    ensures |r| == |jobs|
  {
    var k := Find(jobs, id);
    if k < |jobs| then jobs[k := f(jobs[k])] else jobs
  }

  lemma UpdateIs(jobs: seq<Job>, id: int, k: nat, f: Job -> Job)
    requires k < |jobs| && jobs[k].id == id && forall i :: 0 <= i < k ==> jobs[i].id != id
    ensures Find(jobs, id) == k && Update(jobs, id, f) == jobs[k := f(jobs[k])]
  {
  }

  lemma UpdateMisses(jobs: seq<Job>, id: int, f: Job -> Job)
    requires forall i :: 0 <= i < |jobs| ==> jobs[i].id != id
    ensures Find(jobs, id) == |jobs| && Update(jobs, id, f) == jobs
  {
  }

  function Start(j: Job, now: Time): Job {
    if j.state == Queued then j.(state := Running, updatedAt := now) else j
  }

  function Retry(j: Job, now: Time): Job {
    if j.state == Failed then j.(state := Queued, attempts := 0, lastError := "", updatedAt := now) else j
  }

  function PruneDone(jobs: seq<Job>, cutoff: Time): seq<Job> {
    if jobs == [] then []
    else (if jobs[0].state == Done && jobs[0].updatedAt < cutoff then [] else [jobs[0]]) + PruneDone(jobs[1..], cutoff)
  }

  /** The failed jobs for a path, oldest first. */
  function Failures(jobs: seq<Job>, path: string): seq<Job> {
    if jobs == [] then []
    else (if jobs[0].state == Failed && jobs[0].path == path then [jobs[0]] else []) + Failures(jobs[1..], path)
  }

  /** A failed job goes when at least k later ones for its path failed too. */
  predicate Goes(jobs: seq<Job>, k: nat)
    requires jobs != []
  {
    jobs[0].state == Failed && |Failures(jobs[1..], jobs[0].path)| >= k
  }

  function PruneFailed(jobs: seq<Job>, k: nat): seq<Job> {
    if jobs == [] then [] else (if Goes(jobs, k) then [] else [jobs[0]]) + PruneFailed(jobs[1..], k)
  }

  function AtLeastZero(k: int): nat {
    if k < 0 then 0 else k
  }

  function Apply(m: Model, op: Op, now: Time): Model {
    match op
    case PutEntry(e) => m.(entries := m.entries[e.path := Normalize(e).(updatedAt := now)])
    case SetEntrySync(path, sync, message, ok) =>
      if path in m.entries && ok(m.entries[path]) then
        m.(entries := m.entries[path := m.entries[path].(sync := sync, error := message, updatedAt := now)])
      else m
    case DeleteEntry(path, ok) =>
      if path in m.entries && ok(m.entries[path]) then m.(entries := m.entries - {path}) else m
    case DiscardEntry(path, kinds) =>
      if path in m.entries then m.(entries := m.entries - {path}, jobs := Discard(m.jobs, path, kinds, now)) else m
    case DiscardJobs(path, kinds) => m.(jobs := Discard(m.jobs, path, kinds, now))
    case SupersedeQueuedUploads(path) => m.(jobs := Discard(m.jobs, path, {Upload}, now))
    case Enqueue(j) =>
      m.(jobs := m.jobs + [j.(id := m.nextJob, state := Queued, createdAt := now, updatedAt := now)],
         nextJob := m.nextJob + 1)
    case UpdateJob(id, f) => m.(jobs := Update(m.jobs, id, j => f(j).(updatedAt := now)))
    case StartJob(id) => m.(jobs := Update(m.jobs, id, j => Start(j, now)))
    case RetryJob(id) => m.(jobs := Update(m.jobs, id, j => Retry(j, now)))
    case PruneDoneJobs(cutoff) => m.(jobs := PruneDone(m.jobs, cutoff))
    case PruneFailedJobs(k) => m.(jobs := PruneFailed(m.jobs, AtLeastZero(k)))
    case SetActive(path) => m.(active := Trim(path))
    case ReplaceModel(entries, jobs, nextJob, active) => Model(entries, jobs, nextJob, active)
  }

  function ApplyAll(m: Model, ops: seq<Op>, now: Time): Model {
    if ops == [] then m else Apply(ApplyAll(m, ops[..|ops| - 1], now), ops[|ops| - 1], now)
  }

  // ----- Pruning failures -----

  function Last(s: seq<Job>, k: nat): seq<Job> {
    if |s| <= k then s else s[|s| - k..]
  }

  function NotFailed(jobs: seq<Job>): seq<Job> {
    if jobs == [] then [] else (if jobs[0].state == Failed then [] else [jobs[0]]) + NotFailed(jobs[1..])
  }

  /** a is b with some jobs left out. */
  ghost predicate Within(a: seq<Job>, b: seq<Job>)
    decreases |b|
  {
    a == [] || (b != [] && ((a[0] == b[0] && Within(a[1..], b[1..])) || Within(a, b[1..])))
  }

  lemma LastCons(h: Job, f: seq<Job>, k: nat)
    ensures Last([h] + f, k) == if |f| >= k then Last(f, k) else [h] + f
  {
  }

  lemma FailuresCons(h: Job, t: seq<Job>, path: string)
    ensures Failures([h] + t, path) == (if h.state == Failed && h.path == path then [h] else []) + Failures(t, path)
  {
    assert ([h] + t)[1..] == t;
  }

  lemma {:induction false} PrunedFailures(jobs: seq<Job>, k: nat, path: string)
    ensures Failures(PruneFailed(jobs, k), path) == Last(Failures(jobs, path), k)
  {
    if jobs != [] {
      var h, t := jobs[0], jobs[1..];
      PrunedFailures(t, k, path);
      FailuresCons(h, t, path);
      FailuresCons(h, PruneFailed(t, k), path);
      LastCons(h, Failures(t, path), k);
      assert jobs == [h] + t;
      assert PruneFailed(jobs, k) == (if Goes(jobs, k) then [] else [h]) + PruneFailed(t, k);
      assert [] + PruneFailed(t, k) == PruneFailed(t, k);
      assert [] + Failures(t, path) == Failures(t, path);
      assert [] + Failures(PruneFailed(t, k), path) == Failures(PruneFailed(t, k), path);
      hide Failures, PruneFailed, Last;
    }
  }

  lemma {:induction false} PrunedOthers(jobs: seq<Job>, k: nat)
    ensures NotFailed(PruneFailed(jobs, k)) == NotFailed(jobs)
    ensures Within(PruneFailed(jobs, k), jobs)
  {
    hide Failures;
    if jobs != [] {
      var rest := PruneFailed(jobs[1..], k);
      PrunedOthers(jobs[1..], k);
      if Goes(jobs, k) {
        assert [] + rest == rest;
      } else {
        assert ([jobs[0]] + rest)[1..] == rest;
      }
    }
  }

  /** Pruning keeps, for each path, exactly the newest k failures, and every job that has not failed,
      all in the order they had. */
  lemma PruneFailedKeepsNewest(jobs: seq<Job>, k: nat, path: string)
    ensures Failures(PruneFailed(jobs, k), path) == Last(Failures(jobs, path), k)
    ensures NotFailed(PruneFailed(jobs, k)) == NotFailed(jobs)
    ensures Within(PruneFailed(jobs, k), jobs)
  {
    PrunedFailures(jobs, k, path);
    PrunedOthers(jobs, k);
  }

  lemma {:induction false} PruneFailedAll(jobs: seq<Job>, k: nat)
    ensures |PruneFailed(jobs, k)| <= |jobs|
    ensures |PruneFailed(jobs, k)| == |jobs| ==> PruneFailed(jobs, k) == jobs
  {
    if jobs != [] {
      PruneFailedAll(jobs[1..], k);
    }
  }

  lemma {:induction false} PruneDoneAll(jobs: seq<Job>, cutoff: Time)
    ensures |PruneDone(jobs, cutoff)| <= |jobs|
    ensures |PruneDone(jobs, cutoff)| == |jobs| ==> PruneDone(jobs, cutoff) == jobs
    ensures Within(PruneDone(jobs, cutoff), jobs)
    ensures forall j :: j in PruneDone(jobs, cutoff) <==> j in jobs && !(j.state == Done && j.updatedAt < cutoff)
  {
    if jobs != [] {
      var rest := PruneDone(jobs[1..], cutoff);
      PruneDoneAll(jobs[1..], cutoff);
      assert ([jobs[0]] + rest)[1..] == rest;
      assert [] + rest == rest;
      assert jobs == [jobs[0]] + jobs[1..];
    }
  }

  // ----- Identifiers -----

  ghost predicate Distinct(jobs: seq<Job>) {
    forall i, j :: 0 <= i < j < |jobs| ==> jobs[i].id != jobs[j].id
  }

  ghost predicate Below(jobs: seq<Job>, n: int) {
    forall i :: 0 <= i < |jobs| ==> jobs[i].id < n
  }

  /** Identifiers are unique and below the next one. */
  ghost predicate IdsOk(m: Model) {
    Distinct(m.jobs) && Below(m.jobs, m.nextJob)
  }

  /** What the identifiers need of an operation: an update keeps the job's, and a replacement model
      has good ones. */
  ghost predicate KeepsIds(op: Op) {
    match op
    case UpdateJob(_, f) => forall j :: f(j).id == j.id
    case ReplaceModel(_, jobs, nextJob, _) => Distinct(jobs) && Below(jobs, nextJob)
    case _ => true
  }

  lemma {:induction false} WithinMember(a: seq<Job>, b: seq<Job>, j: Job)
    requires Within(a, b) && j in a
    ensures j in b
    decreases |b|
  {
    if b != [] {
      assert b == [b[0]] + b[1..];
      if a[0] == b[0] && Within(a[1..], b[1..]) {
        assert a == [a[0]] + a[1..];
        if j != a[0] {
          WithinMember(a[1..], b[1..], j);
        }
      } else {
        WithinMember(a, b[1..], j);
      }
    }
  }

  lemma {:induction false} WithinKeepsIds(a: seq<Job>, b: seq<Job>, n: int)
    requires Within(a, b) && Distinct(b) && Below(b, n)
    ensures Distinct(a) && Below(a, n)
    decreases |b|
  {
    if a != [] {
      if a[0] == b[0] && Within(a[1..], b[1..]) {
        WithinKeepsIds(a[1..], b[1..], n);
        forall i | 1 <= i < |a| ensures a[0].id != a[i].id {
          assert a[1..][i - 1] == a[i];
          WithinMember(a[1..], b[1..], a[i]);
        }
        assert a == [a[0]] + a[1..];
      } else {
        WithinKeepsIds(a, b[1..], n);
      }
    }
  }

  lemma SameIds(a: seq<Job>, b: seq<Job>, n: int)
    requires |a| == |b| && forall i :: 0 <= i < |a| ==> a[i].id == b[i].id
    requires Distinct(a) && Below(a, n)
    ensures Distinct(b) && Below(b, n)
  {
  }

  /** Every operation keeps identifiers unique and below the next one. */
  lemma ApplyKeepsIds(m: Model, op: Op, now: Time)
    requires IdsOk(m) && KeepsIds(op)
    ensures IdsOk(Apply(m, op, now))
  {
    hide Discard, Find, PruneDone, PruneFailed, Within;
    var z := Apply(m, op, now);
    match op
    case DiscardEntry(_, _) => SameIds(m.jobs, z.jobs, m.nextJob);
    case DiscardJobs(_, _) => SameIds(m.jobs, z.jobs, m.nextJob);
    case SupersedeQueuedUploads(_) => SameIds(m.jobs, z.jobs, m.nextJob);
    case UpdateJob(_, _) => SameIds(m.jobs, z.jobs, m.nextJob);
    case StartJob(_) => SameIds(m.jobs, z.jobs, m.nextJob);
    case RetryJob(_) => SameIds(m.jobs, z.jobs, m.nextJob);
    case PruneDoneJobs(cutoff) =>
      PruneDoneAll(m.jobs, cutoff);
      WithinKeepsIds(z.jobs, m.jobs, m.nextJob);
    case PruneFailedJobs(k) =>
      PruneFailedKeepsNewest(m.jobs, AtLeastZero(k), "");
      WithinKeepsIds(z.jobs, m.jobs, m.nextJob);
    case _ =>
  }

  lemma {:induction false} ApplyAllKeepsIds(m: Model, ops: seq<Op>, now: Time)
    requires IdsOk(m) && forall i :: 0 <= i < |ops| ==> KeepsIds(ops[i])
    ensures IdsOk(ApplyAll(m, ops, now))
  {
    hide IdsOk, KeepsIds, Apply;
    if ops != [] {
      ApplyAllKeepsIds(m, ops[..|ops| - 1], now);
      ApplyKeepsIds(ApplyAll(m, ops[..|ops| - 1], now), ops[|ops| - 1], now);
    }
  }

  // ----- Batches -----

  datatype BatchCall = BatchCall(ops: seq<Op>, now: Time, fnFails: bool, flushFails: bool)

  /** The store in memory and what was last written to disk. */
  datatype Durable = Durable(memory: Model, disk: Model)

  /** A batch leaves memory and disk as they were, or applies all of its operations to both; but a
      batch that changed nothing may not touch the disk. */
  ghost predicate BatchEffect(s: Durable, b: BatchCall, dirty: bool, z: Durable) {
    if b.fnFails || (dirty && b.flushFails) then z == s
    else
      && z.memory == ApplyAll(s.memory, b.ops, b.now)
      && (if dirty then z.disk == z.memory else z.disk == s.disk && z.memory == s.memory)
  }

  /** Over every sequence of batches, failing or not, the disk agrees with memory and identifiers
      stay unique and below the next one. */
  lemma {:induction false} BatchesKeep(states: seq<Durable>, calls: seq<BatchCall>, dirty: seq<bool>)
    requires |states| == |calls| + 1 && |dirty| == |calls|
    requires states[0].disk == states[0].memory && IdsOk(states[0].memory)
    requires forall i :: 0 <= i < |calls| ==> BatchEffect(states[i], calls[i], dirty[i], states[i + 1])
    requires forall i, k :: 0 <= i < |calls| && 0 <= k < |calls[i].ops| ==> KeepsIds(calls[i].ops[k])
    ensures var z := states[|calls|]; z.disk == z.memory && IdsOk(z.memory)
  {
    hide IdsOk, KeepsIds, ApplyAll;
    if calls != [] {
      var n := |calls| - 1;
      BatchesKeep(states[..n + 1], calls[..n], dirty[..n]);
      if states[n + 1].memory != states[n].memory {
        ApplyAllKeepsIds(states[n].memory, calls[n].ops, calls[n].now);
      }
    }
  }

  // ----- Restoring a backup -----

  function MaxNext(jobs: seq<Job>, next: int): (n: int)
    ensures n >= next && Below(jobs, n)
    ensures n == next || exists i :: 0 <= i < |jobs| && n == jobs[i].id + 1
  {
    if jobs == [] then next
    else
      var p := MaxNext(jobs[..|jobs| - 1], next);
      if jobs[|jobs| - 1].id >= p then jobs[|jobs| - 1].id + 1 else p
  }

  /** The model a backup restores to. */
  function Restored(m: Model): Model {
    var next := MaxNext(m.jobs, m.nextJob);
    var entries := map p | p in m.entries :: NormalizeLoaded(m.entries[p]);
    Model(entries, m.jobs, if next <= 0 then 1 else next, Trim(m.active))
  }

  /** Whatever counter a backup carries, restoring it makes the identifiers good exactly when the
      backup's own are distinct; and a backup of a good model comes back with its jobs and counter. */
  lemma RestoredIds(m: Model)
    ensures IdsOk(Restored(m)) <==> Distinct(m.jobs)
    ensures IdsOk(m) && m.nextJob > 0 ==> Restored(m).jobs == m.jobs && Restored(m).nextJob == m.nextJob
  {
  }
}
