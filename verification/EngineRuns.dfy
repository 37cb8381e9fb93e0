/** The sync engine's passes, one after the other, while clients change the queue at any moment. */
module EngineRuns {
  import opened StoreModel
  import opened SyncEngine

  /** `snapshot` is the queue the pass walks, `pos` where it is, and `next` the next identifier when
      it began. */
  datatype Pass = NoPass | Pass(snapshot: seq<Job>, pos: nat, deferred: set<string>, next: int, running: bool)

  datatype Attempt = Attempt(id: int, path: string)

  /** `log` holds the attempts made on the machine, in order. */
  datatype Sys = Sys(m: Model, pass: Pass, log: seq<Attempt>)

  const START := Sys(EMPTY, NoPass, [])

  datatype Step =
    | Client(op: Op, now: Time)                 // a client's change to the store
    | PassStart
    | Skip                                      // the job touches a deferred path
    | BackOff(now: Time)
    | Block(now: Time)                          // no machine: the pass ends
    | Begin(now: Time)                          // marks the job running, if it is still queued
    | NeverBegan(now: Time, message: string)    // could not dial, or could not mark it running
    | NeverRecorded(now: Time)                  // the same, and not even that could be recorded
    | Succeed(now: Time)
    | Fail(now: Time, message: string)
    | FailAfterwards(now: Time, message: string)  // done on the machine, but not recorded
    | Lose                                      // not even the failure could be recorded
    | PassEnd
    | Restart(now: Time, message: string)

  function QueuedJobs(jobs: seq<Job>): seq<Job> {
    if jobs == [] then [] else (if jobs[0].state == Queued then [jobs[0]] else []) + QueuedJobs(jobs[1..])
  }

  /** What clients may do; retrying a failed job by hand and restoring a backup are not among it, nor
      are renames. */
  predicate ClientOp(op: Op) {
    match op
    case Enqueue(j) => j.destPath == ""
    case UpdateJob(_, _) => false
    case StartJob(_) => false
    case RetryJob(_) => false
    case ReplaceModel(_, _, _, _) => false
    case _ => true
  }

  predicate AtJob(s: Sys) {
    s.pass.Pass? && s.pass.pos < |s.pass.snapshot|
  }

  function Current(s: Sys): Job
    requires AtJob(s)
  {
    s.pass.snapshot[s.pass.pos]
  }

  predicate Tries(cfg: Config, s: Sys, now: Time) {
    && AtJob(s) && !s.pass.running
    && !TouchesDeferred(Current(s), s.pass.deferred) && ShouldAttempt(cfg, Current(s), now)
  }

  predicate Enabled(cfg: Config, s: Sys, step: Step) {
    match step
    case Client(op, _) => ClientOp(op)
    case PassStart => s.pass.NoPass?
    case Skip => AtJob(s) && !s.pass.running && TouchesDeferred(Current(s), s.pass.deferred)
    case BackOff(now) =>
      AtJob(s) && !s.pass.running && !TouchesDeferred(Current(s), s.pass.deferred)
        && !ShouldAttempt(cfg, Current(s), now)
    case Block(now) => Tries(cfg, s, now)
    case Begin(now) => Tries(cfg, s, now)
    case NeverBegan(now, _) => Tries(cfg, s, now)
    case NeverRecorded(now) => Tries(cfg, s, now)
    case Succeed(_) => AtJob(s) && s.pass.running
    case Fail(_, _) => AtJob(s) && s.pass.running
    case FailAfterwards(_, _) => AtJob(s) && s.pass.running
    case Lose => AtJob(s) && s.pass.running
    case PassEnd => s.pass.Pass? && !AtJob(s)
    case Restart(_, _) => true
  }

  function Advance(p: Pass): Pass
    requires p.Pass?
  {
    p.(pos := p.pos + 1, running := false)
  }

  function AdvanceDeferring(p: Pass): Pass
    requires p.Pass? && p.pos < |p.snapshot|
  {
    p.(pos := p.pos + 1, running := false, deferred := p.deferred + Paths(p.snapshot[p.pos]))
  }

  function Interrupted(j: Job, message: string, now: Time): Job {
    if j.state == Running then j.(state := Failed, lastError := message, updatedAt := now) else j
  }

  function Interrupt(jobs: seq<Job>, message: string, now: Time): (r: seq<Job>)
    ensures |r| == |jobs|
    ensures forall i :: 0 <= i < |r| ==> r[i] == Interrupted(jobs[i], message, now)
  {
    if jobs == [] then [] else [Interrupted(jobs[0], message, now)] + Interrupt(jobs[1..], message, now)
  }

  /** Whether marking the job running succeeds. */
  predicate CanStart(jobs: seq<Job>, id: int) {
    Find(jobs, id) < |jobs| && jobs[Find(jobs, id)].state == Queued
  }

  function DoBegin(s: Sys, now: Time): Sys
    requires AtJob(s)
  {
    var x := Current(s);
    if CanStart(s.m.jobs, x.id) then
      Sys(Apply(s.m, StartJob(x.id), now), s.pass.(running := true), s.log + [Attempt(x.id, x.path)])
    else s.(pass := Advance(s.pass))
  }

  function Record(s: Sys, f: Job -> Job, now: Time, p: Pass): Sys
    requires AtJob(s)
  {
    s.(m := Apply(s.m, UpdateJob(Current(s).id, f), now), pass := p)
  }

  function Do(cfg: Config, s: Sys, step: Step): Sys
    requires Enabled(cfg, s, step)
  {
    match step
    case Client(op, now) => s.(m := Apply(s.m, op, now))
    case PassStart => s.(pass := Pass(QueuedJobs(s.m.jobs), 0, {}, s.m.nextJob, false))
    case Skip => s.(pass := Advance(s.pass))
    case BackOff(_) => s.(pass := AdvanceDeferring(s.pass))
    case Block(_) => s.(pass := NoPass)
    case Begin(now) => DoBegin(s, now)
    case NeverBegan(now, message) =>
      var tried := Current(s);
      Record(s, j => FailedOnce(cfg, tried, message, j), now, AdvanceDeferring(s.pass))
    case NeverRecorded(_) => s.(pass := AdvanceDeferring(s.pass))
    case Succeed(now) => Record(s, j => Succeeded(j), now, Advance(s.pass))
    case Fail(now, message) =>
      var tried := Current(s);
      Record(s, j => FailedOnce(cfg, tried, message, j), now, AdvanceDeferring(s.pass))
    case FailAfterwards(now, message) => Record(s, j => FailedForGood(message, j), now, AdvanceDeferring(s.pass))
    case Lose => s.(pass := AdvanceDeferring(s.pass))
    case PassEnd => s.(pass := NoPass)
    case Restart(now, message) => s.(m := s.m.(jobs := Interrupt(s.m.jobs, message, now)), pass := NoPass)
  }

  ghost predicate ValidRun(cfg: Config, steps: seq<Step>)
    decreases |steps|, 0
  {
    steps == [] || (ValidRun(cfg, steps[..|steps| - 1])
                    && Enabled(cfg, After(cfg, steps[..|steps| - 1]), steps[|steps| - 1]))
  }

  ghost function After(cfg: Config, steps: seq<Step>): Sys
    requires ValidRun(cfg, steps)
    decreases |steps|, 1
  {
    if steps == [] then START else Do(cfg, After(cfg, steps[..|steps| - 1]), steps[|steps| - 1])
  }

  // ----- The queue -----

  ghost predicate Increasing(jobs: seq<Job>) {
    forall i, j :: 0 <= i < j < |jobs| ==> jobs[i].id < jobs[j].id
  }

  /** Identifiers grow along the queue, stay below the next one, and no job is a rename. */
  ghost predicate GoodQueue(jobs: seq<Job>, next: int) {
    Increasing(jobs) && forall i :: 0 <= i < |jobs| ==> jobs[i].id < next && jobs[i].destPath == ""
  }

  /** A later form of the same job, not queued again. */
  predicate Ages(y: Job, z: Job) {
    y.id == z.id && y.path == z.path && y.destPath == z.destPath && (z.state == Queued ==> y.state == Queued)
  }

  /** Every job of the new queue is a later form of an old one, or new. */
  ghost predicate Evolves(old_: seq<Job>, next: int, new_: seq<Job>) {
    forall z :: z in new_ ==> z.id >= next || exists y :: y in old_ && Ages(y, z)
  }

  // ----- The invariant -----

  /** Once a job was attempted, no earlier one on its path is queued. */
  ghost predicate NoneWaitsBehind(m: Model, log: seq<Attempt>) {
    forall k, z :: 0 <= k < |log| && z in m.jobs && z.path == log[k].path && z.id < log[k].id ==> z.state != Queued
  }

  ghost predicate LogOk(m: Model, log: seq<Attempt>) {
    && (forall k :: 0 <= k < |log| ==> log[k].id < m.nextJob)
    && (forall i, k :: 0 <= i < k < |log| && log[i].path == log[k].path ==> log[i].id <= log[k].id)
  }

  /** Every queued job came after the pass began, is still ahead in it, or is on a deferred path. */
  ghost predicate Accounted(m: Model, p: Pass)
    requires p.Pass?
  {
    forall z :: z in m.jobs && z.state == Queued ==>
      z.id >= p.next || z.path in p.deferred || exists i :: p.pos <= i < |p.snapshot| && p.snapshot[i].id == z.id
  }

  /** Nothing later than what is ahead was attempted on its path. */
  ghost predicate AheadIsLatest(p: Pass, log: seq<Attempt>)
    requires p.Pass?
  {
    forall i, k :: p.pos <= i < |p.snapshot| && 0 <= k < |log| && log[k].path == p.snapshot[i].path ==>
          log[k].id <= p.snapshot[i].id
  }

  /** The snapshot's jobs and the queue's agree on paths. */
  ghost predicate SamePaths(m: Model, p: Pass)
    requires p.Pass?
  {
    forall i, z :: 0 <= i < |p.snapshot| && z in m.jobs && z.id == p.snapshot[i].id ==> z.path == p.snapshot[i].path
  }

  ghost predicate PassOk(m: Model, p: Pass, log: seq<Attempt>)
    requires p.Pass?
  {
    && GoodQueue(p.snapshot, p.next) && p.next <= m.nextJob
    && Accounted(m, p) && AheadIsLatest(p, log) && SamePaths(m, p)
  }

  ghost predicate Inv(s: Sys) {
    && GoodQueue(s.m.jobs, s.m.nextJob) && NoneWaitsBehind(s.m, s.log) && LogOk(s.m, s.log)
    && (s.pass.Pass? ==> PassOk(s.m, s.pass, s.log))
  }

  // ----- Changes to the queue -----

  lemma EvolvingKeeps(s: Sys, z: Model)
    requires Inv(s)
    requires GoodQueue(z.jobs, z.nextJob) && s.m.nextJob <= z.nextJob && Evolves(s.m.jobs, s.m.nextJob, z.jobs)
    ensures Inv(s.(m := z))
  {
  }

  lemma {:induction false} WithinIncreasing(a: seq<Job>, b: seq<Job>)
    requires Within(a, b) && Increasing(b)
    ensures Increasing(a)
    decreases |b|
  {
    if a != [] {
      if a[0] == b[0] && Within(a[1..], b[1..]) {
        WithinIncreasing(a[1..], b[1..]);
        forall i | 1 <= i < |a| ensures a[0].id < a[i].id {
          assert a[1..][i - 1] == a[i];
          WithinMember(a[1..], b[1..], a[i]);
        }
        assert a == [a[0]] + a[1..];
      } else {
        WithinIncreasing(a, b[1..]);
      }
    }
  }

  lemma WithinEvolves(a: seq<Job>, b: seq<Job>, next: int)
    requires Within(a, b) && GoodQueue(b, next)
    ensures GoodQueue(a, next) && Evolves(b, next, a)
  {
    WithinIncreasing(a, b);
    forall z | z in a ensures z in b && Ages(z, z) {
      WithinMember(a, b, z);
    }
  }

  lemma SameLengthEvolves(a: seq<Job>, b: seq<Job>, next: int)
    requires |a| == |b| && GoodQueue(a, next) && forall i :: 0 <= i < |a| ==> Ages(a[i], b[i])
    ensures GoodQueue(b, next) && Evolves(a, next, b)
  {
  }

  lemma EnqueueEvolves(a: seq<Job>, j: Job, next: int)
    requires GoodQueue(a, next) && j.id == next && j.destPath == ""
    ensures GoodQueue(a + [j], next + 1) && Evolves(a, next, a + [j])
  {
    forall z | z in a ensures Ages(z, z) {
    }
  }

  lemma ClientEvolves(m: Model, op: Op, now: Time)
    requires GoodQueue(m.jobs, m.nextJob) && ClientOp(op)
    ensures var z := Apply(m, op, now);
            GoodQueue(z.jobs, z.nextJob) && m.nextJob <= z.nextJob && Evolves(m.jobs, m.nextJob, z.jobs)
  {
    var z := Apply(m, op, now);
    match op
    case PruneDoneJobs(cutoff) =>
      PruneDoneAll(m.jobs, cutoff);
      WithinEvolves(z.jobs, m.jobs, m.nextJob);
    case PruneFailedJobs(k) =>
      PruneFailedKeepsNewest(m.jobs, AtLeastZero(k), "");
      WithinEvolves(z.jobs, m.jobs, m.nextJob);
    case Enqueue(j) => EnqueueEvolves(m.jobs, z.jobs[|m.jobs|], m.nextJob);
    case _ => SameLengthEvolves(m.jobs, z.jobs, m.nextJob);
  }

  lemma ClientKeeps(s: Sys, op: Op, now: Time)
    requires Inv(s) && ClientOp(op)
    ensures Inv(s.(m := Apply(s.m, op, now)))
  {
    ClientEvolves(s.m, op, now);
    EvolvingKeeps(s, Apply(s.m, op, now));
  }

  lemma RestartKeeps(s: Sys, message: string, now: Time)
    requires Inv(s)
    ensures Inv(s.(m := s.m.(jobs := Interrupt(s.m.jobs, message, now)), pass := NoPass))
  {
    var z := s.m.(jobs := Interrupt(s.m.jobs, message, now));
    SameLengthEvolves(s.m.jobs, z.jobs, s.m.nextJob);
    EvolvingKeeps(s, z);
  }

  lemma {:induction false} QueuedWithin(jobs: seq<Job>)
    ensures Within(QueuedJobs(jobs), jobs)
    ensures forall z :: z in QueuedJobs(jobs) <==> z in jobs && z.state == Queued
  {
    if jobs != [] {
      QueuedWithin(jobs[1..]);
      var rest := QueuedJobs(jobs[1..]);
      assert ([jobs[0]] + rest)[1..] == rest;
      assert [] + rest == rest;
      assert jobs == [jobs[0]] + jobs[1..];
    }
  }

  lemma PassStartKeeps(s: Sys)
    requires Inv(s)
    ensures Inv(s.(pass := Pass(QueuedJobs(s.m.jobs), 0, {}, s.m.nextJob, false)))
  {
    hide QueuedJobs, NoneWaitsBehind, LogOk, Accounted, AheadIsLatest, SamePaths;
    var q := QueuedJobs(s.m.jobs);
    QueuedWithin(s.m.jobs);
    WithinEvolves(q, s.m.jobs, s.m.nextJob);
    var p := Pass(q, 0, {}, s.m.nextJob, false);
    StartAccounted(s.m, p);
    StartIsLatest(s.m, p, s.log);
    StartSamePaths(s.m, p);
  }

  lemma StartAccounted(m: Model, p: Pass)
    requires p.Pass? && p.pos == 0 && forall z :: z in m.jobs && z.state == Queued ==> z in p.snapshot
    ensures Accounted(m, p)
  {
  }

  lemma StartIsLatest(m: Model, p: Pass, log: seq<Attempt>)
    requires p.Pass? && p.pos == 0 && forall z :: z in p.snapshot ==> z in m.jobs && z.state == Queued
    requires NoneWaitsBehind(m, log)
    ensures AheadIsLatest(p, log)
  {
    forall i | 0 <= i < |p.snapshot| ensures p.snapshot[i] in m.jobs && p.snapshot[i].state == Queued {
      assert p.snapshot[i] in p.snapshot;
    }
  }

  lemma StartSamePaths(m: Model, p: Pass)
    requires p.Pass? && GoodQueue(m.jobs, m.nextJob) && forall z :: z in p.snapshot ==> z in m.jobs
    ensures SamePaths(m, p)
  {
    SamePathInQueue(m.jobs);
    forall i | 0 <= i < |p.snapshot| ensures p.snapshot[i] in m.jobs {
      assert p.snapshot[i] in p.snapshot;
    }
  }

  lemma SamePathInQueue(jobs: seq<Job>)
    requires Increasing(jobs)
    ensures forall y, z :: y in jobs && z in jobs && y.id == z.id ==> y == z
  {
  }

  // ----- The engine's steps -----

  /** Passing over a job whose place is taken by a deferred path. */
  lemma DeferKeeps(s: Sys)
    requires Inv(s) && AtJob(s)
    ensures Inv(s.(pass := AdvanceDeferring(s.pass)))
    ensures TouchesDeferred(Current(s), s.pass.deferred) ==> Inv(s.(pass := Advance(s.pass)))
  {
    var x := Current(s);
    assert x.destPath == "" && x.path in Paths(x);
    forall z | z in s.m.jobs && z.id == x.id ensures z.path == x.path {
    }
  }

  /** Passing over a job that is not queued. */
  lemma PassOverKeeps(s: Sys)
    requires Inv(s) && AtJob(s)
    requires forall z :: z in s.m.jobs && z.id == Current(s).id ==> z.state != Queued
    ensures Inv(s.(pass := Advance(s.pass)))
  {
  }

  lemma UpdateElements(m: Model, id: int, f: Job -> Job, now: Time)
    ensures var z := Apply(m, UpdateJob(id, f), now);
            && z == m.(jobs := z.jobs) && |z.jobs| == |m.jobs|
            && (forall i :: 0 <= i < |z.jobs| && i != Find(m.jobs, id) ==> z.jobs[i] == m.jobs[i])
            && (forall i :: 0 <= i < |z.jobs| && i == Find(m.jobs, id) ==> z.jobs[i] == f(m.jobs[i]).(updatedAt := now))
  {
  }

  lemma UpdateKeepsQueue(m: Model, id: int, f: Job -> Job, now: Time)
    requires GoodQueue(m.jobs, m.nextJob)
    requires forall j :: f(j).id == j.id && f(j).path == j.path && f(j).destPath == j.destPath
    ensures var z := Apply(m, UpdateJob(id, f), now);
            && GoodQueue(z.jobs, z.nextJob) && z.nextJob == m.nextJob
            && (forall y :: y in z.jobs && y.id != id ==> y in m.jobs)
            && (forall y :: y in z.jobs && y.id == id ==>
                  exists x :: x in m.jobs && x.id == id && x.path == y.path && y.state == f(x).state)
  {
    var z := Apply(m, UpdateJob(id, f), now);
    UpdateElements(m, id, f, now);
    hide Apply, Find;
    assert GoodQueue(z.jobs, z.nextJob);
    hide GoodQueue;
    forall y | y in z.jobs
      ensures y.id != id ==> y in m.jobs
      ensures y.id == id ==> exists x :: x in m.jobs && x.id == id && x.path == y.path && y.state == f(x).state
    {
      var i :| 0 <= i < |z.jobs| && z.jobs[i] == y;
      assert m.jobs[i] in m.jobs;
    }
  }

  /** z is m with at most the jobs of one identifier changed, which keep their path. */
  ghost predicate OnlyJob(m: Model, z: Model, id: int) {
    && GoodQueue(z.jobs, z.nextJob) && z.nextJob == m.nextJob
    && (forall y :: y in z.jobs && y.id != id ==> y in m.jobs)
    && (forall y :: y in z.jobs && y.id == id ==> exists x :: x in m.jobs && x.id == id && x.path == y.path)
  }

  /** Changing the current job keeps what does not depend on the pass having moved on. */
  lemma ChangeKeeps(s: Sys, z: Model)
    requires Inv(s) && AtJob(s) && OnlyJob(s.m, z, Current(s).id)
    ensures NoneWaitsBehind(z, s.log) && LogOk(z, s.log) && SamePaths(z, s.pass)
  {
  }

  lemma MovedOn(s: Sys, z: Model)
    requires Inv(s) && AtJob(s) && OnlyJob(s.m, z, Current(s).id)
    ensures Accounted(z, AdvanceDeferring(s.pass))
    ensures (forall y :: y in z.jobs && y.id == Current(s).id ==> y.state != Queued) ==> Accounted(z, Advance(s.pass))
  {
    assert Current(s).path in Paths(Current(s));
  }

  /** Recording an outcome on the current job. */
  lemma RecordKeeps(s: Sys, f: Job -> Job, now: Time)
    requires Inv(s) && AtJob(s)
    requires forall j :: f(j).id == j.id && f(j).path == j.path && f(j).destPath == j.destPath
    ensures Inv(Record(s, f, now, AdvanceDeferring(s.pass)))
    ensures (forall j :: f(j).state != Queued) ==> Inv(Record(s, f, now, Advance(s.pass)))
  {
    var id := Current(s).id;
    var z := Apply(s.m, UpdateJob(id, f), now);
    UpdateKeepsQueue(s.m, id, f, now);
    hide Apply;
    ChangeKeeps(s, z);
    MovedOn(s, z);
    hide GoodQueue, NoneWaitsBehind, LogOk, Accounted, SamePaths, OnlyJob, Paths;
  }

  lemma BeginKeeps(s: Sys, now: Time)
    requires Inv(s) && AtJob(s) && !TouchesDeferred(Current(s), s.pass.deferred)
    ensures Inv(DoBegin(s, now))
  {
    var x := Current(s);
    if CanStart(s.m.jobs, x.id) {
      var z := Apply(s.m, StartJob(x.id), now);
      SameLengthEvolves(s.m.jobs, z.jobs, s.m.nextJob);
      EvolvingKeeps(s, z);
      LogKeeps(s.(m := z), Attempt(x.id, x.path));
    } else {
      SamePathInQueue(s.m.jobs);
      PassOverKeeps(s);
    }
  }

  lemma LogKeeps(s: Sys, a: Attempt)
    requires Inv(s) && AtJob(s) && a == Attempt(Current(s).id, Current(s).path)
    requires !TouchesDeferred(Current(s), s.pass.deferred)
    ensures Inv(s.(pass := s.pass.(running := true), log := s.log + [a]))
  {
  }

  lemma StepKeeps(cfg: Config, s: Sys, step: Step)
    requires Inv(s) && Enabled(cfg, s, step)
    ensures Inv(Do(cfg, s, step))
  {
    hide GoodQueue, NoneWaitsBehind, LogOk, PassOk, Apply, ShouldAttempt, TouchesDeferred, DoBegin, Record, Advance,
      AdvanceDeferring, ClientOp;
    match step
    case Client(op, now) => ClientKeeps(s, op, now);
    case PassStart => PassStartKeeps(s);
    case Skip => DeferKeeps(s);
    case BackOff(_) => DeferKeeps(s);
    case Begin(now) => BeginKeeps(s, now);
    case NeverBegan(now, message) =>
      var tried := Current(s);
      RecordKeeps(s, j => FailedOnce(cfg, tried, message, j), now);
    case NeverRecorded(_) => DeferKeeps(s);
    case Succeed(now) => RecordKeeps(s, j => Succeeded(j), now);
    case Fail(now, message) =>
      var tried := Current(s);
      RecordKeeps(s, j => FailedOnce(cfg, tried, message, j), now);
    case FailAfterwards(now, message) => RecordKeeps(s, j => FailedForGood(message, j), now);
    case Lose => DeferKeeps(s);
    case Restart(now, message) => RestartKeeps(s, message, now);
    case _ =>
  }

  lemma {:induction false} AlwaysInv(cfg: Config, steps: seq<Step>)
    requires ValidRun(cfg, steps)
    ensures Inv(After(cfg, steps))
  {
    hide Inv, Do, Enabled;
    if steps == [] {
      StartInv();
    } else {
      AlwaysInv(cfg, steps[..|steps| - 1]);
      StepKeeps(cfg, After(cfg, steps[..|steps| - 1]), steps[|steps| - 1]);
    }
  }

  lemma StartInv()
    ensures Inv(START)
  {
  }

  /** Over every run without renames and without retries by hand, the attempts on each path come in
      queue order: once a job was attempted, no earlier job on its path ever is again, and none is
      left queued.  This holds whatever clients do meanwhile, whether a job fails before or after it
      starts, whether its outcome is recorded or lost, and across restarts. */
  lemma AttemptsInOrder(cfg: Config, steps: seq<Step>)
    requires ValidRun(cfg, steps)
    ensures var s := After(cfg, steps);
            && (forall i, k :: 0 <= i < k < |s.log| && s.log[i].path == s.log[k].path ==> s.log[i].id <= s.log[k].id)
            && (forall k, z :: 0 <= k < |s.log| && z in s.m.jobs && z.path == s.log[k].path && z.id < s.log[k].id ==>
                  z.state != Queued)
  {
    hide After, ValidRun;
    AlwaysInv(cfg, steps);
  }

  /** A restart leaves no job running: each that was has failed, with the restart's message, and no other job has
      changed. */
  lemma RestartFailsRunning(cfg: Config, s: Sys, now: Time, message: string, i: nat)
    requires i < |s.m.jobs|
    ensures var z := Do(cfg, s, Restart(now, message));
            && z.pass.NoPass? && |z.m.jobs| == |s.m.jobs| && z.m.entries == s.m.entries
            && z.m.jobs[i] == if s.m.jobs[i].state == Running then
                                s.m.jobs[i].(state := Failed, lastError := message, updatedAt := now)
                              else s.m.jobs[i]
  {
  }
}
