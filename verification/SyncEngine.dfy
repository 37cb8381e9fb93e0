/** One pass of the sync engine over the queue: what is attempted, what waits, and why. */
module SyncEngine {
  import opened StoreModel
  import Bytes

  // ----- Backoff -----

  const ZERO_BYTE_SETTLE: int := 15_000_000_000
  const TWO_63: int := 0x8000_0000_0000_0000
  const TWO_64: int := 0x1_0000_0000_0000_0000

  /** Durations are 64-bit counts of nanoseconds. */
  datatype Config = Config(baseBackoff: int, maxBackoff: int, maxAttempts: int)

  const DEFAULTS := Config(2_000_000_000, 60_000_000_000, 8)

  /** Two's complement: the low 64 bits, read as a signed number. */
  function Wrap64(x: int): (w: int)
    ensures -TWO_63 <= w < TWO_63
  {
    var r := x % TWO_64;
    if r >= TWO_63 then r - TWO_64 else r
  }

  /** The cap applies to a wait that is too long, and to one that is not positive. */
  function Capped(wait: int, cap: int): int {
    if wait > cap || wait <= 0 then cap else wait
  }

  function Wait(cfg: Config, attempts: nat): int
    requires attempts > 0
  {
    Capped(Wrap64(cfg.baseBackoff * Bytes.Pow2(attempts - 1)), cfg.maxBackoff)
  }

  predicate ShouldAttempt(cfg: Config, j: Job, now: Time) {
    if j.kind == Upload && j.size == 0 && j.attempts == 0 && now - j.createdAt < ZERO_BYTE_SETTLE then false
    else if j.attempts == 0 then true
    else now - j.updatedAt >= Wait(cfg, j.attempts)
  }

  /** The doubling backoff, capped: what the wait is meant to be. */
  function Doubling(cfg: Config, attempts: nat): int
    requires attempts > 0
  {
    Capped(cfg.baseBackoff * Bytes.Pow2(attempts - 1), cfg.maxBackoff)
  }

  /** For any base and any 64-bit cap, negative ones included, the wait is the capped doubling exactly
      when the shift stays in 64 bits, or its wrapped value trips the guard or happens to be the cap;
      and it is never above the cap. */
  lemma WaitIsDoubling(cfg: Config, attempts: nat)
    requires attempts > 0 && -TWO_63 <= cfg.maxBackoff < TWO_63
    ensures var w := cfg.baseBackoff * Bytes.Pow2(attempts - 1);
            Wait(cfg, attempts) == Doubling(cfg, attempts) <==>
              -TWO_63 <= w < TWO_63 || Wrap64(w) <= 0 || Wrap64(w) >= cfg.maxBackoff
    ensures Wait(cfg, attempts) <= cfg.maxBackoff && (cfg.maxBackoff > 0 ==> Wait(cfg, attempts) > 0)
  {
  }

  lemma Pow2Values()
    ensures Bytes.Pow2(32) == 0x1_0000_0000 && Bytes.Pow2(33) == 0x2_0000_0000
  {
    assert Bytes.Pow2(8) == 0x100;
    Bytes.Pow2Add(8, 8);
    Bytes.Pow2Add(16, 16);
    Bytes.Pow2Add(32, 1);
  }

  /** With the default settings the wait is the capped doubling for every number of attempts: the
      wrapped shift is zero, negative or far above the cap. */
  lemma DefaultWait(attempts: nat)
    requires attempts > 0
    ensures Wait(DEFAULTS, attempts) == Doubling(DEFAULTS, attempts)
    ensures var w := 2_000_000_000 * Bytes.Pow2(attempts - 1);
            Wait(DEFAULTS, attempts) == if w < 60_000_000_000 then w else 60_000_000_000
  {
    Pow2Values();
    WaitIsDoubling(DEFAULTS, attempts);
    if attempts - 1 <= 32 {
      Pow2Up(attempts - 1, 32);
    } else {
      Bytes.Pow2Add(attempts - 34, 33);
      DefaultWraps(Bytes.Pow2(attempts - 34), Bytes.Pow2(attempts - 1));
    }
  }

  lemma DefaultWraps(m: nat, p: nat)
    requires p == m * 0x2_0000_0000
    ensures Wrap64(DEFAULTS.baseBackoff * p) <= 0 || Wrap64(DEFAULTS.baseBackoff * p) >= DEFAULTS.maxBackoff
  {
    MultipleWraps(1953125 * m);
    assert DEFAULTS.baseBackoff * p == (1953125 * m) * 0x800_0000_0000;
  }

  lemma {:induction false} Pow2Up(a: nat, b: nat)
    requires a <= b
    ensures Bytes.Pow2(a) <= Bytes.Pow2(b)
  {
    if a < b {
      Pow2Up(a, b - 1);
    }
  }

  lemma MultipleWraps(m: nat)
    ensures var w := Wrap64(m * 0x800_0000_0000); w <= 0 || w >= 0x800_0000_0000
  {
    var r := (m * 0x800_0000_0000) % TWO_64;
    assert r == (m % 0x20_0000) * 0x800_0000_0000;
  }

  /** A base that does not divide well wraps to a short wait again: after 33 attempts this one waits
      4.3 seconds, not the minute of the cap. */
  lemma WrappedWait()
    ensures var cfg := Config(0x1_0000_0001, 60_000_000_000, 40);
            Wait(cfg, 33) == 0x1_0000_0000 && Doubling(cfg, 33) == 60_000_000_000
  {
    Pow2Values();
    assert Wrap64(0x1_0000_0001 * 0x1_0000_0000) == 0x1_0000_0000;
  }

  // ----- Outcomes -----

  function Succeeded(j: Job): Job {
    j.(state := Done, attempts := j.attempts + 1, lastError := "")
  }

  predicate Terminal(cfg: Config, tried: Job) {
    tried.attempts + 1 >= cfg.maxAttempts
  }

  /** The failure of `tried`, recorded on the job as it is now. */
  function FailedOnce(cfg: Config, tried: Job, message: string, j: Job): Job {
    j.(attempts := tried.attempts + 1, lastError := message, state := if Terminal(cfg, tried) then Failed else Queued)
  }

  /** Done on the machine, but the durable update failed. */
  function FailedForGood(message: string, j: Job): Job {
    j.(attempts := j.attempts + 1, state := Failed, lastError := message)
  }

  // ----- One pass -----

  datatype RunResult = Ran | RanFailed | Blocked

  /** What the engine meets when it comes to a job: the clock, and how running it goes. */
  datatype Env = Env(now: Time, result: RunResult)

  /** What a pass did with a job.  A pass that is blocked ends. */
  datatype Disposition = Deferred | BackingOff | Attempted(ok: bool)

  function Paths(j: Job): set<string> {
    if j.destPath != "" then {j.path, j.destPath} else {j.path}
  }

  predicate Share(a: Job, b: Job) {
    !(Paths(a) !! Paths(b))
  }

  predicate TouchesDeferred(j: Job, deferred: set<string>) {
    j.path in deferred || (j.destPath != "" && j.destPath in deferred)
  }

  function DrainFrom(cfg: Config, jobs: seq<Job>, env: seq<Env>, deferred: set<string>): seq<Disposition>
    requires |env| == |jobs|
  {
    if jobs == [] then []
    else if TouchesDeferred(jobs[0], deferred) then [Deferred] + DrainFrom(cfg, jobs[1..], env[1..], deferred)
    else if !ShouldAttempt(cfg, jobs[0], env[0].now) then
      [BackingOff] + DrainFrom(cfg, jobs[1..], env[1..], deferred + Paths(jobs[0]))
    else match env[0].result
      case Blocked => []
      case RanFailed => [Attempted(false)] + DrainFrom(cfg, jobs[1..], env[1..], deferred + Paths(jobs[0]))
      case Ran => [Attempted(true)] + DrainFrom(cfg, jobs[1..], env[1..], deferred)
  }

  method DeferJobPaths(j: Job, deferred: set<string>) returns (d: set<string>)
    ensures d == deferred + Paths(j)
  {
    d := deferred + {j.path};
    if j.destPath != "" {
      d := d + {j.destPath};
    }
  }

  /** The pass.  `queue` holds the queued jobs in order when it starts. */
  method Drain(cfg: Config, queue: seq<Job>, env: seq<Env>) returns (trace: seq<Disposition>)
    requires |env| == |queue|
    ensures trace == DrainFrom(cfg, queue, env, {})
  {
    var deferred: set<string> := {};
    trace := [];
    for i := 0 to |queue|
      invariant trace + DrainFrom(cfg, queue[i..], env[i..], deferred) == DrainFrom(cfg, queue, env, {})
    {
      var j := queue[i];
      Unroll(cfg, queue, env, i, deferred, trace);
      if TouchesDeferred(j, deferred) {
        trace := trace + [Deferred];
        continue;
      }
      if !ShouldAttempt(cfg, j, env[i].now) {
        deferred := DeferJobPaths(j, deferred);
        trace := trace + [BackingOff];
        continue;
      }
      if env[i].result == Blocked {
        return;
      }
      trace := trace + [Attempted(env[i].result == Ran)];
      if env[i].result == RanFailed {
        deferred := DeferJobPaths(j, deferred);
      }
    }
  }

  lemma Unroll(cfg: Config, queue: seq<Job>, env: seq<Env>, i: nat, deferred: set<string>, trace: seq<Disposition>)
    requires |env| == |queue| && i < |queue|
    ensures var rest := DrainFrom(cfg, queue[i..], env[i..], deferred);
            var more := deferred + Paths(queue[i]);
            if TouchesDeferred(queue[i], deferred) then
              trace + rest == trace + [Deferred] + DrainFrom(cfg, queue[i + 1..], env[i + 1..], deferred)
            else if !ShouldAttempt(cfg, queue[i], env[i].now) then
              trace + rest == trace + [BackingOff] + DrainFrom(cfg, queue[i + 1..], env[i + 1..], more)
            else if env[i].result == Blocked then trace + rest == trace
            else if env[i].result == RanFailed then
              trace + rest == trace + [Attempted(false)] + DrainFrom(cfg, queue[i + 1..], env[i + 1..], more)
            else trace + rest == trace + [Attempted(true)] + DrainFrom(cfg, queue[i + 1..], env[i + 1..], deferred)
  {
    hide ShouldAttempt, Paths, TouchesDeferred;
    assert queue[i..][1..] == queue[i + 1..] && env[i..][1..] == env[i + 1..];
  }

  // ----- Order -----

  /** The job stops later jobs on its paths. */
  predicate Stops(d: Disposition) {
    d == BackingOff || d == Attempted(false)
  }

  function Local(cfg: Config, j: Job, e: Env): Disposition {
    if !ShouldAttempt(cfg, j, e.now) then BackingOff else Attempted(e.result == Ran)
  }

  /** An earlier job in the pass stops this one. */
  ghost predicate Held(jobs: seq<Job>, trace: seq<Disposition>, t: nat) {
    exists i :: 0 <= i < t && i < |trace| && i < |jobs| && t < |jobs| && Stops(trace[i]) && Share(jobs[i], jobs[t])
  }

  ghost predicate TraceOk(cfg: Config, jobs: seq<Job>, env: seq<Env>, deferred: set<string>, trace: seq<Disposition>) {
    && |trace| <= |jobs| == |env|
    && (forall t :: 0 <= t < |trace| ==>
          (trace[t] == Deferred <==> !(Paths(jobs[t]) !! deferred) || Held(jobs, trace, t)))
    && (forall t :: 0 <= t < |trace| ==> trace[t] == Deferred || trace[t] == Local(cfg, jobs[t], env[t]))
    && ((forall t :: 0 <= t < |env| ==> env[t].result != Blocked) ==> |trace| == |jobs|)
  }

  lemma {:induction false} PassTrace(cfg: Config, jobs: seq<Job>, env: seq<Env>, deferred: set<string>)
    requires |env| == |jobs|
    ensures TraceOk(cfg, jobs, env, deferred, DrainFrom(cfg, jobs, env, deferred))
  {
    if jobs != [] {
      var trace := DrainFrom(cfg, jobs, env, deferred);
      if trace != [] {
        var d := if Stops(trace[0]) then deferred + Paths(jobs[0]) else deferred;
        PassTrace(cfg, jobs[1..], env[1..], d);
        assert trace == [trace[0]] + DrainFrom(cfg, jobs[1..], env[1..], d);
        TraceCons(cfg, jobs, env, deferred, trace);
      }
    }
  }

  lemma TraceCons(cfg: Config, jobs: seq<Job>, env: seq<Env>, deferred: set<string>, trace: seq<Disposition>)
    requires trace != [] && jobs != [] && |env| == |jobs|
    requires trace[0] == if TouchesDeferred(jobs[0], deferred) then Deferred else Local(cfg, jobs[0], env[0])
    requires var d := if Stops(trace[0]) then deferred + Paths(jobs[0]) else deferred;
             TraceOk(cfg, jobs[1..], env[1..], d, trace[1..])
    ensures TraceOk(cfg, jobs, env, deferred, trace)
  {
  }

  /** In one pass no job runs after an earlier job sharing a path was backing off or failed; and a job
      waits for no other reason. */
  lemma PassOrder(cfg: Config, jobs: seq<Job>, env: seq<Env>, t: nat)
    requires |env| == |jobs|
    ensures var trace := DrainFrom(cfg, jobs, env, {});
            t < |trace| ==>
              && t < |jobs|
              && (trace[t] == Deferred <==> exists i :: 0 <= i < t && Stops(trace[i]) && Share(jobs[i], jobs[t]))
  {
    hide DrainFrom, Share, Stops, Local;
    PassTrace(cfg, jobs, env, {});
  }

  /** A pass comes to a job that nothing holds back: an empty upload never tried is left to settle for 15
      seconds, a job tried before waits out its backoff, which is never more than the cap, and any other is
      attempted. */
  lemma PassWaits(cfg: Config, jobs: seq<Job>, env: seq<Env>, t: nat)
    requires |env| == |jobs| && t < |DrainFrom(cfg, jobs, env, {})|
    requires -TWO_63 <= cfg.maxBackoff < TWO_63
    ensures t < |jobs|
    ensures var d, j, now := DrainFrom(cfg, jobs, env, {})[t], jobs[t], env[t].now;
            d != Deferred ==>
              && d.Attempted? == (d != BackingOff)
              && (j.attempts == 0 && !(j.kind == Upload && j.size == 0) ==> d.Attempted?)
              && (j.attempts == 0 && j.kind == Upload && j.size == 0 ==>
                    (d.Attempted? <==> now >= j.createdAt + 15_000_000_000))
              && (j.attempts > 0 ==>
                    && (d.Attempted? <==> now >= j.updatedAt + Wait(cfg, j.attempts))
                    && (now >= j.updatedAt + cfg.maxBackoff ==> d.Attempted?))
              && (d.Attempted? ==> d.ok == (env[t].result == Ran))
  {
    hide DrainFrom, Wait, Held;
    PassTrace(cfg, jobs, env, {});
    if jobs[t].attempts > 0 {
      WaitIsDoubling(cfg, jobs[t].attempts);
    }
  }

  /** Jobs sharing a path ran in queue order: one is attempted only after every earlier one on its
      paths succeeded. */
  ghost predicate Fifo(jobs: seq<Job>, trace: seq<Disposition>) {
    forall i, j :: 0 <= i < j < |trace| && j < |jobs| && trace[j].Attempted? && Share(jobs[i], jobs[j]) ==>
          trace[i] == Attempted(true)
  }

  /** No job links two later-and-earlier jobs that have no path in common. */
  ghost predicate NoBridge(jobs: seq<Job>) {
    forall i, j, l :: 0 <= i < j < l < |jobs| && Share(jobs[i], jobs[j]) && Share(jobs[j], jobs[l]) ==>
          Share(jobs[i], jobs[l])
  }

  lemma NoBridgeFifo(cfg: Config, jobs: seq<Job>, env: seq<Env>)
    requires |env| == |jobs| && NoBridge(jobs)
    ensures Fifo(jobs, DrainFrom(cfg, jobs, env, {}))
  {
    hide DrainFrom, Share, Local;
    PassTrace(cfg, jobs, env, {});
    var trace := DrainFrom(cfg, jobs, env, {});
    forall i, j | 0 <= i < j < |trace| && trace[j].Attempted? && Share(jobs[i], jobs[j])
      ensures trace[i] == Attempted(true)
    {
      assert !Held(jobs, trace, j);
    }
  }

  function ReadyTime(cfg: Config, j: Job): (t: Time)
    ensures forall now :: now >= t ==> ShouldAttempt(cfg, j, now)
  {
    var a := j.createdAt + ZERO_BYTE_SETTLE;
    var b := if j.attempts == 0 then a else j.updatedAt + Wait(cfg, j.attempts);
    if a < b then b else a
  }

  /** A time at which every job is ready. */
  function AllReady(cfg: Config, jobs: seq<Job>): (t: Time)
    ensures forall j :: j in jobs ==> ShouldAttempt(cfg, j, t) && ReadyTime(cfg, j) <= t
  {
    if jobs == [] then 0
    else
      var a, b := ReadyTime(cfg, jobs[0]), AllReady(cfg, jobs[1..]);
      assert forall j :: j in jobs ==> j == jobs[0] || j in jobs[1..];
      if a < b then b else a
  }

  /** The clock does not run backwards during the pass. */
  ghost predicate ClockRuns(env: seq<Env>) {
    forall i, j :: 0 <= i < j < |env| ==> env[i].now <= env[j].now
  }

  /** Everything is ready and only job i fails. */
  function OnlyFails(cfg: Config, jobs: seq<Job>, i: nat): (env: seq<Env>)
    ensures |env| == |jobs| && ClockRuns(env)
    ensures forall t :: 0 <= t < |env| ==> env[t] == Env(AllReady(cfg, jobs), if t == i then RanFailed else Ran)
  {
    seq(|jobs|, t requires 0 <= t < |jobs| => Env(AllReady(cfg, jobs), if t == i then RanFailed else Ran))
  }

  lemma OnlyOneStops(cfg: Config, jobs: seq<Job>, i: nat, trace: seq<Disposition>)
    requires i < |jobs| == |trace| && TraceOk(cfg, jobs, OnlyFails(cfg, jobs, i), {}, trace)
    ensures trace[i] == Attempted(false)
    ensures forall t :: 0 <= t < |trace| && t != i ==>
              trace[t] == if t > i && Share(jobs[i], jobs[t]) then Deferred else Attempted(true)
  {
    hide Share, AllReady, ReadyTime, ShouldAttempt, Paths;
    var env := OnlyFails(cfg, jobs, i);
    forall t | 0 <= t < |trace| ensures Local(cfg, jobs[t], env[t]) == Attempted(t != i) {
      assert jobs[t] in jobs;
    }
  }

  lemma BridgeBreaksFifo(cfg: Config, jobs: seq<Job>, i: nat, j: nat, l: nat)
    requires i < j < l < |jobs| && Share(jobs[i], jobs[j]) && Share(jobs[j], jobs[l]) && !Share(jobs[i], jobs[l])
    ensures !Fifo(jobs, DrainFrom(cfg, jobs, OnlyFails(cfg, jobs, i), {}))
  {
    hide DrainFrom, Share, AllReady, ReadyTime, ShouldAttempt;
    var env := OnlyFails(cfg, jobs, i);
    var trace := DrainFrom(cfg, jobs, env, {});
    PassTrace(cfg, jobs, env, {});
    assert |trace| == |jobs|;
    OnlyOneStops(cfg, jobs, i, trace);
    hide TraceOk, OnlyFails, Local, Paths;
    assert trace[j] != Attempted(true) && trace[l].Attempted?;
  }

  /** Passes keep the order of every path, whatever fails or backs off and whenever the pass runs,
      exactly when the queue has no bridge. */
  lemma FifoExactly(cfg: Config, jobs: seq<Job>)
    ensures (forall env: seq<Env> | |env| == |jobs| && ClockRuns(env) :: Fifo(jobs, DrainFrom(cfg, jobs, env, {})))
       <==> NoBridge(jobs)
  {
    hide DrainFrom, Fifo, ClockRuns, Share;
    if NoBridge(jobs) {
      forall env: seq<Env> | |env| == |jobs| && ClockRuns(env) ensures Fifo(jobs, DrainFrom(cfg, jobs, env, {})) {
        NoBridgeFifo(cfg, jobs, env);
      }
    } else {
      var i, j, l :|
        0 <= i < j < l < |jobs| && Share(jobs[i], jobs[j]) && Share(jobs[j], jobs[l]) && !Share(jobs[i], jobs[l]);
      BridgeBreaksFifo(cfg, jobs, i, j, l);
    }
  }

  /** Without renames there is no bridge: the jobs attempted on a path are a prefix of its queue, each
      but the last of them successful. */
  lemma NoRenamesPrefix(cfg: Config, jobs: seq<Job>, env: seq<Env>, i: nat, j: nat)
    requires |env| == |jobs| && forall t :: 0 <= t < |jobs| ==> jobs[t].destPath == ""
    requires i < j < |DrainFrom(cfg, jobs, env, {})|
    ensures j < |jobs|
    ensures var trace := DrainFrom(cfg, jobs, env, {});
            jobs[i].path == jobs[j].path && trace[j].Attempted? ==> trace[i] == Attempted(true)
  {
    hide DrainFrom, Local;
    PassTrace(cfg, jobs, env, {});
    NoBridgeFifo(cfg, jobs, env) by {
      hide DrainFrom;
    }
  }

  /** A rename is a bridge: a failing upload to a path holds back the rename away from it, but not a
      later upload to the rename's destination. */
  lemma RenameIsBridge(a: Job, r: Job, b: Job)
    requires a.destPath == "" && b.destPath == "" && r.destPath != ""
    requires a.path == r.path && b.path == r.destPath && a.path != b.path
    ensures !NoBridge([a, r, b])
  {
    var jobs := [a, r, b];
    assert a.path in Paths(jobs[0]) && a.path in Paths(jobs[1]);
    assert b.path in Paths(jobs[1]) && b.path in Paths(jobs[2]);
    assert Share(jobs[0], jobs[1]) && Share(jobs[1], jobs[2]) && !Share(jobs[0], jobs[2]);
  }
}
