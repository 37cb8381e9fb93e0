/** A jog session over whole runs: the session's own loop, which ticks and applies status reports, and
    the reader that sets the input and captures positions, interleaved section by section.  Segments
    come from the gamepad only. */
module JogRuns {
  import opened Jog
  import opened JogSession

  datatype Env = Env(cfg: Config, limits: SoftLimits)

  datatype Phase = NoTick | Filling | Sending(seg: Segment) | Sent(seg: Segment) | Finishing(more: bool)

  /** A segment admitted: when, under which input, and what it moves. */
  datatype Entry = Entry(at: Time, input: Input, delta: Axes)

  /** `anchor` is where the plan last started from, `sum` what was written since, and `last` the end
      of the last segment admitted since, if any. */
  datatype History = History(anchor: Position, sum: Axes, last: Position, log: seq<Entry>)

  datatype Sys = Sys(s: State, now: Time, phase: Phase, tick: Tick, capturing: bool, h: History)

  const START := Sys(INITIAL, 1, NoTick, Tick(map[], 0, 0), false, History(map[], STILL, map[], []))

  datatype Step =
    | Pass(d: nat)              // time passes
    | SetInput(input: Input)
    | Arm(st: Status)
    | Release
    | Report(st: Status)        // a status report is applied
    | BeginTick(mag: real)
    | TryAdmit(mag: real)
    | Write(ok: bool)           // one segment goes to the machine, or the lease is lost
    | Commit
    | Finish                    // the in-flight mark is cleared
    | BeginCapture
    | EndCapture

  predicate HypotOfLatest(s: State, mag: real) {
    IsHypot(mag, Response(s.latest.axes.x), Response(s.latest.axes.y))
  }

  /** Arming, releasing, reports and ticks are all run by one loop, so none of the others happens
      inside a tick. */
  predicate Enabled(s: Sys, step: Step) {
    match step
    case Pass(_) => true
    case SetInput(_) => true
    case Arm(st) => s.phase.NoTick? && !s.s.armed && st.state == Idle && st.mpos != map[]
    case Release => s.phase.NoTick?
    case Report(_) => s.phase.NoTick? && s.s.armed
    case BeginTick(mag) => s.phase.NoTick? && s.s.armed && HypotOfLatest(s.s, mag)
    case TryAdmit(mag) => s.phase.Filling? && HypotOfLatest(s.s, mag)
    case Write(_) => s.phase.Sending?
    case Commit => s.phase.Sent?
    case Finish => s.phase.Finishing?
    case BeginCapture => !s.capturing
    case EndCapture => s.capturing && !s.s.inFlight
  }

  function Anchored(h: History, p: Position): History {
    h.(anchor := p, sum := STILL, last := map[])
  }

  function DoReport(s: Sys, st: Status): Sys {
    s.(s := WithStatus(s.s, st, s.now), h := if Settles(s.s, st, s.now) then Anchored(s.h, st.mpos) else s.h)
  }

  function DoBeginTick(e: Env, s: Sys, mag: real): Sys {
    match StartTick(e.cfg, s.s, s.now, mag)
    case Ends => s
    case Disarms => s.(s := Released(s.s))
    case Fills(t) =>
      s.(phase := Filling, tick := t, h := if s.s.planned == map[] then Anchored(s.h, t.planned) else s.h)
  }

  function DoAdmit(e: Env, s: Sys, mag: real): Sys {
    match Consider(e.cfg, e.limits, s.s, s.tick, s.now, mag)
    case Refused => s.(phase := NoTick)
    case Admits(seg) =>
      s.(s := s.s.(inFlight := true), phase := Sending(seg),
         h := s.h.(last := seg.to, log := s.h.log + [Entry(s.now, s.s.latest, seg.delta)]))
  }

  function DoWrite(s: Sys, seg: Segment, ok: bool): Sys {
    if ok then s.(phase := Sent(seg), h := s.h.(sum := Plus(s.h.sum, seg.delta)))
    else s.(s := Released(s.s), phase := Finishing(false))
  }

  function DoCommit(e: Env, s: Sys, seg: Segment): Sys {
    var t := Committed(e.cfg, s.s, s.tick, seg, s.now);
    var more := MotionInputActive(s.s.haveInput, s.s.latest, s.now, e.cfg) && s.tick.sent + 1 < MAX_SEGMENTS_PER_TICK;
    s.(s := t, tick := Tick(seg.to, t.queuedUntil, s.tick.sent + 1), phase := Finishing(more))
  }

  function DoFinish(s: Sys, more: bool): Sys {
    s.(s := s.s.(inFlight := false), phase := if more then Filling else NoTick)
  }

  function Do(e: Env, s: Sys, step: Step): Sys
    requires Enabled(s, step)
  {
    match step
    case Pass(d) => s.(now := s.now + d)
    case SetInput(input) => s.(s := TakeInput(s.s, input, s.now))
    case Arm(st) => s.(s := Armed(s.s, st, s.now), h := Anchored(s.h, st.mpos))
    case Release => s.(s := Released(s.s))
    case Report(st) => DoReport(s, st)
    case BeginTick(mag) => DoBeginTick(e, s, mag)
    case TryAdmit(mag) => DoAdmit(e, s, mag)
    case Write(ok) => DoWrite(s, s.phase.seg, ok)
    case Commit => DoCommit(e, s, s.phase.seg)
    case Finish => DoFinish(s, s.phase.more)
    case BeginCapture => if s.s.armed then s.(s := CaptureBegun(s.s, s.now), capturing := true) else s
    case EndCapture => s.(s := CaptureEnded(s.s), capturing := false)
  }

  ghost predicate ValidRun(e: Env, steps: seq<Step>)
    decreases |steps|, 0
  {
    steps == [] || (ValidRun(e, steps[..|steps| - 1]) && Enabled(After(e, steps[..|steps| - 1]), steps[|steps| - 1]))
  }

  ghost function After(e: Env, steps: seq<Step>): Sys
    requires ValidRun(e, steps)
    decreases |steps|, 1
  {
    if steps == [] then START else Do(e, After(e, steps[..|steps| - 1]), steps[|steps| - 1])
  }

  // ----- The invariant -----

  predicate InTick(p: Phase) {
    p.Filling? || p.Sending? || p.Sent? || (p.Finishing? && p.more)
  }

  /** Where the plan stands: in a tick its own copy counts. */
  function Base(s: Sys): Position {
    if InTick(s.phase) then s.tick.planned else s.s.planned
  }

  function Unrecorded(p: Phase): Axes {
    if p.Sent? then p.seg.delta else STILL
  }

  /** The session's fields and the tick's copies agree. */
  ghost predicate Consistent(s: Sys) {
    && s.now > 0
    && (s.s.inFlight <==> s.phase.Sending? || s.phase.Sent? || s.phase.Finishing?)
    && (s.s.barrier <==> s.capturing)
    && (!s.s.armed ==> s.s.planned == map[] && s.s.queuedUntil == 0)
    && (s.s.armed ==> s.s.lastStatusAt <= s.now)
    && (InTick(s.phase) ==>
          && s.s.armed && s.tick.queuedUntil == s.s.queuedUntil && s.tick.planned != map[]
          && (s.s.planned != map[] ==> s.tick.planned == s.s.planned))
    && (s.phase.Sending? || s.phase.Sent? ==>
          s.phase.seg.from == s.tick.planned && s.phase.seg.to != map[]
            && s.phase.seg.delta == AxesDelta(s.tick.planned, s.phase.seg.to))
  }

  /** The plan is the anchor and everything written since. */
  ghost predicate Accounted(s: Sys) {
    && (s.s.armed && Base(s) != map[] ==>
          Plus(AxesOf(Base(s)), Unrecorded(s.phase)) == Plus(AxesOf(s.h.anchor), s.h.sum))
    && (s.s.armed && s.s.planned == map[] && !s.phase.Sending? && !s.phase.Sent? ==>
          s.h.sum == STILL && s.h.last == map[])
    && (s.s.armed && s.h.last != map[] ==>
          s.h.last == if s.phase.Sending? || s.phase.Sent? then s.phase.seg.to else Base(s))
  }

  /** A status that would let a tick start the plan afresh has already done so. */
  ghost predicate SettledAlready(s: Sys) {
    s.s.armed && s.s.lastStatus.state == Idle && s.s.lastStatusAt >= s.s.queuedUntil ==>
          s.s.planned == s.s.lastStatus.mpos
  }

  ghost predicate LeadOk(e: Env, s: Sys) {
    && QueueLead(s.now, s.s.queuedUntil) <= Lookahead(e.cfg) + SegmentDuration(e.cfg)
    && (s.phase.Sending? || s.phase.Sent? ==> QueueLead(s.now, s.s.queuedUntil) < Lookahead(e.cfg))
  }

  /** Each admission came under an active input, in time; its axes follow the stick, each within its own
      maximum, and the plane within the planar maximum. */
  ghost predicate EntryOk(e: Env, x: Entry) {
    && x.input.deadman && x.at <= x.input.at + Normalize(e.cfg).deadman
    && Square(x.delta.x) + Square(x.delta.y) <= Square(Reach(Normalize(e.cfg).maxXY, SegmentDuration(e.cfg)))
    && AllFollow(x.delta, x.input.axes, e.cfg)
  }

  ghost predicate LogOk(e: Env, log: seq<Entry>) {
    forall k :: 0 <= k < |log| ==> EntryOk(e, log[k])
  }

  /** If the anchor is inside the limits of an axis, the plan is. */
  ghost predicate WithinLimits(l: SoftLimits, s: Sys) {
    s.s.armed && Base(s) != map[] && l.enabled ==>
      && (Inside(s.h.anchor, X, l.x) ==> Inside(Base(s), X, l.x))
      && (Inside(s.h.anchor, Y, l.y) ==> Inside(Base(s), Y, l.y))
      && (Inside(s.h.anchor, Z, l.z) ==> Inside(Base(s), Z, l.z))
  }

  /** A segment on its way keeps to the limits too. */
  ghost predicate SegmentWithin(l: SoftLimits, s: Sys) {
    l.enabled && (s.phase.Sending? || s.phase.Sent?) ==>
      && (Inside(s.phase.seg.from, X, l.x) ==> Inside(s.phase.seg.to, X, l.x))
      && (Inside(s.phase.seg.from, Y, l.y) ==> Inside(s.phase.seg.to, Y, l.y))
      && (Inside(s.phase.seg.from, Z, l.z) ==> Inside(s.phase.seg.to, Z, l.z))
  }

  ghost predicate Inv(e: Env, s: Sys) {
    Consistent(s) && Accounted(s) && SettledAlready(s) && LeadOk(e, s) && LogOk(e, s.h.log)
      && WithinLimits(e.limits, s) && SegmentWithin(e.limits, s)
  }

  lemma TargetNotEmpty(p: Position, d: Axes, l: SoftLimits)
    ensures NextTarget(p, d, l) != map[]
  {
    assert X in MoveBy(p, d);
  }

  lemma ReportKeeps(e: Env, s: Sys, st: Status)
    requires Inv(e, s) && Enabled(s, Report(st))
    ensures Inv(e, DoReport(s, st))
  {
    hide AxesOf, Inside, Lookahead, SegmentDuration, LogOk;
  }

  lemma BeginTickKeeps(e: Env, s: Sys, mag: real)
    requires Inv(e, s) && Enabled(s, BeginTick(mag))
    ensures Inv(e, DoBeginTick(e, s, mag))
  {
    hide AxesOf, Inside, Lookahead, SegmentDuration, LogOk, NormalizeForDuration, MotionInputActive,
      ActiveStatusMaxAge, HypotOfLatest;
  }

  /** What admitting a segment relies on. */
  lemma AdmittedSegment(e: Env, s: Sys, mag: real)
    requires Consistent(s) && s.phase.Filling? && HypotOfLatest(s.s, mag)
    ensures var r := Consider(e.cfg, e.limits, s.s, s.tick, s.now, mag);
            r.Admits? ==>
              && r.seg.from == s.tick.planned && r.seg.to != map[] && r.seg.delta == AxesDelta(r.seg.from, r.seg.to)
              && QueueLead(s.now, s.s.queuedUntil) < Lookahead(e.cfg) && !s.s.barrier
              && MotionInputActive(s.s.haveInput, s.s.latest, s.now, e.cfg)
              && EntryOk(e, Entry(s.now, s.s.latest, r.seg.delta))
              && (e.limits.enabled ==>
                    && (Inside(r.seg.from, X, e.limits.x) ==> Inside(r.seg.to, X, e.limits.x))
                    && (Inside(r.seg.from, Y, e.limits.y) ==> Inside(r.seg.to, Y, e.limits.y))
                    && (Inside(r.seg.from, Z, e.limits.z) ==> Inside(r.seg.to, Z, e.limits.z)))
  {
    hide NextTarget, AxesDelta, NormalizeForDuration, Square, Reach, Inside, Deflected, Lookahead, Normalize,
      PhysicalLeadCheckDue, JogLeadTooLarge, IsHypot, Response, AllFollow;
    var d := MotionDelta(s.s.latest.axes, s.s.latest.slow, e.cfg, mag);
    TargetNotEmpty(s.tick.planned, d, e.limits);
    SegmentSpeedBound(s.tick.planned, s.s.latest, e.cfg, e.limits, mag);
    SegmentFollows(s.tick.planned, s.s.latest, e.cfg, e.limits, mag);
    if e.limits.enabled {
      StaysInside(s.tick.planned, d, e.limits);
    }
  }

  lemma AdmitKeeps(e: Env, s: Sys, mag: real)
    requires Inv(e, s) && Enabled(s, TryAdmit(mag))
    ensures Inv(e, DoAdmit(e, s, mag))
  {
    hide Consider, EntryOk, HypotOfLatest, AxesOf, AxesDelta, Inside, Lookahead, SegmentDuration, MotionInputActive;
    AdmittedSegment(e, s, mag);
  }

  lemma DeltaReaches(from: Position, to: Position)
    ensures Plus(AxesOf(from), AxesDelta(from, to)) == AxesOf(to)
  {
  }

  lemma PlusAssociates(a: Axes, b: Axes, c: Axes)
    ensures Plus(a, Plus(b, c)) == Plus(Plus(a, b), c) && Plus(a, STILL) == a
  {
  }

  lemma WriteKeeps(e: Env, s: Sys, ok: bool)
    requires Inv(e, s) && Enabled(s, Write(ok))
    ensures Inv(e, DoWrite(s, s.phase.seg, ok))
  {
    hide AxesOf, AxesDelta, Inside, Lookahead, SegmentDuration, LogOk, Plus;
    LeadBudget(e.cfg);
    PlusAssociates(AxesOf(s.h.anchor), s.h.sum, s.phase.seg.delta);
    PlusAssociates(AxesOf(s.tick.planned), STILL, STILL);
  }

  lemma CommitKeeps(e: Env, s: Sys)
    requires Inv(e, s) && Enabled(s, Commit)
    ensures Inv(e, DoCommit(e, s, s.phase.seg))
  {
    hide AxesOf, AxesDelta, Inside, Lookahead, SegmentDuration, LogOk, Plus, NextEnd, MotionInputActive, QueueLead;
    LeadBudget(e.cfg);
    LeadAfterSegment(s.now, s.now, s.s.queuedUntil, Lookahead(e.cfg), SegmentDuration(e.cfg));
    DeltaReaches(s.tick.planned, s.phase.seg.to);
    PlusAssociates(AxesOf(s.phase.seg.to), STILL, STILL);
    EndsLater(s.now, s.s.queuedUntil, SegmentDuration(e.cfg));
  }

  lemma EndsLater(now: Time, until: Time, segment: Duration)
    requires segment > 0
    ensures NextEnd(now, until, segment) > now
  {
  }

  lemma StepKeeps(e: Env, s: Sys, step: Step)
    requires Inv(e, s) && Enabled(s, step)
    ensures Inv(e, Do(e, s, step))
  {
    hide AxesOf, AxesDelta, Inside, Lookahead, SegmentDuration, LogOk, DoReport, DoBeginTick, DoAdmit, DoWrite,
      DoCommit, HypotOfLatest;
    match step
    case Arm(st) => LeadBudget(e.cfg);
    case Release => LeadBudget(e.cfg);
    case Report(st) => ReportKeeps(e, s, st);
    case BeginTick(mag) => BeginTickKeeps(e, s, mag);
    case TryAdmit(mag) => AdmitKeeps(e, s, mag);
    case Write(ok) => WriteKeeps(e, s, ok);
    case Commit => CommitKeeps(e, s);
    case _ =>
  }

  lemma {:induction false} AlwaysInv(e: Env, steps: seq<Step>)
    requires ValidRun(e, steps)
    ensures Inv(e, After(e, steps))
  {
    hide Inv, Do, Enabled;
    if steps == [] {
      StartInv(e);
    } else {
      AlwaysInv(e, steps[..|steps| - 1]);
      StepKeeps(e, After(e, steps[..|steps| - 1]), steps[|steps| - 1]);
    }
  }

  lemma StartInv(e: Env)
    ensures Inv(e, START)
  {
  }

  // ----- What holds in every run -----

  /** The predicted queue never runs more than the lookahead and one segment ahead, which is at most
      280 ms for any configuration. */
  lemma LeadBounded(e: Env, steps: seq<Step>)
    requires ValidRun(e, steps)
    ensures var s := After(e, steps);
            s.s.queuedUntil - s.now <= Lookahead(e.cfg) + SegmentDuration(e.cfg) <= 280 * MS
  {
    hide Lookahead, SegmentDuration, Accounted, SettledAlready, LogOk, WithinLimits, SegmentWithin;
    hide After, ValidRun;
    AlwaysInv(e, steps);
    LeadBudget(e.cfg);
  }

  /** No segment is admitted later than the deadman allows after the input it was admitted under, and
      each follows its stick: an axis moves only the way its own stick points outside the dead zone, within
      its own maximum, and the plane keeps to the planar maximum. */
  lemma AdmissionsInTime(e: Env, steps: seq<Step>, k: nat)
    requires ValidRun(e, steps) && k < |After(e, steps).h.log|
    ensures var x := After(e, steps).h.log[k];
            && x.input.deadman && x.at <= x.input.at + Normalize(e.cfg).deadman
            && Square(x.delta.x) + Square(x.delta.y) <= Square(Reach(Normalize(e.cfg).maxXY, SegmentDuration(e.cfg)))
            && AllFollow(x.delta, x.input.axes, e.cfg)
  {
    hide AllFollow, Lookahead, SegmentDuration, QueueLead, Consistent, Accounted, SettledAlready, WithinLimits,
      SegmentWithin,
      LeadOk, Normalize, Square, Reach;
    hide After, ValidRun;
    AlwaysInv(e, steps);
  }

  /** With no segment on its way, the plan is the last anchor plus the sum of the deltas written since,
      and the end of the last segment admitted; and inside the soft limits if the anchor was. */
  lemma PlanIsSum(e: Env, steps: seq<Step>)
    requires ValidRun(e, steps)
    ensures var s := After(e, steps);
            s.s.armed && !s.s.inFlight && s.s.planned != map[] ==>
              && AxesOf(s.s.planned) == Plus(AxesOf(s.h.anchor), s.h.sum)
              && (s.h.last != map[] ==> s.s.planned == s.h.last)
              && (e.limits.enabled ==>
                    && (Inside(s.h.anchor, X, e.limits.x) ==> Inside(s.s.planned, X, e.limits.x))
                    && (Inside(s.h.anchor, Y, e.limits.y) ==> Inside(s.s.planned, Y, e.limits.y))
                    && (Inside(s.h.anchor, Z, e.limits.z) ==> Inside(s.s.planned, Z, e.limits.z)))
  {
    hide Inside, AxesOf, LeadOk, LogOk, SettledAlready, SegmentWithin;
    hide After, ValidRun;
    AlwaysInv(e, steps);
  }

  function RangeOf(l: SoftLimits, axis: Axis): Range {
    match axis
    case X => l.x
    case Y => l.y
    case Z => l.z
    case A => Range(0.0, 0.0)
  }

  /** The plan, if there is one, is inside the limits of the axis. */
  ghost predicate PlanInside(l: SoftLimits, s: Sys, axis: Axis) {
    s.s.armed && Base(s) != map[] ==> Inside(Base(s), axis, RangeOf(l, axis))
  }

  /** The step starts the plan afresh from a reported position. */
  predicate Reanchoring(s: Sys, step: Step) {
    || step.Arm?
    || (step.Report? && Settles(s.s, step.st, s.now))
    || (step.BeginTick? && s.s.planned == map[])
  }

  lemma InsideStep(e: Env, s: Sys, step: Step, axis: Axis)
    requires Inv(e, s) && Enabled(s, step) && !Reanchoring(s, step)
    requires e.limits.enabled && axis != A && PlanInside(e.limits, s, axis)
    ensures PlanInside(e.limits, Do(e, s, step), axis)
  {
    hide Inside, Accounted, LeadOk, LogOk, WithinLimits, NormalizeForDuration, NextTarget, AxesDelta, Lookahead,
      SegmentDuration, ActiveStatusMaxAge, MotionInputActive, JogLeadTooLarge, PhysicalLeadCheckDue, HypotOfLatest;
  }

  /** The steps never start the plan afresh. */
  ghost predicate NeverReanchors(e: Env, steps: seq<Step>, more: seq<Step>)
    decreases |more|
  {
    more != [] ==>
      && ValidRun(e, steps + more[..|more| - 1])
      && !Reanchoring(After(e, steps + more[..|more| - 1]), more[|more| - 1])
      && NeverReanchors(e, steps, more[..|more| - 1])
  }

  /** Once the plan is inside the soft limits of an axis, wherever it started from, it stays inside
      them for as long as it is not started afresh from a reported position. */
  lemma {:induction false} StaysInsideOnceInside(e: Env, steps: seq<Step>, more: seq<Step>, axis: Axis)
    requires ValidRun(e, steps + more) && ValidRun(e, steps) && NeverReanchors(e, steps, more)
    requires e.limits.enabled && axis != A && PlanInside(e.limits, After(e, steps), axis)
    ensures PlanInside(e.limits, After(e, steps + more), axis)
    decreases |more|
  {
    hide Do, Enabled, PlanInside, Reanchoring, Inv;
    if more == [] {
      assert steps + more == steps;
    } else {
      var before, step := more[..|more| - 1], more[|more| - 1];
      StaysInsideOnceInside(e, steps, before, axis);
      assert (steps + more)[..|steps + more| - 1] == steps + before;
      AlwaysInv(e, steps + before);
      InsideStep(e, After(e, steps + before), step, axis);
    }
  }

  /** A capture that succeeds while the plan is known returns the end of the last segment admitted
      before it: nothing is on its way, and the plan is the anchor plus everything written. */
  lemma CaptureIsEndpoint(e: Env, steps: seq<Step>)
    requires ValidRun(e, steps) && Enabled(After(e, steps), EndCapture)
    ensures var s := After(e, steps);
            s.s.armed ==>
              && !s.phase.Sending? && !s.phase.Sent?
              && (s.s.planned != map[] ==>
                    Captured(s.s) == s.s.planned && AxesOf(Captured(s.s)) == Plus(AxesOf(s.h.anchor), s.h.sum))
              && (s.h.last != map[] ==> Captured(s.s) == s.h.last)
              && (s.s.planned == map[] ==> Captured(s.s) == s.s.lastStatus.mpos && s.h.sum == STILL)
  {
    hide AxesOf, LeadOk, LogOk, SettledAlready, WithinLimits, SegmentWithin;
    hide After, ValidRun;
    AlwaysInv(e, steps);
  }

  /** The latest input asks for no motion, at any time and under any configuration. */
  predicate Neutral(s: State) {
    !s.haveInput || !s.latest.deadman
  }

  lemma NeutralStep(e: Env, s: Sys, step: Step)
    requires Enabled(s, step) && !step.SetInput?
    requires Neutral(s.s) || step.BeginCapture?
    ensures s.s.armed || Neutral(s.s) ==> Neutral(Do(e, s, step).s)
    ensures Neutral(s.s) ==> Do(e, s, step).h.log == s.h.log
  {
    hide NormalizeForDuration, NextTarget, AxesDelta, Lookahead, SegmentDuration, HypotOfLatest, ActiveStatusMaxAge,
      Normalize, Deflected, JogLeadTooLarge, PhysicalLeadCheckDue, QueueLead;
  }

  lemma {:induction false} NeutralStays(e: Env, steps: seq<Step>, more: seq<Step>)
    requires ValidRun(e, steps + more) && ValidRun(e, steps) && Neutral(After(e, steps).s)
    requires forall k :: 0 <= k < |more| ==> !more[k].SetInput?
    ensures After(e, steps + more).h.log == After(e, steps).h.log && Neutral(After(e, steps + more).s)
    decreases |more|
  {
    hide Do, Enabled, Neutral;
    var all := steps + more;
    if more == [] {
      assert all == steps;
    } else {
      assert all[..|all| - 1] == steps + more[..|more| - 1];
      NeutralStays(e, steps, more[..|more| - 1]);
      NeutralStep(e, After(e, all[..|all| - 1]), more[|more| - 1]);
    }
  }

  /** From the moment a capture begins, or the session is armed, no segment is admitted until a later
      input. */
  lemma NothingAdmittedAfterCapture(e: Env, steps: seq<Step>, start: Step, more: seq<Step>)
    requires ValidRun(e, steps + [start] + more) && ValidRun(e, steps + [start]) && ValidRun(e, steps)
    requires start.Arm? || (start.BeginCapture? && After(e, steps).s.armed)
    requires forall k :: 0 <= k < |more| ==> !more[k].SetInput?
    ensures After(e, steps + [start] + more).h.log == After(e, steps).h.log
  {
    hide Do, Enabled, Neutral;
    assert (steps + [start])[..|steps|] == steps;
    StartNeutral(e, After(e, steps), start);
    NeutralStays(e, steps + [start], more);
  }

  /** While a capture is under way no segment is admitted, even if a new input arrives. */
  lemma NothingAdmittedDuringCapture(e: Env, steps: seq<Step>, step: Step)
    requires ValidRun(e, steps) && Enabled(After(e, steps), step) && After(e, steps).capturing
    ensures Do(e, After(e, steps), step).h.log == After(e, steps).h.log
  {
    hide Accounted, SettledAlready, LeadOk, LogOk, WithinLimits, SegmentWithin, NormalizeForDuration, NextTarget,
      AxesDelta, Lookahead, SegmentDuration, HypotOfLatest, ActiveStatusMaxAge, MotionInputActive, JogLeadTooLarge,
      PhysicalLeadCheckDue, QueueLead;
    hide After, ValidRun;
    AlwaysInv(e, steps);
  }

  lemma StartNeutral(e: Env, s: Sys, start: Step)
    requires Enabled(s, start) && (start.Arm? || (start.BeginCapture? && s.s.armed))
    ensures Neutral(Do(e, s, start).s) && Do(e, s, start).h.log == s.h.log
  {
  }

  // ----- Disarming -----

  lemma DisarmedStep(e: Env, s: Sys, step: Step)
    requires Inv(e, s) && Enabled(s, step) && !s.s.armed && !step.Arm?
    ensures !Do(e, s, step).s.armed && Do(e, s, step).h.log == s.h.log
  {
    hide Accounted, SettledAlready, LeadOk, LogOk, WithinLimits, SegmentWithin, NormalizeForDuration, NextTarget,
      AxesDelta, Lookahead, SegmentDuration, HypotOfLatest, MotionInputActive, QueueLead;
  }

  /** While the session is not armed, no segment is admitted. */
  lemma {:induction false} DisarmedStaysStill(e: Env, steps: seq<Step>, more: seq<Step>)
    requires ValidRun(e, steps + more) && ValidRun(e, steps) && !After(e, steps).s.armed
    requires forall k :: 0 <= k < |more| ==> !more[k].Arm?
    ensures !After(e, steps + more).s.armed && After(e, steps + more).h.log == After(e, steps).h.log
    decreases |more|
  {
    hide Do, Enabled, Inv;
    var all := steps + more;
    if more == [] {
      assert all == steps;
    } else {
      var before := all[..|all| - 1];
      assert before == steps + more[..|more| - 1];
      DisarmedStaysStill(e, steps, more[..|more| - 1]);
      AlwaysInv(e, before);
      DisarmedStep(e, After(e, before), more[|more| - 1]);
    }
  }

  lemma {:induction false} ArmedIsHealthy(e: Env, steps: seq<Step>)
    requires ValidRun(e, steps)
    ensures var s := After(e, steps); s.s.armed ==> s.s.lastStatus.state == Idle || s.s.lastStatus.state == Run
  {
    hide Do, Enabled;
    if steps != [] {
      ArmedIsHealthy(e, steps[..|steps| - 1]);
      HealthyStep(e, After(e, steps[..|steps| - 1]), steps[|steps| - 1]);
    }
  }

  lemma HealthyStep(e: Env, s: Sys, step: Step)
    requires Enabled(s, step) && (s.s.armed ==> s.s.lastStatus.state == Idle || s.s.lastStatus.state == Run)
    ensures var z := Do(e, s, step); z.s.armed ==> z.s.lastStatus.state == Idle || z.s.lastStatus.state == Run
  {
    hide StartTick, Consider, HypotOfLatest, MotionInputActive, QueueLead, SegmentDuration;
    StartTickFills(e.cfg, s, step);
  }

  lemma StartTickFills(c: Config, s: Sys, step: Step)
    ensures step.BeginTick? ==> var r := StartTick(c, s.s, s.now, step.mag); r.Fills? || r.Ends? || r.Disarms?
  {
    hide StartTick;
  }

  /** A report of any state but Idle and Run stops the session: nothing is admitted until it is armed again. */
  lemma AlarmStops(e: Env, steps: seq<Step>, st: Status, more: seq<Step>)
    requires ValidRun(e, steps + [Report(st)] + more) && ValidRun(e, steps + [Report(st)]) && ValidRun(e, steps)
    requires st.state == Other && forall k :: 0 <= k < |more| ==> !more[k].Arm?
    ensures After(e, steps + [Report(st)] + more).h.log == After(e, steps).h.log
  {
    hide Do, Enabled;
    var told := steps + [Report(st)];
    assert told[..|steps|] == steps;
    ToldOther(e, After(e, steps), st);
    ArmedIsHealthy(e, told);
    DisarmedStaysStill(e, told, more);
  }

  lemma ToldOther(e: Env, s: Sys, st: Status)
    requires Enabled(s, Report(st))
    ensures var z := Do(e, s, Report(st)); z.s.lastStatus == st && z.h.log == s.h.log
  {
  }

  // ----- Ticks -----

  /** A tick sends segments only on a report with a position that is at most 2.75 s old, or as old as the deadman
      allows. */
  lemma TicksOnFreshReport(e: Env, steps: seq<Step>, mag: real)
    requires ValidRun(e, steps + [BeginTick(mag)]) && ValidRun(e, steps)
    requires After(e, steps + [BeginTick(mag)]).phase.Filling?
    ensures var s := After(e, steps);
            && s.s.armed && s.s.lastStatus.mpos != map[] && s.s.lastStatus.state in {Idle, Run}
            && (s.now - s.s.lastStatusAt <= 2750 * MS || s.now - s.s.lastStatusAt <= Normalize(e.cfg).deadman)
  {
    hide MotionInputActive, ActiveStatusMaxAge, NormalizeForDuration, HypotOfLatest, Normalize;
    assert (steps + [BeginTick(mag)])[..|steps|] == steps;
    TimingShape(e.cfg);
  }

  /** How many segments were written since the last tick began. */
  function CommitsSince(steps: seq<Step>): nat {
    if steps == [] then 0
    else
      var step := steps[|steps| - 1];
      if step.BeginTick? then 0 else CommitsSince(steps[..|steps| - 1]) + if step.Commit? then 1 else 0
  }

  ghost predicate SentOk(s: Sys, n: nat) {
    && n <= 2
    && (s.phase.Filling? || s.phase.Sending? || s.phase.Sent? ==> n == s.tick.sent <= 1)
    && (s.phase.Finishing? && s.phase.more ==> n == s.tick.sent <= 1)
  }

  lemma SentStep(e: Env, s: Sys, step: Step, n: nat)
    requires Enabled(s, step) && SentOk(s, n)
    ensures SentOk(Do(e, s, step), if step.BeginTick? then 0 else n + if step.Commit? then 1 else 0)
  {
    hide Consider, MotionInputActive, HypotOfLatest, SegmentDuration, NormalizeForDuration, ActiveStatusMaxAge;
  }

  lemma {:induction false} SentExactly(e: Env, steps: seq<Step>)
    requires ValidRun(e, steps)
    ensures SentOk(After(e, steps), CommitsSince(steps))
  {
    hide Do, Enabled, SentOk;
    if steps == [] {
      assert SentOk(START, 0) by { NoneSent(); }
    } else {
      SentExactly(e, steps[..|steps| - 1]);
      SentStep(e, After(e, steps[..|steps| - 1]), steps[|steps| - 1], CommitsSince(steps[..|steps| - 1]));
    }
  }

  lemma NoneSent()
    ensures SentOk(START, 0)
  {
  }

  /** A tick writes at most two segments; after the first it goes on exactly if the input still asks for
      motion. */
  lemma TwoSegmentsATick(e: Env, steps: seq<Step>)
    requires ValidRun(e, steps)
    ensures CommitsSince(steps) <= 2
    ensures steps != [] && steps[|steps| - 1].Commit? ==>
              var s := After(e, steps);
              s.phase == Finishing(CommitsSince(steps) == 1
                                   && MotionInputActive(s.s.haveInput, s.s.latest, s.now, e.cfg))
  {
    hide MotionInputActive, SegmentDuration;
    SentExactly(e, steps);
    if steps != [] && steps[|steps| - 1].Commit? {
      SentExactly(e, steps[..|steps| - 1]);
    }
  }

  // ----- The predicted end of the queue -----

  /** When the machine is through with the segments written at these times, taking them one after the other. */
  function EndOf(written: seq<Time>, segment: Duration): Time {
    if written == [] then 0 else NextEnd(written[|written| - 1], EndOf(written[..|written| - 1], segment), segment)
  }

  /** Segment i and all later ones end by `end` if they are worked off without a break. */
  predicate EndsBy(written: seq<Time>, segment: Duration, i: nat, end: Time) {
    i < |written| && written[i] + (|written| - i) * segment <= end
  }

  lemma {:induction false} EndOfIs(written: seq<Time>, segment: Duration)
    requires forall i :: 0 <= i < |written| ==> written[i] > 0
    requires segment > 0
    ensures EndOf(written, segment) >= 0
    ensures forall i :: 0 <= i < |written| ==> EndsBy(written, segment, i, EndOf(written, segment))
    ensures written != [] ==>
              exists i :: 0 <= i < |written| && EndOf(written, segment) == written[i] + (|written| - i) * segment
  {
    if written != [] {
      var n := |written| - 1;
      var before := written[..n];
      EndOfIs(before, segment);
      forall i | 0 <= i <= n ensures EndsBy(written, segment, i, EndOf(written, segment)) {
        OneMoreSegment(n - i, segment);
        assert i < n ==> EndsBy(before, segment, i, EndOf(before, segment));
      }
      if EndOf(before, segment) < written[n] || n == 0 {
        assert EndOf(written, segment) == written[n] + (|written| - n) * segment;
      } else {
        var i :| 0 <= i < n && EndOf(before, segment) == before[i] + (n - i) * segment;
        OneMoreSegment(n - i, segment);
        assert EndOf(written, segment) == written[i] + (|written| - i) * segment;
      }
    }
  }

  lemma OneMoreSegment(k: int, segment: Duration)
    ensures (k + 1) * segment == k * segment + segment
  {
  }

  /** The times at which segments were written since the session was last armed. */
  ghost function Written(e: Env, steps: seq<Step>): seq<Time>
    requires ValidRun(e, steps)
  {
    if steps == [] then []
    else
      var before := steps[..|steps| - 1];
      var step := steps[|steps| - 1];
      if !After(e, steps).s.armed || step.Arm? then []
      else Written(e, before) + if step.Commit? then [After(e, before).now] else []
  }

  ghost predicate QueueIs(e: Env, s: Sys, written: seq<Time>) {
    && (s.s.armed ==> s.s.queuedUntil == EndOf(written, SegmentDuration(e.cfg)))
    && (!s.s.armed ==> written == [])
    && forall i :: 0 <= i < |written| ==> 0 < written[i] <= s.now
  }

  lemma QueueStep(e: Env, s: Sys, step: Step, written: seq<Time>)
    requires Inv(e, s) && Enabled(s, step) && QueueIs(e, s, written)
    ensures var z := Do(e, s, step);
            QueueIs(e, z, if !z.s.armed || step.Arm? then [] else written + if step.Commit? then [s.now] else [])
  {
    hide Accounted, SettledAlready, LeadOk, LogOk, WithinLimits, SegmentWithin, Consider, StartTick, SegmentDuration,
      HypotOfLatest, MotionInputActive, QueueLead, NextEnd;
    assert written + [] == written;
    assert (written + [s.now])[..|written|] == written;
    NothingQueued(SegmentDuration(e.cfg));
  }

  lemma NothingQueued(segment: Duration)
    ensures EndOf([], segment) == 0
  {
  }

  lemma {:induction false} AlwaysQueueIs(e: Env, steps: seq<Step>)
    requires ValidRun(e, steps)
    ensures QueueIs(e, After(e, steps), Written(e, steps))
  {
    hide Do, Enabled, Inv, QueueIs;
    if steps == [] {
      assert QueueIs(e, START, []) by { NothingWritten(e); }
    } else {
      AlwaysQueueIs(e, steps[..|steps| - 1]);
      AlwaysInv(e, steps[..|steps| - 1]);
      QueueStep(e, After(e, steps[..|steps| - 1]), steps[|steps| - 1], Written(e, steps[..|steps| - 1]));
    }
  }

  lemma NothingWritten(e: Env)
    ensures QueueIs(e, START, [])
  {
  }

  /** The predicted end of the queue is the least time by which every segment written since arming, and all after
      it, can have been worked off, each in the time a segment lasts. */
  lemma QueueEndExactly(e: Env, steps: seq<Step>)
    requires ValidRun(e, steps) && After(e, steps).s.armed
    ensures var written, end := Written(e, steps), After(e, steps).s.queuedUntil;
            && (written == [] ==> end == 0)
            && (forall i :: 0 <= i < |written| ==> EndsBy(written, SegmentDuration(e.cfg), i, end))
            && (written != [] ==>
                  exists i :: 0 <= i < |written| && end == written[i] + (|written| - i) * SegmentDuration(e.cfg))
  {
    hide ValidRun, After, Written, SegmentDuration, EndOf, EndsBy, Lookahead;
    AlwaysQueueIs(e, steps);
    LeadBudget(e.cfg);
    NothingQueued(SegmentDuration(e.cfg));
    EndOfIs(Written(e, steps), SegmentDuration(e.cfg));
  }

  // ----- Anchors -----

  /** The plan is anchored afresh only by arming, by an Idle report at or after the predicted end of
      the queue, or by a tick that finds no plan.  A tick's own check for a drained queue never
      changes the plan: the report it looks at has done so already. */
  lemma AnchorsOnlyWhenDrained(e: Env, steps: seq<Step>, step: Step)
    requires ValidRun(e, steps) && Enabled(After(e, steps), step)
    ensures var s := After(e, steps);
            var z := Do(e, s, step);
            && (z.h.anchor != s.h.anchor ==>
                  || step.Arm?
                  || (step.Report? && step.st.state == Idle && QueueLead(s.now, s.s.queuedUntil) == 0)
                  || (step.BeginTick? && s.s.planned == map[]))
            && (step.BeginTick? && z.phase.Filling? && s.s.planned != map[] ==> z.tick.planned == s.s.planned)
  {
    hide Lookahead, SegmentDuration, Accounted, LeadOk, LogOk, WithinLimits, SegmentWithin, NormalizeForDuration,
      NextTarget, AxesDelta, ActiveStatusMaxAge, Normalize, Deflected, JogLeadTooLarge, PhysicalLeadCheckDue,
        HypotOfLatest;
    hide After, ValidRun;
    AlwaysInv(e, steps);
  }

  /** A tick starts from a report other than Idle exactly when it finds no plan. */
  lemma AnchorsWithoutIdle(e: Env, steps: seq<Step>, mag: real)
    requires ValidRun(e, steps) && Enabled(After(e, steps), BeginTick(mag))
    ensures var s := After(e, steps);
            var r := StartTick(e.cfg, s.s, s.now, mag);
            r.Fills? && s.s.lastStatus.state != Idle ==>
              (r.tick.planned != s.s.planned <==> s.s.planned == map[])
  {
    hide Lookahead, SegmentDuration, Accounted, LeadOk, LogOk, WithinLimits, SegmentWithin, NormalizeForDuration,
      NextTarget, AxesDelta, ActiveStatusMaxAge, Normalize, Deflected, HypotOfLatest;
    hide After, ValidRun;
    AlwaysInv(e, steps);
  }

  lemma Snoc(e: Env, steps: seq<Step>, step: Step)
    requires ValidRun(e, steps) && Enabled(After(e, steps), step)
    ensures ValidRun(e, steps + [step]) && After(e, steps + [step]) == Do(e, After(e, steps), step)
  {
    hide Do, Enabled;
    assert (steps + [step])[..|steps|] == steps;
  }

  const HERE: Position := map[X := 0.0, Y := 0.0, Z := 0.0]
  const THERE: Position := map[X := 5.0, Y := 0.0, Z := 0.0]
  const PUSH := Input(Axes(1.0, 0.0, 0.0, 0.0), true, false, 1)

  /** An Idle report without a position drops the plan. */
  const UNPLACED: seq<Step> := [Arm(Status(Idle, HERE)), Report(Status(Idle, map[])), Report(Status(Run, THERE)),
                                SetInput(PUSH)]

  lemma UnplacedRun(e: Env)
    ensures ValidRun(e, UNPLACED)
    ensures var s := After(e, UNPLACED);
            && s.s == State(true, PUSH, true, false, false, Status(Run, THERE), 1, map[], 0)
            && s.now == 1 && s.phase.NoTick? && s.h.anchor == map[]
  {
    var p := Sys(Armed(INITIAL, Status(Idle, HERE), 1), 1, NoTick, Tick(map[], 0, 0), false, Anchored(START.h, HERE));
    var q := p.(s := WithStatus(p.s, Status(Idle, map[]), 1), h := Anchored(p.h, map[]));
    var r := q.(s := WithStatus(q.s, Status(Run, THERE), 1));
    assert X in HERE && X in THERE;
    assert Enabled(START, UNPLACED[0]) && Do(e, START, UNPLACED[0]) == p;
    assert Enabled(p, UNPLACED[1]) && Do(e, p, UNPLACED[1]) == q;
    assert Enabled(q, UNPLACED[2]) && Do(e, q, UNPLACED[2]) == r;
    assert Enabled(r, UNPLACED[3]);
    Nothing(e);
    hide After, ValidRun, Do, Enabled;
    assert UNPLACED[..0] == [];
    Snoc(e, UNPLACED[..0], UNPLACED[0]);
    assert UNPLACED[..0] + [UNPLACED[0]] == UNPLACED[..1];
    Snoc(e, UNPLACED[..1], UNPLACED[1]);
    assert UNPLACED[..1] + [UNPLACED[1]] == UNPLACED[..2];
    Snoc(e, UNPLACED[..2], UNPLACED[2]);
    assert UNPLACED[..2] + [UNPLACED[2]] == UNPLACED[..3];
    Snoc(e, UNPLACED[..3], UNPLACED[3]);
    assert UNPLACED[..3] + [UNPLACED[3]] == UNPLACED;
    LastInput(e, r);
  }

  lemma LastInput(e: Env, r: Sys)
    ensures Enabled(r, SetInput(PUSH)) && Do(e, r, SetInput(PUSH)) == r.(s := r.s.(latest := PUSH, haveInput := true))
  {
  }

  lemma Nothing(e: Env)
    ensures ValidRun(e, []) && After(e, []) == START
  {
  }

  lemma FullPush()
    ensures Response(1.0) == 1.0 && Response(0.0) == 0.0 && IsHypot(1.0, Response(1.0), Response(0.0))
    ensures Deflected(PUSH.axes)
  {
  }

  lemma MinutesPositive(d: Duration)
    requires d > 0
    ensures Minutes(d) > 0.0
  {
  }

  lemma FullTravel(top: real, d: Duration)
    requires top > 0.0 && d > 0
    ensures Travel(1.0, top, d, false) > 0.0
  {
    hide Minutes;
    MinutesPositive(d);
    Positive(top, Minutes(d));
  }

  lemma FullPushMoves(c: Config)
    ensures MotionDelta(PUSH.axes, false, c, 1.0).x > 0.0
  {
    hide Response, Travel, Normalize, SegmentDuration, Lookahead;
    FullPush();
    LeadBudget(c);
    FullTravel(Normalize(c).maxXY, SegmentDuration(c));
  }

  lemma PushStarts(c: Config, s: State)
    requires s == State(true, PUSH, true, false, false, Status(Run, THERE), 1, map[], 0)
    ensures StartTick(c, s, 1, 1.0) == Fills(Tick(THERE, 0, 0))
  {
    hide MotionDelta, Response, Deflected;
    FullPush();
    FullPushMoves(c);
    assert X in THERE;
  }

  /** So the plan can be anchored on a report that is not Idle: after an Idle report without a position
      the next active input starts the plan from a Run report. */
  lemma TickAnchorsWhileRunning(e: Env)
    ensures ValidRun(e, UNPLACED + [BeginTick(1.0)])
    ensures var s := After(e, UNPLACED + [BeginTick(1.0)]);
            s.h.anchor == THERE && s.s.lastStatus.state == Run && s.phase.Filling?
  {
    hide After, ValidRun, Response, StartTick;
    UnplacedRun(e);
    FullPush();
    var s := After(e, UNPLACED);
    PushStarts(e.cfg, s.s);
    assert Enabled(s, BeginTick(1.0));
    Snoc(e, UNPLACED, BeginTick(1.0));
  }

  // ----- A push moves the machine -----

  lemma DeltaOf(p: Position, d: Axes, l: SoftLimits)
    requires !l.enabled
    ensures NextTarget(p, d, l) == MoveBy(p, d) && AxesDelta(p, NextTarget(p, d, l)) == d
  {
    hide MoveBy;
    MoveByAxes(p, d);
  }

  lemma PushMoves(axes: Axes, slow: bool, c: Config, mag: real)
    requires Deflected(axes) && IsHypot(mag, Response(axes.x), Response(axes.y))
    ensures MotionDelta(axes, slow, c, mag) != STILL
  {
    hide Response, NormalizeForDuration, MovesFully, SegmentDuration, Normalize, Reach, IsHypot, FullStep;
    AxesMove(axes, slow, c, mag);
    ResponseShape(axes.x);
    ResponseShape(axes.y);
    ResponseShape(axes.z);
    ResponseShape(axes.a);
  }

  function PushSteps(p: Position, input: Input, mag: real): seq<Step> {
    [Arm(Status(Idle, p)), SetInput(input), BeginTick(mag), TryAdmit(mag)]
  }

  /** The first tick after arming admits exactly what the stick asks for, whatever is pushed and wherever the
      machine is, where there are no soft limits. */
  lemma FirstPushMoves(e: Env, p: Position, input: Input, mag: real)
    requires !e.limits.enabled && X in p && Y in p && Z in p && (A in p || Abs(input.axes.a) <= DEADZONE)
    requires input.deadman && input.at != 0 && 1 - input.at <= Normalize(e.cfg).deadman && Deflected(input.axes)
    requires IsHypot(mag, Response(input.axes.x), Response(input.axes.y))
    ensures var run := PushSteps(p, input, mag);
            var d := MotionDelta(input.axes, input.slow, e.cfg, mag);
            && ValidRun(e, run) && After(e, run).h.log == [Entry(1, input, d)]
            && After(e, run).phase == Sending(Segment(p, MoveBy(p, d), d))
  {
    hide ValidRun, After, Response, MotionDelta, IsHypot, MoveBy, WithinReach, Deflected, Normalize;
    var run := PushSteps(p, input, mag);
    var q := Sys(Armed(INITIAL, Status(Idle, p), 1), 1, NoTick, Tick(map[], 0, 0), false, Anchored(START.h, p));
    var r := q.(s := q.s.(latest := input, haveInput := true));
    Nothing(e);
    ArmedFirst(e, p);
    assert run[..0] == [];
    Snoc(e, run[..0], run[0]);
    assert run[..0] + [run[0]] == run[..1];
    Snoc(e, run[..1], run[1]);
    assert run[..1] + [run[1]] == run[..2];
    PushTick(e, r, p, input, mag);
    Snoc(e, run[..2], run[2]);
    assert run[..2] + [run[2]] == run[..3];
    PushAdmits(e, r.(phase := Filling, tick := Tick(p, 0, 0)), p, input, mag);
    Snoc(e, run[..3], run[3]);
    assert run[..3] + [run[3]] == run;
  }

  lemma ArmedFirst(e: Env, p: Position)
    requires X in p
    ensures Enabled(START, Arm(Status(Idle, p)))
    ensures Do(e, START, Arm(Status(Idle, p)))
         == Sys(Armed(INITIAL, Status(Idle, p), 1), 1, NoTick, Tick(map[], 0, 0), false, Anchored(START.h, p))
  {
  }

  lemma PushTick(e: Env, s: Sys, p: Position, input: Input, mag: real)
    requires s.s == Armed(INITIAL, Status(Idle, p), 1).(latest := input, haveInput := true)
    requires s.now == 1 && s.phase.NoTick? && X in p
    requires input.deadman && 1 - input.at <= Normalize(e.cfg).deadman && Deflected(input.axes)
    requires IsHypot(mag, Response(input.axes.x), Response(input.axes.y))
    ensures Enabled(s, BeginTick(mag)) && Do(e, s, BeginTick(mag)) == s.(phase := Filling, tick := Tick(p, 0, 0))
  {
    hide Response, MotionDelta, IsHypot, Deflected;
    PushMoves(input.axes, input.slow, e.cfg, mag);
  }

  lemma PushAdmits(e: Env, s: Sys, p: Position, input: Input, mag: real)
    requires s.s == Armed(INITIAL, Status(Idle, p), 1).(latest := input, haveInput := true) && !e.limits.enabled
    requires s.now == 1 && s.phase.Filling? && s.tick == Tick(p, 0, 0)
    requires X in p && Y in p && Z in p && (A in p || Abs(input.axes.a) <= DEADZONE)
    requires input.deadman && 1 - input.at <= Normalize(e.cfg).deadman && Deflected(input.axes)
    requires IsHypot(mag, Response(input.axes.x), Response(input.axes.y))
    ensures Enabled(s, TryAdmit(mag))
    ensures var d := MotionDelta(input.axes, input.slow, e.cfg, mag);
            var t := Do(e, s, TryAdmit(mag));
            t.h.log == s.h.log + [Entry(1, input, d)] && t.phase == Sending(Segment(p, MoveBy(p, d), d))
  {
    hide Response, MotionDelta, IsHypot, Deflected, NextTarget, AxesDelta, MoveBy, WithinReach, Consider;
    var d := MotionDelta(input.axes, input.slow, e.cfg, mag);
    PushMoves(input.axes, input.slow, e.cfg, mag);
    DeltaOf(p, d, e.limits);
    StepWithinReach(p, input.axes, input.slow, e.cfg, mag);
    LeadBudget(e.cfg);
    FreshReportDecides(e.cfg, e.limits, s.s, s.tick, s.now, mag);
  }
}
