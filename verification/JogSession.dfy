/** One jog session's shared fields.  Each method is one section under the session's locks. */
module JogSession {
  import opened Jog

  datatype MachineState = Idle | Run | Other

  datatype Status = Status(state: MachineState, mpos: Position)

  predicate CanContinue(st: Status) {
    st.state == Idle || st.state == Run
  }

  datatype State = State(
    armed: bool, latest: Input, haveInput: bool,
    inFlight: bool, barrier: bool,
    lastStatus: Status, lastStatusAt: Time,
    planned: Position, queuedUntil: Time)

  const NO_INPUT := Input(STILL, false, false, 0)

  const INITIAL := State(false, NO_INPUT, false, false, false, Status(Other, map[]), 0, map[], 0)

  function TakeInput(s: State, input: Input, now: Time): State {
    s.(latest := if input.at == 0 then input.(at := now) else input, haveInput := true)
  }

  function Armed(s: State, st: Status, now: Time): State {
    s.(armed := true, haveInput := false, lastStatus := st, lastStatusAt := now, planned := st.mpos, queuedUntil := 0)
  }

  function Released(s: State): State {
    s.(armed := false, planned := map[], queuedUntil := 0)
  }

  predicate Settles(s: State, st: Status, now: Time) {
    QueueLead(now, s.queuedUntil) == 0 && st.state == Idle
  }

  function WithStatus(s: State, st: Status, now: Time): State {
    var t := s.(lastStatus := st, lastStatusAt := now);
    var u := if Settles(s, st, now) then t.(planned := st.mpos) else t;
    if CanContinue(st) then u else Released(u)
  }

  function CaptureBegun(s: State, now: Time): State {
    s.(latest := Input(STILL, false, false, now), haveInput := true, barrier := true)
  }

  function CaptureEnded(s: State): State {
    s.(barrier := false)
  }

  function Captured(s: State): Position {
    if s.planned == map[] then s.lastStatus.mpos else s.planned
  }

  // ----- A tick -----

  /** What a tick keeps between its sections. */
  datatype Tick = Tick(planned: Position, queuedUntil: Time, sent: nat)

  datatype TickStart = Ends | Disarms | Fills(tick: Tick)

  predicate Reanchors(s: State, now: Time) {
    s.planned == map[] || (QueueLead(now, s.queuedUntil) == 0 && s.lastStatus.state == Idle
                           && s.lastStatusAt >= s.queuedUntil)
  }

  /** How a tick starts, from the fields as they are then. */
  function StartTick(c: Config, s: State, now: Time, mag: real): TickStart {
    if !CanContinue(s.lastStatus) then Disarms
    else if !MotionInputActive(s.haveInput, s.latest, now, c) then Ends
    else if s.lastStatus.mpos == map[] || now - s.lastStatusAt > ActiveStatusMaxAge(c) then Ends
    else if MotionDelta(s.latest.axes, s.latest.slow, c, mag) == STILL then Ends
    else Fills(Tick(if Reanchors(s, now) then s.lastStatus.mpos else s.planned, s.queuedUntil, 0))
  }

  datatype Segment = Segment(from: Position, to: Position, delta: Axes)

  datatype Admission = Refused | Admits(seg: Segment)

  /** Whether a tick may send one more segment now, and which. */
  function Consider(c: Config, l: SoftLimits, s: State, t: Tick, now: Time, mag: real): Admission {
    if s.barrier then Refused
    else if QueueLead(now, t.queuedUntil) >= Lookahead(c) then Refused
    else if !MotionInputActive(s.haveInput, s.latest, now, c) then Refused
    else
      var d := MotionDelta(s.latest.axes, s.latest.slow, c, mag);
      if d == STILL then Refused
      else
        var to := NextTarget(t.planned, d, l);
        var moved := AxesDelta(t.planned, to);
        if moved == STILL then Refused
        else if PhysicalLeadCheckDue(now, s.lastStatusAt, c) && JogLeadTooLarge(to, s.lastStatus.mpos, c) then Refused
        else Admits(Segment(t.planned, to, moved))
  }

  /** Within two ticks of a report a segment that nothing else forbids is admitted if and only if it ends
      within reach of the reported position; later than that it is admitted. */
  lemma FreshReportDecides(c: Config, l: SoftLimits, s: State, t: Tick, now: Time, mag: real)
    requires s.lastStatusAt != 0
    ensures var r := Consider(c, l, s, t, now, mag);
            var to := NextTarget(t.planned, MotionDelta(s.latest.axes, s.latest.slow, c, mag), l);
            var moved := AxesDelta(t.planned, to);
            var recent := 0 <= now - s.lastStatusAt <= 2 * Normalize(c).tick;
            && (r.Admits? ==> r.seg == Segment(t.planned, to, moved))
            && (r.Admits? && recent ==> WithinReach(to, s.lastStatus.mpos, c))
            && (!s.barrier && QueueLead(now, t.queuedUntil) < Lookahead(c)
                && MotionInputActive(s.haveInput, s.latest, now, c) && moved != STILL ==>
                  (r.Admits? <==> (recent ==> WithinReach(to, s.lastStatus.mpos, c))))
  {
    hide NextTarget, AxesDelta, NormalizeForDuration, MotionInputActive, Normalize, Lookahead, SegmentDuration,
      JogLeadTooLarge, WithinReach, QueueLead;
    var d := MotionDelta(s.latest.axes, s.latest.slow, c, mag);
    LeadTooLargeIs(NextTarget(t.planned, d, l), s.lastStatus.mpos, c);
    NoMove(t.planned, d, l);
  }

  lemma NoMove(planned: Position, d: Axes, l: SoftLimits)
    ensures d == STILL ==> AxesDelta(planned, NextTarget(planned, d, l)) == STILL
  {
    hide NextTarget, AxesDelta;
    SegmentShorter(planned, d, l);
  }

  /** The fields after a segment was written at `now`. */
  function Committed(c: Config, s: State, t: Tick, seg: Segment, now: Time): State {
    s.(planned := seg.to, queuedUntil := NextEnd(now, t.queuedUntil, SegmentDuration(c)))
  }

  const MAX_SEGMENTS_PER_TICK: nat := 2

  class Session {
    const cfg: Config
    var armed: bool
    var latest: Input
    var haveInput: bool
    var admissionInFlight: bool
    var captureBarrier: bool
    var lastStatus: Status
    var lastStatusAt: Time
    var planned: Position
    var queuedUntil: Time

    function Fields(): State
      reads this
    {
      State(armed, latest, haveInput, admissionInFlight, captureBarrier, lastStatus, lastStatusAt, planned, queuedUntil)
    }

    constructor (c: Config)
      ensures Fields() == INITIAL && cfg == c
    {
      cfg := c;
      armed, latest, haveInput, admissionInFlight, captureBarrier := false, NO_INPUT, false, false, false;
      lastStatus, lastStatusAt, planned, queuedUntil := Status(Other, map[]), 0, map[], 0;
    }

    method SetInput(input: Input, now: Time)
      modifies this
      ensures Fields() == TakeInput(old(Fields()), input, now)
    {
      latest := input;
      if input.at == 0 {
        latest := latest.(at := now);
      }
      haveInput := true;
    }

    /** `recent` says that the tracker holds the report for fresh. */
    method Arm(st: Status, recent: bool, now: Time) returns (ok: bool)
      modifies this
      ensures ok == (recent && st.state == Idle && st.mpos != map[])
      ensures Fields() == if ok then Armed(old(Fields()), st, now) else old(Fields())
    {
      if !recent || st.state != Idle || st.mpos == map[] {
        return false;
      }
      armed, haveInput := true, false;
      lastStatus, lastStatusAt := st, now;
      planned, queuedUntil := st.mpos, 0;
      return true;
    }

    method Release()
      modifies this
      ensures Fields() == Released(old(Fields()))
    {
      armed, planned, queuedUntil := false, map[], 0;
    }

    method ApplyStatus(st: Status, now: Time) returns (settled: bool)
      modifies this
      ensures Fields() == WithStatus(old(Fields()), st, now)
      ensures settled == Settles(old(Fields()), st, now)
    {
      lastStatus, lastStatusAt := st, now;
      settled := QueueLead(now, queuedUntil) == 0 && st.state == Idle;
      if settled {
        planned := st.mpos;
      }
      if !CanContinue(st) {
        Release();
      }
    }

    /** The first section of a capture: the input is dropped and no segment may be admitted. */
    method BeginCapture(now: Time) returns (ok: bool)
      modifies this
      ensures ok == old(armed)
      ensures Fields() == if ok then CaptureBegun(old(Fields()), now) else old(Fields())
    {
      if !armed {
        return false;
      }
      latest, haveInput, captureBarrier := Input(STILL, false, false, now), true, true;
      return true;
    }

    /** The second, once no segment is in flight. */
    method EndCapture() returns (ok: bool, position: Position)
      requires !admissionInFlight
      modifies this
      ensures ok == old(armed) && Fields() == CaptureEnded(old(Fields()))
      ensures ok ==> position == Captured(old(Fields()))
    {
      captureBarrier := false;
      if !armed {
        return false, map[];
      }
      position := planned;
      if position == map[] {
        position := lastStatus.mpos;
      }
      return true, position;
    }

    method BeginTick(now: Time, mag: real) returns (start: TickStart)
      requires armed
      modifies this
      ensures start == StartTick(cfg, old(Fields()), now, mag)
      ensures Fields() == if start.Disarms? then Released(old(Fields())) else old(Fields())
    {
      if !CanContinue(lastStatus) {
        Release();
        return Disarms;
      }
      if !MotionInputActive(haveInput, latest, now, cfg) {
        return Ends;
      }
      if lastStatus.mpos == map[] || now - lastStatusAt > ActiveStatusMaxAge(cfg) {
        return Ends;
      }
      var local := planned;
      if local == map[] || (QueueLead(now, queuedUntil) == 0 && lastStatus.state == Idle
                            && lastStatusAt >= queuedUntil) {
        local := lastStatus.mpos;
      }
      if MotionDelta(latest.axes, latest.slow, cfg, mag) == STILL {
        return Ends;
      }
      return Fills(Tick(local, queuedUntil, 0));
    }

    method Admit(t: Tick, l: SoftLimits, now: Time, mag: real) returns (r: Admission)
      modifies this`admissionInFlight
      ensures r == Consider(cfg, l, old(Fields()), t, now, mag)
      ensures Fields() == old(Fields()).(inFlight := old(admissionInFlight) || r.Admits?)
    {
      if captureBarrier {
        return Refused;
      }
      if QueueLead(now, t.queuedUntil) >= Lookahead(cfg) {
        return Refused;
      }
      if !MotionInputActive(haveInput, latest, now, cfg) {
        return Refused;
      }
      var delta := MotionDelta(latest.axes, latest.slow, cfg, mag);
      if delta == STILL {
        return Refused;
      }
      var target := NextTarget(t.planned, delta, l);
      delta := AxesDelta(t.planned, target);
      if delta == STILL {
        return Refused;
      }
      if PhysicalLeadCheckDue(now, lastStatusAt, cfg) && JogLeadTooLarge(target, lastStatus.mpos, cfg) {
        return Refused;
      }
      admissionInFlight := true;
      return Admits(Segment(t.planned, target, delta));
    }

    /** Records a written segment; `more` says whether the input still asks for motion. */
    method Commit(t: Tick, seg: Segment, now: Time) returns (u: Tick, more: bool)
      modifies this
      ensures Fields() == Committed(cfg, old(Fields()), t, seg, now)
      ensures u == Tick(seg.to, queuedUntil, t.sent + 1)
      ensures more == MotionInputActive(haveInput, latest, now, cfg)
    {
      var start := t.queuedUntil;
      if start < now {
        start := now;
      }
      planned, queuedUntil := seg.to, start + SegmentDuration(cfg);
      u := Tick(planned, queuedUntil, t.sent + 1);
      more := haveInput && MotionInputActive(true, latest, now, cfg);
    }

    method FinishSegmentAdmission()
      modifies this`admissionInFlight
      ensures Fields() == old(Fields()).(inFlight := false)
    {
      admissionInFlight := false;
    }
  }
}
