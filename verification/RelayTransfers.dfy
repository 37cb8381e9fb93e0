/** File transfers, status reports and aborts over whole runs of the multiplexer, each told from the steps
    alone. */
module RelayTransfers {
  import opened Framing
  import opened RelayMux
  import opened RelayRuns

  // ----- Transfers -----

  /** A transfer of the controller's starts: its own start frame says so, or a download is served to it from the
      cache. */
  predicate Starts(step: Step) {
    step.BeginLocal? || (step.PumpNote? && step.f.cmd == 0xB0)
  }

  predicate Ends(step: Step) {
    step.FinishLocal? || (step.PumpNote? && step.f.cmd in {0xB4, 0xB5})
  }

  /** A transfer was started and none has ended since. */
  ghost predicate InTransfer(steps: seq<Step>) {
    exists i :: 0 <= i < |steps| && Starts(steps[i]) && forall k :: i < k < |steps| ==> !Ends(steps[k])
  }

  lemma TransferStep(s: Sys, step: Step)
    requires Enabled(s, step)
    ensures Do(s, step).m.midXfer == if Starts(step) then true else if Ends(step) then false else s.m.midXfer
  {
    hide CtlNote, Route, DoWriteNote, DoReadStart, DoReadTake, DoAnswer, DoWriteCheck;
    match step
    case MachineFrame(f) => RouteKeepsTransfer(s.m, f);
    case WriteNote => NoteKeepsTransfer(s, s.j.writer.p);
    case ReadTake(n) => TakeKeepsTransfer(s, n);
    case PumpAnswer => AnswerKeepsTransfer(s);
    case _ =>
  }

  lemma DeliverKeeps(m: State, f: Frame)
    ensures Deliver(m, f).midXfer == m.midXfer && Deliver(m, f).lastStatus == m.lastStatus
  {
  }

  lemma RouteKeepsTransfer(m: State, f: Frame)
    ensures var t := Route(m, f).0;
            t.midXfer == m.midXfer && t.lastStatus == if f.cmd == CMD_STATUS_RES then f.data else m.lastStatus
  {
    hide Deliver;
    DeliverKeeps(m.(lastStatus := f.data), f);
    DeliverKeeps(m, f);
    if m.statusPolls > 0 {
      DeliverKeeps(m.(lastStatus := f.data).(statusPolls := m.statusPolls - 1), f);
    }
  }

  lemma NoteKeepsTransfer(s: Sys, p: Bytes)
    ensures DoWriteNote(s, p).m.midXfer == s.m.midXfer
  {
    hide ScanAll, CountPolls;
  }

  lemma TakeKeepsTransfer(s: Sys, n: nat)
    requires s.m.queue != []
    ensures DoReadTake(s, n).m.midXfer == s.m.midXfer
  {
  }

  lemma AnswerKeepsTransfer(s: Sys)
    ensures DoAnswer(s).m == s.m
  {
    hide Wire;
  }

  lemma InTransferStep(steps: seq<Step>)
    requires steps != []
    ensures var before, step := steps[..|steps| - 1], steps[|steps| - 1];
            InTransfer(steps) <==> Starts(step) || (!Ends(step) && InTransfer(before))
  {
    hide Starts, Ends;
    var n := |steps| - 1;
    var before := steps[..n];
    assert forall k :: 0 <= k < n ==> before[k] == steps[k];
    if InTransfer(before) && !Ends(steps[n]) {
      var i :| 0 <= i < n && Starts(before[i]) && forall k :: i < k < n ==> !Ends(before[k]);
      assert Starts(steps[i]);
    }
    if InTransfer(steps) {
      var i :| 0 <= i <= n && Starts(steps[i]) && forall k :: i < k <= n ==> !Ends(steps[k]);
      assert i < n ==> Starts(before[i]);
    }
  }

  /** The multiplexer takes the controller to be in a transfer exactly from a start to the next end. */
  lemma {:induction false} InTransferExactly(steps: seq<Step>)
    requires ValidRun(steps)
    ensures After(steps).m.midXfer <==> InTransfer(steps)
  {
    hide Do, Enabled, Starts, Ends, InTransfer;
    if steps == [] {
      NotYet();
    } else {
      var n := |steps| - 1;
      InTransferExactly(steps[..n]);
      TransferStep(After(steps[..n]), steps[n]);
      InTransferStep(steps);
    }
  }

  lemma NotYet()
    ensures !InTransfer([])
  {
  }

  /** Whatever happens after a transfer has started, no window opens, and no other transfer is begun from the
      cache, before it has ended. */
  lemma NothingOpensInTransfer(steps: seq<Step>, i: nat, step: Step) returns (k: nat)
    requires ValidRun(steps + [step]) && i < |steps| && Starts(steps[i])
    requires step.Open? || step.BeginLocal?
    ensures i < k < |steps| && Ends(steps[k])
  {
    hide ValidRun, After, InTransfer, Do, Enabled, Starts, Ends;
    RunStep(steps, step);
    OpensOutside(After(steps), step);
    InTransferExactly(steps);
    k := EndAfter(steps, i);
  }

  lemma OpensOutside(s: Sys, step: Step)
    requires Enabled(s, step) && (step.Open? || step.BeginLocal?)
    ensures !s.m.midXfer
  {
  }

  lemma EndAfter(steps: seq<Step>, i: nat) returns (k: nat)
    requires i < |steps| && Starts(steps[i]) && !InTransfer(steps)
    ensures i < k < |steps| && Ends(steps[k])
  {
    hide Starts, Ends;
    k :| i < k < |steps| && Ends(steps[k]);
  }

  // ----- Status reports -----

  predicate IsReport(step: Step) {
    step.MachineFrame? && step.g.cmd == 0x81
  }

  /** `data` is what the last status report said; nothing if there was none. */
  ghost predicate LatestReport(steps: seq<Step>, data: Bytes) {
    || (data == [] && forall k :: 0 <= k < |steps| ==> !IsReport(steps[k]))
    || (exists i :: 0 <= i < |steps| && IsReport(steps[i]) && steps[i].g.data == data
                    && forall k :: i < k < |steps| ==> !IsReport(steps[k]))
  }

  lemma ReportStep(s: Sys, step: Step)
    requires Enabled(s, step)
    ensures Do(s, step).m.lastStatus == if IsReport(step) then step.g.data else s.m.lastStatus
  {
    hide CtlNote, Route, DoWriteNote, DoAnswer;
    match step
    case PumpNote(f) => NoteQuiet(s.m, f);
    case BeginLocal => LocalQuiet(s.m);
    case MachineFrame(f) => RouteKeepsTransfer(s.m, f);
    case WriteNote => NoteKeepsReport(s, s.j.writer.p);
    case PumpAnswer => AnswerKeepsTransfer(s);
    case _ =>
  }

  lemma NoteKeepsReport(s: Sys, p: Bytes)
    ensures DoWriteNote(s, p).m.lastStatus == s.m.lastStatus
  {
    hide ScanAll, CountPolls;
  }

  lemma LatestReportStep(steps: seq<Step>, data: Bytes)
    requires steps != [] && LatestReport(steps[..|steps| - 1], data)
    ensures var step := steps[|steps| - 1]; LatestReport(steps, if IsReport(step) then step.g.data else data)
  {
    var n := |steps| - 1;
    var before := steps[..n];
    assert forall k :: 0 <= k < n ==> before[k] == steps[k];
    if IsReport(steps[n]) {
      assert steps[n].g.data == steps[n].g.data;
    } else if i :| 0 <= i < n && IsReport(before[i]) && before[i].g.data == data
                   && forall k :: i < k < n ==> !IsReport(before[k]) {
      assert IsReport(steps[i]);
    }
  }

  lemma {:induction false} LastStatusIsLatest(steps: seq<Step>)
    requires ValidRun(steps)
    ensures LatestReport(steps, After(steps).m.lastStatus)
  {
    hide Do, Enabled, LatestReport, IsReport;
    if steps == [] {
      NoReportYet();
    } else {
      var n := |steps| - 1;
      LastStatusIsLatest(steps[..n]);
      ReportStep(After(steps[..n]), steps[n]);
      LatestReportStep(steps, After(steps[..n]).m.lastStatus);
    }
  }

  lemma NoReportYet()
    ensures LatestReport([], START.m.lastStatus)
  {
  }

  /** A poll held back from the machine is answered with the latest status report there was, as a frame; with
      nothing if there was none. */
  lemma PollAnswered(steps: seq<Step>) returns (data: Bytes)
    requires ValidRun(steps + [PumpAnswer])
    ensures ValidRun(steps) && LatestReport(steps, data)
    ensures var s, t := After(steps), After(steps + [PumpAnswer]);
            && t.out == s.out + (if data == [] then []
                                 else [Forward(Frame(CMD_STATUS_RES, data, Wire(CMD_STATUS_RES, data)), s.m.injecting)])
            && t.m == s.m
  {
    hide ValidRun, After, LatestReport, Wire;
    RunStep(steps, PumpAnswer);
    LastStatusIsLatest(steps);
    data := After(steps).m.lastStatus;
  }

  // ----- Where a machine frame goes -----

  /** Until a managed window overflows, the polls counted in it that have no report yet are exactly those
      written in it less the reports diverted. */
  ghost predicate PollsExact(s: Sys) {
    && (!s.m.injecting ==> s.m.statusPolls == 0)
    && (s.m.injecting && !s.m.interactive && s.m.open ==>
          s.m.statusPolls + StatusCount(s.j.diverted) == s.j.polls)
  }

  lemma PollsStep(s: Sys, step: Step)
    requires Enabled(s, step) && PollsExact(s)
    ensures PollsExact(Do(s, step))
  {
    hide Quiet, PollsExact, DoRoute, DoWriteNote, DoReadStart, DoReadTake, DoTake, DoAnswer, Acquire, DoNote,
      LocalTransfer, CtlWrite, DoPumpWrite, DoFlush, DoWriteCheck;
    match step
    case PumpAnswer => AnswerKeepsPolls(s);
    case Open(interactive) => PollsOpened(s, interactive);
    case ReleaseTake => PollsTaken(s);
    case MachineFrame(f) => PollsRouted(s, f);
    case WriteNote => PollsNoted(s, s.j.writer.p);
    case ReadStart(n) => ReadKeepsPolls(s, n);
    case ReadTake(n) => TakeKeepsPolls(s, n);
    case _ =>
      QuietStep(s, step);
      QuietKeepsPolls(s, Do(s, step));
  }

  lemma QuietKeepsPolls(s: Sys, t: Sys)
    requires PollsExact(s) && Quiet(s, t)
    ensures PollsExact(t)
  {
    hide StatusCount;
  }

  lemma PollsOpened(s: Sys, interactive: bool)
    requires PollsExact(s) && !s.m.injecting
    ensures PollsExact(s.(m := Acquire(s.m, interactive), j := FRESH))
  {
  }

  lemma PollsTaken(s: Sys)
    requires PollsExact(s)
    ensures PollsExact(DoTake(s))
  {
    hide StatusCount;
  }

  lemma PollsRouted(s: Sys, f: Frame)
    requires PollsExact(s)
    ensures PollsExact(DoRoute(s, f))
  {
    hide Route, StatusCount;
    RouteFacts(s.m, f);
    StatusCountAppend(s.j.diverted, f);
  }

  lemma PollsNoted(s: Sys, p: Bytes)
    requires PollsExact(s)
    ensures PollsExact(DoWriteNote(s, p))
  {
    hide ScanAll, CountPolls, StatusCount;
  }

  lemma ReadKeepsPolls(s: Sys, n: nat)
    requires PollsExact(s)
    ensures PollsExact(s.(j := DoReadStart(s.m, s.j, n)))
  {
    hide Take, Drop, StatusCount;
  }

  lemma TakeKeepsPolls(s: Sys, n: nat)
    requires PollsExact(s) && s.m.queue != []
    ensures PollsExact(DoReadTake(s, n))
  {
    hide Take, Drop, StatusCount;
  }

  lemma AnswerKeepsPolls(s: Sys)
    ensures DoAnswer(s).m == s.m && DoAnswer(s).j == s.j && (PollsExact(s) ==> PollsExact(DoAnswer(s)))
  {
    hide Wire, StatusCount;
  }

  lemma {:induction false} AlwaysPollsExact(steps: seq<Step>)
    requires ValidRun(steps)
    ensures PollsExact(After(steps))
  {
    hide Do, Enabled, StatusCount;
    if steps != [] {
      AlwaysPollsExact(steps[..|steps| - 1]);
      PollsStep(After(steps[..|steps| - 1]), steps[|steps| - 1]);
    }
  }

  /** The polls in what an injector writes are its single characters `?`, frame by frame. */
  lemma {:induction false} PollsCounted(a: seq<Frame>, b: seq<Frame>, f: Frame)
    ensures CountPolls([f]) == if f.cmd == 0xA1 && f.data == [0x3F] then 1 else 0
    ensures CountPolls(a + b) == CountPolls(a) + CountPolls(b)
    decreases |a|
  {
    assert [f][1..] == [];
    if a == [] {
      assert a + b == b;
    } else {
      assert (a + b)[1..] == a[1..] + b;
      PollsCounted(a[1..], b, f);
    }
  }

  /** The injector may have the frame: it is no status report, or the window is interactive, or a poll written
      in it still waits for its report. */
  ghost predicate ForInjector(s: Sys, g: Frame) {
    s.m.injecting && (g.cmd != CMD_STATUS_RES || s.m.interactive || StatusCount(s.j.diverted) < s.j.polls)
  }

  /** Every machine frame goes to exactly one side.  Outside a window it is the controller's.  In a window that
      has not been closed it is the injector's unless it is a status report for which no poll waits; there it
      is queued behind the others, or, if 256 wait, lost with the overflow flag up, or, in an interactive
      window, if 128 wait, lost. */
  lemma RoutedExactly(steps: seq<Step>, g: Frame)
    requires ValidRun(steps + [MachineFrame(g)])
    ensures ValidRun(steps)
    ensures var s, t := After(steps), After(steps + [MachineFrame(g)]);
            && (!s.m.injecting || s.m.open ==>
                  if ForInjector(s, g) then
                    && t.out == s.out && t.j.diverted == s.j.diverted + [g]
                    && (if |s.m.queue| < (if s.m.interactive then 128 else 256) then
                          t.m.queue == s.m.queue + [g] && t.m.open && t.m.overflow == s.m.overflow
                        else
                          t.m.queue == s.m.queue
                          && t.m.open == s.m.interactive && t.m.overflow == (s.m.overflow || !s.m.interactive))
                  else t.out == s.out + [Forward(g, s.m.injecting)] && t.j == s.j && t.m.queue == s.m.queue)
            && |t.out| + |t.j.diverted| == |s.out| + |s.j.diverted| + 1
  {
    hide ValidRun, After, StatusCount;
    RunStep(steps, MachineFrame(g));
    AlwaysPollsExact(steps);
  }

  // ----- Aborts -----

  /** What aborts an interactive window: a controller frame other than a poll, or a download from the cache. */
  predicate Aborts(step: Step) {
    step.BeginLocal? || (step.PumpNote? && !IsStatusPoll(step.f))
  }

  /** The last window opened is the interactive one of step i. */
  ghost predicate OpenedAt(steps: seq<Step>, i: nat) {
    i < |steps| && steps[i] == Open(true) && forall k :: i < k < |steps| ==> !steps[k].Open?
  }

  /** Something has aborted the last window since it opened. */
  ghost predicate AbortedSince(steps: seq<Step>) {
    exists i: nat, k: nat :: OpenedAt(steps, i) && i < k < |steps| && Aborts(steps[k])
  }

  /** An interactive window is open until it is aborted, and then it is closed. */
  ghost predicate AbortExact(s: Sys, steps: seq<Step>) {
    s.m.injecting && s.m.interactive ==>
      && (exists i :: OpenedAt(steps, i))
      && (s.m.aborted <==> AbortedSince(steps))
      && s.m.abortSet == !s.m.aborted && s.m.open == !s.m.aborted && s.m.closed == s.m.aborted && !s.m.overflow
  }

  /** The abort as a whole. */
  predicate TurnsAborted(m: State, t: State) {
    && !t.abortSet && t.aborted == (m.aborted || m.abortSet) && t.open == (m.open && !m.abortSet)
    && t.closed == (m.closed || (m.abortSet && m.open)) && t.overflow == m.overflow
    && t.injecting == m.injecting && t.interactive == m.interactive
  }

  predicate SameWindow(m: State, t: State) {
    && t.abortSet == m.abortSet && t.aborted == m.aborted && t.open == m.open && t.closed == m.closed
    && t.overflow == m.overflow && t.injecting == m.injecting && t.interactive == m.interactive
  }

  lemma NoteAborts(m: State, f: Frame)
    requires m.injecting && m.interactive
    ensures var t := NoteFrame(m, f).0; if IsStatusPoll(f) then SameWindow(m, t) else TurnsAborted(m, t)
  {
    hide TrackTransfer, AbortInteractive, IsStatusPoll;
    TrackFacts(m, f.cmd);
    AbortFacts(TrackTransfer(m, f.cmd));
  }

  lemma LocalAborts(m: State)
    requires m.interactive
    ensures TurnsAborted(m, LocalTransfer(m))
  {
    hide AbortInteractive;
    AbortFacts(m);
  }

  lemma RouteSame(m: State, f: Frame)
    requires m.injecting && m.interactive
    ensures SameWindow(m, Route(m, f).0)
  {
  }

  lemma AbortStep(s: Sys, step: Step)
    requires Enabled(s, step) && s.m.injecting && s.m.interactive && Do(s, step).m.injecting
    ensures !step.Open?
    ensures if Aborts(step) then TurnsAborted(s.m, Do(s, step).m) else SameWindow(s.m, Do(s, step).m)
  {
    hide NoteFrame, Route, LocalTransfer, DoWriteNote, DoAnswer, CtlNote, IsStatusPoll;
    match step
    case PumpNote(f) => NoteAborts(s.m, f);
    case BeginLocal => LocalAborts(s.m);
    case MachineFrame(f) => RouteSame(s.m, f);
    case WriteNote => NoteSame(s, s.j.writer.p);
    case PumpAnswer => AnswerKeepsPolls(s);
    case _ =>
  }

  lemma NoteSame(s: Sys, p: Bytes)
    ensures SameWindow(s.m, DoWriteNote(s, p).m)
  {
    hide ScanAll, CountPolls;
  }

  /** A window is only ever opened anew. */
  lemma WindowStep(s: Sys, step: Step)
    requires Enabled(s, step) && Do(s, step).m.injecting
    ensures var t := Do(s, step).m;
            if step.Open? then
              t == Acquire(s.m, step.interactive)
            else s.m.injecting && t.interactive == s.m.interactive
  {
    hide NoteFrame, Route, LocalTransfer, DoWriteNote, DoAnswer, CtlNote;
    match step
    case PumpNote(f) => NoteFacts(s.m, f);
    case BeginLocal => LocalFacts(s.m);
    case MachineFrame(f) => RouteFacts(s.m, f);
    case WriteNote => NoteSame(s, s.j.writer.p);
    case PumpAnswer => AnswerKeepsPolls(s);
    case _ =>
  }

  lemma OpenedStep(steps: seq<Step>)
    requires steps != [] && !steps[|steps| - 1].Open?
    ensures var before := steps[..|steps| - 1];
            && (forall i: nat :: OpenedAt(steps, i) <==> OpenedAt(before, i))
            && (AbortedSince(steps) <==>
                  AbortedSince(before) || (Aborts(steps[|steps| - 1]) && exists i :: OpenedAt(before, i)))
  {
    hide Aborts;
    var n := |steps| - 1;
    var before := steps[..n];
    assert forall k :: 0 <= k < n ==> before[k] == steps[k];
    forall i: nat ensures OpenedAt(steps, i) <==> OpenedAt(before, i) {
    }
    hide OpenedAt;
    if AbortedSince(steps) {
      var i: nat, k: nat :| OpenedAt(steps, i) && i < k < |steps| && Aborts(steps[k]);
      if k < n {
        assert Aborts(before[k]);
      } else {
        assert OpenedAt(before, i);
      }
    }
    if AbortedSince(before) {
      var i: nat, k: nat :| OpenedAt(before, i) && i < k < n && Aborts(before[k]);
      assert OpenedAt(steps, i) && Aborts(steps[k]);
    }
    if Aborts(steps[n]) && exists i :: OpenedAt(before, i) {
      var i: nat :| OpenedAt(before, i);
      OpenedBefore(before, i);
      assert OpenedAt(steps, i);
    }
  }

  lemma OpenedBefore(steps: seq<Step>, i: nat)
    requires OpenedAt(steps, i)
    ensures i < |steps|
  {
  }

  lemma JustOpened(steps: seq<Step>)
    requires steps != [] && steps[|steps| - 1] == Open(true)
    ensures OpenedAt(steps, |steps| - 1) && !AbortedSince(steps)
  {
  }

  /** An interactive window is aborted exactly when a controller frame other than a poll, or a download from
      the cache, has come since it opened. */
  lemma {:induction false} AbortedExactly(steps: seq<Step>)
    requires ValidRun(steps)
    ensures AbortExact(After(steps), steps)
  {
    hide Do, Enabled, OpenedAt, AbortedSince, Aborts;
    if steps != [] {
      var n := |steps| - 1;
      AbortedExactly(steps[..n]);
      var s := After(steps[..n]);
      if After(steps).m.injecting {
        WindowStep(s, steps[n]);
        if steps[n] == Open(true) {
          JustOpened(steps);
        } else if s.m.injecting && s.m.interactive {
          AbortStep(s, steps[n]);
          OpenedStep(steps);
        }
      }
    }
  }

  /** Once aborted, the window takes no more writes, and reads only what is left. */
  lemma AbortedIsClosed(steps: seq<Step>, step: Step)
    requires ValidRun(steps + [step]) && ValidRun(steps)
    requires var s := After(steps); s.m.injecting && s.m.interactive && AbortedSince(steps)
    ensures var s, t := After(steps), After(steps + [step]);
            && (step.WriteCheck? ==> t.j.result == WriteClosed && t.j.writer == s.j.writer)
            && (step.ReadStart? && s.j.scanBuf == [] ==> t.j.result == ReadClosed && !t.j.reading)
  {
    hide ValidRun, After, AbortedSince, OpenedAt;
    RunStep(steps, step);
    AbortedExactly(steps);
  }

  /** When an interactive window ends, its user is told so: the abort channel is closed by then. */
  lemma EndTellsUser(steps: seq<Step>)
    requires ValidRun(steps + [ReleaseTake])
    requires var s := After(steps); ValidRun(steps) && s.m.injecting && s.m.interactive && s.m.held == []
    ensures var t := After(steps + [ReleaseTake]);
            !t.m.injecting && t.m.aborted && !t.m.abortSet && t.m.closed && !t.m.open
  {
    hide ValidRun, After, AbortedSince, OpenedAt;
    RunStep(steps, ReleaseTake);
    AbortedExactly(steps);
  }

  // ----- Controller frames -----

  /** Every controller frame counts among those that reach the machine, except, while a window is open, the single
      character `?`: that is answered instead. */
  lemma NotedExactly(steps: seq<Step>, f: Frame)
    requires ValidRun(steps + [PumpNote(f)]) && ValidRun(steps)
    ensures var s, t := After(steps), After(steps + [PumpNote(f)]);
            if s.m.injecting && f.cmd == 0xA1 && f.data == [0x3F] then
              t.c == s.c.(answer := true) && t.m == s.m
            else
              t.c.noted == s.c.noted + [f] && t.c.answer == s.c.answer && t.c.wire == s.c.wire
              && (if s.m.injecting then t.m.held == s.m.held + [f] && t.c.pending == s.c.pending
                  else t.c.pending == [f])
  {
    hide ValidRun, After;
    RunStep(steps, PumpNote(f));
    NoteFacts(After(steps).m, f);
  }
}
