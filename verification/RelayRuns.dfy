/** Every interleaving of the controller pump, the injector's reads and writes, the release flush
    and the machine reader over one multiplexer.  Noting a frame and writing it are separate steps,
    and the release flush writes outside the mutex. */
module RelayRuns {
  import opened Framing
  import opened RelayMux

  // ----- The system -----

  /** The pump and the release: what is written to the machine, the frame the pump was told to
      forward, whether it owes a poll an answer, the batch being flushed, and the frames noted. */
  datatype Ctl = Ctl(wire: seq<MachineWrite>, pending: seq<Frame>, answer: bool,
                     releasing: bool, batch: seq<Frame>, noted: seq<Frame>)

  datatype Writer = WriterIdle | Checked(p: Bytes) | Noted(p: Bytes)

  datatype IOResult = Nothing | ReadOk | ReadOverflow | ReadClosed | ReadTimeout | WriteAllowed | WriteOverflow
    | WriteClosed

  /** The injector's transport in the current window, and what it has seen: the frames diverted to
      it, the frames and bytes it read, the polls it wrote and the status reports diverted. */
  datatype Inj = Inj(writer: Writer, writeBuf: Bytes, reading: bool, scanBuf: Bytes, result: IOResult,
                     diverted: seq<Frame>, received: seq<Frame>, readBytes: Bytes, polls: nat, statuses: nat)

  /** A frame sent to the controller, and whether a window was open when that was decided. */
  datatype Forward = Forward(f: Frame, inWindow: bool)

  datatype Sys = Sys(m: State, c: Ctl, j: Inj, out: seq<Forward>)

  const FRESH := Inj(WriterIdle, [], false, [], Nothing, [], [], [], 0, 0)
  const START := Sys(INITIAL, Ctl([], [], false, false, [], []), FRESH, [])

  datatype Step =
    | PumpNote(f: Frame)          // the pump notes a controller frame
    | PumpWrite                   // the pump writes the frame it was told to forward
    | PumpAnswer                  // the pump answers a poll from the cached status
    | BeginLocal | FinishLocal    // a download served from the cache starts and ends
    | Open(interactive: bool)     // an injector acquires a window
    | ReleaseStart                // its user releases it
    | ReleaseTake                 // one locked section of the release
    | ReleaseWrite                // one machine write of the flush
    | MachineFrame(g: Frame)      // the reader routes a machine frame
    | OutOfBand(b: bv8)           // a realtime control character
    | WriteCheck(p: Bytes) | WriteNote | WriteSend   // the injector's write, in three parts
    | ReadStart(n: nat) | ReadTake(k: nat) | ReadEnd | ReadExpire   // the injector's read

  /** The polls in what an injector writes, as its own scanner sees them. */
  function CountPolls(fs: seq<Frame>): nat {
    if fs == [] then 0 else CountPolls(fs[1..]) + if IsStatusPoll(fs[0]) then 1 else 0
  }

  /** The window's user may act: it is open and not being released. */
  predicate InUse(s: Sys) {
    s.m.injecting && !s.c.releasing
  }

  predicate Enabled(s: Sys, step: Step) {
    match step
    case PumpNote(_) => s.c.pending == [] && !s.c.answer
    case PumpWrite => s.c.pending != []
    case PumpAnswer => s.c.answer
    case BeginLocal => !s.m.midXfer
    case FinishLocal => true
    case Open(_) => !s.m.injecting && !s.m.midXfer
    case ReleaseStart => InUse(s) && s.j.writer.WriterIdle? && !s.j.reading
    case ReleaseTake => s.c.releasing && s.c.batch == []
    case ReleaseWrite => s.c.releasing && s.c.batch != []
    case MachineFrame(_) => true
    case OutOfBand(_) => true
    case WriteCheck(_) => InUse(s) && s.j.writer.WriterIdle?
    case WriteNote => s.j.writer.Checked?
    case WriteSend => s.j.writer.Noted?
    case ReadStart(_) => InUse(s) && !s.j.reading
    case ReadTake(_) => s.j.reading && s.m.queue != []
    case ReadEnd => s.j.reading && s.m.queue == [] && s.m.closed
    case ReadExpire => s.j.reading
  }

  function Take(b: Bytes, n: nat): Bytes {
    if n < |b| then b[..n] else b
  }

  function Drop(b: Bytes, n: nat): Bytes {
    if n < |b| then b[n..] else []
  }

  function CtlNote(c: Ctl, injecting: bool, f: Frame): Ctl {
    if !injecting then c.(pending := [f], noted := c.noted + [f])
    else if IsStatusPoll(f) then c.(answer := true)
    else c.(noted := c.noted + [f])
  }

  function CtlWrite(c: Ctl, w: MachineWrite): Ctl {
    c.(wire := c.wire + [w])
  }

  function DoNote(s: Sys, f: Frame): Sys {
    s.(m := NoteFrame(s.m, f).0, c := CtlNote(s.c, s.m.injecting, f))
  }

  function DoPumpWrite(c: Ctl): Ctl
    requires c.pending != []
  {
    CtlWrite(c, FromController(c.pending[0])).(pending := c.pending[1..])
  }

  function DoAnswer(s: Sys): Sys {
    var out := if s.m.lastStatus == [] then s.out
               else s.out + [Forward(Frame(CMD_STATUS_RES, s.m.lastStatus, Wire(CMD_STATUS_RES, s.m.lastStatus)),
                                     s.m.injecting)];
    s.(c := s.c.(answer := false), out := out)
  }

  function Divert(j: Inj, f: Frame): Inj {
    j.(diverted := j.diverted + [f], statuses := j.statuses + if f.cmd == CMD_STATUS_RES then 1 else 0)
  }

  function DoRoute(s: Sys, f: Frame): Sys {
    if Route(s.m, f).1 then s.(m := Route(s.m, f).0, out := s.out + [Forward(f, s.m.injecting)])
    else s.(m := Route(s.m, f).0, j := Divert(s.j, f))
  }

  function DoTake(s: Sys): Sys {
    if s.m.held == [] then s.(m := EndWindow(s.m), c := s.c.(releasing := false))
    else s.(m := s.m.(held := []), c := s.c.(batch := s.m.held))
  }

  function DoFlush(c: Ctl): Ctl
    requires c.batch != []
  {
    CtlWrite(c, FromController(c.batch[0])).(batch := c.batch[1..])
  }

  function DoWriteCheck(m: State, j: Inj, p: Bytes): Inj {
    if m.overflow then j.(result := WriteOverflow)
    else if !m.injecting || (m.interactive && !m.open) then j.(result := WriteClosed)
    else j.(result := WriteAllowed, writer := Checked(p))
  }

  function DoWriteNote(s: Sys, p: Bytes): Sys {
    var scan := ScanAll(s.j.writeBuf + p);
    var polls := CountPolls(scan.frames);
    var counts := s.m.injecting && !s.m.interactive && s.m.open;
    var m := if counts then s.m.(statusPolls := s.m.statusPolls + polls) else s.m;
    s.(m := m, j := s.j.(writer := Noted(p), writeBuf := Cap(scan.rest), polls := s.j.polls + polls))
  }

  function DoReadStart(m: State, j: Inj, n: nat): Inj {
    if j.scanBuf != [] then
      j.(result := ReadOk, readBytes := j.readBytes + Take(j.scanBuf, n), scanBuf := Drop(j.scanBuf, n))
    else if !m.open then j.(result := if m.overflow then ReadOverflow else ReadClosed)
    else j.(reading := true)
  }

  function DoReadTake(s: Sys, n: nat): Sys
    requires s.m.queue != []
  {
    var f := s.m.queue[0];
    s.(m := s.m.(queue := s.m.queue[1..]),
       j := s.j.(reading := false, result := ReadOk, received := s.j.received + [f],
                 readBytes := s.j.readBytes + Take(f.raw, n), scanBuf := s.j.scanBuf + Drop(f.raw, n)))
  }

  function LocalTransfer(m: State): State {
    (if m.interactive then AbortInteractive(m) else m).(midXfer := true)
  }

  function Do(s: Sys, step: Step): Sys
    requires Enabled(s, step)
  {
    match step
    case PumpNote(f) => DoNote(s, f)
    case PumpWrite => s.(c := DoPumpWrite(s.c))
    case PumpAnswer => DoAnswer(s)
    case BeginLocal => s.(m := LocalTransfer(s.m))
    case FinishLocal => s.(m := s.m.(midXfer := false))
    case Open(interactive) => s.(m := Acquire(s.m, interactive), j := FRESH)
    case ReleaseStart => s.(c := s.c.(releasing := true))
    case ReleaseTake => DoTake(s)
    case ReleaseWrite => s.(c := DoFlush(s.c))
    case MachineFrame(f) => DoRoute(s, f)
    case OutOfBand(b) => s.(c := CtlWrite(s.c, Control(b)))
    case WriteCheck(p) => s.(j := DoWriteCheck(s.m, s.j, p))
    case WriteNote => DoWriteNote(s, s.j.writer.p)
    case WriteSend => s.(c := CtlWrite(s.c, Injected(s.j.writer.p)), j := s.j.(writer := WriterIdle))
    case ReadStart(n) => s.(j := DoReadStart(s.m, s.j, n))
    case ReadTake(n) => DoReadTake(s, n)
    case ReadEnd => s.(j := s.j.(reading := false, result := if s.m.overflow then ReadOverflow else ReadClosed))
    case ReadExpire => s.(j := s.j.(reading := false, result := ReadTimeout))
  }

  ghost predicate ValidRun(steps: seq<Step>)
    decreases |steps|, 0
  {
    steps == [] || (ValidRun(steps[..|steps| - 1]) && Enabled(After(steps[..|steps| - 1]), steps[|steps| - 1]))
  }

  /** The state a run of steps leads to. */
  ghost function After(steps: seq<Step>): Sys
    requires ValidRun(steps)
    decreases |steps|, 1
  {
    if steps == [] then START else Do(After(steps[..|steps| - 1]), steps[|steps| - 1])
  }

  lemma RunStep(steps: seq<Step>, step: Step)
    requires ValidRun(steps + [step])
    ensures ValidRun(steps) && Enabled(After(steps), step) && After(steps + [step]) == Do(After(steps), step)
  {
    hide Do, Enabled;
    assert (steps + [step])[..|steps|] == steps;
  }

  // ----- What the mux sections leave alone -----

  lemma AbortFacts(m: State)
    ensures AbortInteractive(m) == m.(abortSet := false, aborted := m.aborted || m.abortSet,
                                      open := m.open && !m.abortSet, closed := m.closed || (m.abortSet && m.open))
  {
  }

  lemma TrackFacts(m: State, cmd: bv8)
    ensures TrackTransfer(m, cmd) == m.(midXfer := TrackTransfer(m, cmd).midXfer)
  {
  }

  /** Noting a frame changes the held queue, the transfer flag and, in an interactive window, what
      an abort changes. */
  lemma NoteFacts(m: State, f: Frame)
    ensures var t := NoteFrame(m, f).0;
            && t.injecting == m.injecting && t.interactive == m.interactive && t.queue == m.queue
            && t.overflow == m.overflow && t.statusPolls == m.statusPolls
            && (!m.interactive ==> t.open == m.open && t.closed == m.closed && t.abortSet == m.abortSet)
            && t.held == if m.injecting && !IsStatusPoll(f) then m.held + [f] else m.held
    ensures NoteFrame(m, f).1 == !m.injecting
  {
    hide TrackTransfer, AbortInteractive, IsStatusPoll;
    TrackFacts(m, f.cmd);
    AbortFacts(TrackTransfer(m, f.cmd));
  }

  lemma NoteQuiet(m: State, f: Frame)
    ensures var t := NoteFrame(m, f).0;
            && t == m.(open := t.open, closed := t.closed, abortSet := t.abortSet, aborted := t.aborted,
                       held := t.held, midXfer := t.midXfer)
            && (!m.interactive ==> t.open == m.open && t.closed == m.closed && t.abortSet == m.abortSet)
  {
    hide TrackTransfer, AbortInteractive, IsStatusPoll;
    TrackFacts(m, f.cmd);
    AbortFacts(TrackTransfer(m, f.cmd));
  }

  lemma LocalQuiet(m: State)
    ensures var t := LocalTransfer(m);
            && t == m.(open := t.open, closed := t.closed, abortSet := t.abortSet, aborted := t.aborted,
                       midXfer := t.midXfer)
            && (!m.interactive ==> t.open == m.open && t.closed == m.closed && t.abortSet == m.abortSet)
  {
    hide AbortInteractive;
    AbortFacts(m);
  }

  lemma DeliverFacts(m: State, f: Frame)
    ensures var t := Deliver(m, f);
            && (m.interactive || !m.open ==> t == m.(queue := t.queue))
            && (!m.open ==> t.queue == m.queue)
            && (!m.interactive && m.open ==>
                  t == if |m.queue| < MANAGED_CAPACITY then m.(queue := m.queue + [f])
                       else m.(overflow := true, open := false, closed := true))
  {
  }

  function PollsUsed(m: State, f: Frame): nat {
    if f.cmd == CMD_STATUS_RES && !m.interactive then 1 else 0
  }

  /** Routing a frame forwards it, or delivers it into an open window. */
  lemma RouteCases(m: State, f: Frame)
    ensures var (t, forward) := Route(m, f);
            && (forward ==> t == m.(lastStatus := t.lastStatus) && (m.injecting ==> f.cmd == CMD_STATUS_RES))
            && (!forward ==>
                  && m.injecting
                  && (f.cmd == CMD_STATUS_RES && !m.interactive ==> m.statusPolls > 0)
                  && t == Deliver(m.(lastStatus := t.lastStatus,
                                     statusPolls := m.statusPolls - PollsUsed(m, f)), f))
  {
    hide Deliver;
    DeliverKeepsStatus(m.(lastStatus := f.data), f);
    DeliverKeepsStatus(m, f);
    if m.statusPolls > 0 {
      DeliverKeepsStatus(m.(lastStatus := f.data).(statusPolls := m.statusPolls - 1), f);
    }
  }

  lemma DeliverKeepsStatus(m: State, f: Frame)
    ensures Deliver(m, f).lastStatus == m.lastStatus
  {
  }

  predicate SameChannel(t: State, m: State) {
    t.queue == m.queue && t.open == m.open && t.overflow == m.overflow && t.closed == m.closed
  }

  lemma RouteFacts(m: State, f: Frame)
    ensures var (t, forward) := Route(m, f);
            && t.injecting == m.injecting && t.interactive == m.interactive
            && t.held == m.held && t.abortSet == m.abortSet
            && (forward && m.injecting ==> f.cmd == CMD_STATUS_RES)
            && (!forward ==> m.injecting)
            && (forward ==> SameChannel(t, m) && t.statusPolls == m.statusPolls)
            && (!forward && !m.interactive ==>
                  && t.statusPolls == m.statusPolls - (if f.cmd == CMD_STATUS_RES then 1 else 0)
                  && (if !m.open then SameChannel(t, m)
                      else if |m.queue| < MANAGED_CAPACITY then SameChannel(t, m.(queue := m.queue + [f]))
                      else t.queue == m.queue && !t.open && t.overflow && t.closed))
            && (m.interactive ==> t.statusPolls == m.statusPolls)
  {
    hide Route, Deliver;
    RouteCases(m, f);
    var t := Route(m, f).0;
    if !Route(m, f).1 {
      DeliverFacts(m.(lastStatus := t.lastStatus,
                      statusPolls := m.statusPolls - if f.cmd == CMD_STATUS_RES && !m.interactive then 1 else 0), f);
    }
  }

  lemma LocalFacts(m: State)
    ensures var t := LocalTransfer(m);
            && t.injecting == m.injecting && t.interactive == m.interactive && t.queue == m.queue && t.held == m.held
            && t.overflow == m.overflow && t.statusPolls == m.statusPolls
            && (!m.interactive ==> t.open == m.open && t.closed == m.closed && t.abortSet == m.abortSet)
  {
  }

  // ----- Controller frames: exactly once, in order -----

  /** The controller's frames among the machine writes. */
  function ControllerFrames(w: seq<MachineWrite>): seq<Frame> {
    if w == [] then []
    else ControllerFrames(w[..|w| - 1]) + if w[|w| - 1].FromController? then [w[|w| - 1].f] else []
  }

  lemma ControllerFramesAppend(w: seq<MachineWrite>, x: MachineWrite)
    ensures ControllerFrames(w + [x]) == ControllerFrames(w) + if x.FromController? then [x.f] else []
  {
    assert (w + [x])[..|w|] == w;
  }

  /** Written, then being flushed, then held, then pending in the pump: together exactly what was
      noted. */
  ghost predicate Ordered(injecting: bool, held: seq<Frame>, c: Ctl) {
    && ControllerFrames(c.wire) + (c.batch + (held + c.pending)) == c.noted
    && (c.pending != [] ==> c.batch == [] && held == [])
    && (c.batch != [] ==> c.releasing)
    && (c.releasing ==> injecting)
    && (!injecting ==> held == [])
  }

  ghost predicate OrderedSys(s: Sys) {
    Ordered(s.m.injecting, s.m.held, s.c)
  }

  lemma NoteKeeps(injecting: bool, held: seq<Frame>, c: Ctl, f: Frame)
    requires Ordered(injecting, held, c) && c.pending == []
    ensures Ordered(injecting, if injecting && !IsStatusPoll(f) then held + [f] else held, CtlNote(c, injecting, f))
  {
    hide ControllerFrames;
    var w := ControllerFrames(c.wire);
    assert w + (c.batch + ((held + [f]) + [])) == (w + (c.batch + (held + []))) + [f];
    assert w + ([] + ([] + [f])) == (w + ([] + ([] + []))) + [f];
  }

  lemma PumpWriteKeeps(injecting: bool, held: seq<Frame>, c: Ctl)
    requires Ordered(injecting, held, c) && c.pending != []
    ensures Ordered(injecting, held, DoPumpWrite(c))
  {
    hide ControllerFrames;
    var w, f := ControllerFrames(c.wire), c.pending[0];
    ControllerFramesAppend(c.wire, FromController(f));
    assert w + ([] + ([] + c.pending)) == (w + [f]) + ([] + ([] + c.pending[1..]));
  }

  lemma FlushKeeps(injecting: bool, held: seq<Frame>, c: Ctl)
    requires Ordered(injecting, held, c) && c.releasing
    ensures c.batch != [] ==> Ordered(injecting, held, DoFlush(c))
    ensures c.batch == [] && held != [] ==> Ordered(injecting, [], c.(batch := held))
    ensures c.batch == [] && held == [] ==> Ordered(false, [], c.(releasing := false))
  {
    var w := ControllerFrames(c.wire);
    if c.batch != [] {
      var f := c.batch[0];
      ControllerFramesAppend(c.wire, FromController(f));
      hide ControllerFrames;
      assert w + (c.batch + (held + c.pending)) == (w + [f]) + (c.batch[1..] + (held + c.pending));
    } else {
      assert w + ([] + (held + c.pending)) == w + (held + ([] + c.pending));
    }
  }

  lemma OtherWriteKeeps(injecting: bool, held: seq<Frame>, c: Ctl, x: MachineWrite)
    requires Ordered(injecting, held, c) && !x.FromController?
    ensures Ordered(injecting, held, CtlWrite(c, x))
  {
    ControllerFramesAppend(c.wire, x);
    assert ControllerFrames(c.wire) + [] == ControllerFrames(c.wire);
  }

  lemma StepOrdered(s: Sys, step: Step)
    requires OrderedSys(s) && Enabled(s, step)
    ensures OrderedSys(Do(s, step))
  {
    hide ControllerFrames, NoteFrame, Route, LocalTransfer, CtlNote, CtlWrite, DoPumpWrite, DoFlush, Divert,
      DoWriteCheck, DoReadStart, ScanAll, CountPolls, Wire;
    match step
    case PumpNote(f) => NoteFacts(s.m, f); NoteKeeps(s.m.injecting, s.m.held, s.c, f);
    case PumpWrite => PumpWriteKeeps(s.m.injecting, s.m.held, s.c);
    case BeginLocal => LocalFacts(s.m);
    case ReleaseTake => FlushKeeps(s.m.injecting, s.m.held, s.c);
    case ReleaseWrite => FlushKeeps(s.m.injecting, s.m.held, s.c);
    case MachineFrame(f) => RouteFacts(s.m, f);
    case OutOfBand(b) => OtherWriteKeeps(s.m.injecting, s.m.held, s.c, Control(b));
    case WriteSend => OtherWriteKeeps(s.m.injecting, s.m.held, s.c, Injected(s.j.writer.p));
    case _ =>
  }

  lemma {:induction false} AlwaysOrdered(steps: seq<Step>)
    requires ValidRun(steps)
    ensures OrderedSys(After(steps))
  {
    hide OrderedSys, Do, Enabled;
    if steps == [] {
      StartOrdered();
    } else {
      AlwaysOrdered(steps[..|steps| - 1]);
      StepOrdered(After(steps[..|steps| - 1]), steps[|steps| - 1]);
    }
  }

  lemma StartOrdered()
    ensures OrderedSys(START)
  {
  }

  /** In every interleaving, what of the controller's frames has reached the machine is a prefix of
      the frames noted, each once and in arrival order; the rest is being flushed, held or pending
      in the pump, in that order; and with no window open and the pump idle, nothing is left. */
  lemma ControllerOrder(steps: seq<Step>)
    requires ValidRun(steps)
    ensures var s := After(steps);
            && ControllerFrames(s.c.wire) + s.c.batch + s.m.held + s.c.pending == s.c.noted
            && ControllerFrames(s.c.wire) <= s.c.noted
            && (!s.m.injecting && s.c.pending == [] ==> ControllerFrames(s.c.wire) == s.c.noted)
  {
    AlwaysOrdered(steps);
    WrittenIsPrefix(After(steps));
  }

  lemma WrittenIsPrefix(s: Sys)
    requires OrderedSys(s)
    ensures ControllerFrames(s.c.wire) + s.c.batch + s.m.held + s.c.pending == s.c.noted
    ensures ControllerFrames(s.c.wire) <= s.c.noted
    ensures !s.m.injecting && s.c.pending == [] ==> ControllerFrames(s.c.wire) == s.c.noted
  {
    hide ControllerFrames;
    var w := ControllerFrames(s.c.wire);
    assert w + s.c.batch + s.m.held + s.c.pending == w + (s.c.batch + (s.m.held + s.c.pending));
  }

  /** The window ends only when the held queue is empty and flushed: every frame noted by then,
      other than one the pump is about to write itself, is on the wire. */
  lemma WindowEndsFlushed(steps: seq<Step>, step: Step)
    requires ValidRun(steps + [step])
    ensures ValidRun(steps) && Enabled(After(steps), step)
    ensures var s, t := After(steps), After(steps + [step]);
            s.m.injecting && !t.m.injecting ==>
              && s.m.held == [] && s.c.batch == []
              && t.c.noted == s.c.noted && ControllerFrames(t.c.wire) + t.c.pending == t.c.noted
  {
    RunStep(steps, step);
    ControllerOrder(steps);
    OnlyTakeEnds(After(steps), step);
    hide *;
    NothingBetween(ControllerFrames(After(steps).c.wire), After(steps).c.pending);
  }

  lemma NothingBetween(w: seq<Frame>, p: seq<Frame>)
    ensures w + [] + [] + p == w + p
  {
  }

  lemma OnlyTakeEnds(s: Sys, step: Step)
    requires Enabled(s, step)
    ensures var t := Do(s, step);
            s.m.injecting && !t.m.injecting ==>
              s.m.held == [] && s.c.batch == [] && t.c == s.c.(releasing := false)
  {
    hide NoteFrame, Route, LocalTransfer, CtlNote, CtlWrite, DoPumpWrite, DoFlush, Divert,
      DoWriteCheck, DoReadStart, ScanAll, CountPolls, Wire;
    match step
    case PumpNote(f) => NoteFacts(s.m, f);
    case BeginLocal => LocalFacts(s.m);
    case MachineFrame(f) => RouteFacts(s.m, f);
    case _ =>
  }

  // ----- The injector's replies: gap-free, or an overflow error -----

  function Raws(fs: seq<Frame>): Bytes {
    if fs == [] then [] else Raws(fs[..|fs| - 1]) + fs[|fs| - 1].raw
  }

  function StatusCount(fs: seq<Frame>): nat {
    if fs == [] then 0 else StatusCount(fs[..|fs| - 1]) + if fs[|fs| - 1].cmd == CMD_STATUS_RES then 1 else 0
  }

  /** In a managed window: what was received and what is queued are, in order, the first frames
      diverted; they are all of them unless the overflow flag is up, and then the channel is
      closed. */
  ghost predicate NoGap(m: State, j: Inj) {
    && j.received + m.queue <= j.diverted
    && (!m.overflow ==> j.received + m.queue == j.diverted && m.open && !m.closed)
    && (m.overflow ==> !m.open && m.closed)
    && !m.abortSet
  }

  /** The bytes read so far are the received frames' bytes, except for a rest kept for the next
      read. */
  ghost predicate BytesMatch(j: Inj) {
    (j.reading ==> j.scanBuf == []) && j.readBytes + j.scanBuf == Raws(j.received)
  }

  /** Polls owed never exceed polls injected, and diverted status reports use them up. */
  ghost predicate PollsCovered(m: State, j: Inj) {
    j.statuses + m.statusPolls <= j.polls && j.statuses == StatusCount(j.diverted)
  }

  /** While a window is open only status reports go to the controller. */
  ghost predicate OnlyStatus(out: seq<Forward>) {
    forall i :: 0 <= i < |out| && out[i].inWindow ==> out[i].f.cmd == CMD_STATUS_RES
  }

  ghost predicate InjectorInv(s: Sys) {
    && BytesMatch(s.j) && OnlyStatus(s.out)
    && (!s.m.injecting || s.m.interactive ==> s.m.statusPolls == 0)
    && (s.m.injecting && !s.m.interactive ==> NoGap(s.m, s.j) && PollsCovered(s.m, s.j))
  }

  lemma DivertKeeps(m: State, j: Inj, f: Frame)
    requires m.injecting && !m.interactive && NoGap(m, j) && PollsCovered(m, j) && !Route(m, f).1
    ensures NoGap(Route(m, f).0, Divert(j, f)) && PollsCovered(Route(m, f).0, Divert(j, f))
  {
    hide Route, StatusCount;
    RouteFacts(m, f);
    assert j.received + (m.queue + [f]) == (j.received + m.queue) + [f];
    assert (j.diverted + [f])[..|j.diverted|] == j.diverted;
    assert StatusCount(j.diverted + [f]) == StatusCount(j.diverted) + if f.cmd == CMD_STATUS_RES then 1 else 0 by {
      StatusCountAppend(j.diverted, f);
    }
  }

  lemma StatusCountAppend(fs: seq<Frame>, f: Frame)
    ensures StatusCount(fs + [f]) == StatusCount(fs) + if f.cmd == CMD_STATUS_RES then 1 else 0
  {
    assert (fs + [f])[..|fs|] == fs;
  }

  lemma RouteKeeps(s: Sys, f: Frame)
    requires InjectorInv(s)
    ensures InjectorInv(DoRoute(s, f))
  {
    hide Route, StatusCount, Raws;
    RouteFacts(s.m, f);
    if s.m.injecting && !s.m.interactive && !Route(s.m, f).1 {
      DivertKeeps(s.m, s.j, f);
    }
  }

  lemma TakeDrop(a: Bytes, b: Bytes, n: nat)
    ensures (a + Take(b, n)) + Drop(b, n) == a + b
  {
  }

  lemma ReadStartKeeps(m: State, j: Inj, n: nat)
    requires BytesMatch(j) && !j.reading
    ensures var k := DoReadStart(m, j, n);
            && BytesMatch(k) && k.diverted == j.diverted && k.received == j.received
            && k.polls == j.polls && k.statuses == j.statuses
  {
    hide Raws, Take, Drop;
    TakeDrop(j.readBytes, j.scanBuf, n);
  }

  lemma ReadTakeKeeps(s: Sys, n: nat)
    requires InjectorInv(s) && s.j.reading && s.m.queue != []
    ensures InjectorInv(DoReadTake(s, n))
  {
    var f, j := s.m.queue[0], s.j;
    TakeDrop(j.readBytes, f.raw, n);
    assert (j.received + [f])[..|j.received|] == j.received;
    assert Raws(j.received + [f]) == Raws(j.received) + f.raw;
    hide Raws, StatusCount, Take, Drop;
    assert j.received + s.m.queue == (j.received + [f]) + s.m.queue[1..];
    assert j.scanBuf + Drop(f.raw, n) == Drop(f.raw, n);
    assert j.readBytes + j.scanBuf == j.readBytes;
  }

  lemma OpenKeeps(s: Sys, interactive: bool)
    requires InjectorInv(s) && !s.m.injecting
    ensures InjectorInv(s.(m := Acquire(s.m, interactive), j := FRESH))
  {
  }

  lemma WriteNoteKeeps(s: Sys, p: Bytes)
    requires InjectorInv(s)
    ensures InjectorInv(DoWriteNote(s, p))
  {
    hide ScanAll, CountPolls, Raws, StatusCount;
  }

  lemma AnswerKeeps(s: Sys)
    requires InjectorInv(s)
    ensures InjectorInv(DoAnswer(s))
  {
    hide Wire, Raws, StatusCount;
  }

  /** Only what the injector's invariant does not depend on differs. */
  ghost predicate Quiet(s: Sys, t: Sys) {
    && t.m == s.m.(open := t.m.open, closed := t.m.closed, abortSet := t.m.abortSet, aborted := t.m.aborted,
                   held := t.m.held, lastStatus := t.m.lastStatus, midXfer := t.m.midXfer)
    && (!s.m.interactive ==> t.m.open == s.m.open && t.m.closed == s.m.closed && t.m.abortSet == s.m.abortSet)
    && t.j == s.j.(writer := t.j.writer, result := t.j.result, reading := t.j.reading)
    && (t.j.reading ==> s.j.reading) && t.out == s.out
  }

  lemma QuietKeeps(s: Sys, t: Sys)
    requires InjectorInv(s) && Quiet(s, t)
    ensures InjectorInv(t)
  {
    hide Raws, StatusCount;
  }

  predicate IsQuiet(step: Step) {
    match step
    case PumpAnswer => false
    case Open(_) => false
    case ReleaseTake => false
    case MachineFrame(_) => false
    case WriteNote => false
    case ReadStart(_) => false
    case ReadTake(_) => false
    case _ => true
  }

  lemma QuietStep(s: Sys, step: Step)
    requires Enabled(s, step) && IsQuiet(step)
    ensures Quiet(s, Do(s, step))
  {
    hide NoteFrame, LocalTransfer, CtlNote, CtlWrite, DoPumpWrite, DoFlush;
    match step
    case PumpNote(f) => NoteQuiet(s.m, f);
    case BeginLocal => LocalQuiet(s.m);
    case _ =>
  }

  lemma EndKeeps(s: Sys)
    requires InjectorInv(s)
    ensures InjectorInv(DoTake(s))
  {
    hide Raws, StatusCount;
  }

  lemma StepInjector(s: Sys, step: Step)
    requires InjectorInv(s) && Enabled(s, step)
    ensures InjectorInv(Do(s, step))
  {
    hide InjectorInv, BytesMatch, Quiet, DoNote, LocalTransfer, DoRoute, DoAnswer, DoWriteNote, DoReadStart, DoReadTake,
      DoTake, DoWriteCheck, CtlNote, CtlWrite, DoPumpWrite, DoFlush, Acquire;
    match step
    case PumpAnswer => AnswerKeeps(s);
    case Open(interactive) => OpenKeeps(s, interactive);
    case ReleaseTake => EndKeeps(s);
    case MachineFrame(f) => RouteKeeps(s, f);
    case WriteNote => WriteNoteKeeps(s, s.j.writer.p);
    case ReadStart(n) => ReadStartInv(s, n);
    case ReadTake(n) => ReadTakeKeeps(s, n);
    case _ =>
      QuietStep(s, step);
      QuietKeeps(s, Do(s, step));
  }

  lemma ReadStartInv(s: Sys, n: nat)
    requires InjectorInv(s) && !s.j.reading
    ensures InjectorInv(s.(j := DoReadStart(s.m, s.j, n)))
  {
    hide DoReadStart, Raws, StatusCount;
    ReadStartKeeps(s.m, s.j, n);
  }

  lemma {:induction false} AlwaysInjectorInv(steps: seq<Step>)
    requires ValidRun(steps)
    ensures InjectorInv(After(steps))
  {
    hide InjectorInv, Do, Enabled;
    if steps == [] {
      StartInjectorInv();
    } else {
      AlwaysInjectorInv(steps[..|steps| - 1]);
      StepInjector(After(steps[..|steps| - 1]), steps[|steps| - 1]);
    }
  }

  lemma StartInjectorInv()
    ensures InjectorInv(START)
  {
  }

  /** A managed injector reads a gap-free prefix of the machine frames diverted to it; if any frame
      was lost, the overflow flag is up. */
  lemma RepliesGapFree(steps: seq<Step>)
    requires ValidRun(steps)
    ensures var s := After(steps);
            s.m.injecting && !s.m.interactive ==>
              && s.j.received <= s.j.diverted
              && s.j.readBytes + s.j.scanBuf == Raws(s.j.received)
              && (s.j.received + s.m.queue != s.j.diverted ==> s.m.overflow)
  {
    hide After, ValidRun, Raws, StatusCount, OnlyStatus;
    AlwaysInjectorInv(steps);
    var s := After(steps);
    assert s.j.received <= s.j.received + s.m.queue;
  }

  /** A frame was diverted in this managed window that its injector can no longer get. */
  ghost predicate Lost(s: Sys) {
    s.m.injecting && !s.m.interactive && s.j.received + s.m.queue != s.j.diverted
  }

  /** What the injector's calls can return after a loss.  A new read gives the bytes kept from the
      last frame, then the overflow error, and a write gives that error.  Only a read that was already
      waiting can still take a frame queued before the loss, or time out. */
  function AfterLoss(s: Sys, step: Step): IOResult {
    match step
    case ReadStart(_) => if s.j.scanBuf != [] then ReadOk else ReadOverflow
    case ReadTake(_) => ReadOk
    case ReadEnd => ReadOverflow
    case ReadExpire => ReadTimeout
    case WriteCheck(_) => WriteOverflow
    case _ => s.j.result
  }

  /** The end of a read that waited. */
  predicate EndsWait(step: Step) {
    step.ReadTake? || step.ReadEnd? || step.ReadExpire?
  }

  /** After a loss, until the window ends: no frame joins what the injector can still read, no read
      begins to wait and no write passes its check, and every call returns what is listed above. */
  lemma LossIsFatal(steps: seq<Step>, step: Step)
    requires ValidRun(steps + [step])
    ensures ValidRun(steps) && Enabled(After(steps), step)
    ensures var s, t := After(steps), After(steps + [step]);
            Lost(s) && t.m.injecting ==>
              && Lost(t)
              && t.j.received + t.m.queue == s.j.received + s.m.queue
              && t.j.result == AfterLoss(s, step)
              && (t.j.reading ==> s.j.reading) && (EndsWait(step) ==> s.j.reading && !t.j.reading)
              && (s.j.writer.WriterIdle? ==> t.j.writer.WriterIdle?)
  {
    hide ValidRun, After, Raws, StatusCount, OnlyStatus, Do;
    RunStep(steps, step);
    AlwaysInjectorInv(steps);
    var s := After(steps);
    if Lost(s) {
      LostStep(s, step);
    }
  }

  lemma LostStep(s: Sys, step: Step)
    requires Enabled(s, step)
    requires Lost(s) && NoGap(s.m, s.j) && s.m.overflow
    ensures var t := Do(s, step);
            t.m.injecting ==>
              && Lost(t)
              && t.j.received + t.m.queue == s.j.received + s.m.queue
              && t.j.result == AfterLoss(s, step)
              && (t.j.reading ==> s.j.reading) && (EndsWait(step) ==> s.j.reading && !t.j.reading)
              && (s.j.writer.WriterIdle? ==> t.j.writer.WriterIdle?)
  {
    hide NoteFrame, Route, LocalTransfer, CtlNote, CtlWrite, DoPumpWrite, DoFlush, ScanAll, CountPolls, Wire, Take,
      Drop;
    match step
    case PumpNote(f) => NoteFacts(s.m, f);
    case BeginLocal => LocalFacts(s.m);
    case MachineFrame(f) => RouteFacts(s.m, f);
    case ReadTake(n) => assert s.j.received + s.m.queue == (s.j.received + [s.m.queue[0]]) + s.m.queue[1..];
    case _ =>
  }

  function Waiting(s: Sys): nat {
    if s.j.reading then 1 else 0
  }

  /** How many waits the steps end. */
  function WaitsEnded(steps: seq<Step>): nat {
    if steps == [] then 0 else WaitsEnded(steps[..|steps| - 1]) + if EndsWait(steps[|steps| - 1]) then 1 else 0
  }

  /** The window is open all along. */
  ghost predicate StaysOpen(steps: seq<Step>, more: seq<Step>)
    requires ValidRun(steps + more)
    decreases |more|
  {
    && After(steps + more).m.injecting
    && (more != [] ==>
          && steps + more[..|more| - 1] == (steps + more)[..|steps + more| - 1]
          && ValidRun(steps + more[..|more| - 1])
          && StaysOpen(steps, more[..|more| - 1]))
  }

  /** From a loss to the end of its window at most one read ends otherwise than a new read does: the
      one that was waiting when the frame was lost, if there was one. */
  lemma {:induction false} OneLateRead(steps: seq<Step>, more: seq<Step>)
    requires ValidRun(steps + more) && ValidRun(steps) && Lost(After(steps)) && StaysOpen(steps, more)
    ensures Lost(After(steps + more))
    ensures WaitsEnded(more) + Waiting(After(steps + more)) <= Waiting(After(steps))
    decreases |more|
  {
    hide Do, Enabled, Lost, ValidRun, After;
    if more == [] {
      assert steps + more == steps;
    } else {
      var before, step := more[..|more| - 1], more[|more| - 1];
      OneLateRead(steps, before);
      assert (steps + before) + [step] == steps + more;
      LossIsFatal(steps + before, step);
    }
  }

  /** The steps stay in the window and end in a timeout. */
  ghost predicate TimesOut(steps: seq<Step>, more: seq<Step>) {
    && ValidRun(steps + more) && StaysOpen(steps, more)
    && more != [] && more[|more| - 1].ReadExpire? && After(steps + more).j.result == ReadTimeout
  }

  /** After any loss a timeout can still come in that window if and only if a read was waiting. */
  lemma TimeoutExactly(steps: seq<Step>)
    requires ValidRun(steps) && Lost(After(steps))
    ensures (exists more :: TimesOut(steps, more)) <==> After(steps).j.reading
  {
    hide ValidRun, After;
    if more :| TimesOut(steps, more) {
      OneLateRead(steps, more);
      LastEnds(more);
    }
    if After(steps).j.reading {
      Snoc(steps, ReadExpire);
      NoneMore(steps);
      assert [ReadExpire][..0] == [] && steps + [] == steps;
      assert TimesOut(steps, [ReadExpire]);
    }
  }

  lemma LastEnds(more: seq<Step>)
    requires more != [] && EndsWait(more[|more| - 1])
    ensures WaitsEnded(more) >= 1
  {
  }

  lemma NoneMore(steps: seq<Step>)
    requires ValidRun(steps) && After(steps).m.injecting
    ensures ValidRun(steps + []) && StaysOpen(steps, [])
  {
    assert steps + [] == steps;
  }

  /** A waiting read, and k machine frames for it. */
  function Flood(f: Frame, k: nat): seq<Step> {
    if k == 0 then [Open(false), ReadStart(1)] else Flood(f, k - 1) + [MachineFrame(f)]
  }

  lemma Snoc(steps: seq<Step>, step: Step)
    requires ValidRun(steps) && Enabled(After(steps), step)
    ensures ValidRun(steps + [step]) && After(steps + [step]) == Do(After(steps), step)
  {
    hide Do, Enabled;
    assert (steps + [step])[..|steps|] == steps;
  }

  /** k frames are queued for a read that waits. */
  ghost predicate Flooded(s: Sys, k: nat) {
    && s.m.injecting && !s.m.interactive && s.m.open && !s.m.overflow && |s.m.queue| == k
    && s.j.reading && s.j.received == [] && |s.j.diverted| == k
  }

  lemma FloodStart()
    ensures ValidRun([Open(false), ReadStart(1)]) && Flooded(After([Open(false), ReadStart(1)]), 0)
  {
    var none: seq<Step> := [];
    assert ValidRun(none) && After(none) == START;
    assert Enabled(START, Open(false)) && Enabled(Do(START, Open(false)), ReadStart(1));
    assert Flooded(Do(Do(START, Open(false)), ReadStart(1)), 0);
    hide ValidRun, After, Do, Enabled, Flooded;
    Snoc(none, Open(false));
    assert none + [Open(false)] == [Open(false)];
    Snoc([Open(false)], ReadStart(1));
    assert [Open(false)] + [ReadStart(1)] == [Open(false), ReadStart(1)];
  }

  lemma FloodStep(s: Sys, f: Frame, k: nat)
    requires Flooded(s, k) && k <= MANAGED_CAPACITY && f.cmd != CMD_STATUS_RES
    ensures Enabled(s, MachineFrame(f))
    ensures var t := Do(s, MachineFrame(f));
            if k < MANAGED_CAPACITY then Flooded(t, k + 1) else Lost(t) && t.j.reading
  {
    hide Route;
    RouteFacts(s.m, f);
    NotForwarded(s.m, f);
  }

  lemma NotForwarded(m: State, f: Frame)
    requires m.injecting && f.cmd != CMD_STATUS_RES
    ensures !Route(m, f).1
  {
  }

  lemma {:induction false} FloodFills(f: Frame, k: nat)
    requires k <= MANAGED_CAPACITY && f.cmd != CMD_STATUS_RES
    ensures ValidRun(Flood(f, k)) && Flooded(After(Flood(f, k)), k)
  {
    hide ValidRun, After, Do, Enabled, Flooded;
    if k == 0 {
      FloodStart();
    } else {
      FloodFills(f, k - 1);
      FloodStep(After(Flood(f, k - 1)), f, k - 1);
      Snoc(Flood(f, k - 1), MachineFrame(f));
    }
  }

  /** So an overflow can reach a waiting read as a timeout, which a console command takes for the end
      of its reply: 257 frames arrive before the read runs, and its deadline passes. */
  lemma TimeoutAfterLoss(f: Frame)
    requires f.cmd != CMD_STATUS_RES
    ensures var lost := Flood(f, MANAGED_CAPACITY + 1);
            && ValidRun(lost) && Lost(After(lost))
            && ValidRun(lost + [ReadExpire]) && After(lost + [ReadExpire]).j.result == ReadTimeout
  {
    hide ValidRun, After, Lost, Flooded;
    var full := Flood(f, MANAGED_CAPACITY);
    FloodFills(f, MANAGED_CAPACITY);
    FloodStep(After(full), f, MANAGED_CAPACITY);
    Snoc(full, MachineFrame(f));
    Snoc(full + [MachineFrame(f)], ReadExpire);
  }

  /** While a window is open only status reports reach the controller, and in a managed window the
      status reports diverted never exceed the polls injected in it. */
  lemma StatusTraffic(steps: seq<Step>)
    requires ValidRun(steps)
    ensures var s := After(steps);
            && (forall i :: 0 <= i < |s.out| && s.out[i].inWindow ==> s.out[i].f.cmd == CMD_STATUS_RES)
            && (s.m.injecting && !s.m.interactive ==> StatusCount(s.j.diverted) <= s.j.polls)
  {
    hide After, ValidRun, Raws, StatusCount;
    AlwaysInjectorInv(steps);
  }
}
