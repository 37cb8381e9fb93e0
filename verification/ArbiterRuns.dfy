/** Every interleaving of operations, realtime controls and controllers coming and going. */
module ArbiterRuns {
  import opened Arbiter

  type Thread = nat

  /** Where a thread is.  An operation, or a jog lease, holds the operation lock from `OpLocked` to
      `OpLeaving`; a realtime control never takes it. */
  datatype Pc =
    | Idle
    | OpLocked                                      // has the operation lock, mode not read yet
    | OpInjecting                                   // borrows the controller's connection
    | OpOwner                                       // read owner mode
    | OpDialing
    | OpDialed(c: ConnId)                           // about to publish
    | OpDiscard(c: ConnId, reuse: Option<ConnId>)   // about to close the surplus connection
    | OpUsing(c: ConnId)
    | OpDropping(c: ConnId)                         // failed; about to drop its connection
    | OpLeaving
    | CtlDialing
    | CtlDialed(c: ConnId)
    | CtlDiscard(c: ConnId, reuse: Option<ConnId>)
    | CtlWriting(c: ConnId)

  predicate IsOp(pc: Pc) {
    match pc
    case Idle | CtlDialing | CtlDialed(_) | CtlDiscard(_, _) | CtlWriting(_) => false
    case _ => true
  }

  /** The unpublished connection a thread is responsible for. */
  function InFlight(pc: Pc): Option<ConnId> {
    match pc
    case OpDialed(c) => Some(c)
    case OpDiscard(c, _) => Some(c)
    case CtlDialed(c) => Some(c)
    case CtlDiscard(c, _) => Some(c)
    case _ => None
  }

  /** The published connection a thread uses or is about to use. */
  function InUse(pc: Pc): Option<ConnId> {
    match pc
    case OpDiscard(_, reuse) => reuse
    case OpUsing(c) => Some(c)
    case OpDropping(c) => Some(c)
    case CtlDiscard(_, reuse) => reuse
    case CtlWriting(c) => Some(c)
    case _ => None
  }

  /** `dialed[c]` is the thread that dialed connection c; `closes` counts the calls of Close. */
  datatype Sys = Sys(a: State, opMu: Option<Thread>, pcs: map<Thread, Pc>, dialed: seq<Thread>,
                     closes: multiset<ConnId>)

  const START := Sys(INITIAL, None, map[], [], multiset{})

  function At(s: Sys, t: Thread): Pc {
    if t in s.pcs then s.pcs[t] else Idle
  }

  function Go(s: Sys, t: Thread, pc: Pc): Sys {
    s.(pcs := s.pcs[t := pc])
  }

  datatype Step =
    | EnterRelay
    | ExitRelay
    | OpStart(t: Thread)                // takes the operation lock
    | OpMode(t: Thread)                 // reads the mode
    | OpLookup(t: Thread)               // first locked section of acquiring the connection
    | OpDial(t: Thread, ok: bool)
    | OpPublish(t: Thread)              // second locked section
    | OpClose(t: Thread)                // closes the surplus connection
    | OpEnd(t: Thread, broken: bool)    // done with the connection, broken or not
    | OpDrop(t: Thread)
    | OpLeave(t: Thread)                // gives the operation lock back
    | CtlStart(t: Thread)
    | CtlDial(t: Thread, ok: bool)
    | CtlPublish(t: Thread)
    | CtlClose(t: Thread)
    | CtlWrite(t: Thread)

  predicate Enabled(s: Sys, step: Step) {
    match step
    case EnterRelay => true
    case ExitRelay => true
    case OpStart(t) => At(s, t).Idle? && s.opMu == None
    case OpMode(t) => At(s, t).OpLocked?
    case OpLookup(t) => At(s, t).OpOwner?
    case OpDial(t, _) => At(s, t).OpDialing?
    case OpPublish(t) => At(s, t).OpDialed?
    case OpClose(t) => At(s, t).OpDiscard?
    case OpEnd(t, _) => At(s, t).OpUsing? || At(s, t).OpInjecting?
    case OpDrop(t) => At(s, t).OpDropping?
    case OpLeave(t) => At(s, t).OpLeaving?
    case CtlStart(t) => At(s, t).Idle?
    case CtlDial(t, _) => At(s, t).CtlDialing?
    case CtlPublish(t) => At(s, t).CtlDialed?
    case CtlClose(t) => At(s, t).CtlDiscard?
    case CtlWrite(t) => At(s, t).CtlWriting?
  }

  function DoDial(s: Sys, t: Thread, pc: Pc): Sys {
    Go(s, t, pc).(dialed := s.dialed + [t])
  }

  function DoLookup(s: Sys, t: Thread): Sys {
    match Look(s.a)
    case RelayActive => Go(s, t, OpLeaving)
    case Cached(c) => Go(s, t, OpUsing(c))
    case MustDial => Go(s, t, OpDialing)
  }

  function DoStartControl(s: Sys, t: Thread): Sys {
    match Look(s.a)
    case RelayActive => s
    case Cached(c) => Go(s, t, CtlWriting(c))
    case MustDial => Go(s, t, CtlDialing)
  }

  function DoPublish(s: Sys, t: Thread, c: ConnId, op: bool): Sys {
    var a := Publish(s.a, c, op);
    var pc := match Verdict(s.a)
              case Refused => if op then OpDiscard(c, None) else CtlDiscard(c, None)
              case Reuse(e) => if op then OpDiscard(c, Some(e)) else CtlDiscard(c, Some(e))
              case Published => if op then OpUsing(c) else CtlWriting(c);
    Go(s, t, pc).(a := a)
  }

  function DoClose(s: Sys, t: Thread, c: ConnId, pc: Pc): Sys {
    Go(s, t, pc).(closes := s.closes + multiset{c})
  }

  function Dropped(s: Sys, t: Thread, c: ConnId, pc: Pc): Sys {
    Go(s, t, pc).(a := Drop(s.a, c), closes := s.closes + if s.a.ownerConn == Some(c) then multiset{c} else multiset{})
  }

  function Do(s: Sys, step: Step): Sys
    requires Enabled(s, step)
  {
    match step
    case EnterRelay => s.(a := Enter(s.a), closes := s.closes + Closing(s.a.ownerConn))
    case ExitRelay => s.(a := s.a.(mode := Owner))
    case OpStart(t) => Go(s, t, OpLocked).(opMu := Some(t))
    case OpMode(t) => Go(s, t, if s.a.mode == Owner then OpOwner else OpInjecting)
    case OpLookup(t) => DoLookup(s, t)
    case OpDial(t, ok) => if ok then DoDial(s, t, OpDialed(|s.dialed|)) else Go(s, t, OpLeaving)
    case OpPublish(t) => DoPublish(s, t, At(s, t).c, true)
    case OpClose(t) =>
      var pc := At(s, t);
      DoClose(s, t, pc.c, if pc.reuse.Some? then OpUsing(pc.reuse.value) else OpLeaving)
    case OpEnd(t, broken) => Go(s, t, if broken && At(s, t).OpUsing? then OpDropping(At(s, t).c) else OpLeaving)
    case OpDrop(t) => Dropped(s, t, At(s, t).c, OpLeaving)
    case OpLeave(t) => Go(s, t, Idle).(opMu := None)
    case CtlStart(t) => DoStartControl(s, t)
    case CtlDial(t, ok) => if ok then DoDial(s, t, CtlDialed(|s.dialed|)) else Go(s, t, Idle)
    case CtlPublish(t) => DoPublish(s, t, At(s, t).c, false)
    case CtlClose(t) =>
      var pc := At(s, t);
      DoClose(s, t, pc.c, if pc.reuse.Some? then CtlWriting(pc.reuse.value) else Idle)
    case CtlWrite(t) => Go(s, t, Idle)
  }

  /** The steps can be taken one after the other from s. */
  predicate Valid(s: Sys, steps: seq<Step>)
    decreases |steps|
  {
    steps == [] || (Enabled(s, steps[0]) && Valid(Do(s, steps[0]), steps[1..]))
  }

  function Run(s: Sys, steps: seq<Step>): Sys
    requires Valid(s, steps)
    decreases |steps|
  {
    if steps == [] then s else Run(Do(s, steps[0]), steps[1..])
  }

  // ----- The invariant -----

  /** A connection in flight is open, unpublished, and belongs to the thread that dialed it. */
  ghost predicate FlightsOpen(s: Sys) {
    forall t: Thread | InFlight(At(s, t)).Some? ::
      var c := InFlight(At(s, t)).value;
      c < |s.dialed| && s.dialed[c] == t && s.a.ownerConn != Some(c) && s.closes[c] == 0
  }

  /** An open connection that is not published is in flight. */
  ghost predicate OpenIsHeld(s: Sys) {
    forall c | 0 <= c < |s.dialed| && s.closes[c] == 0 && s.a.ownerConn != Some(c) ::
      InFlight(At(s, s.dialed[c])) == Some(c)
  }

  ghost predicate ClosedOnce(s: Sys) {
    forall c: ConnId :: s.closes[c] <= if c < |s.dialed| then 1 else 0
  }

  ghost predicate OwnerOpen(s: Sys) {
    s.a.ownerConn.Some? ==>
      s.a.mode == Owner && s.a.ownerConn.value < |s.dialed| && s.closes[s.a.ownerConn.value] == 0
  }

  ghost predicate WasPublished(s: Sys, c: ConnId) {
    c < |s.dialed| && (s.a.ownerConn == Some(c) || s.closes[c] == 1)
  }

  /** A connection in use has been published: it still is, or it has been closed. */
  ghost predicate UsedWasPublished(s: Sys) {
    forall t: Thread | InUse(At(s, t)).Some? ::
      WasPublished(s, InUse(At(s, t)).value)
  }

  ghost predicate OneOp(s: Sys) {
    && (forall t: Thread | IsOp(At(s, t)) :: s.opMu == Some(t))
    && (s.opMu.Some? ==> IsOp(At(s, s.opMu.value)))
  }

  ghost predicate Inv(s: Sys) {
    FlightsOpen(s) && OpenIsHeld(s) && ClosedOnce(s) && OwnerOpen(s) && UsedWasPublished(s) && OneOp(s)
  }

  lemma OnlyThread(s: Sys, z: Sys, t: Thread, pc: Pc)
    requires z.pcs == s.pcs[t := pc]
    ensures At(z, t) == pc && forall u: Thread | u != t :: At(z, u) == At(s, u)
  {
  }

  lemma SameThreads(s: Sys, z: Sys)
    requires z.pcs == s.pcs
    ensures forall u: Thread :: At(z, u) == At(s, u)
  {
  }

  /** A thread moves on without touching the shared fields. */
  lemma GoKeeps(s: Sys, t: Thread, pc: Pc)
    requires Inv(s) && InFlight(pc) == InFlight(At(s, t)) && IsOp(pc) == IsOp(At(s, t))
    requires InUse(pc).Some? ==> WasPublished(s, InUse(pc).value)
    ensures Inv(Go(s, t, pc))
  {
    hide InFlight, InUse, IsOp, At;
    OnlyThread(s, Go(s, t, pc), t, pc);
  }

  lemma StartKeeps(s: Sys, t: Thread)
    requires Inv(s) && At(s, t).Idle? && s.opMu == None
    ensures Inv(Go(s, t, OpLocked).(opMu := Some(t)))
  {
    OnlyThread(s, Go(s, t, OpLocked).(opMu := Some(t)), t, OpLocked);
    assert InFlight(OpLocked) == None && InUse(OpLocked) == None && IsOp(OpLocked);
    assert InFlight(Idle) == None && InUse(Idle) == None && !IsOp(Idle);
    hide InFlight, InUse, IsOp, At;
  }

  lemma LeaveKeeps(s: Sys, t: Thread)
    requires Inv(s) && At(s, t).OpLeaving?
    ensures Inv(Go(s, t, Idle).(opMu := None))
  {
    OnlyThread(s, Go(s, t, Idle).(opMu := None), t, Idle);
    assert InFlight(OpLeaving) == None && IsOp(OpLeaving);
    assert InFlight(Idle) == None && InUse(Idle) == None && !IsOp(Idle);
    hide InFlight, InUse, IsOp, At;
  }

  lemma DialKeeps(s: Sys, t: Thread, pc: Pc)
    requires Inv(s) && InFlight(At(s, t)) == None && IsOp(pc) == IsOp(At(s, t))
    requires InFlight(pc) == Some(|s.dialed|) && InUse(pc) == None
    ensures Inv(DoDial(s, t, pc))
  {
    hide FlightsOpen, OpenIsHeld, ClosedOnce, OwnerOpen, UsedWasPublished, OneOp, DoDial;
    DialKeepsFlights(s, t, pc);
    DialKeepsUse(s, t, pc);
  }

  lemma DialKeepsFlights(s: Sys, t: Thread, pc: Pc)
    requires FlightsOpen(s) && OpenIsHeld(s) && ClosedOnce(s) && OwnerOpen(s) && InFlight(At(s, t)) == None
    requires InFlight(pc) == Some(|s.dialed|)
    ensures FlightsOpen(DoDial(s, t, pc)) && OpenIsHeld(DoDial(s, t, pc))
  {
    hide InFlight, InUse, IsOp, At;
    OnlyThread(s, DoDial(s, t, pc), t, pc);
  }

  lemma DialKeepsUse(s: Sys, t: Thread, pc: Pc)
    requires ClosedOnce(s) && OwnerOpen(s) && UsedWasPublished(s) && OneOp(s)
    requires IsOp(pc) == IsOp(At(s, t)) && InUse(pc) == None
    ensures var z := DoDial(s, t, pc); ClosedOnce(z) && OwnerOpen(z) && UsedWasPublished(z) && OneOp(z)
  {
    hide InFlight, InUse, IsOp, At;
    OnlyThread(s, DoDial(s, t, pc), t, pc);
  }

  lemma PublishKeeps(s: Sys, t: Thread, op: bool)
    requires Inv(s) && (if op then At(s, t).OpDialed? else At(s, t).CtlDialed?)
    ensures Inv(DoPublish(s, t, At(s, t).c, op))
  {
    hide FlightsOpen, OpenIsHeld, ClosedOnce, OneOp, UsedWasPublished;
    var c := At(s, t).c;
    match Verdict(s.a)
    case Refused => GoKeeps(s, t, if op then OpDiscard(c, None) else CtlDiscard(c, None));
    case Reuse(e) => GoKeeps(s, t, if op then OpDiscard(c, Some(e)) else CtlDiscard(c, Some(e)));
    case Published => PublishedKeeps(s, t, c, if op then OpUsing(c) else CtlWriting(c), Publish(s.a, c, op).generation);
  }

  lemma PublishedKeeps(s: Sys, t: Thread, c: ConnId, pc: Pc, g: nat)
    requires Inv(s) && s.a.mode == Owner && s.a.ownerConn == None
    requires InFlight(At(s, t)) == Some(c) && InFlight(pc) == None && InUse(pc) == Some(c) && IsOp(pc) == IsOp(At(s, t))
    ensures Inv(Go(s, t, pc).(a := State(Owner, Some(c), g)))
  {
    hide InFlight, InUse, IsOp, At;
    OnlyThread(s, Go(s, t, pc).(a := State(Owner, Some(c), g)), t, pc);
  }

  lemma CloseKeeps(s: Sys, t: Thread, c: ConnId, pc: Pc)
    requires Inv(s) && InFlight(At(s, t)) == Some(c) && InFlight(pc) == None && IsOp(pc) == IsOp(At(s, t))
    requires InUse(pc) == None || InUse(pc) == InUse(At(s, t))
    ensures Inv(DoClose(s, t, c, pc))
  {
    hide InFlight, InUse, IsOp, At;
    OnlyThread(s, DoClose(s, t, c, pc), t, pc);
  }

  lemma DropKeeps(s: Sys, t: Thread, c: ConnId, pc: Pc)
    requires Inv(s) && InFlight(At(s, t)) == None && IsOp(At(s, t))
    requires IsOp(pc) && InFlight(pc) == None && InUse(pc) == None
    ensures Inv(Dropped(s, t, c, pc))
  {
    hide InFlight, InUse, IsOp, At;
    OnlyThread(s, Dropped(s, t, c, pc), t, pc);
  }

  lemma EnterKeeps(s: Sys)
    requires Inv(s)
    ensures Inv(Do(s, EnterRelay))
  {
    hide InFlight, InUse, IsOp, At;
    SameThreads(s, Do(s, EnterRelay));
  }

  lemma ExitKeeps(s: Sys)
    requires Inv(s)
    ensures Inv(Do(s, ExitRelay))
  {
    hide InFlight, InUse, IsOp, At;
    SameThreads(s, Do(s, ExitRelay));
  }

  lemma StepKeeps(s: Sys, step: Step)
    requires Inv(s) && Enabled(s, step)
    ensures Inv(Do(s, step))
  {
    hide DoDial, DoClose, DoPublish, Dropped, FlightsOpen, OpenIsHeld, ClosedOnce, OneOp;
    match step
    case EnterRelay => EnterKeeps(s);
    case ExitRelay => ExitKeeps(s);
    case OpStart(t) => StartKeeps(s, t);
    case OpMode(t) => GoKeeps(s, t, if s.a.mode == Owner then OpOwner else OpInjecting);
    case OpLookup(t) => LookKeeps(s, t);
    case OpDial(t, ok) => DialKeeps(s, t, OpDialed(|s.dialed|)); GoKeeps(s, t, OpLeaving);
    case OpPublish(t) => PublishKeeps(s, t, true);
    case OpClose(t) =>
      var pc := At(s, t);
      CloseKeeps(s, t, pc.c, if pc.reuse.Some? then OpUsing(pc.reuse.value) else OpLeaving);
    case OpEnd(t, broken) => GoKeeps(s, t, if broken && At(s, t).OpUsing? then OpDropping(At(s, t).c) else OpLeaving);
    case OpDrop(t) => DropKeeps(s, t, At(s, t).c, OpLeaving);
    case OpLeave(t) => LeaveKeeps(s, t);
    case CtlStart(t) => LookKeeps(s, t);
    case CtlDial(t, ok) => DialKeeps(s, t, CtlDialed(|s.dialed|)); GoKeeps(s, t, Idle);
    case CtlPublish(t) => PublishKeeps(s, t, false);
    case CtlClose(t) =>
      var pc := At(s, t);
      CloseKeeps(s, t, pc.c, if pc.reuse.Some? then CtlWriting(pc.reuse.value) else Idle);
    case CtlWrite(t) => GoKeeps(s, t, Idle);
  }

  lemma LookKeeps(s: Sys, t: Thread)
    requires Inv(s)
    ensures At(s, t).OpOwner? ==> Inv(DoLookup(s, t))
    ensures At(s, t).Idle? ==> Inv(DoStartControl(s, t))
  {
    hide FlightsOpen, OpenIsHeld, ClosedOnce, OneOp, UsedWasPublished;
    var pc := At(s, t);
    if pc.OpOwner? {
      match Look(s.a)
      case RelayActive => GoKeeps(s, t, OpLeaving);
      case Cached(c) => GoKeeps(s, t, OpUsing(c));
      case MustDial => GoKeeps(s, t, OpDialing);
    }
    if pc.Idle? {
      match Look(s.a)
      case RelayActive =>
      case Cached(c) => GoKeeps(s, t, CtlWriting(c));
      case MustDial => GoKeeps(s, t, CtlDialing);
    }
  }

  lemma {:induction false} RunKeeps(s: Sys, steps: seq<Step>)
    requires Inv(s) && Valid(s, steps)
    ensures Inv(Run(s, steps))
    decreases |steps|
  {
    hide Inv, Do, Enabled;
    if steps != [] {
      StepKeeps(s, steps[0]);
      RunKeeps(Do(s, steps[0]), steps[1..]);
    }
  }

  lemma StartInv()
    ensures Inv(START)
  {
  }

  // ----- What holds in every run -----

  /** Thread t is responsible for connection c, which it dialed and has not published. */
  ghost predicate Holds(s: Sys, t: Thread, c: ConnId) {
    InFlight(At(s, t)) == Some(c)
  }

  /** In every run each dialed connection is exactly one of: in flight with one thread, published,
      or closed, and then once; relay mode means that nothing is published; and only one operation
      at a time is past the operation lock. */
  lemma ConnectionFate(steps: seq<Step>, c: ConnId)
    requires Valid(START, steps)
    ensures var s := Run(START, steps);
            && (c < |s.dialed| ==>
                  || (Holds(s, s.dialed[c], c) && s.a.ownerConn != Some(c) && s.closes[c] == 0)
                  || (s.a.ownerConn == Some(c) && s.closes[c] == 0 && !exists t: Thread :: Holds(s, t, c))
                  || (s.closes[c] == 1 && s.a.ownerConn != Some(c) && !exists t: Thread :: Holds(s, t, c)))
            && (c >= |s.dialed| ==> s.closes[c] == 0 && s.a.ownerConn != Some(c) && !exists t: Thread :: Holds(s, t, c))
            && (forall t: Thread, u: Thread :: Holds(s, t, c) && Holds(s, u, c) ==> t == u)
  {
    hide Run, Valid, InFlight, InUse, IsOp, OneOp, UsedWasPublished, At;
    StartInv();
    RunKeeps(START, steps);
  }

  lemma RelayHasNoOwner(steps: seq<Step>)
    requires Valid(START, steps)
    ensures var s := Run(START, steps); s.a.mode == Relay ==> s.a.ownerConn == None
    ensures forall t: Thread, u: Thread :: IsOp(At(Run(START, steps), t)) && IsOp(At(Run(START, steps), u)) ==> t == u
  {
    hide Run, Valid, InFlight, InUse, IsOp, FlightsOpen, OpenIsHeld, UsedWasPublished, At;
    StartInv();
    RunKeeps(START, steps);
  }

  /** The thread a step belongs to. */
  function Actor(step: Step): Option<Thread> {
    match step
    case EnterRelay => None
    case ExitRelay => None
    case _ => Some(step.t)
  }

  /** The published connection is lost only to a controller arriving or to an operation that holds
      the operation lock, used this very connection, and found it broken; it is then closed.  An
      operation that fails late, after its connection was replaced, changes nothing. */
  lemma OnlyOwnFailureDrops(s: Sys, step: Step, d: ConnId)
    requires Inv(s) && Enabled(s, step) && s.a.ownerConn == Some(d)
    ensures var z := Do(s, step);
            z.a.ownerConn != Some(d) ==>
              && z.a.ownerConn == None && z.closes[d] == 1
              && (step == EnterRelay || (step.OpDrop? && At(s, step.t) == OpDropping(d) && s.opMu == Some(step.t)))
    ensures step.OpDrop? && At(s, step.t) != OpDropping(d) ==>
              Do(s, step).a == s.a && Do(s, step).closes == s.closes
  {
    hide FlightsOpen, OpenIsHeld, UsedWasPublished, InFlight, InUse, ClosedOnce;
  }

  /** Once an operation uses the published connection, nothing but a controller arriving or the
      operation itself can take it away. */
  lemma OperationKeepsItsConnection(s: Sys, step: Step, t: Thread, c: ConnId)
    requires Inv(s) && Enabled(s, step) && At(s, t) == OpUsing(c) && s.a.ownerConn == Some(c)
    requires step != EnterRelay && Actor(step) != Some(t)
    ensures var z := Do(s, step); z.a.ownerConn == Some(c) && At(z, t) == OpUsing(c) && z.closes[c] == 0
  {
    hide FlightsOpen, OpenIsHeld, UsedWasPublished, InFlight, InUse, ClosedOnce;
    StepKeeps(s, step);
    OnlyOwnFailureDrops(s, step, c);
  }

  lemma ClosesGrow(s: Sys, step: Step, c: ConnId)
    requires Enabled(s, step)
    ensures Do(s, step).closes[c] >= s.closes[c]
  {
    hide Look, Verdict, Publish, At, Enter;
  }

  lemma ClosedStays(s: Sys, step: Step, c: ConnId)
    requires Inv(s) && Enabled(s, step) && s.closes[c] == 1
    ensures Do(s, step).closes[c] == 1 && Do(s, step).a.ownerConn != Some(c)
  {
    hide Do, Enabled, FlightsOpen, OpenIsHeld, UsedWasPublished, OneOp;
    StepKeeps(s, step);
    ClosesGrow(s, step, c);
  }

  lemma {:induction false} ClosedForGood(s: Sys, steps: seq<Step>, c: ConnId)
    requires Inv(s) && Valid(s, steps) && s.closes[c] == 1
    ensures Run(s, steps).closes[c] == 1 && Run(s, steps).a.ownerConn != Some(c)
    decreases |steps|
  {
    hide FlightsOpen, OpenIsHeld, UsedWasPublished, OneOp, Do, Enabled;
    if steps != [] {
      StepKeeps(s, steps[0]);
      ClosedStays(s, steps[0], c);
      ClosedForGood(Do(s, steps[0]), steps[1..], c);
    }
  }

  /** Each connection is published at most for one stretch of a run: if it was once published and no
      longer is, it has been closed and never comes back. */
  lemma {:induction false} NeverRepublished(s: Sys, steps: seq<Step>, more: seq<Step>, c: ConnId)
    requires Inv(s) && Valid(s, steps) && Valid(Run(s, steps), more)
    requires s.a.ownerConn == Some(c) && Run(s, steps).a.ownerConn != Some(c)
    ensures Run(s, steps).closes[c] == 1
    ensures Run(Run(s, steps), more).a.ownerConn != Some(c) && Run(Run(s, steps), more).closes[c] == 1
    decreases |steps|
  {
    hide FlightsOpen, OpenIsHeld, UsedWasPublished, OneOp, Do, Enabled;
    var z := Do(s, steps[0]);
    StepKeeps(s, steps[0]);
    if z.a.ownerConn == Some(c) {
      NeverRepublished(z, steps[1..], more, c);
    } else {
      OnlyOwnFailureDrops(s, steps[0], c);
      ClosedForGood(z, steps[1..], c);
      RunKeeps(z, steps[1..]);
      ClosedForGood(Run(s, steps), more, c);
    }
  }

  // ----- Generations -----

  /** The step starts a fresh conversation of the proxy's own. */
  predicate StartsConversation(s: Sys, step: Step)
    requires Enabled(s, step)
  {
    Do(s, step).a.ownerConn.Some? && Do(s, step).a.ownerConn != s.a.ownerConn
  }

  /** The generation changes exactly when a controller arrives or an operation publishes; so a fresh
      conversation changes it if and only if no realtime control started it. */
  lemma GenerationChanges(s: Sys, step: Step)
    requires Inv(s) && Enabled(s, step) && s.a.generation < GENERATIONS
    ensures var z := Do(s, step);
            && z.a.generation < GENERATIONS
            && (z.a.generation != s.a.generation <==>
                  step == EnterRelay || (StartsConversation(s, step) && step.OpPublish?))
    ensures StartsConversation(s, step) ==>
              && (step.OpPublish? || step.CtlPublish?)
              && (Do(s, step).a.generation != s.a.generation <==> !step.CtlPublish?)
  {
    hide FlightsOpen, OpenIsHeld, UsedWasPublished, InFlight, InUse, OneOp;
  }

  /** In relay mode nobody dials, or uses a connection of the proxy's own: an operation that finds it gives up, and
      so does a realtime control.  In owner mode both use the connection there is, and dial only if there is
      none. */
  lemma LookupOutcome(s: Sys, t: Thread)
    ensures At(s, t).OpOwner? ==>
              var z := Do(s, OpLookup(t));
              && z.a == s.a && z.closes == s.closes
              && At(z, t) == if s.a.mode == Relay then OpLeaving
                             else if s.a.ownerConn.Some? then OpUsing(s.a.ownerConn.value) else OpDialing
    ensures At(s, t).Idle? ==>
              var z := Do(s, CtlStart(t));
              && z.a == s.a && z.closes == s.closes
              && At(z, t) == if s.a.mode == Relay then Idle
                             else if s.a.ownerConn.Some? then CtlWriting(s.a.ownerConn.value) else CtlDialing
  {
  }

  /** What becomes of a connection an operation has dialed: published and used, in owner mode while there is
      none; otherwise closed, and the operation goes on with the one there is, if there is one. */
  lemma DialOutcome(s: Sys, t: Thread)
    requires At(s, t).OpDialed?
    ensures var c, z := At(s, t).c, Do(s, OpPublish(t));
            if s.a.mode == Owner && s.a.ownerConn == None then
              z.a.ownerConn == Some(c) && At(z, t) == OpUsing(c) && z.closes == s.closes
            else
              && Enabled(z, OpClose(t))
              && var y := Do(z, OpClose(t));
                 && y.a == s.a && y.closes == s.closes + multiset{c}
                 && At(y, t) == if s.a.mode == Owner then OpUsing(s.a.ownerConn.value) else OpLeaving
  {
  }

  /** The same of a realtime control. */
  lemma ControlDialOutcome(s: Sys, t: Thread)
    requires At(s, t).CtlDialed?
    ensures var c, z := At(s, t).c, Do(s, CtlPublish(t));
            if s.a.mode == Owner && s.a.ownerConn == None then
              z.a.ownerConn == Some(c) && At(z, t) == CtlWriting(c) && z.closes == s.closes
            else
              && Enabled(z, CtlClose(t))
              && var y := Do(z, CtlClose(t));
                 && y.a == s.a && y.closes == s.closes + multiset{c}
                 && At(y, t) == if s.a.mode == Owner then CtlWriting(s.a.ownerConn.value) else Idle
  {
  }

  /** No realtime control starts a conversation on the way. */
  predicate NoControlStarts(s: Sys, steps: seq<Step>)
    requires Valid(s, steps)
    decreases |steps|
  {
    steps == [] || (!(StartsConversation(s, steps[0]) && steps[0].CtlPublish?)
                    && NoControlStarts(Do(s, steps[0]), steps[1..]))
  }

  /** How often the generation is raised on the way. */
  function Raises(s: Sys, steps: seq<Step>): (n: nat)
    requires Valid(s, steps)
    ensures n <= |steps|
    decreases |steps|
  {
    if steps == [] then 0
    else Raises(Do(s, steps[0]), steps[1..]) + if Do(s, steps[0]).a.generation != s.a.generation then 1 else 0
  }

  lemma StepGeneration(s: Sys, step: Step)
    requires Inv(s) && Enabled(s, step) && s.a.generation < GENERATIONS
    ensures var z := Do(s, step); z.a.generation == s.a.generation || z.a.generation == NextGeneration(s.a.generation)
    ensures var z := Do(s, step);
            z.a.generation == s.a.generation && !(StartsConversation(s, step) && step.CtlPublish?) ==>
              z.a.ownerConn == s.a.ownerConn || z.a.ownerConn == None
  {
    hide FlightsOpen, OpenIsHeld, UsedWasPublished, InFlight, InUse, OneOp;
  }

  lemma NextThenMore(g: nat, n: nat)
    ensures (NextGeneration(g) + n) % GENERATIONS == (g + n + 1) % GENERATIONS
  {
  }

  lemma {:induction false} GenerationCounts(s: Sys, steps: seq<Step>)
    requires Inv(s) && Valid(s, steps) && s.a.generation < GENERATIONS
    ensures Run(s, steps).a.generation == (s.a.generation + Raises(s, steps)) % GENERATIONS
    ensures NoControlStarts(s, steps) && Raises(s, steps) == 0 ==>
              Run(s, steps).a.ownerConn == s.a.ownerConn || Run(s, steps).a.ownerConn == None
    decreases |steps|
  {
    hide Inv, Do, Enabled, StartsConversation, NextGeneration;
    if steps != [] {
      var z := Do(s, steps[0]);
      StepKeeps(s, steps[0]);
      StepGeneration(s, steps[0]);
      GenerationChanges(s, steps[0]);
      GenerationCounts(z, steps[1..]);
      NextThenMore(s.a.generation, Raises(z, steps[1..]));
    }
  }

  lemma RaisedIsDifferent(g: nat, n: nat)
    requires g < GENERATIONS && 0 < n < GENERATIONS
    ensures (g + n) % GENERATIONS != g
  {
  }

  /** Over any stretch shorter than the counter's range in which no realtime control starts a
      conversation, the generation tells conversations apart. */
  lemma SameGenerationSameConversation(s: Sys, steps: seq<Step>)
    requires Inv(s) && Valid(s, steps) && s.a.generation < GENERATIONS
    requires |steps| < GENERATIONS && NoControlStarts(s, steps)
    requires s.a.ownerConn.Some? && Run(s, steps).a.ownerConn.Some? && Run(s, steps).a.ownerConn != s.a.ownerConn
    ensures Run(s, steps).a.generation != s.a.generation
  {
    hide FlightsOpen, OpenIsHeld, UsedWasPublished, OneOp, ClosedOnce, Do, Enabled, NextGeneration;
    GenerationCounts(s, steps);
    if Raises(s, steps) > 0 {
      RaisedIsDifferent(s.a.generation, Raises(s, steps));
    }
  }

  lemma Cons(s: Sys, step: Step, rest: seq<Step>)
    requires Enabled(s, step) && Valid(Do(s, step), rest)
    ensures Valid(s, [step] + rest) && Run(s, [step] + rest) == Run(Do(s, step), rest)
  {
    hide Do, Enabled;
    assert ([step] + rest)[1..] == rest;
  }

  const FIRST: seq<Step> := [OpStart(0), OpMode(0), OpLookup(0), OpDial(0, true), OpPublish(0)]
  const SECOND: seq<Step> := [OpEnd(0, true), OpDrop(0), OpLeave(0), CtlStart(1), CtlDial(1, true), CtlPublish(1)]
  const PUBLISHED := Sys(State(Owner, Some(0), 1), Some(0), map[0 := OpUsing(0)], [0], multiset{})
  const DROPPED := Sys(State(Owner, None, 1), None, map[0 := Idle], [0], multiset{0})

  lemma FirstConversation()
    ensures Valid(START, FIRST) && Run(START, FIRST) == PUBLISHED
  {
    var a := State(Owner, None, 0);
    var s1 := Sys(a, Some(0), map[0 := OpLocked], [], multiset{});
    var s2 := s1.(pcs := map[0 := OpOwner]);
    var s3 := s1.(pcs := map[0 := OpDialing]);
    var s4 := s1.(pcs := map[0 := OpDialed(0)], dialed := [0]);
    hide Do, Enabled, Valid, Run;
    OperationLooks(s1, s2, s3);
    OperationDials(s3, s4);
    Nothing(PUBLISHED);
    Cons(s4, FIRST[4], []);
    Cons(s3, FIRST[3], FIRST[4..]);
    Cons(s2, FIRST[2], FIRST[3..]);
    Cons(s1, FIRST[1], FIRST[2..]);
    Cons(START, FIRST[0], FIRST[1..]);
  }

  lemma OperationLooks(s1: Sys, s2: Sys, s3: Sys)
    requires s1 == Sys(State(Owner, None, 0), Some(0), map[0 := OpLocked], [], multiset{})
    requires s2 == s1.(pcs := map[0 := OpOwner]) && s3 == s1.(pcs := map[0 := OpDialing])
    ensures Enabled(START, OpStart(0)) && Enabled(s1, OpMode(0)) && Enabled(s2, OpLookup(0))
    ensures Do(START, OpStart(0)) == s1 && Do(s1, OpMode(0)) == s2 && Do(s2, OpLookup(0)) == s3
  {
  }

  lemma OperationDials(s3: Sys, s4: Sys)
    requires s3 == Sys(State(Owner, None, 0), Some(0), map[0 := OpDialing], [], multiset{})
    requires s4 == s3.(pcs := map[0 := OpDialed(0)], dialed := [0])
    ensures Enabled(s3, OpDial(0, true)) && Enabled(s4, OpPublish(0))
    ensures Do(s3, OpDial(0, true)) == s4 && Do(s4, OpPublish(0)) == PUBLISHED
  {
  }

  lemma Nothing(s: Sys)
    ensures Valid(s, []) && Run(s, []) == s
  {
  }

  lemma OperationEnds()
    ensures Valid(PUBLISHED, SECOND[..3]) && Run(PUBLISHED, SECOND[..3]) == DROPPED
  {
    var t1 := PUBLISHED.(pcs := map[0 := OpDropping(0)]);
    var t2 := t1.(a := State(Owner, None, 1), pcs := map[0 := OpLeaving], closes := multiset{0});
    assert Enabled(PUBLISHED, OpEnd(0, true)) && Enabled(t1, OpDrop(0)) && Enabled(t2, OpLeave(0));
    assert Do(PUBLISHED, OpEnd(0, true)) == t1 && Do(t1, OpDrop(0)) == t2 && Do(t2, OpLeave(0)) == DROPPED;
    hide Do, Enabled, Valid, Run;
    Nothing(DROPPED);
    Cons(t2, SECOND[2], []);
    Cons(t1, SECOND[1], SECOND[2..3]);
    Cons(PUBLISHED, SECOND[0], SECOND[1..3]);
  }

  lemma ControlStarts()
    ensures Valid(DROPPED, SECOND[3..]) && Run(DROPPED, SECOND[3..]).a == State(Owner, Some(1), 1)
  {
    var t4 := DROPPED.(pcs := map[0 := Idle, 1 := CtlDialing]);
    var t5 := DROPPED.(pcs := map[0 := Idle, 1 := CtlDialed(1)], dialed := [0, 1]);
    var t6 := t5.(pcs := map[0 := Idle, 1 := CtlWriting(1)], a := State(Owner, Some(1), 1));
    hide Do, Enabled, Valid, Run;
    ControlDials(t4, t5);
    ControlPublishes(t5, t6);
    Nothing(t6);
    Cons(t5, SECOND[5], []);
    Cons(t4, SECOND[4], SECOND[5..]);
    Cons(DROPPED, SECOND[3], SECOND[4..]);
  }

  lemma ControlDials(t4: Sys, t5: Sys)
    requires t4 == DROPPED.(pcs := map[0 := Idle, 1 := CtlDialing])
    requires t5 == DROPPED.(pcs := map[0 := Idle, 1 := CtlDialed(1)], dialed := [0, 1])
    ensures Enabled(DROPPED, CtlStart(1)) && Enabled(t4, CtlDial(1, true))
    ensures Do(DROPPED, CtlStart(1)) == t4 && Do(t4, CtlDial(1, true)) == t5
  {
  }

  lemma ControlPublishes(t5: Sys, t6: Sys)
    requires t5 == DROPPED.(pcs := map[0 := Idle, 1 := CtlDialed(1)], dialed := [0, 1])
    requires t6 == t5.(pcs := map[0 := Idle, 1 := CtlWriting(1)], a := State(Owner, Some(1), 1))
    ensures Enabled(t5, CtlPublish(1)) && Do(t5, CtlPublish(1)) == t6
  {
  }

  lemma {:induction false} Concat(s: Sys, first: seq<Step>, more: seq<Step>)
    requires Valid(s, first) && Valid(Run(s, first), more)
    ensures Valid(s, first + more) && Run(s, first + more) == Run(Run(s, first), more)
    decreases |first|
  {
    hide Do, Enabled;
    if first == [] {
      assert first + more == more;
    } else {
      Concat(Do(s, first[0]), first[1..], more);
      assert (first + more)[1..] == first[1..] + more;
    }
  }

  lemma SecondConversation()
    ensures Valid(PUBLISHED, SECOND) && Run(PUBLISHED, SECOND).a == State(Owner, Some(1), 1)
  {
    hide Run, Valid;
    OperationEnds();
    ControlStarts();
    Concat(PUBLISHED, SECOND[..3], SECOND[3..]);
    assert SECOND == SECOND[..3] + SECOND[3..];
  }

  /** An operation's connection breaks and a realtime control dials the next one: two conversations
      under one generation. */
  lemma TwoConversationsOneGeneration()
    ensures Valid(START, FIRST) && Valid(Run(START, FIRST), SECOND)
    ensures var s, z := Run(START, FIRST), Run(Run(START, FIRST), SECOND);
            && s.a.ownerConn == Some(0) && z.a.ownerConn == Some(1)
            && s.a.generation == z.a.generation
  {
    hide Run, Valid;
    FirstConversation();
    SecondConversation();
  }
}
