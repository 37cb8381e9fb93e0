/** The injection multiplexer: one machine connection shared by the controller and, for a while, by
    an injected operation.  Each method here is one section under the mutex. */
module RelayMux {
  import Crc
  import opened Framing

  const CMD_CTRL_SINGLE: bv8 := 0xA1
  const CMD_FILE_START: bv8 := 0xB0
  const CMD_FILE_END: bv8 := 0xB4
  const CMD_FILE_CANCEL: bv8 := 0xB5
  const CMD_STATUS_RES: bv8 := 0x81

  const MANAGED_CAPACITY: nat := 256
  const INTERACTIVE_CAPACITY: nat := 128

  /** A single-character `?` query. */
  predicate IsStatusPoll(f: Frame) {
    f.cmd == CMD_CTRL_SINGLE && f.data == [0x3F]
  }

  /** The multiplexer's fields.  `open` says that the inject channel is set; `queue` and `closed`
      are the contents and the state of the current window's channel, which a reader may still
      hold after the field was cleared.  `abortSet` says that the abort channel is set. */
  datatype State = State(
    injecting: bool, interactive: bool,
    open: bool, queue: seq<Frame>, closed: bool,
    overflow: bool, statusPolls: nat,
    abortSet: bool, aborted: bool,
    held: seq<Frame>, lastStatus: Bytes, midXfer: bool)

  const INITIAL := State(false, false, false, [], true, false, 0, false, false, [], [], false)

  function Capacity(s: State): nat {
    if s.interactive then INTERACTIVE_CAPACITY else MANAGED_CAPACITY
  }

  function AbortInteractive(s: State): State {
    if !s.abortSet then s
    else if s.open then s.(abortSet := false, aborted := true, open := false, closed := true)
    else s.(abortSet := false, aborted := true)
  }

  function TrackTransfer(s: State, cmd: bv8): State {
    if cmd == CMD_FILE_START then s.(midXfer := true)
    else if cmd == CMD_FILE_END || cmd == CMD_FILE_CANCEL then s.(midXfer := false)
    else s
  }

  /** A controller frame: the new state and whether to forward it now. */
  function NoteFrame(s: State, f: Frame): (State, bool) {
    var t := TrackTransfer(s, f.cmd);
    if !t.injecting then (t, true)
    else if IsStatusPoll(f) then (t, false)
    else
      var u := if t.interactive then AbortInteractive(t) else t;
      (u.(held := u.held + [f]), false)
  }

  function Deliver(s: State, f: Frame): State {
    if !s.open then s
    else if |s.queue| < Capacity(s) then s.(queue := s.queue + [f])
    else if s.interactive then s
    else s.(overflow := true, open := false, closed := true)
  }

  /** A machine frame: the new state and whether it goes to the controller. */
  function Route(s: State, f: Frame): (State, bool) {
    var t := if f.cmd == CMD_STATUS_RES then s.(lastStatus := f.data) else s;
    if !t.injecting then (t, true)
    else if f.cmd == CMD_STATUS_RES then
      if t.interactive then (Deliver(t, f), false)
      else if t.statusPolls > 0 then (Deliver(t.(statusPolls := t.statusPolls - 1), f), false)
      else (t, true)
    else (Deliver(t, f), false)
  }

  function Acquire(s: State, interactive: bool): State {
    s.(injecting := true, interactive := interactive, open := true, queue := [], closed := false,
       overflow := false, abortSet := interactive, aborted := false)
  }

  function EndWindow(s: State): State {
    s.(injecting := false, interactive := false, statusPolls := 0, open := false, closed := true,
       aborted := s.aborted || s.abortSet, abortSet := false)
  }

  datatype MachineWrite = FromController(f: Frame) | Injected(p: Bytes) | Control(c: bv8)

  function AsWrites(fs: seq<Frame>): (w: seq<MachineWrite>)
    ensures |w| == |fs|
  {
    if fs == [] then [] else AsWrites(fs[..|fs| - 1]) + [FromController(fs[|fs| - 1])]
  }

  datatype AcquireResult = Acquired | Busy

  class Mux {
    var injecting: bool
    var interactive: bool
    var open: bool
    var queue: seq<Frame>
    var closed: bool
    var overflow: bool
    var statusPolls: nat
    var abortSet: bool
    var aborted: bool
    var heldController: seq<Frame>
    var lastStatus: Bytes
    var controllerMidXfer: bool
    /** Everything written to the machine, in order. */
    var wire: seq<MachineWrite>

    function Abs(): State
      reads this
    {
      State(injecting, interactive, open, queue, closed, overflow, statusPolls, abortSet, aborted,
            heldController, lastStatus, controllerMidXfer)
    }

    constructor ()
      ensures Abs() == INITIAL && wire == []
    {
      injecting, interactive, open, queue, closed := false, false, false, [], true;
      overflow, statusPolls, abortSet, aborted := false, 0, false, false;
      heldController, lastStatus, controllerMidXfer, wire := [], [], false, [];
    }

    method NoteControllerFrame(f: Frame) returns (forward: bool)
      modifies this
      ensures (Abs(), forward) == NoteFrame(old(Abs()), f) && wire == old(wire)
    {
      if f.cmd == CMD_FILE_START {
        controllerMidXfer := true;
      } else if f.cmd == CMD_FILE_END || f.cmd == CMD_FILE_CANCEL {
        controllerMidXfer := false;
      }
      if !injecting {
        return true;
      }
      if IsStatusPoll(f) {
        return false;
      }
      if interactive {
        AbortInteractiveLocked();
      }
      heldController := heldController + [f];
      return false;
    }

    method AbortInteractiveLocked()
      modifies this
      ensures Abs() == AbortInteractive(old(Abs())) && wire == old(wire)
    {
      if !abortSet {
        return;
      }
      aborted := true;
      abortSet := false;
      if open {
        closed := true;
        open := false;
      }
    }

    /** The cached status report, as a frame for the controller; empty if none was seen. */
    method CachedStatusFrame(table: seq<bv16>) returns (out: Bytes)
      requires Crc.IsTable(table)
      ensures out == if lastStatus == [] then [] else Wire(CMD_STATUS_RES, lastStatus)
    {
      if |lastStatus| == 0 {
        return [];
      }
      out := Encode(table, CMD_STATUS_RES, lastStatus);
    }

    method BeginLocalControllerTransfer() returns (ok: bool)
      modifies this
      ensures ok == !old(controllerMidXfer) && wire == old(wire)
      ensures Abs() == if !ok then old(Abs())
                       else (if old(interactive) then AbortInteractive(old(Abs())) else old(Abs())).(midXfer := true)
    {
      if controllerMidXfer {
        return false;
      }
      if interactive {
        AbortInteractiveLocked();
      }
      controllerMidXfer := true;
      return true;
    }

    method FinishLocalControllerTransfer()
      modifies this
      ensures Abs() == old(Abs()).(midXfer := false) && wire == old(wire)
    {
      controllerMidXfer := false;
    }

    method AcquireInjection() returns (r: AcquireResult)
      modifies this
      ensures r.Busy? <==> old(injecting) || old(controllerMidXfer)
      ensures Abs() == if r.Busy? then old(Abs()) else Acquire(old(Abs()), false)
      ensures wire == old(wire)
    {
      if injecting {
        return Busy;
      }
      if controllerMidXfer {
        return Busy;
      }
      injecting, interactive := true, false;
      open, queue, closed := true, [], false;
      overflow := false;
      abortSet, aborted := false, false;
      return Acquired;
    }

    method AcquireInteractive() returns (r: AcquireResult)
      modifies this
      ensures r.Busy? <==> old(injecting) || old(controllerMidXfer)
      ensures Abs() == if r.Busy? then old(Abs()) else Acquire(old(Abs()), true)
      ensures wire == old(wire)
    {
      if injecting {
        return Busy;
      }
      if controllerMidXfer {
        return Busy;
      }
      injecting, interactive := true, true;
      open, queue, closed := true, [], false;
      overflow := false;
      abortSet, aborted := true, false;
      return Acquired;
    }

    /** One locked section of the release: the next batch to flush, or the end of the window. */
    method TakeHeld() returns (batch: seq<Frame>, done: bool)
      modifies this
      ensures done <==> old(heldController) == []
      ensures batch == old(heldController) && wire == old(wire)
      ensures Abs() == if done then EndWindow(old(Abs())) else old(Abs()).(held := [])
    {
      batch := heldController;
      heldController := [];
      done := |batch| == 0;
      if done {
        injecting, interactive, statusPolls := false, false, 0;
        open, closed := false, true;
        if abortSet {
          aborted := true;
        }
        abortSet := false;
      }
    }

    /** Writes a batch of held frames to the machine, outside the mutex. */
    method Flush(batch: seq<Frame>)
      modifies this`wire
      ensures wire == old(wire) + AsWrites(batch)
    {
      for i := 0 to |batch|
        invariant wire == old(wire) + AsWrites(batch[..i])
      {
        assert batch[..i + 1][..i] == batch[..i];
        wire := wire + [FromController(batch[i])];
      }
      assert batch[..|batch|] == batch;
    }

    /** The release as a whole, when no controller frame arrives during it. */
    method ReleaseInjection()
      modifies this
      ensures wire == old(wire) + AsWrites(old(heldController))
      ensures Abs() == EndWindow(old(Abs()).(held := []))
    {
      var batch, done := TakeHeld();
      while !done
        invariant !done ==> heldController == [] && Abs() == old(Abs()).(held := [])
        invariant !done ==> wire + AsWrites(batch) == old(wire) + AsWrites(old(heldController))
        invariant done ==> wire == old(wire) + AsWrites(old(heldController))
        invariant done ==> Abs() == EndWindow(old(Abs()).(held := []))
        decreases !done, |batch|
      {
        Flush(batch);
        batch, done := TakeHeld();
      }
    }

    method RouteMachineFrame(f: Frame) returns (forward: bool)
      modifies this
      ensures (Abs(), forward) == Route(old(Abs()), f) && wire == old(wire)
    {
      if f.cmd == CMD_STATUS_RES {
        lastStatus := f.data;
      }
      if !injecting {
        return true;
      }
      if f.cmd == CMD_STATUS_RES {
        if interactive {
          DeliverInjectLocked(f);
          return false;
        }
        if statusPolls > 0 {
          statusPolls := statusPolls - 1;
          DeliverInjectLocked(f);
          return false;
        }
        return true;
      }
      DeliverInjectLocked(f);
      return false;
    }

    method DeliverInjectLocked(f: Frame)
      modifies this
      ensures Abs() == Deliver(old(Abs()), f) && wire == old(wire)
    {
      if !open {
        return;
      }
      if |queue| < (if interactive then INTERACTIVE_CAPACITY else MANAGED_CAPACITY) {
        queue := queue + [f];
      } else {
        if interactive {
          return;
        }
        overflow := true;
        closed := true;
        open := false;
      }
    }
  }
}
