/** The daemon refines the steps: whatever event it handles, its new state and the
    messages it composes are those of one step, and its invariant is kept. Its
    event loop builds a run.
 */
module Daemon {
  import opened Wire
  import opened Routes
  import opened RouterSpec
  import opened RouterInvariant
  import opened RouterRuns
  import opened RipDbs
  import opened Rip
  import RipUpdate
  import HashMaps

  /** An event as the dispatcher sees it, with the outcomes of the system calls it
      will make. */
  datatype Input =
    | Datagram(command: nat, size: nat, buffer: seq<Entry>, sender: U32, ifIndex: nat,
               grants: seq<bool>, socketOk: bool, sent: bool)
    | UpdateTimer(sends: seq<bool>)
    | WarmupTimer(sends: seq<bool>)
    | LockTimer
    | TimeoutTimer(now: int)
    | GcTimer(now: int)
    | EndOfBatch(sends: seq<bool>)
    | Exit(sends: seq<bool>)

  /** A datagram has a header and fits the receive buffer. */
  predicate Received(inp: Input) {
    inp.Datagram? ==>
      && |inp.buffer| == |inp.grants| == RipUpdate.MAX_ENTRIES
      && HEADER_SIZE <= inp.size <= HEADER_SIZE + ENTRY_SIZE * RipUpdate.MAX_ENTRIES
  }

  /** The event can occur: its timer is ticking, and what it sends fits the
      message buffer. */
  ghost predicate Possible(s: State, ifcs: seq<nat>, inp: Input) {
    match inp
    case Datagram(command, _, _, _, ifIndex, _, _, _) =>
      Received(inp) && (command == CMD_REQUEST ==> RipUpdate.FitsBuffer(s.db, ifIndex, false))
    case UpdateTimer(sends) => s.timers.update && |sends| == |ifcs| && RipUpdate.AllFit(s.db, ifcs, false)
    case WarmupTimer(sends) => s.timers.warmup && |sends| == |ifcs|
    case LockTimer => s.timers.lock
    case TimeoutTimer(_) => s.timers.timeout
    case GcTimer(_) => s.timers.gc
    case EndOfBatch(sends) => |sends| == |ifcs| && RipUpdate.AllFit(s.db, ifcs, true)
    case Exit(sends) => |sends| == |ifcs| && RipUpdate.AllFit(Poisoned(s.db), ifcs, false)
  }

  /** The step an event is, given the result of its callback. */
  ghost function EventOf(inp: Input, ret: int): Event
    requires Received(inp)
  {
    match inp
    case Datagram(command, size, buffer, sender, ifIndex, grants, _, _) =>
      var n := EntriesCount(size);
      if command == CMD_RESPONSE then Response(buffer[..n], sender, ifIndex, grants[..n]) else Request(ifIndex)
    case UpdateTimer(_) => UpdateTick(ret == 0)
    case WarmupTimer(_) => WarmupTick
    case LockTimer => LockTick
    case TimeoutTimer(now) => TimeoutTick(now)
    case GcTimer(now) => GcTick(now)
    case EndOfBatch(_) => Check(ret == 0)
    case Exit(_) => Shutdown
  }

  /** Handle one event; `out` are the responses it composes. */
  method Dispatch(r: Router, inp: Input) returns (ret: int, out: seq<Message>)
    requires r.Valid() && Inv(r.Abs()) && Possible(r.Abs(), r.ifcs, inp)
    modifies r, r.kernel, r.db.Repr()
    ensures r.Valid() && fresh(r.db.Repr() - old(r.db.Repr()))
    ensures Step(r.ifcs, old(r.Abs()), EventOf(inp, ret), r.Abs(), out)
    ensures inp.EndOfBatch? && (!Triggers(old(r.Abs())) || false !in inp.sends) ==> ret == 0
    ensures if inp.Exit? then r.kernel.routes == {} else Inv(r.Abs())
  {
    hide HashMaps.HashMap.Valid, RipUpdate.FitsBuffer, Multicasts, Advertises, TimeoutSwept, GcSwept, VisitAll, Completed, StopsAt;
    hide ReceiveResponse, AllHandled, LearnedRoute, LocalRoute, DeadRoute, KernelKeys, DbMarkUnchanged, Poisoned;
    ghost var s := r.Abs();
    match inp {
      case Datagram(command, size, buffer, sender, ifIndex, grants, socketOk, sent) =>
        ret, out := r.HandleMessage(command, size, buffer, sender, ifIndex, grants, socketOk, sent);
      case UpdateTimer(sends) =>
        ret, out := r.UpdateExpired(sends);
      case WarmupTimer(sends) =>
        var requests;
        ret, requests := r.RequestWarmupExpired(sends);
        out := [];
      case LockTimer =>
        r.TriggeredLockExpired();
        ret, out := 0, [];
      case TimeoutTimer(now) =>
        ghost var expired, visits;
        ret, expired, visits := r.TimeoutExpired(now);
        out := [];
      case GcTimer(now) =>
        ret := r.GcExpired(now);
        out := [];
      case EndOfBatch(sends) =>
        ret, out := r.CheckRouteChanged(sends);
      case Exit(sends) =>
        out := r.Cleanup(sends);
        ret := 0;
        CleanupEmptiesKernel(s);
    }
    if !inp.Exit? {
      StepKeepsInv(r.ifcs, s, EventOf(inp, ret), r.Abs(), out);
    }
  }

  // -------------------------------------------------------- the event loop

  /** The router has come to the end of the run `run`. */
  ghost predicate At(r: Router, run: Run)
    reads r, r.kernel, r.db, r.db.ok, r.db.garbage, r.db.ok.buckets, r.db.garbage.buckets
  {
    r.Valid() && IsRun(run) && run.ifcs == r.ifcs && LastState(run) == r.Abs()
  }

  /** Start the daemon; a configuration it cannot use gives no router. */
  method Start(db: RipDb, ifcs: seq<nat>, nets: seq<Network>) returns (r: Router?, ghost run: Run)
    requires db.Valid() && db.Abs() == Db(map[], map[], false)
    requires forall i :: 0 <= i < |nets| ==> nets[i].prefix > 0
    modifies db.Repr()
    ensures r != null <==> WellConfigured(nets)
    ensures r != null ==> fresh(r) && fresh(r.kernel) && r.db == db && fresh(db.Repr() - old(db.Repr()))
    ensures r != null ==> At(r, run) && Live(run) && run.nets == nets && run.events == []
  {
    hide HashMaps.HashMap.Valid, WellConfigured, InitialDb;
    var router := new Router(db, ifcs);
    var ret := router.Begin(nets);
    run := Run(ifcs, nets, [], [], []);
    if ret != 0 {
      return null, run;
    }
    NewRun(ifcs, nets);
    run := Run(ifcs, nets, [InitialState(nets)], [], []);
    r := router;
  }

  /** One callback of a batch. */
  method Callback(r: Router, inp: Input, ghost run: Run) returns (ret: int, out: seq<Message>, ghost run': Run)
    requires At(r, run) && Live(run) && Possible(r.Abs(), r.ifcs, inp) && !inp.EndOfBatch? && !inp.Exit?
    modifies r, r.kernel, r.db.Repr()
    ensures At(r, run') && Live(run') && fresh(r.db.Repr() - old(r.db.Repr()))
    ensures run' == Extended(run, EventOf(inp, ret), r.Abs(), out)
  {
    hide HashMaps.HashMap.Valid, Inv, Step, RipUpdate.AllFit, RipUpdate.FitsBuffer;
    UpInv(run);
    assert Received(inp);
    ret, out := Dispatch(r, inp);
    ExtendRun(run, EventOf(inp, ret), r.Abs(), out);
    run' := Extended(run, EventOf(inp, ret), r.Abs(), out);
  }

  /** The daemon cleans up: a signal has come between two events, or a check has
      failed. */
  method Stop(r: Router, sends: seq<bool>, ghost run: Run) returns (out: seq<Message>, ghost run': Run)
    requires At(r, run) && Up(run) && Possible(r.Abs(), r.ifcs, Exit(sends))
    modifies r, r.kernel, r.db.Repr()
    ensures At(r, run') && fresh(r.db.Repr() - old(r.db.Repr()))
    ensures run' == Extended(run, Shutdown, r.Abs(), out) && r.kernel.routes == {}
  {
    hide HashMaps.HashMap.Valid, Inv, Step, Possible;
    UpInv(run);
    var ret;
    ret, out := Dispatch(r, Exit(sends));
    ExtendRun(run, Shutdown, r.Abs(), out);
    run' := Extended(run, Shutdown, r.Abs(), out);
  }

  /** The end of a batch: the check, and if it fails the loop is left and the daemon
      cleans up at once. */
  method EndBatch(r: Router, sends: seq<bool>, exitSends: seq<bool>, ghost run: Run) returns (running: bool, ghost run': Run)
    requires At(r, run) && Live(run)
    requires Possible(r.Abs(), r.ifcs, EndOfBatch(sends)) && Possible(r.Abs(), r.ifcs, Exit(exitSends))
    modifies r, r.kernel, r.db.Repr()
    ensures At(r, run') && fresh(r.db.Repr() - old(r.db.Repr())) && run'.nets == run.nets
    ensures run.states <= run'.states && run.outs <= run'.outs
    ensures !Triggers(old(r.Abs())) || false !in sends ==> running
    ensures running ==> Live(run') && run'.events == run.events + [Check(true)]
    ensures !running ==> run'.events == run.events + [Check(false), Shutdown] && r.kernel.routes == {}
  {
    hide HashMaps.HashMap.Valid, Inv, Step, IsRun, Possible;
    UpInv(run);
    var ret, out := Dispatch(r, EndOfBatch(sends));
    ExtendRun(run, Check(ret == 0), r.Abs(), out);
    run' := Extended(run, Check(ret == 0), r.Abs(), out);
    running := ret == 0;
    if !running {
      CheckKeepsFit(r.ifcs, LastState(run), r.Abs(), out, exitSends);
      ghost var middle := run';
      out, run' := Stop(r, exitSends, middle);
      assert run'.events == run.events + [Check(false), Shutdown];
    }
  }

  lemma UpInv(run: Run)
    requires Up(run)
    ensures Inv(LastState(run))
  {
    ReachableInv(run, |run.events|);
  }

  /** A check leaves as much to announce on exit as there was. */
  lemma CheckKeepsFit(ifcs: seq<nat>, s: State, s': State, out: seq<Message>, exitSends: seq<bool>)
    requires Step(ifcs, s, Check(false), s', out) && Possible(s, ifcs, Exit(exitSends))
    ensures Possible(s', ifcs, Exit(exitSends))
  {
    hide Multicasts, Swap32;
    var p, p' := Poisoned(s.db), Poisoned(s'.db);
    forall i | 0 <= i < |ifcs|
      ensures RipUpdate.FitsBuffer(p', ifcs[i], false)
    {
      assert RipUpdate.FitsBuffer(p, ifcs[i], false);
      assert Selected(p'.ok, ifcs[i], false) == Selected(p.ok, ifcs[i], false);
      assert Selected(p'.garbage, ifcs[i], false) == Selected(p.garbage, ifcs[i], false);
    }
  }
}
