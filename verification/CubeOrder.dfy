/** The cube's return path: every source is handed its completions in the order the controller finished
    them, and a tick leaves none behind for which there is room. */
module CubeOrder {
  import opened Basics
  import opened Geometry
  import opened Controller
  import opened ControllerInvariant
  import opened Routing
  import opened Stacks
  import History
  import Timing
  import WriteDrain

  /** What a sequence holds for one source, in order. */
  function BySource(rs: seq<Request>, source: nat): seq<Request> {
    if rs == [] then []
    else
      var last := rs[|rs| - 1];
      BySource(rs[..|rs| - 1], source) + (if last.source == source then [last] else [])
  }

  lemma BySourceNext(rs: seq<Request>, r: Request, source: nat)
    ensures BySource(rs + [r], source) == BySource(rs, source) + (if r.source == source then [r] else [])
  {
    assert (rs + [r])[..|rs + [r]| - 1] == rs;
  }

  lemma {:induction false} BySourceAppend(a: seq<Request>, b: seq<Request>, source: nat)
    ensures BySource(a + b, source) == BySource(a, source) + BySource(b, source)
    decreases |b|
  {
    if b == [] {
      assert a + b == a;
    } else {
      var before, last := b[..|b| - 1], b[|b| - 1];
      BySourceAppend(a, before, source);
      BySourceNext(a + before, last, source);
      assert a + b == (a + before) + [last];
    }
  }

  /** Handed out before, waiting now: together what the controller gave up for the source, in order. */
  predicate InTurn(c: Cube, handed: seq<Request>, source: nat) {
    BySource(c.ctrl.popped, source) == BySource(handed, source) + QueueFor(c.ready, source)
  }

  lemma CollectOneInTurn(c: Cube, handed: seq<Request>, source: nat)
    requires c.ctrl.halt == Running && c.ctrl.returnq != [] && InTurn(c, handed, source)
    ensures InTurn(CollectOne(c), handed, source)
  {
    BySourceNext(c.ctrl.popped, c.ctrl.returnq[0], source);
    hide BySource;
  }

  lemma {:induction false} CollectInTurn(cfg: Config, c: Cube, handed: seq<Request>, source: nat)
    requires InTurn(c, handed, source)
    ensures InTurn(Collect(cfg, c), handed, source)
    decreases |c.ctrl.returnq|
  {
    hide InTurn;
    if !(c.count >= cfg.returnCapacity || c.ctrl.halt != Running || c.ctrl.returnq == []) {
      CollectOneInTurn(c, handed, source);
      CollectInTurn(cfg, CollectOne(c), handed, source);
    }
  }

  /** Collecting stops only when the return buffer is full or the controller has nothing more. */
  lemma {:induction false} CollectsAllItCan(cfg: Config, c: Cube)
    ensures var d := Collect(cfg, c); d.count >= cfg.returnCapacity || d.ctrl.halt != Running || d.ctrl.returnq == []
    decreases |c.ctrl.returnq|
  {
    if !(c.count >= cfg.returnCapacity || c.ctrl.halt != Running || c.ctrl.returnq == []) { CollectsAllItCan(cfg, CollectOne(c)); }
  }

  lemma PopInTurn(c: Cube, handed: seq<Request>, from: nat, source: nat)
    requires InTurn(c, handed, source) && SourcesOk(c.ready)
    ensures var (d, got) := CubePop(c, from);
      InTurn(d, if got.Some? then handed + [got.value] else handed, source) && (got.None? <==> QueueFor(c.ready, from) == [])
  {
    var (d, got) := CubePop(c, from);
    if got.Some? {
      BySourceNext(handed, got.value, source);
      var q := QueueFor(c.ready, from);
      assert q == [q[0]] + q[1..];
      assert q[0] in q;
    }
    hide BySource;
  }

  // ----- over whole runs --------------------------------------------------------------------------------------

  datatype CubeCall = Enter(request: Request) | Tick | HandOut(source: nat)

  ghost function CubeApply(cfg: Config, c: Cube, call: CubeCall): Cube
    requires cfg.pageSize > 0
  {
    match call
    case Enter(r) => CubePush(cfg, c, r)
    case Tick => CubeCycle(cfg, c)
    case HandOut(source) => CubePop(c, source).0
  }

  /** What one call hands out. */
  function Out(c: Cube, call: CubeCall): seq<Request> {
    if call.HandOut? && CubePop(c, call.source).1.Some? then [CubePop(c, call.source).1.value] else []
  }

  ghost function CubeRun(cfg: Config, c: Cube, calls: seq<CubeCall>): Cube
    requires cfg.pageSize > 0
    decreases |calls|
  {
    if calls == [] then c else CubeRun(cfg, CubeApply(cfg, c, calls[0]), calls[1..])
  }

  ghost function Handed(cfg: Config, c: Cube, calls: seq<CubeCall>): seq<Request>
    requires cfg.pageSize > 0
    decreases |calls|
  {
    if calls == [] then [] else Out(c, calls[0]) + Handed(cfg, CubeApply(cfg, c, calls[0]), calls[1..])
  }

  lemma PushPopped(cfg: Config, s: State, r: Request)
    requires cfg.pageSize > 0
    ensures Push(cfg, s, r).popped == s.popped
  {
    hide Push;
    if s.halt == Running { PushIo(cfg, s, r); } else { PushHalted(cfg, s, r); }
  }

  lemma PushHalted(cfg: Config, s: State, r: Request)
    requires cfg.pageSize > 0 && s.halt != Running
    ensures Push(cfg, s, r) == s
  {
  }

  lemma ApplyInTurn(cfg: Config, c: Cube, handed: seq<Request>, call: CubeCall, source: nat)
    requires cfg.Valid() && CubeOk(cfg, c) && InTurn(c, handed, source)
    ensures InTurn(CubeApply(cfg, c, call), handed + Out(c, call), source)
  {
    hide Inv, History.HistoryOk, Push, Cycle, Collect, BySource, CubePop, Config.Valid;
    match call
    case Enter(r) =>
      PageSize(cfg);
      PushPopped(cfg, c.ctrl, r);
      assert handed + [] == handed;
    case Tick =>
      CycleIo(cfg, c.ctrl);
      CollectInTurn(cfg, c.(ctrl := Cycle(cfg, c.ctrl)), handed, source);
      assert handed + [] == handed;
    case HandOut(from) =>
      PopInTurn(c, handed, from, source);
      assert handed + [] == handed;
  }

  lemma PageSize(cfg: Config)
    requires cfg.Valid()
    ensures cfg.pageSize > 0
  {
  }

  lemma ApplyCubeOk(cfg: Config, c: Cube, call: CubeCall)
    requires cfg.Valid() && CubeOk(cfg, c)
    ensures CubeOk(cfg, CubeApply(cfg, c, call))
  {
    hide CubePush, CubeCycle, CubePop, Held, Inv, History.HistoryOk;
    match call
    case Enter(r) => EnterOk(cfg, c, r);
    case Tick => TickOk(cfg, c);
    case HandOut(source) => CubePopCount(cfg, c, source);
  }

  lemma EnterOk(cfg: Config, c: Cube, r: Request)
    requires cfg.Valid() && CubeOk(cfg, c)
    ensures CubeOk(cfg, CubePush(cfg, c, r))
  {
    hide Inv, History.HistoryOk, Push;
    PushInv(cfg, c.ctrl, r);
    History.PushHistory(cfg, c.ctrl, r);
  }

  lemma TickOk(cfg: Config, c: Cube)
    requires cfg.Valid() && CubeOk(cfg, c)
    ensures CubeOk(cfg, CubeCycle(cfg, c))
  {
    hide Inv, History.HistoryOk, Cycle, Collect, Held;
    CycleInv(cfg, c.ctrl);
    History.CycleHistory(cfg, c.ctrl);
    CollectOk(cfg, c.(ctrl := Cycle(cfg, c.ctrl)));
  }

  lemma {:induction false} RunInTurn(cfg: Config, c: Cube, handed: seq<Request>, calls: seq<CubeCall>, source: nat)
    requires cfg.Valid() && CubeOk(cfg, c) && InTurn(c, handed, source)
    ensures InTurn(CubeRun(cfg, c, calls), handed + Handed(cfg, c, calls), source) && CubeOk(cfg, CubeRun(cfg, c, calls))
    decreases |calls|
  {
    hide CubeOk, InTurn, CubeApply, Out;
    PageSize(cfg);
    if calls == [] {
      assert handed + [] == handed;
    } else {
      var d := CubeApply(cfg, c, calls[0]);
      ApplyCubeOk(cfg, c, calls[0]);
      ApplyInTurn(cfg, c, handed, calls[0], source);
      RunInTurn(cfg, d, handed + Out(c, calls[0]), calls[1..], source);
      assert (handed + Out(c, calls[0])) + Handed(cfg, d, calls[1..]) == handed + Handed(cfg, c, calls);
    }
  }

  /** In any run of a new cube a source is handed its completions in the order the controller finished them,
      none left out: then come the ones waiting for it, then those still in the controller. */
  lemma HandedInOrder(cfg: Config, calls: seq<CubeCall>, source: nat)
    requires cfg.Valid() && CubeRun(cfg, NewCube(cfg), calls).ctrl.halt == Running
    ensures var c := CubeRun(cfg, NewCube(cfg), calls);
      BySource(c.ctrl.completed, source) ==
        BySource(Handed(cfg, NewCube(cfg), calls), source) + QueueFor(c.ready, source) + BySource(c.ctrl.returnq, source)
  {
    hide CubeRun, Handed, Inv, History.AccountedAt;
    var c := CubeRun(cfg, NewCube(cfg), calls);
    NewCubeOk(cfg);
    NewInTurn(cfg, source);
    RunInTurn(cfg, NewCube(cfg), [], calls, source);
    assert [] + Handed(cfg, NewCube(cfg), calls) == Handed(cfg, NewCube(cfg), calls);
    BySourceAppend(c.ctrl.popped, c.ctrl.returnq, source);
  }

  lemma NewInTurn(cfg: Config, source: nat)
    ensures InTurn(NewCube(cfg), [], source)
  {
    InitRuns(cfg);
  }

  // ----- all stacks ---------------------------------------------------------------------------------------------

  /** Whatever the number of stacks and the routing mode, the controller a request is sent to takes it for
      the local page its address is mapped to. */
  lemma StackSeesLocalPage(sc: SystemConfig, r: Request)
    requires sc.Valid()
    ensures sc.device.PageOf(Localized(sc, r).addr) == Locate(sc, r.addr).localPage
  {
    ControllerSeesLocalPage(sc.device, r.addr, sc.capacity, sc.stacks, sc.contiguous, sc.routeAll);
    hide MapRelative, EqualWholeBlocks, LogicalAddress, Config.PageOf, Config.Valid;
  }

  lemma CycleClock(cfg: Config, s: State)
    requires cfg.Valid() && Inv(cfg, s) && s.halt == Running
    ensures Cycle(cfg, s).tick == s.tick + 1
  {
    hide Tables, HaltOk, Config.Valid, MediaHalf, FlushOverdue, FlushEach, ScheduleUpTo, SortedKeys, LastArrival;
    var m := MediaHalf(cfg, s);
    MediaHalfInv(cfg, s);
    WriteDrain.FlushEachWindow(cfg, m, SortedKeys(m.buffer.Keys));
    var t := FlushOverdue(cfg, m, SortedKeys(m.buffer.Keys));
    Timing.ScheduleUpToTick(cfg, t, cfg.MaxActive());
    var u := Schedule(cfg, t);
    WriteDrain.FlushEachWindow(cfg, u, SortedKeys(u.buffer.Keys));
  }

  lemma {:induction false} CollectClock(cfg: Config, c: Cube)
    ensures Collect(cfg, c).ctrl.tick == c.ctrl.tick
    decreases |c.ctrl.returnq|
  {
    if !(c.count >= cfg.returnCapacity || c.ctrl.halt != Running || c.ctrl.returnq == []) { CollectClock(cfg, CollectOne(c)); }
  }

  function Ticks(calls: seq<SystemCall>): nat {
    if calls == [] then 0 else (if calls[0].Tick? then 1 else 0) + Ticks(calls[1..])
  }

  lemma StepClock(sc: SystemConfig, y: System, call: SystemCall, i: nat)
    requires sc.Valid() && SystemOk(sc, y) && Up(y) && i < |y.cubes|
    ensures var t := SystemApply(sc, y, call);
      |t.cubes| == |y.cubes| && t.cubes[i].ctrl.tick == y.cubes[i].ctrl.tick + if call.Tick? then 1 else 0
  {
    hide Inv, Push, Cycle, Collect, CubePop, Locate, Localized, ScanFrom, Counted, Remembered, HoldsEntered, History.HistoryOk, SystemConfig.Valid;
    DeviceValid(sc);
    match call
    case PushRequest(r) =>
      var c := y.cubes[i].ctrl;
      WriteDrain.PushWindow(sc.device, c, Localized(sc, r));
    case Tick =>
      var c := y.cubes[i];
      assert CubeOk(sc.device, c);
      CycleClock(sc.device, c.ctrl);
      CollectClock(sc.device, c.(ctrl := Cycle(sc.device, c.ctrl)));
    case PopFor(source) =>
      if y.cubes != [] {
        var served := ScanFrom(y, source, NextStack(y, source), |y.cubes|);
        if served.Some? { PopClock(y.cubes[served.value], source); }
      }
  }

  lemma PopClock(c: Cube, source: nat)
    ensures CubePop(c, source).0.ctrl == c.ctrl
  {
  }

  lemma DeviceValid(sc: SystemConfig)
    requires sc.Valid()
    ensures sc.device.Valid() && sc.device.pageSize > 0
  {
  }

  /** In any run that keeps going every stack has advanced as often as the system: none is left behind. */
  lemma {:induction false} ClocksAgree(sc: SystemConfig, y: System, calls: seq<SystemCall>, i: nat)
    requires sc.Valid() && SystemInv(sc, y) && Fresh(sc, y, calls) && Up(SystemRun(sc, y, calls)) && i < |y.cubes|
    ensures var t := SystemRun(sc, y, calls); |t.cubes| == |y.cubes| && t.cubes[i].ctrl.tick == y.cubes[i].ctrl.tick + Ticks(calls)
    decreases |calls|
  {
    hide SystemOk, SystemApply, Up, SystemConfig.Valid;
    DeviceValid(sc);
    if calls != [] {
      if !Up(y) { DownStays(sc, y, calls); }
      StepClock(sc, y, calls[0], i);
      SystemApplyOk(sc, y, calls[0]);
      ClocksAgree(sc, SystemApply(sc, y, calls[0]), calls[1..], i);
    }
  }
}
