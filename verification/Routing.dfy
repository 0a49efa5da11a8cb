/** The cube's return buffer and the multi-stack router: addresses are restored, requests are counted,
    and waiting completions are served in turn. */
module Routing {
  import opened Basics
  import opened Geometry
  import opened Controller
  import opened ControllerTables
  import opened ControllerInvariant
  import opened Stacks
  import Ftl
  import History

  const ULLONG_MAX: nat := 0xFFFF_FFFF_FFFF_FFFF

  // ----- one cube -------------------------------------------------------------------------------------

  datatype Cube = Cube(ctrl: State, ready: map<nat, seq<Request>>, count: nat)

  function QueueFor(ready: map<nat, seq<Request>>, source: nat): seq<Request> { if source in ready then ready[source] else [] }

  function NewCube(cfg: Config): Cube { Cube(Init(cfg), map[], 0) }

  /** One completion moves from the controller's FIFO to its source's queue. */
  function CollectOne(c: Cube): Cube
    requires c.ctrl.returnq != []
  {
    var r := c.ctrl.returnq[0];
    Cube(Pop(c.ctrl), c.ready[r.source := QueueFor(c.ready, r.source) + [r]], c.count + 1)
  }

  function Collect(cfg: Config, c: Cube): Cube
    decreases |c.ctrl.returnq|
  {
    if c.count >= cfg.returnCapacity || c.ctrl.halt != Running || c.ctrl.returnq == [] then c else Collect(cfg, CollectOne(c))
  }

  ghost function CubePush(cfg: Config, c: Cube, r: Request): Cube
    requires cfg.pageSize > 0
  {
    c.(ctrl := Push(cfg, c.ctrl, r))
  }

  ghost function CubeCycle(cfg: Config, c: Cube): Cube { Collect(cfg, c.(ctrl := Cycle(cfg, c.ctrl))) }

  function CubePop(c: Cube, source: nat): (Cube, Option<Request>) {
    var q := QueueFor(c.ready, source);
    if q == [] then (c, None)
    else (c.(ready := if |q| == 1 then c.ready - {source} else c.ready[source := q[1..]],
             count := if c.count > 0 then c.count - 1 else 0), Some(q[0]))
  }

  predicate CubeBusy(c: Cube) { HasWork(c.ctrl) || c.ready != map[] }

  function Length(q: seq<Request>): nat { |q| }

  predicate SourcesOk(ready: map<nat, seq<Request>>) {
    forall src :: src in ready ==> ready[src] != [] && forall r :: r in ready[src] ==> r.source == src
  }

  /** The count is the sum of the queue lengths and stays within the capacity; no queue is empty. */
  ghost predicate CubeOk(cfg: Config, c: Cube)
    requires cfg.Valid()
  {
    && Inv(cfg, c.ctrl) && History.HistoryOk(cfg, c.ctrl)
    && c.count == Sum(c.ready, Length) <= cfg.returnCapacity && SourcesOk(c.ready)
  }

  /** How often a request is inside the cube: in its controller or waiting for its source. */
  ghost function Held(c: Cube, x: Request): int {
    (multiset(c.ctrl.pushed)[x] as int) - multiset(c.ctrl.popped)[x] + multiset(QueueFor(c.ready, x.source))[x]
  }

  lemma NewCubeOk(cfg: Config)
    requires cfg.Valid()
    ensures CubeOk(cfg, NewCube(cfg)) && forall x :: Held(NewCube(cfg), x) == 0
  {
    hide Inv, History.Accounted;
    InitInv(cfg);
    History.InitAccounted(cfg);
    InitRuns(cfg);
  }

  lemma InitRuns(cfg: Config)
    ensures Init(cfg).pushed == [] && Init(cfg).popped == [] && Init(cfg).halt == Running
  {
  }

  lemma Appended(q: seq<Request>, r: Request, x: Request)
    ensures multiset(q + [r])[x] == multiset(q)[x] + if x == r then 1 else 0
  {
    assert multiset(q + [r])[x] == multiset(q)[x] + multiset([r])[x];
  }

  lemma CollectOneHeld(c: Cube, x: Request)
    requires c.ctrl.halt == Running && c.ctrl.returnq != []
    ensures Held(CollectOne(c), x) == Held(c, x)
  {
    var r := c.ctrl.returnq[0];
    Appended(c.ctrl.popped, r, x);
    Appended(QueueFor(c.ready, r.source), r, x);
  }

  lemma CollectOneOk(cfg: Config, c: Cube)
    requires cfg.Valid() && CubeOk(cfg, c) && c.ctrl.halt == Running && c.ctrl.returnq != [] && c.count < cfg.returnCapacity
    ensures var d := CollectOne(c); CubeOk(cfg, d) && d.ctrl.pushed == c.ctrl.pushed && forall x :: Held(d, x) == Held(c, x)
  {
    hide Inv, History.HistoryOk, Held;
    var r := c.ctrl.returnq[0];
    PopInv(cfg, c.ctrl);
    History.PopHistory(cfg, c.ctrl);
    SumUpdate(c.ready, r.source, QueueFor(c.ready, r.source) + [r], Length);
    forall x ensures Held(CollectOne(c), x) == Held(c, x) { CollectOneHeld(c, x); }
  }

  lemma {:induction false} CollectOk(cfg: Config, c: Cube)
    requires cfg.Valid() && CubeOk(cfg, c)
    ensures var d := Collect(cfg, c); CubeOk(cfg, d) && d.ctrl.pushed == c.ctrl.pushed && d.ctrl.halt == c.ctrl.halt && forall x :: Held(d, x) == Held(c, x)
    decreases |c.ctrl.returnq|
  {
    hide CubeOk, Held;
    if !(c.count >= cfg.returnCapacity || c.ctrl.halt != Running || c.ctrl.returnq == []) {
      CollectOneOk(cfg, c);
      CollectOk(cfg, CollectOne(c));
    }
  }

  // The controller's own histories: a cycle pushes and pops nothing.

  lemma DeliverOneIo(cfg: Config, s: State, k: nat)
    ensures var t := DeliverOne(cfg, s, k); t.pushed == s.pushed && t.popped == s.popped
  {
    hide Affordable, CacheInsert, LinkBytes;
  }

  lemma {:induction false} DeliverEachIo(cfg: Config, s: State, keys: seq<nat>)
    ensures var t := DeliverEach(cfg, s, keys); t.pushed == s.pushed && t.popped == s.popped
    decreases |keys|
  {
    hide DeliverOne;
    if keys != [] {
      DeliverOneIo(cfg, s, keys[0]);
      DeliverEachIo(cfg, DeliverOne(cfg, s, keys[0]), keys[1..]);
    }
  }

  lemma IssueIo(s: State, page: nat, ch: nat, phys: Phys)
    requires page in s.buffer
    ensures var t := Issue(s, page, ch, phys); t.pushed == s.pushed && t.popped == s.popped
  {
    hide WriteEntry, AddWrite;
  }

  lemma FlushMappedIo(cfg: Config, s: State, page: nat, ch: nat)
    requires page in s.buffer
    ensures var t := FlushMapped(cfg, s, page, ch); t.pushed == s.pushed && t.popped == s.popped
  {
    hide Ftl.TranslateWrite, InChannel, Issue;
    var (f, phys) := Ftl.TranslateWrite(cfg, s.ftl, page);
    if phys.Some? { IssueIo(s.(ftl := f), page, ch, phys.value); }
  }

  lemma FlushIo(cfg: Config, s: State, page: nat, force: bool)
    ensures var t := Flush(cfg, s, page, force); t.pushed == s.pushed && t.popped == s.popped
  {
    hide FlushMapped, DirectAddress, ChannelOf, WriteEntry, AddWrite;
    if s.halt == Running && page in s.buffer && ChannelOf(cfg, page).Some? { FlushMappedIo(cfg, s, page, ChannelOf(cfg, page).value); }
  }

  lemma {:induction false} FlushEachIo(cfg: Config, s: State, pages: seq<nat>)
    ensures var t := FlushEach(cfg, s, pages); t.pushed == s.pushed && t.popped == s.popped
    ensures var t := FlushOverdue(cfg, s, pages); t.pushed == s.pushed && t.popped == s.popped
    decreases |pages|
  {
    hide Flush, Overdue;
    if pages != [] {
      FlushIo(cfg, s, pages[0], false);
      FlushEachIo(cfg, Flush(cfg, s, pages[0], false), pages[1..]);
      FlushEachIo(cfg, s, pages[1..]);
    }
  }

  lemma CycleIo(cfg: Config, s: State)
    ensures var t := Cycle(cfg, s); t.pushed == s.pushed && t.popped == s.popped
  {
    hide AdvanceEach, DeliverEach, FlushOverdue, FlushEach, ScheduleUpTo, LastArrival, BeginTick, ReadyHits, DrainWindow;
    if s.halt == Running {
      var s1 := BeginTick(cfg, s);
      History.BeginTickSame(cfg, s);
      var s2 := AdvanceEach(cfg, s1, SortedKeys(s1.active));
      History.AdvanceEachSame(cfg, s1, SortedKeys(s1.active));
      var s3 := ReadyHits(s2);
      History.ReadyHitsSame(s2);
      var s4 := DeliverEach(cfg, s3, SortedKeys(s3.mshr.Keys));
      DeliverEachIo(cfg, s3, SortedKeys(s3.mshr.Keys));
      History.DrainWindowSame(cfg, s4);
      var s5 := DrainWindow(cfg, s4);
      FlushEachIo(cfg, s5, SortedKeys(s5.buffer.Keys));
      var s6 := FlushOverdue(cfg, s5, SortedKeys(s5.buffer.Keys));
      History.ScheduleUpToSame(cfg, s6, cfg.MaxActive());
      var s7 := Schedule(cfg, s6);
      FlushEachIo(cfg, s7, SortedKeys(s7.buffer.Keys));
    }
  }

  lemma NewMappedReadIo(cfg: Config, s: State, r: Request, page: nat, ch: nat)
    ensures var t := NewMappedRead(cfg, s, r, page, ch); t.pushed == s.pushed && t.popped == s.popped
  {
    hide Ftl.TranslateRead, InChannel, ReadEntry;
  }

  lemma NewReadIo(cfg: Config, s: State, r: Request, page: nat, ch: nat)
    ensures var t := NewRead(cfg, s, r, page, ch); t.pushed == s.pushed && t.popped == s.popped
  {
    hide NewMappedRead, DirectAddress, ReadEntry;
    NewMappedReadIo(cfg, s, r, page, ch);
  }

  lemma PushIo(cfg: Config, s: State, r: Request)
    requires cfg.pageSize > 0 && s.halt == Running
    ensures var t := Push(cfg, s, r); t.pushed == s.pushed + [r] && t.popped == s.popped
  {
    hide ChannelOf, Coverage, Flush, FlushEach, Attached, Coalesced, NewRead, Buffer;
    var page := cfg.PageOf(r.addr);
    var t := s.(pushed := s.pushed + [r]);
    if ChannelOf(cfg, page).Some? {
      if r.isWrite {
        if Coverage(cfg, page, r).Some? {
          var u := AddToBuffer(t, r, page, Coverage(cfg, page, r).value);
          FlushIo(cfg, u, page, false);
          FlushEachIo(cfg, u, SortedKeys(u.buffer.Keys));
        }
      } else {
        FlushIo(cfg, t, page, true);
        NewReadIo(cfg, if page in t.buffer then Flush(cfg, t, page, true) else t, r, page, ChannelOf(cfg, page).value);
      }
    }
  }

  lemma CubeCycleOk(cfg: Config, c: Cube)
    requires cfg.Valid() && CubeOk(cfg, c)
    ensures var d := CubeCycle(cfg, c); CubeOk(cfg, d) && forall x :: Held(d, x) == Held(c, x)
  {
    hide Inv, History.HistoryOk, Cycle, Collect;
    CycleInv(cfg, c.ctrl);
    History.CycleHistory(cfg, c.ctrl);
    CycleIo(cfg, c.ctrl);
    CollectOk(cfg, c.(ctrl := Cycle(cfg, c.ctrl)));
  }

  lemma CubePushOk(cfg: Config, c: Cube, r: Request)
    requires cfg.Valid() && CubeOk(cfg, c) && c.ctrl.halt == Running
    ensures var d := CubePush(cfg, c, r);
      CubeOk(cfg, d) && d.ready == c.ready && forall x :: Held(d, x) == Held(c, x) + if x == r then 1 else 0
  {
    hide Inv, History.HistoryOk, Push;
    PushInv(cfg, c.ctrl, r);
    History.PushHistory(cfg, c.ctrl, r);
    PushIo(cfg, c.ctrl, r);
    var d := CubePush(cfg, c, r);
    forall x ensures Held(d, x) == Held(c, x) + if x == r then 1 else 0 {
      assert multiset(c.ctrl.pushed + [r])[x] == multiset(c.ctrl.pushed)[x] + multiset([r])[x];
      assert multiset([r])[x] == if x == r then 1 else 0;
    }
  }

  lemma CubePopHeld(c: Cube, source: nat, x: Request)
    requires SourcesOk(c.ready)
    ensures var (d, got) := CubePop(c, source); Held(d, x) == Held(c, x) - if got == Some(x) then 1 else 0
  {
    var (d, got) := CubePop(c, source);
    if got.Some? {
      var q := c.ready[source];
      assert q == [q[0]] + q[1..];
      assert multiset([q[0]] + q[1..])[x] == multiset([q[0]])[x] + multiset(q[1..])[x];
      assert QueueFor(d.ready, source) == q[1..];
      if x.source != source { assert x != q[0] by { assert q[0] in q; } }
    }
  }

  lemma CubePopCount(cfg: Config, c: Cube, source: nat)
    requires cfg.Valid() && CubeOk(cfg, c)
    ensures var (d, got) := CubePop(c, source);
      && CubeOk(cfg, d) && d.ctrl == c.ctrl && (got.None? <==> source !in c.ready) && (got.None? ==> d == c)
      && (got.Some? ==> got.value.source == source && got.value in c.ready[source])
      && (forall s :: s != source ==> QueueFor(d.ready, s) == QueueFor(c.ready, s))
  {
    hide Inv, History.HistoryOk;
    if source in c.ready {
      var q := c.ready[source];
      SumRemove(c.ready, source, Length);
      SumUpdate(c.ready, source, q[1..], Length);
      assert q[0] in q;
    }
  }

  /** A pop takes one waiting completion of its source, and nothing else changes. */
  lemma CubePopOk(cfg: Config, c: Cube, source: nat)
    requires cfg.Valid() && CubeOk(cfg, c) && c.ctrl.halt == Running
    ensures var (d, got) := CubePop(c, source);
      && CubeOk(cfg, d) && d.ctrl == c.ctrl && (got.None? <==> source !in c.ready) && (got.None? ==> d == c)
      && (got.Some? ==> got.value.source == source && Held(c, got.value) >= 1)
      && (forall x :: Held(d, x) == Held(c, x) - if got == Some(x) then 1 else 0)
      && (forall s :: s != source ==> QueueFor(d.ready, s) == QueueFor(c.ready, s))
  {
    hide Inv, History.HistoryOk, CubePop, Held;
    CubePopCount(cfg, c, source);
    var (d, got) := CubePop(c, source);
    forall x ensures Held(d, x) == Held(c, x) - if got == Some(x) then 1 else 0 { CubePopHeld(c, source, x); }
    if got.Some? {
      PushedPopped(cfg, c.ctrl, got.value);
      WaitingIsHeld(c, got.value);
    }
  }

  lemma WaitingIsHeld(c: Cube, x: Request)
    requires x.source in c.ready && x in c.ready[x.source] && multiset(c.ctrl.pushed)[x] >= multiset(c.ctrl.popped)[x]
    ensures Held(c, x) >= 1
  {
    assert multiset(c.ready[x.source])[x] > 0;
  }

  /** Nothing is popped that was not pushed. */
  lemma PushedPopped(cfg: Config, s: State, x: Request)
    requires cfg.Valid() && Inv(cfg, s) && History.HistoryOk(cfg, s)
    ensures s.halt == Running ==> multiset(s.pushed)[x] >= multiset(s.popped)[x]
  {
    hide HaltOk, History.Accounted;
    if s.halt == Running {
      InvEntries(cfg, s);
      hide Tables;
      History.Conserved(cfg, s, x);
    }
  }

  lemma InvEntries(cfg: Config, s: State)
    requires Tables(cfg, s)
    ensures EntriesOk(cfg, s.mshr)
  {
    hide EntriesOk, QueueOk, ActiveOk, BufferOk, CreditOk, WritesOk;
  }

  // ----- the system -----------------------------------------------------------------------------------

  /** `device` is one stack's configuration: its size is the per-stack capacity. */
  datatype SystemConfig = SystemConfig(device: Config, stacks: nat, capacity: nat, contiguous: bool, routeAll: bool)
  {
    predicate Valid() {
      && device.Valid() && stacks > 0 && EqualWholeBlocks(capacity, device.pageSize, device.pagesPerBlock, stacks)
      && device.size == capacity / stacks
    }

    predicate Rewrites() { stacks > 1 || routeAll }
  }

  /** `entered` remembers, for each request inside, what was pushed. */
  datatype System = System(
    cubes: seq<Cube>, original: map<nat, nat>, next: map<nat, nat>, routed: seq<nat>, completed: seq<nat>,
    entered: map<nat, Request>, aborted: bool)

  function NewSystem(sc: SystemConfig): System {
    System(seq(sc.stacks, i => NewCube(sc.device)), map[], map[], seq(sc.stacks, i => 0), seq(sc.stacks, i => 0), map[], false)
  }

  function Locate(sc: SystemConfig, address: nat): StackLocation {
    MapRelative(LogicalAddress(address, sc.device.baseAddr, sc.routeAll), sc.capacity, sc.device.pageSize, sc.stacks,
        sc.contiguous)
  }

  /** The request as its stack sees it. */
  function Localized(sc: SystemConfig, r: Request): Request {
    if sc.Rewrites() then r.(addr := sc.device.baseAddr + Locate(sc, r.addr).localOffset) else r
  }

  predicate Up(y: System) { !y.aborted && forall i :: 0 <= i < |y.cubes| ==> y.cubes[i].ctrl.halt == Running }

  ghost function SystemPush(sc: SystemConfig, y: System, r: Request): System
    requires sc.device.pageSize > 0
  {
    var at := Locate(sc, r.addr);
    if at.stack >= |y.cubes| || at.stack >= |y.routed| then y.(aborted := true)
    else if sc.Rewrites() && (r.id in y.original || at.localOffset + sc.device.baseAddr > ULLONG_MAX) then y.(aborted := true)
    else
      y.(cubes := y.cubes[at.stack := CubePush(sc.device, y.cubes[at.stack], Localized(sc, r))],
         original := if sc.Rewrites() then y.original[r.id := r.addr] else y.original,
         routed := y.routed[at.stack := y.routed[at.stack] + 1],
         entered := y.entered[r.id := r])
  }

  ghost function SystemCycle(sc: SystemConfig, y: System): System {
    y.(cubes := seq(|y.cubes|, i requires 0 <= i < |y.cubes| => CubeCycle(sc.device, y.cubes[i])))
  }

  /** Where the round-robin scan for a source starts. */
  function NextStack(y: System, source: nat): (n: nat)
    ensures |y.cubes| > 0 ==> n < |y.cubes|
  {
    if source in y.next && y.next[source] < |y.cubes| then y.next[source] else 0
  }

  predicate Waiting(y: System, stack: nat, source: nat) { stack < |y.cubes| && QueueFor(y.cubes[stack].ready, source) != [] }

  /** First stack with a completion for the source, scanning from `from`; None when all were checked. */
  function ScanFrom(y: System, source: nat, from: nat, left: nat): (r: Option<nat>)
    requires |y.cubes| > 0
    ensures r.Some? ==> Waiting(y, r.value, source)
    decreases left
  {
    if left == 0 then None
    else if Waiting(y, from % |y.cubes|, source) then Some(from % |y.cubes|)
    else ScanFrom(y, source, from + 1, left - 1)
  }

  function SystemPop(sc: SystemConfig, y: System, source: nat): (System, Option<Request>) {
    if y.cubes == [] then (y, None)
    else
      var started := y.(next := y.next[source := NextStack(y, source)]);
      match ScanFrom(y, source, NextStack(y, source), |y.cubes|)
      case None => (started, None)
      case Some(stack) => Serve(sc, y, source, stack)
  }

  /** Take the completion, count it, move the round-robin position past its stack, restore the address. */
  function Serve(sc: SystemConfig, y: System, source: nat, stack: nat): (System, Option<Request>)
    requires Waiting(y, stack, source)
  {
    var (cube, got) := CubePop(y.cubes[stack], source);
    var r := got.value;
    var after := y.(cubes := y.cubes[stack := cube],
                    next := y.next[source := (stack + 1) % |y.cubes|],
                    completed := if stack < |y.completed| then y.completed[stack := y.completed[stack] + 1] else y.completed,
                    original := if sc.Rewrites() then y.original - {r.id} else y.original,
                    entered := y.entered - {r.id},
                    aborted := y.aborted || (sc.Rewrites() && r.id !in y.original));
    (after, Some(if sc.Rewrites() && r.id in y.original then r.(addr := y.original[r.id]) else r))
  }

  predicate SystemBusy(y: System) { (exists i :: 0 <= i < |y.cubes| && CubeBusy(y.cubes[i])) || y.original != map[] }

  // ----- what the system keeps -----------------------------------------------------------------------

  /** The requests inside stack i. */
  function InStack(sc: SystemConfig, entered: map<nat, Request>, i: nat): set<nat> { set id | id in entered && Locate(sc, entered[id].addr).stack == i }

  /** A request is held exactly once, by the stack its address selects, and only if it entered. */
  function Expected(sc: SystemConfig, entered: map<nat, Request>, i: nat, x: Request): int {
    if x.id in entered && x == Localized(sc, entered[x.id]) && Locate(sc, entered[x.id].addr).stack == i then 1 else 0
  }

  ghost predicate HoldsEntered(sc: SystemConfig, y: System) {
    forall i, x :: 0 <= i < |y.cubes| ==> Held(y.cubes[i], x) == Expected(sc, y.entered, i, x)
  }

  predicate Counted(sc: SystemConfig, y: System) {
    && |y.routed| == |y.completed| == |y.cubes| == sc.stacks
    && forall i :: 0 <= i < sc.stacks ==> y.routed[i] == y.completed[i] + |InStack(sc, y.entered, i)|
  }

  predicate Remembered(sc: SystemConfig, y: System) {
    && (forall id :: id in y.entered ==> y.entered[id].id == id)
    && (sc.Rewrites() ==> y.original.Keys == y.entered.Keys && forall id :: id in y.entered ==> y.original[id] == y.entered[id].addr)
    && (!sc.Rewrites() ==> y.original == map[])
  }

  ghost predicate SystemOk(sc: SystemConfig, y: System)
    requires sc.Valid()
  {
    && Counted(sc, y) && Remembered(sc, y) && HoldsEntered(sc, y)
    && forall i :: 0 <= i < |y.cubes| ==> CubeOk(sc.device, y.cubes[i])
  }

  lemma NewSystemOk(sc: SystemConfig)
    requires sc.Valid()
    ensures SystemOk(sc, NewSystem(sc)) && Up(NewSystem(sc))
  {
    hide CubeOk, Held, Locate, Localized, EqualWholeBlocks;
    NewCubeOk(sc.device);
    var y := NewSystem(sc);
    forall i | 0 <= i < sc.stacks ensures InStack(sc, y.entered, i) == {} { }
    InitRuns(sc.device);
  }

  lemma LocateInRange(sc: SystemConfig, address: nat)
    requires sc.Valid()
    ensures Locate(sc, address).stack < sc.stacks
  {
    hide Place, Unplace;
    MapInverse(LogicalAddress(address, sc.device.baseAddr, sc.routeAll), sc.capacity, sc.device.pageSize,
        sc.device.pagesPerBlock, sc.stacks, sc.contiguous);
  }

  lemma CountedPush(sc: SystemConfig, y: System, r: Request)
    requires sc.Valid() && Counted(sc, y) && r.id !in y.entered
    ensures var st := Locate(sc, r.addr).stack;
      st < sc.stacks && Counted(sc, y.(routed := y.routed[st := y.routed[st] + 1], entered := y.entered[r.id := r]))
  {
    hide Locate;
    LocateInRange(sc, r.addr);
    var st := Locate(sc, r.addr).stack;
    var t := y.(routed := y.routed[st := y.routed[st] + 1], entered := y.entered[r.id := r]);
    forall i | 0 <= i < sc.stacks ensures t.routed[i] == t.completed[i] + |InStack(sc, t.entered, i)| {
      if i == st {
        assert InStack(sc, t.entered, i) == InStack(sc, y.entered, i) + {r.id};
      } else {
        assert InStack(sc, t.entered, i) == InStack(sc, y.entered, i);
      }
    }
  }

  lemma CountedPop(sc: SystemConfig, y: System, st: nat, id: nat)
    requires sc.Valid() && Counted(sc, y) && id in y.entered && Locate(sc, y.entered[id].addr).stack == st < sc.stacks
    ensures Counted(sc, y.(completed := y.completed[st := y.completed[st] + 1], entered := y.entered - {id}))
  {
    hide Locate;
    var t := y.(completed := y.completed[st := y.completed[st] + 1], entered := y.entered - {id});
    forall i | 0 <= i < sc.stacks ensures t.routed[i] == t.completed[i] + |InStack(sc, t.entered, i)| {
      if i == st {
        assert id in InStack(sc, y.entered, i);
        assert InStack(sc, t.entered, i) == InStack(sc, y.entered, i) - {id};
      } else {
        assert InStack(sc, t.entered, i) == InStack(sc, y.entered, i);
      }
    }
  }

  lemma LocalizedId(sc: SystemConfig, r: Request)
    ensures Localized(sc, r).id == r.id && Localized(sc, r).source == r.source
    ensures Localized(sc, r).(addr := r.addr) == r
  {
    hide Locate;
  }

  lemma ExpectedPush(sc: SystemConfig, entered: map<nat, Request>, r: Request, i: nat, x: Request)
    requires r.id !in entered
    ensures Expected(sc, entered[r.id := r], i, x) == Expected(sc, entered, i, x) + if i == Locate(sc, r.addr).stack
        && x == Localized(sc, r) then 1 else 0
  {
    hide Locate, Localized;
    LocalizedId(sc, r);
  }

  lemma ExpectedPop(sc: SystemConfig, entered: map<nat, Request>, got: Request, stack: nat, i: nat, x: Request)
    requires Expected(sc, entered, stack, got) == 1
    ensures Expected(sc, entered - {got.id}, i, x) == Expected(sc, entered, i, x) - if i == stack && x == got then 1 else 0
  {
    hide Locate, Localized;
  }

  /** The rewritten address does not fit 64 bits. */
  predicate Overflows(sc: SystemConfig, address: nat) {
    sc.Rewrites() && Locate(sc, address).localOffset + sc.device.baseAddr > ULLONG_MAX
  }

  /** In range mode no address of the range overflows: the stack-local offset never exceeds the logical one. */
  lemma RangeFits(sc: SystemConfig, address: nat)
    requires sc.Valid() && !sc.routeAll && sc.device.baseAddr <= address <= ULLONG_MAX
    ensures !Overflows(sc, address)
  {
    hide Place, Unplace, EqualWholeBlocks;
    MapInverse(LogicalAddress(address, sc.device.baseAddr, sc.routeAll), sc.capacity, sc.device.pageSize,
        sc.device.pagesPerBlock, sc.stacks, sc.contiguous);
  }

  /** A push ends the process exactly if the rewritten address overflows; otherwise the accounts are kept. */
  lemma PushOk(sc: SystemConfig, y: System, r: Request)
    requires sc.Valid() && SystemOk(sc, y) && Up(y) && r.id !in y.entered
    ensures var t := SystemPush(sc, y, r);
      (t.aborted <==> Overflows(sc, r.addr)) && (!t.aborted ==> SystemOk(sc, t))
  {
    hide CubeOk, CubePush, Held, Locate, Localized, EqualWholeBlocks, Expected;
    LocateInRange(sc, r.addr);
    CountedPush(sc, y, r);
    var st := Locate(sc, r.addr).stack;
    CubePushOk(sc.device, y.cubes[st], Localized(sc, r));
    var t := SystemPush(sc, y, r);
    if !t.aborted {
      forall i, x | 0 <= i < |t.cubes| ensures Held(t.cubes[i], x) == Expected(sc, t.entered, i, x) {
        ExpectedPush(sc, y.entered, r, i, x);
        assert Held(y.cubes[i], x) == Expected(sc, y.entered, i, x);
      }
    }
  }

  lemma CycleOk(sc: SystemConfig, y: System)
    requires sc.Valid() && SystemOk(sc, y)
    ensures SystemOk(sc, SystemCycle(sc, y))
  {
    hide CubeOk, CubeCycle, Held, Locate, Localized, EqualWholeBlocks, Expected, InStack;
    var t := SystemCycle(sc, y);
    forall i | 0 <= i < |y.cubes| ensures CubeOk(sc.device, t.cubes[i])
        && forall x :: Held(t.cubes[i], x) == Held(y.cubes[i], x) {
      CubeCycleOk(sc.device, y.cubes[i]);
    }
    forall i, x | 0 <= i < |t.cubes| ensures Held(t.cubes[i], x) == Expected(sc, t.entered, i, x) {
      assert Held(y.cubes[i], x) == Expected(sc, y.entered, i, x);
    }
  }

  /** Serving a completion restores exactly the request that entered under its id. */
  lemma ServeOk(sc: SystemConfig, y: System, source: nat, stack: nat)
    requires sc.Valid() && SystemOk(sc, y) && Up(y) && Waiting(y, stack, source)
    ensures var (t, got) := Serve(sc, y, source, stack);
      && SystemOk(sc, t) && Up(t) && got.Some? && got.value.id in y.entered && got.value == y.entered[got.value.id]
      && got.value.source == source && t.entered == y.entered - {got.value.id}
  {
    hide CubeOk, CubePop, Held, Locate, Localized, EqualWholeBlocks, Expected, InStack;
    var c := y.cubes[stack];
    CubePopOk(sc.device, c, source);
    var (d, taken) := CubePop(c, source);
    SomeWaits(sc.device, c, source);
    var x0 := taken.value;
    assert Held(c, x0) == Expected(sc, y.entered, stack, x0);
    OneExpected(sc, y.entered, stack, x0);
    LocalizedId(sc, y.entered[x0.id]);
    LocalizedPlain(sc, y.entered[x0.id]);
    CountedPop(sc, y, stack, x0.id);
    var t := Serve(sc, y, source, stack).0;
    forall i, x | 0 <= i < |t.cubes| ensures Held(t.cubes[i], x) == Expected(sc, t.entered, i, x) {
      ExpectedPop(sc, y.entered, x0, stack, i, x);
      assert Held(y.cubes[i], x) == Expected(sc, y.entered, i, x);
    }
  }

  lemma LocalizedPlain(sc: SystemConfig, r: Request)
    ensures !sc.Rewrites() ==> Localized(sc, r) == r
  {
    hide Locate;
  }

  lemma SomeWaits(cfg: Config, c: Cube, source: nat)
    requires cfg.Valid() && CubeOk(cfg, c)
    ensures QueueFor(c.ready, source) != [] <==> source in c.ready
  {
    hide Inv, History.HistoryOk;
  }

  lemma OneExpected(sc: SystemConfig, entered: map<nat, Request>, stack: nat, x: Request)
    requires Expected(sc, entered, stack, x) >= 1
    ensures Expected(sc, entered, stack, x) == 1 && x.id in entered && x == Localized(sc, entered[x.id])
        && Locate(sc, entered[x.id].addr).stack == stack
  {
    hide Locate, Localized;
  }

  // ----- round robin ----------------------------------------------------------------------------------

  function Wrap(n: nat, k: nat): nat
    requires n > 0
  {
    k % n
  }

  lemma {:induction false} ScanOrder(y: System, source: nat, from: nat, left: nat) returns (k: nat)
    requires |y.cubes| > 0
    ensures from <= k <= from + left
    ensures forall j :: from <= j < k ==> !Waiting(y, Wrap(|y.cubes|, j), source)
    ensures ScanFrom(y, source, from, left) == if k < from + left then Some(Wrap(|y.cubes|, k)) else None
    ensures k < from + left ==> Waiting(y, Wrap(|y.cubes|, k), source)
    decreases left
  {
    if left == 0 || Waiting(y, from % |y.cubes|, source) {
      k := from;
    } else {
      k := ScanOrder(y, source, from + 1, left - 1);
    }
  }

  /** Steps from the scan's start to a stack. */
  function Distance(n: nat, from: nat, stack: nat): (d: nat)
    requires from < n && stack < n
    ensures d < n
  {
    if stack >= from then stack - from else stack + n - from
  }

  lemma WrapSmall(n: nat, k: nat)
    requires k < 2 * n
    ensures Wrap(n, k) == if k < n then k else k - n
  {
    if k >= n { DivUnique(1, n, k - n); }
  }

  lemma WrapDistance(n: nat, from: nat, stack: nat)
    requires from < n && stack < n
    ensures Wrap(n, from + Distance(n, from, stack)) == stack
  {
    hide Wrap;
    WrapSmall(n, from + Distance(n, from, stack));
  }

  /** After serving the stack reached at step d, the stack at step e > d is e - d - 1 steps away. */
  lemma NextDistance(n: nat, from: nat, stack: nat, k: nat)
    requires from < n && stack < n && from <= k < from + Distance(n, from, stack)
    ensures Distance(n, Wrap(n, Wrap(n, k) + 1), stack) < Distance(n, from, stack)
  {
    WrapSmall(n, k);
    WrapSmall(n, Wrap(n, k) + 1);
  }

  lemma CubePopOther(c: Cube, source: nat, other: nat)
    requires other != source
    ensures QueueFor(CubePop(c, source).0.ready, other) == QueueFor(c.ready, other)
  {
  }

  /** A waiting stack is served by the next pop for its source, or comes strictly closer. */
  lemma PopServesOrNears(sc: SystemConfig, y: System, source: nat, stack: nat)
    requires Waiting(y, stack, source)
    ensures var t := SystemPop(sc, y, source).0; var served := ScanFrom(y, source, NextStack(y, source), |y.cubes|);
      && served.Some? && |t.cubes| == |y.cubes|
      && (served == Some(stack) ||
          (Waiting(t, stack, source) && Distance(|t.cubes|, NextStack(t, source), stack) < Distance(|y.cubes|,
              NextStack(y, source), stack)))
  {
    hide CubePop;
    var n, from := |y.cubes|, NextStack(y, source);
    var k := ScanOrder(y, source, from, n);
    WrapDistance(n, from, stack);
    var at := from + Distance(n, from, stack);
    assert Waiting(y, Wrap(n, at), source);
    assert k <= at;
    if Wrap(n, k) != stack {
      assert k < at;
      NextDistance(n, from, stack, k);
    }
  }

  lemma {:induction false} CollectGrows(cfg: Config, c: Cube, source: nat)
    ensures QueueFor(c.ready, source) != [] ==> QueueFor(Collect(cfg, c).ready, source) != []
    decreases |c.ctrl.returnq|
  {
    if !(c.count >= cfg.returnCapacity || c.ctrl.halt != Running || c.ctrl.returnq == []) { CollectGrows(cfg, CollectOne(c), source); }
  }

  // ----- runs -----------------------------------------------------------------------------------------

  datatype SystemCall = PushRequest(request: Request) | Tick | PopFor(source: nat)

  /** A process that has aborted does nothing more. */
  ghost function SystemApply(sc: SystemConfig, y: System, call: SystemCall): System
    requires sc.device.pageSize > 0
  {
    if !Up(y) then y
    else
      match call
      case PushRequest(r) => SystemPush(sc, y, r)
      case Tick => SystemCycle(sc, y)
      case PopFor(source) => SystemPop(sc, y, source).0
  }

  ghost function SystemRun(sc: SystemConfig, y: System, calls: seq<SystemCall>): System
    requires sc.device.pageSize > 0
    decreases |calls|
  {
    if calls == [] then y else SystemRun(sc, SystemApply(sc, y, calls[0]), calls[1..])
  }

  function PopsFor(calls: seq<SystemCall>, source: nat): nat {
    if calls == [] then 0 else (if calls[0] == PopFor(source) then 1 else 0) + PopsFor(calls[1..], source)
  }

  /** No pop for the source takes from the stack. */
  ghost predicate NeverServes(sc: SystemConfig, y: System, calls: seq<SystemCall>, source: nat, stack: nat)
    requires sc.device.pageSize > 0
    decreases |calls|
  {
    calls == [] || !Up(y) ||
    ((calls[0] == PopFor(source) && |y.cubes| > 0 ==> ScanFrom(y, source, NextStack(y, source), |y.cubes|) != Some(stack))
     && NeverServes(sc, SystemApply(sc, y, calls[0]), calls[1..], source, stack))
  }

  lemma OthersWait(sc: SystemConfig, y: System, call: SystemCall, source: nat, stack: nat)
    requires sc.device.pageSize > 0 && Waiting(y, stack, source) && call != PopFor(source)
    ensures var t := SystemApply(sc, y, call);
      |t.cubes| == |y.cubes| && Waiting(t, stack, source) && NextStack(t, source) == NextStack(y, source)
  {
    hide Cycle, Push, Collect, CubePop, Locate, Localized, ScanFrom;
    match call
    case PushRequest(r) =>
    case Tick => CollectGrows(sc.device, y.cubes[stack].(ctrl := Cycle(sc.device, y.cubes[stack].ctrl)), source);
    case PopFor(other) =>
      if y.cubes != [] {
        var served := ScanFrom(y, other, NextStack(y, other), |y.cubes|);
        if served.Some? { CubePopOther(y.cubes[served.value], other, source); }
      }
  }

  /** Fair returns: whatever else happens, a stack with a completion waiting for a source is passed over
      by fewer pops for that source than there are stacks. */
  lemma {:induction false} FairService(sc: SystemConfig, y: System, calls: seq<SystemCall>, source: nat, stack: nat)
    requires sc.device.pageSize > 0 && Waiting(y, stack, source) && Up(SystemRun(sc, y, calls))
        && NeverServes(sc, y, calls, source, stack)
    ensures PopsFor(calls, source) <= Distance(|y.cubes|, NextStack(y, source), stack) < |y.cubes|
    decreases |calls|
  {
    hide SystemPop, SystemPush, SystemCycle, ScanFrom, Waiting, Distance;
    WaitingInRange(y, stack, source);
    if calls != [] {
      if !Up(y) { DownStays(sc, y, calls); }
      var t := SystemApply(sc, y, calls[0]);
      if calls[0] == PopFor(source) {
        PopServesOrNears(sc, y, source, stack);
      } else {
        OthersWait(sc, y, calls[0], source, stack);
      }
      FairService(sc, t, calls[1..], source, stack);
    }
  }

  lemma WaitingInRange(y: System, stack: nat, source: nat)
    requires Waiting(y, stack, source)
    ensures stack < |y.cubes|
  {
  }

  lemma {:induction false} DownStays(sc: SystemConfig, y: System, calls: seq<SystemCall>)
    requires sc.device.pageSize > 0 && !Up(y)
    ensures SystemRun(sc, y, calls) == y
    decreases |calls|
  {
    hide Up, SystemPush, SystemCycle, SystemPop;
    if calls != [] { DownStays(sc, y, calls[1..]); }
  }

  /** No request is pushed while it is still inside: what the router itself asserts. */
  ghost predicate Fresh(sc: SystemConfig, y: System, calls: seq<SystemCall>)
    requires sc.device.pageSize > 0
    decreases |calls|
  {
    calls == [] || ((calls[0].PushRequest? ==> calls[0].request.id !in y.entered)
        && Fresh(sc, SystemApply(sc, y, calls[0]), calls[1..]))
  }

  ghost predicate SystemInv(sc: SystemConfig, y: System)
    requires sc.Valid()
  {
    Up(y) ==> SystemOk(sc, y)
  }

  lemma PopOk(sc: SystemConfig, y: System, source: nat)
    requires sc.Valid() && SystemOk(sc, y) && Up(y)
    ensures var (t, got) := SystemPop(sc, y, source);
      && SystemOk(sc, t) && Up(t)
      && (got.Some? ==> got.value.id in y.entered && got.value == y.entered[got.value.id] && got.value.source == source && t.entered == y.entered - {got.value.id})
      && (got.None? ==> t.entered == y.entered && forall i :: 0 <= i < |y.cubes| ==> !Waiting(y, i, source))
  {
    hide CubeOk, Held, Expected, InStack, Serve, ScanFrom, Localized, Locate, EqualWholeBlocks;
    if y.cubes != [] {
      var n, from := |y.cubes|, NextStack(y, source);
      var k := ScanOrder(y, source, from, n);
      var served := ScanFrom(y, source, from, n);
      if served.Some? {
        ServeOk(sc, y, source, served.value);
      } else {
        forall i | 0 <= i < n ensures !Waiting(y, i, source) { WrapDistance(n, from, i); }
      }
    }
  }

  lemma SystemApplyOk(sc: SystemConfig, y: System, call: SystemCall)
    requires sc.Valid() && SystemInv(sc, y) && (call.PushRequest? ==> call.request.id !in y.entered)
    ensures SystemInv(sc, SystemApply(sc, y, call))
  {
    hide SystemOk, SystemPush, SystemCycle, SystemPop, SystemConfig.Valid;
    if Up(y) {
      match call
      case PushRequest(r) => PushOk(sc, y, r);
      case Tick => CycleOk(sc, y);
      case PopFor(source) => PopOk(sc, y, source);
    }
  }

  /** Every run keeps the accounts: each request inside is held exactly once, by the stack its address
      selects, and routed minus completed is the number inside, stack by stack. */
  lemma {:induction false} SystemRunOk(sc: SystemConfig, y: System, calls: seq<SystemCall>)
    requires sc.Valid() && SystemInv(sc, y) && Fresh(sc, y, calls)
    ensures SystemInv(sc, SystemRun(sc, y, calls))
    decreases |calls|
  {
    hide SystemInv, SystemApply;
    if calls != [] {
      SystemApplyOk(sc, y, calls[0]);
      SystemRunOk(sc, SystemApply(sc, y, calls[0]), calls[1..]);
    }
  }

  /** Over every run of a new system. */
  lemma ReachableSystem(sc: SystemConfig, calls: seq<SystemCall>)
    requires sc.Valid() && Fresh(sc, NewSystem(sc), calls)
    ensures SystemInv(sc, SystemRun(sc, NewSystem(sc), calls))
  {
    hide SystemOk, SystemRun;
    NewSystemOk(sc);
    SystemRunOk(sc, NewSystem(sc), calls);
  }

  /** In any run, a completion handed to its source is the very request that was pushed under its id,
      address included, and the router's assertions cannot fail. */
  lemma AddressRestored(sc: SystemConfig, calls: seq<SystemCall>, source: nat)
    requires sc.Valid() && Fresh(sc, NewSystem(sc), calls)
    ensures var y := SystemRun(sc, NewSystem(sc), calls); var (t, got) := SystemPop(sc, y, source);
      Up(y) ==> !t.aborted && (got.Some? ==> got.value.id in y.entered && got.value == y.entered[got.value.id] && got.value.source == source)
  {
    hide SystemOk, SystemPop, SystemRun;
    ReachableSystem(sc, calls);
    var y := SystemRun(sc, NewSystem(sc), calls);
    if Up(y) { PopOk(sc, y, source); }
  }

  lemma IdleCubeHoldsNothing(cfg: Config, c: Cube, x: Request)
    requires cfg.Valid() && CubeOk(cfg, c) && c.ctrl.halt == Running && !CubeBusy(c)
    ensures Held(c, x) == 0
  {
    hide Tables, HaltOk, History.AccountedAt;
    InvEntries(cfg, c.ctrl);
    History.Conserved(cfg, c.ctrl, x);
  }

  lemma EnteredIsHeld(sc: SystemConfig, y: System, id: nat) returns (st: nat)
    requires sc.Valid() && SystemOk(sc, y) && id in y.entered
    ensures st < |y.cubes| && Held(y.cubes[st], Localized(sc, y.entered[id])) == 1
  {
    hide CubeOk, Held, Locate, Localized, EqualWholeBlocks;
    var r := y.entered[id];
    LocalizedId(sc, r);
    LocateInRange(sc, r.addr);
    st := Locate(sc, r.addr).stack;
    assert Held(y.cubes[st], Localized(sc, r)) == Expected(sc, y.entered, st, Localized(sc, r));
  }

  /** When no cube is busy nothing is inside: every routed request has completed. */
  lemma IdleSystemIsEmpty(sc: SystemConfig, y: System)
    requires sc.Valid() && SystemOk(sc, y) && Up(y) && !SystemBusy(y)
    ensures y.entered == map[] && y.routed == y.completed
  {
    hide CubeOk, Held, CubeBusy, Locate, Localized, EqualWholeBlocks;
    if y.entered != map[] {
      var id :| id in y.entered;
      var st := EnteredIsHeld(sc, y, id);
      IdleCubeHoldsNothing(sc.device, y.cubes[st], Localized(sc, y.entered[id]));
    }
    forall i | 0 <= i < sc.stacks ensures y.routed[i] == y.completed[i] { assert InStack(sc, y.entered, i) == {}; }
  }
}
