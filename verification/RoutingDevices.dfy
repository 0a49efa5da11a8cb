/** The cube and the multi-stack router as mutable objects over controller objects: every method and loop
    computes the transition of Routing it is named after. */
module RoutingDevices {
  import opened Basics
  import opened Geometry
  import opened Controller
  import opened Routing
  import opened Stacks
  import ControllerDevice

  class CubeDevice {
    const ctrl: ControllerDevice.Device
    var ready: map<nat, seq<Request>>
    var count: nat

    ghost function Objects(): set<object> { {this, ctrl, ctrl.ftl, ctrl.cache} }

    ghost predicate Valid()
      reads ctrl, ctrl.cache
    {
      ctrl.Valid()
    }

    ghost function Contents(): Cube
      reads this, ctrl, ctrl.ftl, ctrl.cache
    {
      Cube(ctrl.Contents(), ready, count)
    }

    constructor (cfg: Config)
      requires cfg.pageSize > 0
      ensures Valid() && fresh(Objects()) && ctrl.cfg == cfg && Contents() == NewCube(cfg)
    {
      ctrl := new ControllerDevice.Device(cfg);
      ready, count := map[], 0;
    }

    method Push(r: Request)
      requires Valid()
      modifies Objects()
      ensures Valid() && Contents() == CubePush(ctrl.cfg, old(Contents()), r)
    {
      hide Controller.Push, ControllerDevice.Device.Contents;
      ctrl.Push(r);
    }

    /** One completion moves from the controller's FIFO to its source's queue. */
    method TakeReturn()
      requires Valid() && ctrl.halt == Running && ctrl.returnq != []
      modifies Objects()
      ensures Valid() && Contents() == CollectOne(old(Contents()))
    {
      hide Pop;
      var r := ctrl.PopReturn();
      ready := ready[r.value.source := (if r.value.source in ready then ready[r.value.source] else []) + [r.value]];
      count := count + 1;
    }

    /** `collect_returns`. */
    method CollectReturns()
      requires Valid()
      modifies Objects()
      ensures Valid() && Contents() == Collect(ctrl.cfg, old(Contents()))
    {
      hide CollectOne, Pop;
      while count < ctrl.cfg.returnCapacity && ctrl.halt == Running && ctrl.returnq != []
        invariant Valid() && Collect(ctrl.cfg, Contents()) == Collect(ctrl.cfg, old(Contents()))
        decreases |ctrl.returnq|
      {
        TakenShortens(Contents());
        TakeReturn();
      }
    }

    method Cycle()
      requires Valid()
      modifies Objects()
      ensures Valid() && Contents() == CubeCycle(ctrl.cfg, old(Contents()))
    {
      hide Controller.Cycle, Collect, ControllerDevice.Device.Contents;
      ctrl.Cycle();
      CollectReturns();
    }

    /** `pop_return_for`. */
    method PopReturnFor(source: nat) returns (r: Option<Request>)
      modifies this
      ensures (Contents(), r) == CubePop(old(Contents()), source)
    {
      hide ControllerDevice.Device.Contents;
      if source !in ready || ready[source] == [] { return None; }
      var q := ready[source];
      ready := if |q| == 1 then ready - {source} else ready[source := q[1..]];
      if count > 0 { count := count - 1; }
      return Some(q[0]);
    }

    predicate Busy()
      reads this, ctrl, ctrl.ftl, ctrl.cache
      ensures Busy() == CubeBusy(Contents())
    {
      ctrl.Busy() || ready != map[]
    }
  }

  /** The cubes share no object. */
  ghost predicate Apart(a: CubeDevice, b: CubeDevice) {
    a != b && a.ctrl != b.ctrl && a.ctrl.ftl != b.ctrl.ftl && a.ctrl.cache != b.ctrl.cache
  }

  class SystemDevice {
    const sc: SystemConfig
    const cubes: seq<CubeDevice>
    var original: map<nat, nat>
    var next: map<nat, nat>
    var routed: seq<nat>
    var completed: seq<nat>
    ghost var entered: map<nat, Request>
    var aborted: bool

    ghost const objects: set<object>

    /** The stacks are distinct devices, each with its own controller, FTL and page cache. */
    ghost predicate Valid()
      reads objects
    {
      && this !in objects && sc.device.pageSize > 0
      && (forall i :: 0 <= i < |cubes| ==>
           && cubes[i] in objects && cubes[i].ctrl in objects && cubes[i].ctrl.ftl in objects && cubes[i].ctrl.cache in objects
           && cubes[i].Valid() && cubes[i].ctrl.cfg == sc.device)
      && (forall i, j :: 0 <= i < j < |cubes| ==>
           Apart(cubes[i], cubes[j]))
    }

    ghost function Stacks(): (r: seq<Cube>)
      requires Valid()
      reads objects
      ensures |r| == |cubes| && forall i :: 0 <= i < |cubes| ==> r[i] == cubes[i].Contents()
    {
      seq(|cubes|, i requires 0 <= i < |cubes| reads objects => cubes[i].Contents())
    }

    ghost function Contents(): System
      requires Valid()
      reads this, objects
    {
      System(Stacks(), original, next, routed, completed, entered, aborted)
    }

    constructor (config: SystemConfig)
      requires config.device.pageSize > 0
      ensures Valid() && fresh(objects) && sc == config && Contents() == NewSystem(config)
    {
      var made: seq<CubeDevice> := [];
      ghost var owned: set<object> := {};
      while |made| < config.stacks
        invariant |made| <= config.stacks && fresh(owned)
        invariant forall i :: 0 <= i < |made| ==>
          && made[i] in owned && made[i].ctrl in owned && made[i].ctrl.ftl in owned && made[i].ctrl.cache in owned
          && made[i].Valid() && made[i].ctrl.cfg == config.device && made[i].Contents() == NewCube(config.device)
        invariant forall i, j :: 0 <= i < j < |made| ==> Apart(made[i], made[j])
      {
        var cube := new CubeDevice(config.device);
        made := made + [cube];
        owned := owned + {cube, cube.ctrl, cube.ctrl.ftl, cube.ctrl.cache};
      }
      sc, cubes, objects := config, made, owned;
      original, next, entered, aborted := map[], map[], map[], false;
      routed, completed := seq(config.stacks, i => 0), seq(config.stacks, i => 0);
    }

    /** `push`. */
    method Push(r: Request)
      requires Valid()
      modifies this, objects
      ensures Valid() && Contents() == SystemPush(sc, old(Contents()), r)
    {
      hide Locate, CubePush, CubeDevice.Contents, CubeDevice.Valid;
      var at := Locate(sc, r.addr);
      if at.stack >= |cubes| || at.stack >= |routed| {
        aborted := true;
        return;
      }
      var local := r;
      if sc.Rewrites() {
        if r.id in original || at.localOffset + sc.device.baseAddr > ULLONG_MAX {
          aborted := true;
          return;
        }
        original := original[r.id := r.addr];
        local := r.(addr := sc.device.baseAddr + at.localOffset);
      }
      routed := routed[at.stack := routed[at.stack] + 1];
      entered := entered[r.id := r];
      PushTo(at.stack, local);
    }

    method PushTo(stack: nat, r: Request)
      requires Valid() && stack < |cubes|
      modifies objects
      ensures Valid() && Stacks() == old(Stacks())[stack := CubePush(sc.device, old(Stacks())[stack], r)]
    {
      hide CubePush, CubeDevice.Contents, CubeDevice.Valid;
      cubes[stack].Push(r);
    }

    /** `cycle`: every stack advances. */
    method Cycle()
      requires Valid()
      modifies objects
      ensures Valid() && Contents() == SystemCycle(sc, old(Contents()))
    {
      hide CubeCycle, CubeDevice.Contents, CubeDevice.Valid;
      var i := 0;
      while i < |cubes|
        invariant i <= |cubes| && Valid()
        invariant forall j :: 0 <= j < i ==> cubes[j].Contents() == CubeCycle(sc.device, old(cubes[j].Contents()))
        invariant forall j :: i <= j < |cubes| ==> cubes[j].Contents() == old(cubes[j].Contents())
      {
        cubes[i].Cycle();
        i := i + 1;
      }
    }

    /** `restore_address`. */
    method RestoreAddress(r: Request) returns (out: Request)
      modifies this`original, this`aborted
      ensures original == (if sc.Rewrites() then old(original) - {r.id} else old(original))
      ensures aborted == (old(aborted) || (sc.Rewrites() && r.id !in old(original)))
      ensures out == if sc.Rewrites() && r.id in old(original) then r.(addr := old(original)[r.id]) else r
    {
      out := r;
      if sc.Rewrites() {
        if r.id in original {
          out := r.(addr := original[r.id]);
          original := original - {r.id};
        } else {
          aborted := true;
        }
      }
    }

    /** The completion of the stack found is counted, and the scan will resume behind it. */
    method ServeFrom(source: nat, stack: nat) returns (r: Option<Request>)
      requires Valid() && Routing.Waiting(Contents(), stack, source)
      modifies this, cubes[stack]
      ensures Valid() && (Contents(), r) == Serve(sc, old(Contents()), source, stack)
    {
      hide CubePop, ControllerDevice.Device.Contents, CubeDevice.Valid;
      Taken(Contents().cubes[stack], source);
      var got := cubes[stack].PopReturnFor(source);
      next := next[source := (stack + 1) % |cubes|];
      if stack < |completed| { completed := completed[stack := completed[stack] + 1]; }
      entered := entered - {got.value.id};
      var out := RestoreAddress(got.value);
      r := Some(out);
      assert Stacks() == old(Stacks())[stack := CubePop(old(Stacks())[stack], source).0];
    }

    /** The first stack, in one round from the given one, whose cube has a completion for the source. */
    method FindStack(source: nat, from: nat) returns (found: Option<nat>)
      requires Valid() && cubes != []
      ensures found == ScanFrom(Contents(), source, from, |cubes|)
    {
      hide ControllerDevice.Device.Contents;
      var checked := 0;
      while checked < |cubes|
        invariant checked <= |cubes|
        invariant ScanFrom(Contents(), source, from, |cubes|) == ScanFrom(Contents(), source, from + checked, |cubes| - checked)
      {
        var stack := (from + checked) % |cubes|;
        if source in cubes[stack].ready && cubes[stack].ready[source] != [] { return Some(stack); }
        checked := checked + 1;
      }
      return None;
    }

    /** `pop_return_for`: one round over the stacks, from the one after the last served for this source. */
    method PopReturnFor(source: nat) returns (r: Option<Request>)
      requires Valid()
      modifies this, objects
      ensures Valid() && (Contents(), r) == SystemPop(sc, old(Contents()), source)
    {
      hide CubePop, Serve, ScanFrom, CubeDevice.Contents, CubeDevice.Valid;
      if cubes == [] { return None; }
      var from := if source in next && next[source] < |cubes| then next[source] else 0;
      var found := FindStack(source, from);
      match found
      case None =>
        next := next[source := from];
        r := None;
      case Some(stack) => r := ServeFrom(source, stack);
    }

    /** `busy`. */
    method Busy() returns (b: bool)
      requires Valid()
      ensures b == SystemBusy(Contents())
    {
      hide CubeBusy, ControllerDevice.Device.Contents;
      var i := 0;
      while i < |cubes|
        invariant i <= |cubes| && forall j :: 0 <= j < i ==> !CubeBusy(cubes[j].Contents())
      {
        var busy := cubes[i].Busy();
        if busy {
          assert CubeBusy(Contents().cubes[i]);
          return true;
        }
        i := i + 1;
      }
      return original != map[];
    }
  }

  lemma TakenShortens(c: Cube)
    requires c.ctrl.halt == Running && c.ctrl.returnq != []
    ensures |CollectOne(c).ctrl.returnq| < |c.ctrl.returnq|
  {
  }

  lemma Taken(c: Cube, source: nat)
    requires QueueFor(c.ready, source) != []
    ensures CubePop(c, source).1.Some?
  {
  }

  /** Start-up: a capacity without equal whole blocks per stack, or a placement table with several stacks, ends the process. */
  method Open(config: SystemConfig) returns (y: Option<SystemDevice>)
    ensures y.None? <==>
      !EqualWholeBlocks(config.capacity, config.device.pageSize, config.device.pagesPerBlock, config.stacks)
          || (config.stacks > 1 && config.device.Explicit())
    ensures y.Some? ==> y.value.Valid() && fresh(y.value.objects) && y.value.sc == config && y.value.Contents() == NewSystem(config)
  {
    if !EqualWholeBlocks(config.capacity, config.device.pageSize, config.device.pagesPerBlock, config.stacks) { return None; }
    if config.stacks > 1 && config.device.Explicit() { return None; }
    var made := new SystemDevice(config);
    return Some(made);
  }
}
