/** The page-level flash translation layer as a value and its transitions: translation, block
    allocation, invalidation and garbage collection. `acts` records the physical copies and erases
    that garbage collection performs on its own. */
module Ftl {
  import opened Basics
  import opened Geometry

  datatype Block = Block(sa: int, id: nat)

  datatype BlockInfo = BlockInfo(total: nat, valid: nat, free: nat, next: nat, erased: bool, erases: nat)

  datatype MediaAct = Copy(from: Phys, to: Phys) | EraseAll(block: Block)

  datatype State = State(
    mapping: map<nat, Phys>,
    reverse: map<Block, set<nat>>,
    blocks: map<Block, BlockInfo>,
    pool: set<Block>,
    active: map<int, Block>,
    nextId: nat,
    capacityError: bool,
    mappingError: bool,
    aborted: bool,
    acts: seq<MediaAct>)

  const Empty: State := State(map[], map[], map[], {}, map[], 0, false, false, false, [])

  function BlockOf(p: Phys): Block { Block(p.sa, p.block) }

  predicate HbfMode(cfg: Config) { cfg.mediaMode != 1 }

  predicate BlockLeq(a: Block, b: Block) { a.sa < b.sa || (a.sa == b.sa && a.id <= b.id) }

  predicate IsActive(f: State, b: Block) { b.sa in f.active && f.active[b.sa] == b }

  /** Logical pages currently mapped into a block. */
  ghost function Live(m: map<nat, Phys>, b: Block): set<nat> {
    set lp | lp in m && BlockOf(m[lp]) == b
  }

  // ----- block allocation -----------------------------------------------------------------------

  function Candidates(f: State, sa: int): set<Block> {
    set b | b in f.pool && b.sa == sa && b in f.blocks
  }

  /** Preference among pool blocks of one sub-array: fewest erases under wear levelling, then set
      order. */
  predicate Preferable(wear: bool, f: State, a: Block, b: Block) {
    var x, y := Wear(wear, f, a), Wear(wear, f, b);
    x < y || (x == y && a.id <= b.id)
  }

  function Wear(wear: bool, f: State, b: Block): nat { if wear && b in f.blocks then f.blocks[b].erases else 0 }

  ghost predicate IsPick(wear: bool, f: State, sa: int, b: Block) {
    b in Candidates(f, sa) && forall c :: c in Candidates(f, sa) ==> Preferable(wear, f, b, c)
  }

  lemma {:induction false} PickExists(wear: bool, f: State, sa: int, s: set<Block>)
    requires s != {} && s <= Candidates(f, sa)
    ensures exists b :: b in s && forall c :: c in s ==> Preferable(wear, f, b, c)
  {
    hide Wear, Candidates;
    var e :| e in s;
    if s == {e} {
      assert forall c :: c in s ==> Preferable(wear, f, e, c);
    } else {
      PickExists(wear, f, sa, s - {e});
      var m :| m in s - {e} && forall c :: c in s - {e} ==> Preferable(wear, f, m, c);
      var best := if Preferable(wear, f, e, m) then e else m;
      forall c | c in s ensures Preferable(wear, f, best, c) { if c != e { assert c in s - {e}; } }
    }
  }

  ghost function PickFree(wear: bool, f: State, sa: int): (b: Block)
    requires Candidates(f, sa) != {}
    ensures IsPick(wear, f, sa, b)
  {
    PickExists(wear, f, sa, Candidates(f, sa));
    var b :| b in Candidates(f, sa) && forall c :: c in Candidates(f, sa) ==> Preferable(wear, f, b, c);
    b
  }

  lemma PickUnique(wear: bool, f: State, sa: int, b: Block)
    requires IsPick(wear, f, sa, b)
    ensures PickFree(wear, f, sa) == b
  {
    var p := PickFree(wear, f, sa);
    assert Preferable(wear, f, b, p) && Preferable(wear, f, p, b);
  }

  /** Take a pool block: its cursor restarts, its erase state is kept. */
  function TakeFree(f: State, b: Block): State
    requires b in f.blocks
  {
    var info := f.blocks[b];
    f.(pool := f.pool - {b}, blocks := f.blocks[b := info.(free := info.total, next := 0, valid := 0)])
  }

  function FreshInfo(cfg: Config): BlockInfo {
    BlockInfo(cfg.pagesPerBlock, 0, cfg.pagesPerBlock, 0, true, 0)
  }

  predicate AtCapacity(cfg: Config, f: State) { |f.blocks| >= cfg.MaxBlocks() || f.nextId >= PSEUDO_BLOCK_BIT }

  /** The sub-array has nothing in the pool, and no block may be created. */
  predicate NoBlockFor(cfg: Config, f: State, sa: int) { Candidates(f, sa) == {} && AtCapacity(cfg, f) }

  function NewBlock(cfg: Config, f: State, sa: int): (State, Option<Block>) {
    if AtCapacity(cfg, f) then (f.(capacityError := true), None)
    else
      var b := Block(sa, f.nextId);
      (f.(nextId := f.nextId + 1, blocks := f.blocks[b := FreshInfo(cfg)]), Some(b))
  }

  /** `allocate_block`, with the garbage collection it may trigger first. */
  ghost function AllocateBlock(cfg: Config, f: State, sa: int): (State, Option<Block>) {
    if Candidates(f, sa) != {} then
      var b := PickFree(cfg.wearLeveling, f, sa);
      (TakeFree(f, b), Some(b))
    else
      var g := Gc(cfg, f);
      if NeedsGc(cfg, f) && Candidates(g, sa) != {} then
        var b := PickFree(cfg.wearLeveling, g, sa);
        (TakeFree(g, b), Some(b))
      else NewBlock(cfg, g, sa)
  }

  /** Advance the block's cursor by one page; a block without room is an assertion failure there. */
  function TakePage(f: State, b: Block): (State, Option<Phys>) {
    if b !in f.blocks || f.blocks[b].free == 0 then (f.(aborted := true), None)
    else
      var info := f.blocks[b];
      (f.(blocks := f.blocks[b := info.(next := info.next + 1, free := info.free - 1, valid := info.valid + 1)],
          active := if info.free == 1 then f.active - {b.sa} else f.active),
       Some(Phys(b.sa, b.id, info.next)))
  }

  // ----- translation ----------------------------------------------------------------------------

  /** `translate(page, false)`: reads never allocate. */
  function TranslateRead(cfg: Config, f: State, lp: nat): (State, Option<Phys>) {
    if lp in f.mapping then (f, Some(f.mapping[lp]))
    else
      var pseudo := PseudoAddress(cfg, lp);
      (if pseudo.None? then f.(mappingError := true) else f, pseudo)
  }

  /** The block `translate(page, true)` writes into: `insert` keeps a block that garbage collection
      may have installed meanwhile. */
  ghost function EnsureActive(cfg: Config, f: State, sa: int): (State, Option<Block>) {
    if sa in f.active then (f, Some(f.active[sa]))
    else
      match AllocateBlock(cfg, f, sa)
      case (g, None) => (g, None)
      case (g, Some(b)) => if sa in g.active then (g, Some(g.active[sa])) else (g.(active := g.active[sa := b]), Some(b))
  }

  function AddReverse(r: map<Block, set<nat>>, b: Block, lp: nat): map<Block, set<nat>> {
    r[b := (if b in r then r[b] else {}) + {lp}]
  }

  function DropReverse(r: map<Block, set<nat>>, b: Block, lp: nat): map<Block, set<nat>> {
    if b !in r then r
    else if r[b] - {lp} == {} then r - {b}
    else r[b := r[b] - {lp}]
  }

  ghost function TranslateWrite(cfg: Config, f: State, lp: nat): (State, Option<Phys>) {
    match Preferred(cfg, lp)
    case None => (f.(mappingError := true), None)
    case Some(sa) =>
      match EnsureActive(cfg, f, sa)
      case (g, None) => (g, None)
      case (g, Some(b)) => WriteInto(cfg, g, b, lp)
  }

  function WriteInto(cfg: Config, f: State, b: Block, lp: nat): (State, Option<Phys>) {
    match TakePage(f, b)
    case (g, None) => (g, None)
    case (g, Some(phys)) => (Commit(cfg, g, lp, phys), Some(phys))
  }

  /** The overwrite is committed only after the replacement page is reserved. */
  function Commit(cfg: Config, f: State, lp: nat, phys: Phys): State {
    var g := if lp in f.mapping then Invalidate(cfg, f, lp) else f;
    g.(mapping := g.mapping[lp := phys], reverse := AddReverse(g.reverse, BlockOf(phys), lp))
  }

  /** `invalidate`: one page of its block dies, and the block with it in HBF mode. */
  function Invalidate(cfg: Config, f: State, lp: nat): State {
    if lp !in f.mapping then f
    else
      var b := BlockOf(f.mapping[lp]);
      var retires := Retires(cfg, f, b);
      f.(mapping := f.mapping - {lp},
         reverse := DropReverse(f.reverse, b, lp),
         blocks := if b in f.blocks && f.blocks[b].valid > 0 then f.blocks[b := OneLess(f.blocks[b], retires)] else f.blocks,
         active := if retires then Deactivate(f.active, b) else f.active,
         pool := if retires then f.pool + {b} else f.pool)
  }

  /** In HBF mode the last valid page to die retires its block, dirty. */
  predicate Retires(cfg: Config, f: State, b: Block) {
    HbfMode(cfg) && b in f.blocks && f.blocks[b].valid == 1 && b !in f.pool
  }

  function OneLess(info: BlockInfo, retires: bool): BlockInfo
    requires info.valid > 0
  {
    info.(valid := info.valid - 1, erased := info.erased && !retires)
  }

  function Deactivate(active: map<int, Block>, b: Block): map<int, Block> {
    if b.sa in active && active[b.sa] == b then active - {b.sa} else active
  }

  // ----- erase state ----------------------------------------------------------------------------

  predicate IsErased(f: State, b: Block) { b in f.blocks && f.blocks[b].erased }

  function MarkErasing(f: State, b: Block): State {
    if b !in f.blocks then f.(aborted := true)
    else f.(blocks := f.blocks[b := f.blocks[b].(erased := false)])
  }

  function MarkErased(f: State, b: Block): State {
    if b !in f.blocks then f.(aborted := true)
    else f.(blocks := f.blocks[b := f.blocks[b].(erased := true, erases := f.blocks[b].erases + 1)])
  }

  // ----- garbage collection (SSD mode only) -----------------------------------------------------

  ghost predicate NeedsGc(cfg: Config, f: State) {
    && !HbfMode(cfg)
    && |f.blocks| != 0
    && (|f.pool| as real) / (|f.blocks| as real) < cfg.overprovisioning
  }

  function ErasesOf(i: BlockInfo): nat { i.erases }

  ghost function AverageErases(cfg: Config, f: State): real {
    if !cfg.wearLeveling || |f.blocks| == 0 then 0.0 else Sum(f.blocks, ErasesOf) as real / |f.blocks| as real
  }

  predicate WearAware(cfg: Config, average: real) { cfg.wearLeveling && average > 0.0 }

  function Cost(cfg: Config, average: real, info: BlockInfo): real {
    if WearAware(cfg, average) then
      (info.valid as real) * (if info.erases as real > average
          then 1.0 + 0.5 * (info.erases as real - average) / average else 1.0)
    else info.valid as real
  }

  function CostLimit(cfg: Config, average: real): real {
    if WearAware(cfg, average) then 1000000000000000000000000000000.0 else (WORD32 - 1) as real
  }

  function Idle(f: State): set<Block> { set b | b in f.blocks && b !in f.pool && !IsActive(f, b) }

  function Dead(f: State): set<Block> { set b | b in Idle(f) && f.blocks[b].valid == 0 }

  function Dirtied(blocks: map<Block, BlockInfo>, dead: set<Block>): map<Block, BlockInfo> {
    map b | b in blocks :: if b in dead then blocks[b].(erased := false) else blocks[b]
  }

  /** Idle blocks without valid pages join the pool dirty. */
  function Retire(f: State): State {
    f.(blocks := Dirtied(f.blocks, Dead(f)), pool := f.pool + Dead(f))
  }

  function Eligible(cfg: Config, f: State, average: real): set<Block> {
    set b | b in Idle(f) && f.blocks[b].valid != 0 && Cost(cfg, average, f.blocks[b]) < CostLimit(cfg, average)
  }

  ghost predicate IsVictim(cfg: Config, f: State, average: real, b: Block) {
    && b in Eligible(cfg, f, average)
    && forall c :: c in Eligible(cfg, f, average) ==> NotWorse(cfg, f, average, b, c)
  }

  predicate NotWorse(cfg: Config, f: State, average: real, b: Block, c: Block) {
    var x, y := CostOf(cfg, f, average, b), CostOf(cfg, f, average, c);
    x < y || (x == y && BlockLeq(b, c))
  }

  function CostOf(cfg: Config, f: State, average: real, b: Block): real {
    if b in f.blocks then Cost(cfg, average, f.blocks[b]) else 0.0
  }

  lemma NotWorseOrder(cfg: Config, f: State, average: real, a: Block, b: Block, c: Block)
    ensures NotWorse(cfg, f, average, a, a)
    ensures NotWorse(cfg, f, average, a, b) || NotWorse(cfg, f, average, b, a)
    ensures NotWorse(cfg, f, average, a, b) && NotWorse(cfg, f, average, b, c) ==> NotWorse(cfg, f, average, a, c)
  {
    hide CostOf;
  }

  lemma {:induction false} VictimExists(cfg: Config, f: State, average: real, s: set<Block>)
    requires s != {} && s <= Eligible(cfg, f, average)
    ensures exists b :: b in s && forall c :: c in s ==> NotWorse(cfg, f, average, b, c)
  {
    hide NotWorse, Eligible;
    var e :| e in s;
    NotWorseOrder(cfg, f, average, e, e, e);
    if s == {e} {
      assert forall c :: c in s ==> NotWorse(cfg, f, average, e, c);
      assert e in s;
    } else {
      VictimExists(cfg, f, average, s - {e});
      var m :| m in s - {e} && forall c :: c in s - {e} ==> NotWorse(cfg, f, average, m, c);
      var best := if NotWorse(cfg, f, average, e, m) then e else m;
      forall c | c in s ensures NotWorse(cfg, f, average, best, c) {
        NotWorseOrder(cfg, f, average, e, m, c);
        if c != e { assert c in s - {e}; }
      }
      assert best in s;
    }
  }

  ghost function Victim(cfg: Config, f: State, average: real): (b: Block)
    requires Eligible(cfg, f, average) != {}
    ensures IsVictim(cfg, f, average, b)
  {
    VictimExists(cfg, f, average, Eligible(cfg, f, average));
    var b :| b in Eligible(cfg, f, average) && forall c :: c in Eligible(cfg, f, average) ==> NotWorse(cfg, f, average, b, c);
    b
  }

  lemma VictimUnique(cfg: Config, f: State, average: real, b: Block)
    requires IsVictim(cfg, f, average, b)
    ensures Victim(cfg, f, average) == b
  {
    var v := Victim(cfg, f, average);
    assert NotWorse(cfg, f, average, b, v) && NotWorse(cfg, f, average, v, b);
  }

  /** `allocate_page_for_gc`: same cursor discipline, no recursive collection, lowest free block id. */
  ghost function GcBlock(cfg: Config, f: State, sa: int): (State, Option<Block>) {
    if sa in f.active then (f, Some(f.active[sa]))
    else
      var (g, b) :=
        if Candidates(f, sa) != {} then
          var free := PickFree(false, f, sa);
          (TakeFree(f, free), Some(free))
        else NewBlock(cfg, f, sa);
      match b
      case None => (g, None)
      case Some(block) => (g.(active := g.active[sa := block]), Some(block))
  }

  ghost function GcAllocate(cfg: Config, f: State, lp: nat): (State, Option<Phys>) {
    match Preferred(cfg, lp)
    case None => (f.(mappingError := true), None)
    case Some(sa) =>
      match GcBlock(cfg, f, sa)
      case (g, None) => (g, None)
      case (g, Some(b)) => TakePage(g, b)
  }

  function Moved(f: State, lp: nat, from: Phys, to: Phys): State {
    f.(mapping := f.mapping[lp := to], reverse := AddReverse(f.reverse, BlockOf(to), lp), acts := f.acts + [Copy(from, to)])
  }

  /** Relocate the listed pages out of the victim; false when an allocation fails half-way. */
  ghost function Relocate(cfg: Config, f: State, victim: Block, pages: seq<nat>): (State, bool)
    decreases |pages|
  {
    if pages == [] then (f, true)
    else
      var lp := pages[0];
      if lp !in f.mapping || BlockOf(f.mapping[lp]) != victim then Relocate(cfg, f, victim, pages[1..])
      else
        match GcAllocate(cfg, f, lp)
        case (g, None) => (g.(capacityError := true), false)
        case (g, Some(to)) => Relocate(cfg, Moved(g, lp, f.mapping[lp], to), victim, pages[1..])
  }

  /** The emptied victim returns to the pool erased. */
  function Reclaim(f: State, victim: Block): State
    requires victim in f.blocks
  {
    var info := f.blocks[victim];
    f.(
      active := Deactivate(f.active, victim),
      reverse := f.reverse - {victim},
      blocks := f.blocks[victim := info.(erased := true, free := info.total, next := 0, valid := 0)],
      pool := f.pool + {victim},
      acts := f.acts + [EraseAll(victim)])
  }

  ghost function Gc(cfg: Config, f: State): State {
    if !NeedsGc(cfg, f) then f
    else
      var average := AverageErases(cfg, f);
      var g := Retire(f);
      if Eligible(cfg, g, average) == {} then g
      else
        var victim := Victim(cfg, g, average);
        var pages := if victim in g.reverse then SortedKeys(g.reverse[victim]) else [];
        var (h, done) := Relocate(cfg, g, victim, pages);
        if done && victim in h.blocks then Reclaim(h, victim) else h
  }
}
