/** HBF mode (no garbage collection, section 11.4 of the OCP HBF specification): the bookkeeping is
    exact, not only safe. */
module FtlExact {
  import opened Basics
  import opened Geometry
  import opened Ftl
  import opened FtlInvariant

  /** The valid count of every block is its number of live pages. */
  ghost predicate CountExact(m: Mapping, blocks: Blocks, spare: Option<Block>) {
    forall b :: b in blocks ==> |Live(m, b)| + Extra(spare, b) == blocks[b].valid
  }

  /** The reverse index is the inverse of the mapping and holds no empty set. */
  ghost predicate ReverseExact(m: Mapping, reverse: map<Block, set<nat>>) {
    forall b :: (b in reverse <==> Live(m, b) != {}) && (b in reverse ==> reverse[b] == Live(m, b))
  }

  predicate Holds(active: map<int, Block>, b: Block) { b.sa in active && active[b.sa] == b }

  /** A block is dirty in the pool with no live page, or in use with one; in use it either has room
      and is its sub-array's active block, or is full. A newly opened block may still be empty. */
  predicate BlockSorted(info: BlockInfo, pooled: bool, held: bool, empty: bool) {
    if pooled then info.valid == 0 && !info.erased
    else (info.valid > 0 || empty) && (held || info.free == 0)
  }

  predicate SortedOut(blocks: Blocks, pool: set<Block>, active: map<int, Block>, newly: Option<Block>) {
    forall b :: b in blocks ==> BlockSorted(blocks[b], b in pool, Holds(active, b), newly == Some(b))
  }

  /** One block changes record, pool membership or activity; all others keep theirs. */
  lemma SortedUpdate(blocks: Blocks, pool: set<Block>, active: map<int, Block>, newly: Option<Block>, b: Block,
                     info: BlockInfo, pool': set<Block>, active': map<int, Block>, newly': Option<Block>)
    requires SortedOut(blocks, pool, active, newly)
    requires newly == None || newly == Some(b)
    requires pool' == pool || pool' == pool + {b} || pool' == pool - {b}
    requires active' == active || active' == Deactivate(active, b) || (b.sa !in active && active' == active[b.sa := b])
    requires newly' == None || newly' == Some(b)
    requires BlockSorted(info, b in pool', Holds(active', b), newly' == Some(b))
    ensures SortedOut(blocks[b := info], pool', active', newly')
  {
    forall c | c in blocks && c != b ensures BlockSorted(blocks[c], c in pool', Holds(active', c), newly' == Some(c)) {
      assert (c in pool') == (c in pool) && Holds(active', c) == Holds(active, c);
      assert BlockSorted(blocks[c], c in pool, Holds(active, c), newly == Some(c));
    }
  }

  ghost predicate ExactTables(m: Mapping, reverse: map<Block, set<nat>>, blocks: Blocks, pool: set<Block>,
                              active: map<int, Block>, spare: Option<Block>, newly: Option<Block>) {
    CountExact(m, blocks, spare) && ReverseExact(m, reverse) && SortedOut(blocks, pool, active, newly)
  }

  ghost predicate ExactSpare(f: State, spare: Option<Block>, newly: Option<Block>) {
    ExactTables(f.mapping, f.reverse, f.blocks, f.pool, f.active, spare, newly)
  }

  ghost predicate Exact(f: State) { ExactSpare(f, None, None) }

  lemma EmptyExact()
    ensures Exact(Empty)
  {
  }

  lemma CountExactUpdate(m: Mapping, blocks: Blocks, spare: Option<Block>, b: Block, info: BlockInfo, spare': Option<Block>)
    requires CountExact(m, blocks, spare) && (spare == None || spare == Some(b)) && (spare' == None || spare' == Some(b))
    requires |Live(m, b)| + Extra(spare', b) == info.valid
    ensures CountExact(m, blocks[b := info], spare')
  {
    hide Live;
  }

  /** Opening a block for a sub-array that has none. */
  lemma OpenExact(cfg: Config, f: State, b: Block, info: BlockInfo)
    requires Wf(cfg, f) && Exact(f) && b.sa !in f.active && (b in f.pool || b !in f.blocks) && info.valid == 0
    ensures ExactTables(f.mapping, f.reverse, f.blocks[b := info], f.pool - {b}, f.active[b.sa := b], None, Some(b))
  {
    UnusedBlockIsEmpty(cfg, f.mapping, f.blocks, f.pool, b);
    CountExactUpdate(f.mapping, f.blocks, None, b, info, None);
    SortedUpdate(f.blocks, f.pool, f.active, None, b, info, f.pool - {b}, f.active[b.sa := b], Some(b));
    hide ReverseExact, CountExact, SortedOut;
  }

  lemma ActiveHasRoom(cfg: Config, f: State, b: Block)
    requires Wf(cfg, f) && b.sa in f.active && f.active[b.sa] == b
    ensures b in f.blocks && b !in f.pool && f.blocks[b].free > 0
  {
    hide BlocksWf, MapWf, Covers, CountWf;
    assert Installable(f.blocks, f.pool, b.sa, b);
  }

  lemma SortedTaken(blocks: Blocks, pool: set<Block>, active: map<int, Block>, newly: Option<Block>, b: Block,
      info: BlockInfo, active': map<int, Block>)
    requires SortedOut(blocks, pool, active, newly) && (newly == None || newly == Some(b)) && b in blocks && b !in pool
        && Holds(active, b)
    requires info.valid > 0 && (if info.free == 0 then active' == Deactivate(active, b) else active' == active)
    ensures SortedOut(blocks[b := info], pool, active', None)
  {
    SortedUpdate(blocks, pool, active, newly, b, info, pool, active', None);
    hide SortedOut;
  }

  lemma TakePageExact(cfg: Config, f: State, b: Block, newly: Option<Block>)
    requires Wf(cfg, f) && ExactSpare(f, None, newly) && (newly == None || newly == Some(b))
    requires b.sa in f.active && f.active[b.sa] == b
    ensures ExactSpare(TakePage(f, b).0, Some(b), None)
  {
    hide Wf, ReverseExact, CountExact, SortedOut, Live;
    ActiveHasRoom(cfg, f, b);
    CountAt(f.mapping, f.blocks, b);
    var g := TakePage(f, b).0;
    var info := g.blocks[b];
    CountExactUpdate(f.mapping, f.blocks, None, b, info, Some(b));
    SortedTaken(f.blocks, f.pool, f.active, newly, b, info, g.active);
  }

  lemma CountAt(m: Mapping, blocks: Blocks, b: Block)
    requires CountExact(m, blocks, None) && b in blocks
    ensures |Live(m, b)| == blocks[b].valid
  {
    hide Live;
    assert |Live(m, b)| + Extra(None, b) == blocks[b].valid;
  }

  lemma CountExactRemove(m: Mapping, blocks: Blocks, spare: Option<Block>, lp: nat, info: BlockInfo)
    requires CountExact(m, blocks, spare) && lp in m && BlockOf(m[lp]) in blocks
    requires info.valid + 1 == blocks[BlockOf(m[lp])].valid
    ensures CountExact(m - {lp}, blocks[BlockOf(m[lp]) := info], spare)
  {
    forall b | b in blocks ensures |Live(m - {lp}, b)| + Extra(spare, b) == blocks[BlockOf(m[lp]) := info][b].valid {
      LiveRemove(m, lp, b);
      hide Live;
    }
  }

  lemma ReverseRemove(m: Mapping, reverse: map<Block, set<nat>>, lp: nat)
    requires ReverseExact(m, reverse) && lp in m
    ensures ReverseExact(m - {lp}, DropReverse(reverse, BlockOf(m[lp]), lp))
  {
    forall b { LiveRemove(m, lp, b); }
    assert lp in Live(m, BlockOf(m[lp]));
  }

  lemma ReverseInsert(m: Mapping, reverse: map<Block, set<nat>>, lp: nat, p: Phys)
    requires ReverseExact(m, reverse) && lp !in m
    ensures ReverseExact(m[lp := p], AddReverse(reverse, BlockOf(p), lp))
  {
    forall b { LiveInsert(m, lp, p, b); }
  }

  /** An invalidation either leaves its block with a live page or retires it, dirty. */
  lemma InvalidateExact(cfg: Config, f: State, lp: nat, spare: Option<Block>)
    requires HbfMode(cfg) && WfSpare(cfg, f, spare) && ExactSpare(f, spare, None) && lp in f.mapping
    ensures ExactSpare(Invalidate(cfg, f, lp), spare, None)
  {
    var b := BlockOf(f.mapping[lp]);
    assert InUse(f.blocks, f.pool, f.mapping[lp]);
    RetiredIsEmpty(cfg, f, lp, spare);
    assert BlockSorted(f.blocks[b], false, Holds(f.active, b), false);
    hide WfSpare, Live;
    var g := Invalidate(cfg, f, lp);
    var info := OneLess(f.blocks[b], Retires(cfg, f, b));
    CountExactRemove(f.mapping, f.blocks, spare, lp, info);
    hide CountExact;
    ReverseRemove(f.mapping, f.reverse, lp);
    hide ReverseExact, DropReverse;
    SortedUpdate(f.blocks, f.pool, f.active, None, b, info, g.pool, g.active, None);
    hide SortedOut, Deactivate;
  }

  lemma CommitFreshExact(g: State, lp: nat, p: Phys)
    requires ExactSpare(g, Some(BlockOf(p)), None) && lp !in g.mapping
    ensures Exact(g.(mapping := g.mapping[lp := p], reverse := AddReverse(g.reverse, BlockOf(p), lp)))
  {
    ReverseInsert(g.mapping, g.reverse, lp, p);
    forall b | b in g.blocks ensures |Live(g.mapping[lp := p], b)| == g.blocks[b].valid { LiveInsert(g.mapping, lp, p, b); }
    hide ReverseExact, Live, SortedOut, AddReverse;
  }

  lemma CommitExact(cfg: Config, f: State, lp: nat, p: Phys)
    requires HbfMode(cfg) && WfSpare(cfg, f, Some(BlockOf(p))) && ExactSpare(f, Some(BlockOf(p)), None)
    ensures Exact(Commit(cfg, f, lp, p))
  {
    hide WfSpare, ExactSpare, AddReverse;
    if lp in f.mapping {
      InvalidateExact(cfg, f, lp, Some(BlockOf(p)));
      CommitFreshExact(Invalidate(cfg, f, lp), lp, p);
    } else {
      CommitFreshExact(f, lp, p);
    }
  }

  /** Without garbage collection a block is opened in one of two ways. */
  lemma HbfAllocate(cfg: Config, f: State, sa: int)
    requires HbfMode(cfg)
    ensures AllocateBlock(cfg, f, sa) ==
      if Candidates(f, sa) != {} then (TakeFree(f, PickFree(cfg.wearLeveling, f, sa)), Some(PickFree(cfg.wearLeveling, f, sa)))
      else NewBlock(cfg, f, sa)
  {
  }

  /** In HBF mode a write fails exactly for want of a placement, or with no open block in its sub-array, none
      in the pool and none left to create; it then changes nothing. */
  lemma HbfWriteFails(cfg: Config, f: State, lp: nat)
    requires HbfMode(cfg) && cfg.pagesPerBlock > 0 && Wf(cfg, f)
    ensures var (g, p) := TranslateWrite(cfg, f, lp);
      && (Preferred(cfg, lp).None? ==> p.None?)
      && (Preferred(cfg, lp).Some? ==> var sa := Preferred(cfg, lp).value; p.None? <==> sa !in f.active && NoBlockFor(cfg, f, sa))
      && (p.None? && Preferred(cfg, lp).Some? ==> g == f.(capacityError := true))
  {
    hide Wf, Preferred, NoBlockFor, Gc, WriteInto, EnsureActive, WroteOnly, SamePages;
    TranslateWriteWf(cfg, f, lp);
    NoGc(cfg, f);
    NeverNeeded(cfg, f);
    if Preferred(cfg, lp).Some? {
      var sa := Preferred(cfg, lp).value;
      FailsUnchanged(cfg, f, sa);
      EnsureActiveWf(cfg, f, sa);
      if EnsureActive(cfg, f, sa).1.Some? { WriteIntoWf(cfg, EnsureActive(cfg, f, sa).0, EnsureActive(cfg, f, sa).1.value, lp); }
      AlsoFails(cfg, f, sa);
    }
  }

  lemma NeverNeeded(cfg: Config, f: State)
    requires HbfMode(cfg)
    ensures !NeedsGc(cfg, f)
  {
  }

  lemma AlsoFails(cfg: Config, f: State, sa: int)
    ensures NoBlockFor(cfg, f, sa) ==> Candidates(f, sa) == {}
  {
    hide Candidates;
  }

  lemma FailsUnchanged(cfg: Config, f: State, sa: int)
    requires HbfMode(cfg)
    ensures var (g, b) := EnsureActive(cfg, f, sa); b.None? ==> g == f.(capacityError := true)
  {
    hide AllocateBlock, Candidates, TakeFree, PickFree, AtCapacity;
    HbfAllocate(cfg, f, sa);
  }

  /** In HBF mode a write creates at most one block. */
  lemma HbfWriteGrows(cfg: Config, f: State, lp: nat)
    requires HbfMode(cfg)
    ensures TranslateWrite(cfg, f, lp).0.nextId <= f.nextId + 1
  {
    hide Preferred, EnsureActive, WriteInto;
    if Preferred(cfg, lp).Some? {
      var (g, b) := EnsureActive(cfg, f, Preferred(cfg, lp).value);
      OpensOne(cfg, f, Preferred(cfg, lp).value);
      if b.Some? { WriteCreatesNone(cfg, g, b.value, lp); }
    }
  }

  lemma OpensOne(cfg: Config, f: State, sa: int)
    requires HbfMode(cfg)
    ensures EnsureActive(cfg, f, sa).0.nextId <= f.nextId + 1
  {
    hide AllocateBlock, Candidates, PickFree, AtCapacity;
    HbfAllocate(cfg, f, sa);
  }

  lemma WriteCreatesNone(cfg: Config, f: State, b: Block, lp: nat)
    ensures WriteInto(cfg, f, b, lp).0.nextId == f.nextId
  {
    hide AddReverse, DropReverse, Deactivate;
  }

  lemma OpenPooledExact(cfg: Config, f: State, sa: int)
    requires Wf(cfg, f) && Exact(f) && sa !in f.active && Candidates(f, sa) != {}
    ensures var b := PickFree(cfg.wearLeveling, f, sa); var g := TakeFree(f, b);
      ExactTables(g.mapping, g.reverse, g.blocks, g.pool, g.active[sa := b], None, Some(b)) && b.sa == sa
  {
    hide Wf, ExactTables;
    var b := PickFree(cfg.wearLeveling, f, sa);
    OpenExact(cfg, f, b, TakeFree(f, b).blocks[b]);
  }

  lemma OpenFreshExact(cfg: Config, f: State, sa: int)
    requires Wf(cfg, f) && Exact(f) && sa !in f.active
    ensures var (g, b) := NewBlock(cfg, f, sa);
      b.Some? ==> ExactTables(g.mapping, g.reverse, g.blocks, g.pool, g.active[sa := b.value], None, b)
  {
    FreshIsNew(cfg, f, sa);
    hide Wf, ExactTables, AtCapacity;
    OpenExact(cfg, f, Block(sa, f.nextId), FreshInfo(cfg));
  }

  lemma FreshIsNew(cfg: Config, f: State, sa: int)
    requires Wf(cfg, f)
    ensures Block(sa, f.nextId) !in f.blocks && f.pool - {Block(sa, f.nextId)} == f.pool
  {
    hide MapWf, Covers, CountWf, Config.MaxBlocks;
  }

  lemma NothingActive(cfg: Config, f: State, sa: int)
    requires HbfMode(cfg) && sa !in f.active
    ensures var (g, b) := AllocateBlock(cfg, f, sa); b.Some? ==> sa !in g.active && g.mapping == f.mapping && g.acts == f.acts
    ensures var (g, b) := AllocateBlock(cfg, f, sa); b.None? ==> g.mapping == f.mapping && g.acts == f.acts && g.blocks == f.blocks
  {
    hide IsPick, AtCapacity;
    HbfAllocate(cfg, f, sa);
  }

  lemma EnsureActiveExact(cfg: Config, f: State, sa: int)
    requires HbfMode(cfg) && cfg.pagesPerBlock > 0 && Wf(cfg, f) && Exact(f)
    ensures var (g, b) := EnsureActive(cfg, f, sa);
      && g.mapping == f.mapping && g.acts == f.acts
      && (b.None? ==> Exact(g) && g.blocks == f.blocks)
      && (b.Some? ==> ExactSpare(g, None, if sa in f.active then None else b))
  {
    hide Wf, ExactTables, AllocateBlock, Candidates, IsPick, AtCapacity;
    if sa !in f.active {
      HbfAllocate(cfg, f, sa);
      NothingActive(cfg, f, sa);
      if Candidates(f, sa) != {} { OpenPooledExact(cfg, f, sa); } else { OpenFreshExact(cfg, f, sa); }
    }
  }

  lemma WriteIntoExact(cfg: Config, f: State, b: Block, lp: nat, newly: Option<Block>)
    requires HbfMode(cfg) && Wf(cfg, f) && ExactSpare(f, None, newly) && (newly == None || newly == Some(b))
    requires b.sa in f.active && f.active[b.sa] == b && Preferred(cfg, lp) == Some(b.sa)
    ensures var (g, p) := WriteInto(cfg, f, b, lp); Exact(g) && g.acts == f.acts
  {
    hide Preferred, ExactTables;
    TakePageWf(cfg, f, b);
    TakePageExact(cfg, f, b, newly);
    var (g, p) := TakePage(f, b);
    assert g.acts == f.acts;
    hide TakePage, WfSpare;
    CommitExact(cfg, g, lp, p.value);
  }

  /** The exact bookkeeping survives every write; the mapping changes at one page only, and the
      device moves nothing by itself. */
  lemma TranslateWriteExact(cfg: Config, f: State, lp: nat)
    requires HbfMode(cfg) && cfg.pagesPerBlock > 0 && Wf(cfg, f) && Exact(f)
    ensures var (g, p) := TranslateWrite(cfg, f, lp);
      && Exact(g) && g.acts == f.acts
      && (p.None? ==> g.mapping == f.mapping && g.blocks == f.blocks)
      && (p.Some? ==> g.mapping == f.mapping[lp := p.value] && Unmapped(f.mapping, p.value))
  {
    hide Preferred, Wf, ExactTables;
    if Preferred(cfg, lp).Some? {
      var sa := Preferred(cfg, lp).value;
      EnsureActiveWf(cfg, f, sa);
      EnsureActiveExact(cfg, f, sa);
      var (g, b) := EnsureActive(cfg, f, sa);
      hide EnsureActive;
      if b.Some? {
        WriteIntoWf(cfg, g, b.value, lp);
        WriteIntoExact(cfg, g, b.value, lp, if sa in f.active then None else b);
        hide WriteInto, Unmapped;
      }
    }
  }

  lemma MarkedExact(f: State, b: Block, info: BlockInfo)
    requires Exact(f) && b in f.blocks && b !in f.pool && OnlyEraseState(f.blocks[b], info)
    ensures Exact(f.(blocks := f.blocks[b := info]))
  {
    hide Live, ReverseExact;
    assert |Live(f.mapping, b)| + Extra(None, b) == f.blocks[b].valid;
    CountExactUpdate(f.mapping, f.blocks, None, b, info, None);
    hide CountExact;
    assert BlockSorted(f.blocks[b], false, Holds(f.active, b), false);
    SortedUpdate(f.blocks, f.pool, f.active, None, b, info, f.pool, f.active, None);
    hide SortedOut;
  }

  // ----- what a write does to blocks in use --------------------------------------------------------

  /** Opening a block touches no other block; one from the pool is dirty, a created one is unknown to
      the media. */
  ghost predicate OpenEffect(f: State, g: State, b: Block) {
    && g.blocks.Keys == f.blocks.Keys + {b} && g.pool == f.pool - {b}
    && (forall c :: c in f.blocks && c != b ==> g.blocks[c] == f.blocks[c])
    && (b in f.blocks && b !in f.pool ==> g.blocks[b] == f.blocks[b])
    && (b in f.pool ==> !g.blocks[b].erased)
  }

  lemma PooledIsDirty(f: State, b: Block)
    requires Exact(f) && b in f.pool && b in f.blocks
    ensures !f.blocks[b].erased
  {
    hide CountExact, ReverseExact;
    assert BlockSorted(f.blocks[b], true, Holds(f.active, b), false);
  }

  lemma TakeFreeOpens(f: State, b: Block, active: map<int, Block>)
    requires b in f.pool && b in f.blocks && !f.blocks[b].erased
    ensures OpenEffect(f, TakeFree(f, b).(active := active), b)
  {
  }

  lemma NewBlockOpens(cfg: Config, f: State, sa: int, active: map<int, Block>)
    requires Block(sa, f.nextId) !in f.blocks && f.pool - {Block(sa, f.nextId)} == f.pool && Block(sa, f.nextId) !in f.pool
    ensures var (g, b) := NewBlock(cfg, f, sa); b.Some? ==> OpenEffect(f, g.(active := active), b.value)
  {
  }

  lemma EnsureActiveEffect(cfg: Config, f: State, sa: int)
    requires HbfMode(cfg) && cfg.pagesPerBlock > 0 && Wf(cfg, f) && Exact(f)
    ensures var (g, b) := EnsureActive(cfg, f, sa); b.Some? ==> OpenEffect(f, g, b.value)
  {
    hide Wf, Exact, AtCapacity, IsPick, AllocateBlock, PickFree, Candidates, TakeFree, NewBlock, OpenEffect, HbfMode;
    var (g, b) := EnsureActive(cfg, f, sa);
    if sa in f.active {
      ActiveOpens(cfg, f, sa);
    } else if b.Some? {
      HbfAllocate(cfg, f, sa);
      NothingActive(cfg, f, sa);
      if Candidates(f, sa) != {} {
        PickedIsCandidate(cfg.wearLeveling, f, sa);
        PooledIsDirty(f, b.value);
        TakeFreeOpens(f, b.value, g.active);
      } else {
        FreshIsNew(cfg, f, sa);
        FreshIsUnpooled(cfg, f, sa);
        NewBlockOpens(cfg, f, sa, g.active);
      }
    }
  }

  lemma FreshIsUnpooled(cfg: Config, f: State, sa: int)
    requires f.pool - {Block(sa, f.nextId)} == f.pool
    ensures Block(sa, f.nextId) !in f.pool
  {
  }

  lemma ActiveOpens(cfg: Config, f: State, sa: int)
    requires Wf(cfg, f) && sa in f.active
    ensures OpenEffect(f, f, f.active[sa])
  {
    hide Wf;
    ActiveSa(cfg, f, sa);
    ActiveHasRoom(cfg, f, f.active[sa]);
  }

  lemma ActiveSa(cfg: Config, f: State, sa: int)
    requires Wf(cfg, f) && sa in f.active
    ensures f.active[sa].sa == sa
  {
    hide BlocksWf, MapWf, Covers, CountWf;
    assert Installable(f.blocks, f.pool, sa, f.active[sa]);
  }

  lemma PickedIsCandidate(wear: bool, f: State, sa: int)
    requires Candidates(f, sa) != {}
    ensures PickFree(wear, f, sa) in f.pool && PickFree(wear, f, sa) in f.blocks
  {
  }

  /** Blocks in use keep their erase state and only advance their cursor; the reserved page lies at or
      beyond the cursor its block had, in a block that is dirty if it was recycled. */
  ghost predicate WriteEffect(f: State, g: State, p: Phys) {
    var b := BlockOf(p);
    && f.blocks.Keys <= g.blocks.Keys && b in g.blocks && b !in g.pool
    && (forall c :: c in f.blocks && c !in f.pool && c !in g.pool ==> g.blocks[c].erased == f.blocks[c].erased && f.blocks[c].next <= g.blocks[c].next)
    && (forall c :: c in g.blocks && c !in g.pool && c != b ==> c in f.blocks && c !in f.pool)
    && (b in f.blocks && b !in f.pool ==> p.page == f.blocks[b].next)
    && (b in f.pool ==> !g.blocks[b].erased)
  }

  lemma TakePageEffect(f: State, b: Block)
    requires b in f.blocks && f.blocks[b].free > 0
    ensures var (g, p) := TakePage(f, b);
      && p == Some(Phys(b.sa, b.id, f.blocks[b].next)) && g.pool == f.pool && g.mapping == f.mapping
          && g.blocks.Keys == f.blocks.Keys
      && g.blocks[b].next == f.blocks[b].next + 1 && g.blocks[b].erased == f.blocks[b].erased
      && (forall c :: c in f.blocks && c != b ==> g.blocks[c] == f.blocks[c])
  {
  }

  lemma CommitEffect(cfg: Config, f: State, lp: nat, p: Phys)
    requires lp in f.mapping ==> BlockOf(f.mapping[lp]) in f.blocks
    ensures var g := Commit(cfg, f, lp, p);
      && g.blocks.Keys == f.blocks.Keys && f.pool <= g.pool
      && (forall c :: c in f.blocks ==> g.blocks[c].next == f.blocks[c].next)
      && (forall c :: c in f.blocks && (c !in g.pool || c in f.pool) ==> g.blocks[c].erased == f.blocks[c].erased)
  {
    hide AddReverse, DropReverse, Deactivate;
  }

  lemma MappedInUse(cfg: Config, f: State, spare: Option<Block>, lp: nat)
    requires WfSpare(cfg, f, spare) && lp in f.mapping
    ensures InUse(f.blocks, f.pool, f.mapping[lp])
  {
    hide BlocksWf, PoolsWf, Covers, CountWf, Local, Injective;
  }

  lemma WriteIntoEffect(cfg: Config, f0: State, f: State, b: Block, lp: nat)
    requires Wf(cfg, f) && OpenEffect(f0, f, b) && b.sa in f.active && f.active[b.sa] == b
    requires Preferred(cfg, lp) == Some(b.sa)
    ensures var (g, p) := WriteInto(cfg, f, b, lp); p.Some? && WriteEffect(f0, g, p.value)
  {
    hide Wf, WfSpare, Preferred, TakePage, Commit, InUse, Unmapped;
    TakePageWf(cfg, f, b);
    ActiveHasRoom(cfg, f, b);
    TakePageEffect(f, b);
    var (g1, p) := TakePage(f, b);
    if lp in g1.mapping { MappedInUse(cfg, g1, Some(b), lp); InUseKnown(g1.blocks, g1.pool, g1.mapping[lp]); }
    CommitEffect(cfg, g1, lp, p.value);
    WriteIntoWf(cfg, f, b, lp);
    var g := WriteInto(cfg, f, b, lp).0;
    assert g.mapping[lp] == p.value;
    MappedInUse(cfg, g, None, lp) by { WfIsSpare(cfg, g); }
    InUseKnown(g.blocks, g.pool, p.value);
  }

  lemma WfIsSpare(cfg: Config, f: State)
    requires Wf(cfg, f)
    ensures WfSpare(cfg, f, None)
  {
    hide WfSpare;
  }

  lemma InUseKnown(blocks: Blocks, pool: set<Block>, p: Phys)
    requires InUse(blocks, pool, p)
    ensures BlockOf(p) in blocks && BlockOf(p) !in pool
  {
  }

  lemma TranslateWriteEffect(cfg: Config, f: State, lp: nat)
    requires HbfMode(cfg) && cfg.pagesPerBlock > 0 && Wf(cfg, f) && Exact(f)
    ensures var (g, p) := TranslateWrite(cfg, f, lp); p.Some? ==> WriteEffect(f, g, p.value)
  {
    hide Wf, Exact, Preferred, EnsureActive, WriteInto, OpenEffect, WriteEffect, SamePages;
    if Preferred(cfg, lp).Some? {
      var sa := Preferred(cfg, lp).value;
      EnsureActiveWf(cfg, f, sa);
      EnsureActiveEffect(cfg, f, sa);
      var (g, b) := EnsureActive(cfg, f, sa);
      if b.Some? { WriteIntoEffect(cfg, f, g, b.value, lp); }
    }
  }

  // ----- usage --------------------------------------------------------------------------------------

  /** Pages mapped into the listed blocks. */
  ghost function LiveIn(m: Mapping, blocks: Blocks): set<nat> { set lp | lp in m && BlockOf(m[lp]) in blocks }

  function ValidOf(i: BlockInfo): nat { i.valid }

  lemma {:induction false} ValidSum(m: Mapping, blocks: Blocks)
    requires CountExact(m, blocks, None)
    ensures Sum(blocks, ValidOf) == |LiveIn(m, blocks)|
    decreases |blocks|
  {
    if blocks == map[] {
      assert LiveIn(m, blocks) == {};
    } else {
      var b :| b in blocks;
      var rest := blocks - {b};
      SumRemove(blocks, b, ValidOf);
      SmallerMap(blocks, b);
      CountAt(m, blocks, b);
      forall c | c in rest ensures |Live(m, c)| + Extra(None, c) == rest[c].valid { CountAt(m, blocks, c); }
      ValidSum(m, rest);
      assert LiveIn(m, blocks) == LiveIn(m, rest) + Live(m, b);
      assert LiveIn(m, rest) !! Live(m, b);
    }
  }

  /** `get_usage`: the valid pages it adds up over the blocks are exactly the logical pages mapped. */
  lemma UsageIsMapping(cfg: Config, f: State)
    requires Wf(cfg, f) && Exact(f)
    ensures Sum(f.blocks, ValidOf) == |f.mapping|
  {
    MappedKnown(cfg, f);
    hide Wf, CountExact, ReverseExact, SortedOut;
    ValidSum(f.mapping, f.blocks);
    assert LiveIn(f.mapping, f.blocks) == f.mapping.Keys;
  }

  lemma MappedKnown(cfg: Config, f: State)
    requires Wf(cfg, f)
    ensures forall lp :: lp in f.mapping ==> BlockOf(f.mapping[lp]) in f.blocks
  {
    hide BlocksWf, PoolsWf, Covers, CountWf, Local, Injective;
    forall lp | lp in f.mapping ensures BlockOf(f.mapping[lp]) in f.blocks { assert InUse(f.blocks, f.pool, f.mapping[lp]); }
  }
}
