/** What every FTL operation keeps, in both media modes. Each predicate names only the tables it
    constrains, so that an operation on other tables preserves it by definition. */
module FtlInvariant {
  import opened Basics
  import opened Geometry
  import opened Ftl

  type Mapping = map<nat, Phys>
  type Blocks = map<Block, BlockInfo>

  ghost predicate BlocksWf(cfg: Config, blocks: Blocks, nextId: nat) {
    && (forall b :: b in blocks ==> InfoWf(cfg, blocks[b]) && b.id < nextId)
    && |blocks| == nextId <= PSEUDO_BLOCK_BIT
    && nextId <= cfg.MaxBlocks()
  }

  predicate InfoWf(cfg: Config, i: BlockInfo) {
    i.total == cfg.pagesPerBlock && i.next + i.free == i.total && i.valid <= i.next
  }

  ghost predicate PoolsWf(blocks: Blocks, pool: set<Block>, active: map<int, Block>) {
    && pool <= blocks.Keys
    && forall sa :: sa in active ==> Installable(blocks, pool, sa, active[sa])
  }

  predicate Installable(blocks: Blocks, pool: set<Block>, sa: int, b: Block) {
    b.sa == sa && b in blocks && b !in pool && blocks[b].free > 0
  }

  /** The address lies in the written part of a block in use. */
  predicate InUse(blocks: Blocks, pool: set<Block>, p: Phys) {
    BlockOf(p) in blocks && BlockOf(p) !in pool && p.page < blocks[BlockOf(p)].next
  }

  predicate Injective(m: Mapping) {
    forall p, q :: p in m && q in m && m[p] == m[q] ==> p == q
  }

  predicate Unmapped(m: Mapping, p: Phys) { forall lp :: lp in m ==> m[lp] != p }

  predicate Local(cfg: Config, m: Mapping) {
    forall lp :: lp in m ==> Preferred(cfg, lp) == Some(m[lp].sa)
  }

  /** Every page is mapped once, in use, in its preferred sub-array. */
  ghost predicate MapWf(cfg: Config, m: Mapping, blocks: Blocks, pool: set<Block>) {
    && (forall lp :: lp in m ==> InUse(blocks, pool, m[lp]))
    && Local(cfg, m)
    && Injective(m)
  }

  /** The reverse index covers the mapping. */
  predicate Covers(m: Mapping, reverse: map<Block, set<nat>>) {
    forall lp :: lp in m ==> BlockOf(m[lp]) in reverse && lp in reverse[BlockOf(m[lp])]
  }

  /** One page reserved but not yet mapped counts in its block. */
  function Extra(spare: Option<Block>, b: Block): nat { if spare == Some(b) then 1 else 0 }

  /** The valid count bounds the live pages of each block. */
  ghost predicate CountWf(m: Mapping, blocks: Blocks, spare: Option<Block>) {
    forall b :: b in blocks ==> |Live(m, b)| + Extra(spare, b) <= blocks[b].valid
  }

  ghost predicate WfSpare(cfg: Config, f: State, spare: Option<Block>) {
    && BlocksWf(cfg, f.blocks, f.nextId)
    && PoolsWf(f.blocks, f.pool, f.active)
    && MapWf(cfg, f.mapping, f.blocks, f.pool)
    && Covers(f.mapping, f.reverse)
    && CountWf(f.mapping, f.blocks, spare)
    && !f.aborted
  }

  ghost predicate Wf(cfg: Config, f: State) { WfSpare(cfg, f, None) }

  lemma EmptyWf(cfg: Config)
    ensures Wf(cfg, Empty)
  {
  }

  // ----- block allocation -----------------------------------------------------------------------

  lemma UnusedBlockIsEmpty(cfg: Config, m: Mapping, blocks: Blocks, pool: set<Block>, b: Block)
    requires MapWf(cfg, m, blocks, pool) && (b in pool || b !in blocks)
    ensures Live(m, b) == {}
  {
  }

  /** Replacing the record of one block keeps pages in use if the block holds none or only grows. */
  lemma InUseFrame(cfg: Config, m: Mapping, blocks: Blocks, pool: set<Block>, b: Block, info: BlockInfo, pool': set<Block>)
    requires MapWf(cfg, m, blocks, pool) && pool' <= pool
    requires Live(m, b) == {} || (b in blocks && blocks[b].next <= info.next && b !in pool')
    ensures MapWf(cfg, m, blocks[b := info], pool')
  {
    hide Preferred;
    forall lp | lp in m ensures InUse(blocks[b := info], pool', m[lp]) {
      assert InUse(blocks, pool, m[lp]);
      assert lp in Live(m, BlockOf(m[lp]));
    }
  }

  lemma TakeFreeWf(cfg: Config, f: State, b: Block)
    requires cfg.pagesPerBlock > 0 && Wf(cfg, f) && b in f.pool
    ensures Wf(cfg, TakeFree(f, b))
    ensures Installable(TakeFree(f, b).blocks, TakeFree(f, b).pool, b.sa, b)
  {
    UnusedBlockIsEmpty(cfg, f.mapping, f.blocks, f.pool, b);
    var g := TakeFree(f, b);
    InUseFrame(cfg, f.mapping, f.blocks, f.pool, b, g.blocks[b], g.pool);
    hide Config.MaxBlocks, MapWf, Covers, Live;
    assert g.blocks.Keys == f.blocks.Keys;
  }

  lemma FreshTables(cfg: Config, f: State, b: Block)
    requires cfg.pagesPerBlock > 0 && Wf(cfg, f) && b.id == f.nextId && !AtCapacity(cfg, f)
    ensures var blocks := f.blocks[b := FreshInfo(cfg)];
      BlocksWf(cfg, blocks, f.nextId + 1) && PoolsWf(blocks, f.pool, f.active) && CountWf(f.mapping, blocks, None)
  {
    UnusedBlockIsEmpty(cfg, f.mapping, f.blocks, f.pool, b);
    hide MapWf, Covers, Live;
    assert BlocksWf(cfg, f.blocks[b := FreshInfo(cfg)], f.nextId + 1) by {
      hide Config.MaxBlocks, CountWf, PoolsWf;
    }
    assert b !in f.blocks;
    hide BlocksWf;
    assert PoolsWf(f.blocks[b := FreshInfo(cfg)], f.pool, f.active) by {
      forall sa | sa in f.active ensures Installable(f.blocks[b := FreshInfo(cfg)], f.pool, sa, f.active[sa]) {
        assert Installable(f.blocks, f.pool, sa, f.active[sa]);
      }
    }
  }

  lemma NewBlockWf(cfg: Config, f: State, sa: int)
    requires cfg.pagesPerBlock > 0 && Wf(cfg, f)
    ensures Wf(cfg, NewBlock(cfg, f, sa).0)
    ensures NewBlock(cfg, f, sa).1.Some? ==>
      Installable(NewBlock(cfg, f, sa).0.blocks, NewBlock(cfg, f, sa).0.pool, sa, NewBlock(cfg, f, sa).1.value)
  {
    if !AtCapacity(cfg, f) {
      var b := Block(sa, f.nextId);
      FreshTables(cfg, f, b);
      UnusedBlockIsEmpty(cfg, f.mapping, f.blocks, f.pool, b);
      InUseFrame(cfg, f.mapping, f.blocks, f.pool, b, FreshInfo(cfg), f.pool);
      assert b !in f.pool;
      hide BlocksWf, MapWf, Covers, CountWf, PoolsWf;
    } else {
      hide BlocksWf, MapWf, Covers, CountWf, PoolsWf, AtCapacity;
    }
  }

  lemma InstallWf(cfg: Config, f: State, b: Block)
    requires Wf(cfg, f) && Installable(f.blocks, f.pool, b.sa, b)
    ensures Wf(cfg, f.(active := f.active[b.sa := b]))
  {
    hide Config.MaxBlocks, MapWf, Covers, Live;
  }

  lemma BlocksUpdate(cfg: Config, blocks: Blocks, nextId: nat, b: Block, info: BlockInfo)
    requires BlocksWf(cfg, blocks, nextId) && b in blocks && InfoWf(cfg, info)
    ensures BlocksWf(cfg, blocks[b := info], nextId)
  {
    hide Config.MaxBlocks;
    assert blocks[b := info].Keys == blocks.Keys;
  }

  lemma CountUpdate(m: Mapping, blocks: Blocks, spare: Option<Block>, b: Block, info: BlockInfo, spare': Option<Block>)
    requires CountWf(m, blocks, spare) && (spare == None || spare == Some(b)) && (spare' == None || spare' == Some(b))
    requires |Live(m, b)| + Extra(spare', b) <= info.valid
    ensures CountWf(m, blocks[b := info], spare')
  {
    hide Live;
  }

  lemma CursorIsUnmapped(cfg: Config, m: Mapping, blocks: Blocks, pool: set<Block>, b: Block)
    requires MapWf(cfg, m, blocks, pool) && b in blocks
    ensures Unmapped(m, Phys(b.sa, b.id, blocks[b].next))
  {
    hide Preferred, Injective;
    forall lp | lp in m ensures m[lp] != Phys(b.sa, b.id, blocks[b].next) { assert InUse(blocks, pool, m[lp]); }
  }

  lemma CursorPools(blocks: Blocks, pool: set<Block>, active: map<int, Block>, b: Block, info: BlockInfo)
    requires PoolsWf(blocks, pool, active) && b.sa in active && active[b.sa] == b
    ensures info.free > 0 ==> PoolsWf(blocks[b := info], pool, active)
    ensures PoolsWf(blocks[b := info], pool, active - {b.sa})
  {
    forall sa | sa in active && (info.free > 0 || sa != b.sa) ensures Installable(blocks[b := info], pool, sa, active[sa]) {
      assert Installable(blocks, pool, sa, active[sa]);
    }
  }

  lemma TakePageWf(cfg: Config, f: State, b: Block)
    requires Wf(cfg, f) && b.sa in f.active && f.active[b.sa] == b
    ensures var (g, p) := TakePage(f, b);
      && p.Some? && BlockOf(p.value) == b && p.value.page == f.blocks[b].next && p.value.block < f.nextId
      && WfSpare(cfg, g, Some(b))
      && InUse(g.blocks, g.pool, p.value)
      && Unmapped(f.mapping, p.value)
  {
    assert Installable(f.blocks, f.pool, b.sa, b);
    var (g, p) := TakePage(f, b);
    InUseFrame(cfg, f.mapping, f.blocks, f.pool, b, g.blocks[b], f.pool);
    CursorIsUnmapped(cfg, f.mapping, f.blocks, f.pool, b);
    CursorPools(f.blocks, f.pool, f.active, b, g.blocks[b]);
    BlocksUpdate(cfg, f.blocks, f.nextId, b, g.blocks[b]);
    CountUpdate(f.mapping, f.blocks, None, b, g.blocks[b], Some(b));
    hide BlocksWf, MapWf, Covers, CountWf, PoolsWf;
  }

  // ----- invalidation and commit ----------------------------------------------------------------

  lemma LiveRemove(m: Mapping, lp: nat, b: Block)
    ensures Live(m - {lp}, b) == Live(m, b) - {lp}
    ensures lp in m && BlockOf(m[lp]) == b ==> |Live(m - {lp}, b)| + 1 == |Live(m, b)|
    ensures lp in m && BlockOf(m[lp]) != b ==> Live(m - {lp}, b) == Live(m, b)
  {
    if lp in m && BlockOf(m[lp]) == b { assert lp in Live(m, b); }
  }

  lemma LiveInsert(m: Mapping, lp: nat, p: Phys, b: Block)
    requires lp !in m
    ensures BlockOf(p) == b ==> Live(m[lp := p], b) == Live(m, b) + {lp} && |Live(m[lp := p], b)| == |Live(m, b)| + 1
    ensures BlockOf(p) != b ==> Live(m[lp := p], b) == Live(m, b)
  {
  }

  lemma CountRemove(m: Mapping, blocks: Blocks, spare: Option<Block>, lp: nat, info: BlockInfo)
    requires CountWf(m, blocks, spare) && lp in m && BlockOf(m[lp]) in blocks
    requires info.valid + 1 == blocks[BlockOf(m[lp])].valid
    ensures CountWf(m - {lp}, blocks[BlockOf(m[lp]) := info], spare)
  {
    forall b | b in blocks ensures |Live(m - {lp}, b)| + Extra(spare, b) <= blocks[BlockOf(m[lp]) := info][b].valid {
      LiveRemove(m, lp, b);
      hide Live;
    }
  }

  lemma CountInsert(m: Mapping, blocks: Blocks, lp: nat, p: Phys)
    requires CountWf(m, blocks, Some(BlockOf(p))) && lp !in m
    ensures CountWf(m[lp := p], blocks, None)
  {
    forall b | b in blocks ensures |Live(m[lp := p], b)| <= blocks[b].valid { LiveInsert(m, lp, p, b); }
  }

  lemma MapRemove(cfg: Config, m: Mapping, blocks: Blocks, pool: set<Block>, lp: nat, info: BlockInfo, pool': set<Block>)
    requires MapWf(cfg, m, blocks, pool) && lp in m
    requires var b := BlockOf(m[lp]); info.next == blocks[b].next && (pool' == pool || (pool' == pool + {b} && Live(m - {lp}, b) == {}))
    ensures MapWf(cfg, m - {lp}, blocks[BlockOf(m[lp]) := info], pool')
  {
    hide Preferred;
    var m', b := m - {lp}, BlockOf(m[lp]);
    forall q | q in m' ensures InUse(blocks[b := info], pool', m'[q]) {
      assert InUse(blocks, pool, m[q]);
      assert q in Live(m', BlockOf(m[q]));
    }
  }

  lemma MapInsert(cfg: Config, m: Mapping, blocks: Blocks, pool: set<Block>, lp: nat, p: Phys)
    requires MapWf(cfg, m, blocks, pool) && InUse(blocks, pool, p) && Unmapped(m, p) && Preferred(cfg, lp) == Some(p.sa)
    ensures MapWf(cfg, m[lp := p], blocks, pool)
  {
    hide Preferred, InUse;
  }

  lemma ReleasePools(blocks: Blocks, pool: set<Block>, active: map<int, Block>, b: Block, info: BlockInfo)
    requires PoolsWf(blocks, pool, active) && b in blocks && info.free == blocks[b].free
    ensures PoolsWf(blocks[b := info], pool, active)
    ensures PoolsWf(blocks[b := info], pool + {b}, Deactivate(active, b))
  {
  }

  lemma CoversDrop(m: Mapping, reverse: map<Block, set<nat>>, lp: nat)
    requires Covers(m, reverse) && lp in m
    ensures Covers(m - {lp}, DropReverse(reverse, BlockOf(m[lp]), lp))
  {
  }

  lemma CoversAdd(m: Mapping, reverse: map<Block, set<nat>>, lp: nat, p: Phys)
    requires Covers(m, reverse)
    ensures Covers(m[lp := p], AddReverse(reverse, BlockOf(p), lp))
  {
  }

  lemma RetiredIsEmpty(cfg: Config, f: State, lp: nat, spare: Option<Block>)
    requires CountWf(f.mapping, f.blocks, spare) && lp in f.mapping && BlockOf(f.mapping[lp]) in f.blocks
    ensures f.blocks[BlockOf(f.mapping[lp])].valid > 0
    ensures Retires(cfg, f, BlockOf(f.mapping[lp])) ==> Live(f.mapping - {lp}, BlockOf(f.mapping[lp])) == {} && spare != Some(BlockOf(f.mapping[lp]))
  {
    var b := BlockOf(f.mapping[lp]);
    LiveRemove(f.mapping, lp, b);
    hide Live;
    assert |Live(f.mapping, b)| + Extra(spare, b) <= f.blocks[b].valid;
  }

  /** A page of the spare block survives any invalidation: its block still counts a reservation. */
  lemma InvalidateWf(cfg: Config, f: State, lp: nat, spare: Option<Block>)
    requires WfSpare(cfg, f, spare) && lp in f.mapping
    ensures WfSpare(cfg, Invalidate(cfg, f, lp), spare)
    ensures spare.Some? && spare.value !in f.pool ==> spare.value !in Invalidate(cfg, f, lp).pool
    ensures forall b :: b in f.blocks ==> b in Invalidate(cfg, f, lp).blocks && Invalidate(cfg, f, lp).blocks[b].next == f.blocks[b].next
    ensures Invalidate(cfg, f, lp).mapping == f.mapping - {lp}
  {
    hide Preferred, DropReverse, Deactivate, BlocksWf, PoolsWf, CountWf, MapWf, Covers, Live, Invalidate, Retires;
    var b := BlockOf(f.mapping[lp]);
    MappedInUse(cfg, f.mapping, f.blocks, f.pool, lp);
    RetiredIsEmpty(cfg, f, lp, spare);
    InvalidateIs(cfg, f, lp);
    var g := Invalidate(cfg, f, lp);
    var info := OneLess(f.blocks[b], Retires(cfg, f, b));
    CountRemove(f.mapping, f.blocks, spare, lp, info);
    MapRemove(cfg, f.mapping, f.blocks, f.pool, lp, info, g.pool);
    ReleasePools(f.blocks, f.pool, f.active, b, info);
    BlockInfoWf(cfg, f.blocks, f.nextId, b);
    BlocksUpdate(cfg, f.blocks, f.nextId, b, info);
    CoversDrop(f.mapping, f.reverse, lp);
  }

  lemma MappedInUse(cfg: Config, m: Mapping, blocks: Blocks, pool: set<Block>, lp: nat)
    requires MapWf(cfg, m, blocks, pool) && lp in m
    ensures BlockOf(m[lp]) in blocks && BlockOf(m[lp]) !in pool
  {
    hide Local, Injective;
    assert InUse(blocks, pool, m[lp]);
  }

  lemma BlockInfoWf(cfg: Config, blocks: Blocks, nextId: nat, b: Block)
    requires BlocksWf(cfg, blocks, nextId) && b in blocks
    ensures InfoWf(cfg, blocks[b])
  {
  }

  /** What an invalidation of a mapped page changes. */
  lemma InvalidateIs(cfg: Config, f: State, lp: nat)
    requires lp in f.mapping && BlockOf(f.mapping[lp]) in f.blocks && f.blocks[BlockOf(f.mapping[lp])].valid > 0
    ensures var b := BlockOf(f.mapping[lp]); var retires := Retires(cfg, f, b);
      Invalidate(cfg, f, lp) == f.(mapping := f.mapping - {lp}, reverse := DropReverse(f.reverse, b, lp),
        blocks := f.blocks[b := OneLess(f.blocks[b], retires)], active := if retires then Deactivate(f.active, b) else f.active,
        pool := if retires then f.pool + {b} else f.pool)
  {
    hide DropReverse, Deactivate, Retires;
  }

  lemma CommitFresh(cfg: Config, g: State, lp: nat, p: Phys)
    requires WfSpare(cfg, g, Some(BlockOf(p))) && InUse(g.blocks, g.pool, p) && lp !in g.mapping
    requires Unmapped(g.mapping, p) && Preferred(cfg, lp) == Some(p.sa)
    ensures Wf(cfg, g.(mapping := g.mapping[lp := p], reverse := AddReverse(g.reverse, BlockOf(p), lp)))
  {
    MapInsert(cfg, g.mapping, g.blocks, g.pool, lp, p);
    CountInsert(g.mapping, g.blocks, lp, p);
    CoversAdd(g.mapping, g.reverse, lp, p);
    hide BlocksWf, MapWf, Covers, CountWf, PoolsWf, AddReverse;
  }

  lemma CommitWf(cfg: Config, f: State, lp: nat, p: Phys)
    requires WfSpare(cfg, f, Some(BlockOf(p))) && InUse(f.blocks, f.pool, p)
    requires Unmapped(f.mapping, p) && Preferred(cfg, lp) == Some(p.sa)
    ensures Wf(cfg, Commit(cfg, f, lp, p))
    ensures Commit(cfg, f, lp, p).mapping == f.mapping[lp := p]
  {
    hide WfSpare, AddReverse, Preferred;
    if lp in f.mapping {
      InvalidateWf(cfg, f, lp, Some(BlockOf(p)));
      hide Invalidate;
      var g := Invalidate(cfg, f, lp);
      assert InUse(g.blocks, g.pool, p);
      CommitFresh(cfg, g, lp, p);
      assert g.mapping[lp := p] == f.mapping[lp := p];
    } else {
      CommitFresh(cfg, f, lp, p);
    }
  }

  // ----- garbage collection ---------------------------------------------------------------------

  /** GC and allocation may move pages, never rename, drop or leave their sub-array. */
  predicate SamePages(m: Mapping, m': Mapping) {
    m'.Keys == m.Keys && forall lp :: lp in m ==> m'[lp].sa == m[lp].sa
  }

  ghost predicate IdleVictim(cfg: Config, f: State, victim: Block) {
    Wf(cfg, f) && victim in f.blocks && victim !in f.pool && !IsActive(f, victim)
  }

  lemma DirtiedWf(cfg: Config, m: Mapping, blocks: Blocks, nextId: nat, dead: set<Block>)
    requires BlocksWf(cfg, blocks, nextId) && CountWf(m, blocks, None)
    ensures BlocksWf(cfg, Dirtied(blocks, dead), nextId) && CountWf(m, Dirtied(blocks, dead), None)
  {
    hide Live, Config.MaxBlocks;
    assert Dirtied(blocks, dead).Keys == blocks.Keys;
  }

  lemma DirtiedPools(f: State, dead: set<Block>)
    requires PoolsWf(f.blocks, f.pool, f.active) && dead <= Idle(f)
    ensures PoolsWf(Dirtied(f.blocks, dead), f.pool + dead, f.active)
  {
    forall sa | sa in f.active ensures Installable(Dirtied(f.blocks, dead), f.pool + dead, sa, f.active[sa]) {
      assert Installable(f.blocks, f.pool, sa, f.active[sa]);
      assert IsActive(f, f.active[sa]);
    }
  }

  lemma DirtiedMap(cfg: Config, m: Mapping, blocks: Blocks, pool: set<Block>, dead: set<Block>)
    requires MapWf(cfg, m, blocks, pool) && CountWf(m, blocks, None)
    requires forall b :: b in dead ==> b in blocks && blocks[b].valid == 0
    ensures MapWf(cfg, m, Dirtied(blocks, dead), pool + dead)
  {
    hide Preferred, Injective;
    forall lp | lp in m ensures InUse(Dirtied(blocks, dead), pool + dead, m[lp]) {
      assert InUse(blocks, pool, m[lp]);
      assert lp in Live(m, BlockOf(m[lp]));
      assert |Live(m, BlockOf(m[lp]))| > 0;
    }
  }

  lemma RetireWf(cfg: Config, f: State)
    requires Wf(cfg, f)
    ensures Wf(cfg, Retire(f))
  {
    DirtiedWf(cfg, f.mapping, f.blocks, f.nextId, Dead(f));
    DirtiedPools(f, Dead(f));
    DirtiedMap(cfg, f.mapping, f.blocks, f.pool, Dead(f));
    hide BlocksWf, MapWf, Covers, CountWf, PoolsWf, Dirtied, Dead;
  }

  /** Blocks in use are untouched while a block is found, and no idle one becomes active. */
  predicate Untouched(f: State, g: State) {
    && g.mapping == f.mapping && g.acts == f.acts && g.mappingError == f.mappingError
    && (forall v :: v in f.blocks && v !in f.pool ==> v in g.blocks && v !in g.pool && g.blocks[v] == f.blocks[v])
  }

  lemma GcBlockWf(cfg: Config, f: State, sa: int)
    requires cfg.pagesPerBlock > 0 && Wf(cfg, f)
    ensures var (g, b) := GcBlock(cfg, f, sa);
      Wf(cfg, g) && (b.Some? ==> b.value.sa == sa && sa in g.active && g.active[sa] == b.value)
  {
    if sa in f.active {
      assert Installable(f.blocks, f.pool, sa, f.active[sa]);
    } else if Candidates(f, sa) != {} {
      var free := PickFree(false, f, sa);
      TakeFreeWf(cfg, f, free);
      InstallWf(cfg, TakeFree(f, free), free);
      hide Wf, TakeFree;
    } else {
      NewBlockWf(cfg, f, sa);
      var (g, b) := NewBlock(cfg, f, sa);
      if b.Some? { InstallWf(cfg, g, b.value); }
      hide Wf, NewBlock;
    }
  }

  lemma TakeFreeUntouched(f: State, b: Block)
    requires b in f.blocks && b in f.pool
    ensures Untouched(f, TakeFree(f, b)) && TakeFree(f, b).active == f.active
  {
  }

  lemma NewBlockUntouched(cfg: Config, f: State, sa: int)
    requires BlocksWf(cfg, f.blocks, f.nextId)
    ensures Untouched(f, NewBlock(cfg, f, sa).0)
    ensures NewBlock(cfg, f, sa).1.Some? ==> NewBlock(cfg, f, sa).1.value !in f.blocks
  {
    hide AtCapacity, Config.MaxBlocks, InfoWf;
  }

  lemma NewBlockActive(cfg: Config, f: State, sa: int)
    ensures NewBlock(cfg, f, sa).0.active == f.active
  {
    hide AtCapacity;
  }

  lemma GcBlockEffect(cfg: Config, f: State, sa: int, victim: Block)
    requires Wf(cfg, f) && victim in f.blocks && victim !in f.pool && !IsActive(f, victim)
    ensures var (g, b) := GcBlock(cfg, f, sa);
      Untouched(f, g) && !IsActive(g, victim) && (b.Some? ==> b.value != victim)
  {
    hide Wf, NewBlock, TakeFree, IsPick, Untouched;
    KnownTables(cfg, f);
    if sa in f.active {
      NotVictim(cfg, f, sa, victim);
      SelfUntouched(f);
    } else if Candidates(f, sa) != {} {
      var b := PickFree(false, f, sa);
      TakeFreeUntouched(f, b);
      UntouchedActive(f, TakeFree(f, b), f.active[sa := b]);
    } else {
      NewBlockUntouched(cfg, f, sa);
      NewBlockActive(cfg, f, sa);
      var (g, b) := NewBlock(cfg, f, sa);
      if b.Some? { UntouchedActive(f, g, f.active[sa := b.value]); }
    }
  }

  lemma KnownTables(cfg: Config, f: State)
    requires Wf(cfg, f)
    ensures BlocksWf(cfg, f.blocks, f.nextId)
  {
    hide BlocksWf, PoolsWf, MapWf, Covers, CountWf;
  }

  lemma NotVictim(cfg: Config, f: State, sa: int, victim: Block)
    requires Wf(cfg, f) && sa in f.active && !IsActive(f, victim)
    ensures f.active[sa] != victim
  {
    hide BlocksWf, MapWf, Covers, CountWf;
    assert Installable(f.blocks, f.pool, sa, f.active[sa]);
  }

  lemma SelfUntouched(f: State)
    ensures Untouched(f, f)
  {
  }

  lemma UntouchedActive(f: State, g: State, active: map<int, Block>)
    requires Untouched(f, g)
    ensures Untouched(f, g.(active := active))
  {
  }

  lemma GcAllocateWf(cfg: Config, f: State, lp: nat, victim: Block)
    requires cfg.pagesPerBlock > 0 && IdleVictim(cfg, f, victim)
    ensures var (g, to) := GcAllocate(cfg, f, lp);
      && (Preferred(cfg, lp).Some? ==> g.mappingError == f.mappingError)
      && g.mapping == f.mapping && g.acts == f.acts && victim in g.blocks && victim !in g.pool && !IsActive(g, victim)
      && (to.None? ==> Wf(cfg, g))
      && (to.Some? ==>
           && WfSpare(cfg, g, Some(BlockOf(to.value))) && InUse(g.blocks, g.pool, to.value) && Unmapped(g.mapping, to.value)
           && Preferred(cfg, lp) == Some(to.value.sa) && BlockOf(to.value) != victim)
  {
    hide Preferred;
    if Preferred(cfg, lp).Some? {
      var sa := Preferred(cfg, lp).value;
      GcBlockWf(cfg, f, sa);
      GcBlockEffect(cfg, f, sa, victim);
      var (g, b) := GcBlock(cfg, f, sa);
      hide GcBlock;
      if b.Some? {
        TakePageWf(cfg, g, b.value);
        TakePageKeeps(g, b.value, victim);
        hide TakePage;
      }
      hide Wf, WfSpare, InUse, Unmapped;
    }
  }

  lemma TakePageKeeps(f: State, b: Block, victim: Block)
    requires victim in f.blocks && b != victim && !IsActive(f, victim)
    ensures var g := TakePage(f, b).0;
      && g.mapping == f.mapping && g.acts == f.acts && g.mappingError == f.mappingError && g.pool == f.pool
      && victim in g.blocks && !IsActive(g, victim)
  {
  }

  lemma CountMove(m: Mapping, blocks: Blocks, lp: nat, to: Phys)
    requires CountWf(m, blocks, Some(BlockOf(to))) && lp in m
    ensures CountWf(m[lp := to], blocks, None)
  {
    var m' := m - {lp};
    forall b | b in blocks ensures |Live(m[lp := to], b)| <= blocks[b].valid {
      assert m'[lp := to] == m[lp := to];
      LiveInsert(m', lp, to, b);
      LiveRemove(m, lp, b);
    }
  }

  lemma MovedWf(cfg: Config, f: State, lp: nat, to: Phys)
    requires WfSpare(cfg, f, Some(BlockOf(to))) && InUse(f.blocks, f.pool, to) && Unmapped(f.mapping, to)
    requires Preferred(cfg, lp) == Some(to.sa) && lp in f.mapping
    ensures Wf(cfg, Moved(f, lp, f.mapping[lp], to))
  {
    hide Preferred, Unmapped, InUse, BlocksWf, PoolsWf, AddReverse;
    CountMove(f.mapping, f.blocks, lp, to);
    hide CountWf;
    MapInsert(cfg, f.mapping, f.blocks, f.pool, lp, to);
    hide MapWf;
    CoversAdd(f.mapping, f.reverse, lp, to);
    hide Covers;
  }

  lemma MoveStays(cfg: Config, m: Mapping, lp: nat, to: Phys)
    requires Local(cfg, m) && lp in m && Preferred(cfg, lp) == Some(to.sa)
    ensures SamePages(m, m[lp := to])
  {
    hide Preferred;
  }

  lemma SamePagesTrans(a: Mapping, b: Mapping, c: Mapping)
    requires SamePages(a, b) && SamePages(b, c)
    ensures SamePages(a, c)
  {
  }

  lemma ListedTail(m: Mapping, victim: Block, pages: seq<nat>, lp: nat, to: Phys)
    requires Listed(m, victim, pages) && pages != [] && lp == pages[0]
    ensures BlockOf(to) != victim ==> Listed(m[lp := to], victim, pages[1..])
    ensures lp !in m || BlockOf(m[lp]) != victim ==> Listed(m, victim, pages[1..])
  {
  }

  /** Everything still in the victim is on the list of pages left to move. */
  predicate Listed(m: Mapping, victim: Block, pages: seq<nat>) {
    forall lp :: lp in m && BlockOf(m[lp]) == victim ==> lp in pages
  }

  lemma {:induction false} RelocateWf(cfg: Config, f: State, victim: Block, pages: seq<nat>)
    requires cfg.pagesPerBlock > 0 && IdleVictim(cfg, f, victim) && Listed(f.mapping, victim, pages)
    ensures var (g, done) := Relocate(cfg, f, victim, pages);
      && IdleVictim(cfg, g, victim) && SamePages(f.mapping, g.mapping) && g.mappingError == f.mappingError
      && (done ==> Live(g.mapping, victim) == {})
    decreases |pages|
  {
    if pages != [] {
      var lp := pages[0];
      ListedTail(f.mapping, victim, pages, lp, Phys(0, 0, 0));
      if lp !in f.mapping || BlockOf(f.mapping[lp]) != victim {
        hide Wf, Listed;
        RelocateWf(cfg, f, victim, pages[1..]);
      } else {
        RelocateStep(cfg, f, victim, lp);
        hide IdleVictim, GcAllocate, SamePages;
        var (g, to) := GcAllocate(cfg, f, lp);
        if to.Some? {
          var h := Moved(g, lp, f.mapping[lp], to.value);
          ListedTail(f.mapping, victim, pages, lp, to.value);
          hide Listed;
          RelocateWf(cfg, h, victim, pages[1..]);
          SamePagesTrans(f.mapping, h.mapping, Relocate(cfg, h, victim, pages[1..]).0.mapping);
        }
      }
    } else {
      hide Wf;
    }
  }

  lemma RelocateStep(cfg: Config, f: State, victim: Block, lp: nat)
    requires cfg.pagesPerBlock > 0 && IdleVictim(cfg, f, victim) && lp in f.mapping && BlockOf(f.mapping[lp]) == victim
    ensures var (g, to) := GcAllocate(cfg, f, lp);
      && g.mappingError == f.mappingError
      && if to.None? then IdleVictim(cfg, g.(capacityError := true), victim) && g.mapping == f.mapping
          && SamePages(f.mapping, g.mapping)
      else
        && var h := Moved(g, lp, f.mapping[lp], to.value);
        && IdleVictim(cfg, h, victim) && h.mapping == f.mapping[lp := to.value] && BlockOf(to.value) != victim
        && SamePages(f.mapping, h.mapping)
  {
    GcAllocateWf(cfg, f, lp, victim);
    var (g, to) := GcAllocate(cfg, f, lp);
    if to.Some? { MoveStays(cfg, f.mapping, lp, to.value); }
    hide GcAllocate, Preferred, BlocksWf, PoolsWf, Covers, CountWf, MapWf;
    if to.Some? {
      MovedWf(cfg, g, lp, to.value);
      hide Wf, WfSpare, InUse, Unmapped, SamePages;
    }
  }

  lemma ReclaimWf(cfg: Config, f: State, victim: Block)
    requires IdleVictim(cfg, f, victim) && Live(f.mapping, victim) == {}
    ensures Wf(cfg, Reclaim(f, victim))
  {
    var was := f.blocks[victim];
    var info := was.(erased := true, free := was.total, next := 0, valid := 0);
    CountUpdate(f.mapping, f.blocks, None, victim, info, None);
    BlocksUpdate(cfg, f.blocks, f.nextId, victim, info);
    hide CountWf, BlocksWf;
    ReclaimMap(cfg, f.mapping, f.blocks, f.pool, victim, info);
    hide MapWf;
    CoversWithout(f.mapping, f.reverse, victim);
    hide Covers, Live;
    ReclaimPools(f, victim, info);
    hide PoolsWf, Deactivate;
  }

  lemma CoversWithout(m: Mapping, reverse: map<Block, set<nat>>, victim: Block)
    requires Covers(m, reverse) && Live(m, victim) == {}
    ensures Covers(m, reverse - {victim})
  {
    forall lp | lp in m ensures BlockOf(m[lp]) != victim { assert lp in Live(m, BlockOf(m[lp])); }
  }

  lemma ReclaimPools(f: State, victim: Block, info: BlockInfo)
    requires PoolsWf(f.blocks, f.pool, f.active) && victim in f.blocks && !IsActive(f, victim)
    ensures PoolsWf(f.blocks[victim := info], f.pool + {victim}, Deactivate(f.active, victim))
  {
    forall sa | sa in f.active ensures f.active[sa] != victim { assert Installable(f.blocks, f.pool, sa, f.active[sa]); }
  }

  lemma ReclaimMap(cfg: Config, m: Mapping, blocks: Blocks, pool: set<Block>, victim: Block, info: BlockInfo)
    requires MapWf(cfg, m, blocks, pool) && Live(m, victim) == {}
    ensures MapWf(cfg, m, blocks[victim := info], pool + {victim})
  {
    hide Preferred, Injective;
    forall lp | lp in m ensures InUse(blocks[victim := info], pool + {victim}, m[lp]) {
      assert InUse(blocks, pool, m[lp]);
      assert lp in Live(m, BlockOf(m[lp]));
    }
  }

  lemma VictimListed(m: Mapping, reverse: map<Block, set<nat>>, victim: Block)
    requires Covers(m, reverse)
    ensures Listed(m, victim, if victim in reverse then SortedKeys(reverse[victim]) else [])
  {
  }

  /** Garbage collection, finished or abandoned, keeps the tables, the pages and their sub-arrays. */
  lemma GcWf(cfg: Config, f: State)
    requires cfg.pagesPerBlock > 0 && Wf(cfg, f)
    ensures Wf(cfg, Gc(cfg, f)) && SamePages(f.mapping, Gc(cfg, f).mapping) && Gc(cfg, f).mappingError == f.mappingError
  {
    if NeedsGc(cfg, f) {
      var average := AverageErases(cfg, f);
      RetireWf(cfg, f);
      var g := Retire(f);
      if Eligible(cfg, g, average) != {} {
        var victim := Victim(cfg, g, average);
        VictimListed(g.mapping, g.reverse, victim);
        hide Wf, Retire, Listed, SamePages;
        var pages := if victim in g.reverse then SortedKeys(g.reverse[victim]) else [];
        assert IdleVictim(cfg, g, victim);
        RelocateWf(cfg, g, victim, pages);
        var (h, done) := Relocate(cfg, g, victim, pages);
        hide Relocate;
        if done { ReclaimWf(cfg, h, victim); }
      }
    }
  }

  // ----- writing --------------------------------------------------------------------------------

  lemma NewBlockFails(cfg: Config, f: State, sa: int)
    ensures var (g, b) := NewBlock(cfg, f, sa);
      (b.None? <==> AtCapacity(cfg, f)) && (b.None? ==> AtCapacity(cfg, g) && Candidates(g, sa) == Candidates(f, sa) && g.capacityError)
  {
  }

  lemma AllocateBlockWf(cfg: Config, f: State, sa: int)
    requires cfg.pagesPerBlock > 0 && Wf(cfg, f)
    ensures var (g, b) := AllocateBlock(cfg, f, sa);
      && Wf(cfg, g) && SamePages(f.mapping, g.mapping) && g.mappingError == f.mappingError
      && (b.Some? ==> Installable(g.blocks, g.pool, sa, b.value))
      && (b.None? ==> g.capacityError && NoBlockFor(cfg, g, sa))
      && (b.None? <==> Candidates(f, sa) == {} && NoBlockFor(cfg, Gc(cfg, f), sa))
  {
    hide NeedsGc, PickFree, Gc;
    NewBlockFails(cfg, Gc(cfg, f), sa);
    NoGc(cfg, f);
    if Candidates(f, sa) != {} {
      TakeFreeWf(cfg, f, PickFree(cfg.wearLeveling, f, sa));
      hide Wf, Installable;
    } else {
      GcWf(cfg, f);
      var g := Gc(cfg, f);
      if NeedsGc(cfg, f) && Candidates(g, sa) != {} {
        TakeFreeWf(cfg, g, PickFree(cfg.wearLeveling, g, sa));
        hide Wf, Installable;
      } else {
        NewBlockWf(cfg, g, sa);
        hide Wf, Installable;
      }
    }
  }

  lemma NoGc(cfg: Config, f: State)
    ensures !NeedsGc(cfg, f) ==> Gc(cfg, f) == f
  {
  }

  lemma EnsureActiveWf(cfg: Config, f: State, sa: int)
    requires cfg.pagesPerBlock > 0 && Wf(cfg, f)
    ensures var (g, b) := EnsureActive(cfg, f, sa);
      && Wf(cfg, g) && SamePages(f.mapping, g.mapping) && g.mappingError == f.mappingError
      && (b.Some? ==> b.value.sa == sa && sa in g.active && g.active[sa] == b.value)
      && (b.None? ==> g.capacityError && NoBlockFor(cfg, g, sa))
      && (b.None? <==> sa !in f.active && Candidates(f, sa) == {} && NoBlockFor(cfg, Gc(cfg, f), sa))
  {
    if sa in f.active {
      assert Installable(f.blocks, f.pool, sa, f.active[sa]);
      hide Wf;
    } else {
      AllocateBlockWf(cfg, f, sa);
      var (g, b) := AllocateBlock(cfg, f, sa);
      hide AllocateBlock;
      hide Gc, NoBlockFor, Candidates;
      if b.Some? {
        if sa in g.active { assert Installable(g.blocks, g.pool, sa, g.active[sa]); }
        else { InstallWf(cfg, g, b.value); }
      }
      hide Wf;
    }
  }

  /** The forward map after a write: the page at its new address, every other page where garbage
      collection left it. */
  ghost predicate WroteOnly(m: Mapping, m': Mapping, lp: nat, p: Phys) {
    && m'.Keys == m.Keys + {lp} && m'[lp] == p
    && forall q :: q in m && q != lp ==> m'[q].sa == m[q].sa
  }

  lemma CommitFlag(cfg: Config, f: State, lp: nat, p: Phys)
    ensures Commit(cfg, f, lp, p).mappingError == f.mappingError
  {
  }

  lemma WriteIntoWf(cfg: Config, f: State, b: Block, lp: nat)
    requires Wf(cfg, f) && b.sa in f.active && f.active[b.sa] == b && Preferred(cfg, lp) == Some(b.sa)
    ensures var (g, p) := WriteInto(cfg, f, b, lp);
      && Wf(cfg, g) && g.mappingError == f.mappingError && p.Some? && BlockOf(p.value) == b && p.value.block < PSEUDO_BLOCK_BIT
      && g.mapping == f.mapping[lp := p.value] && Unmapped(f.mapping, p.value)
  {
    TakePageWf(cfg, f, b);
    var (g, p) := TakePage(f, b);
    assert g.mapping == f.mapping && p.value.block < PSEUDO_BLOCK_BIT && g.mappingError == f.mappingError;
    CommitFlag(cfg, g, lp, p.value);
    hide TakePage, BlocksWf, MapWf, CountWf, Covers, PoolsWf, Preferred;
    CommitWf(cfg, g, lp, p.value);
    hide Wf, WfSpare, Commit, Unmapped;
  }

  /** No placement; or no open block, none in the pool, and none to be had after the collection that then
      takes place. */
  ghost predicate WriteFails(cfg: Config, f: State, lp: nat) {
    match Preferred(cfg, lp)
    case None => true
    case Some(sa) => sa !in f.active && Candidates(f, sa) == {} && NoBlockFor(cfg, Gc(cfg, f), sa)
  }

  /** `translate(page, true)` never trips an assertion, places the page in its preferred sub-array
      under an ordinary block id, and fails exactly for want of a placement or of capacity. */
  lemma TranslateWriteWf(cfg: Config, f: State, lp: nat)
    requires cfg.pagesPerBlock > 0 && Wf(cfg, f)
    ensures var (g, p) := TranslateWrite(cfg, f, lp);
      && Wf(cfg, g)
      && (Preferred(cfg, lp).Some? ==> g.mappingError == f.mappingError)
      && (p.Some? ==> Preferred(cfg, lp) == Some(p.value.sa) && p.value.block < PSEUDO_BLOCK_BIT && WroteOnly(f.mapping, g.mapping, lp, p.value))
      && (p.None? ==> SamePages(f.mapping, g.mapping))
      && (p.None? && Preferred(cfg, lp).None? ==> g.mappingError)
      && (p.None? && Preferred(cfg, lp).Some? ==> g.capacityError && NoBlockFor(cfg, g, Preferred(cfg, lp).value))
      && (p.None? <==> WriteFails(cfg, f, lp))
  {
    hide NoBlockFor, Gc, Candidates, Preferred, BlocksWf, MapWf, CountWf, Covers, PoolsWf;
    if Preferred(cfg, lp).Some? {
      var sa := Preferred(cfg, lp).value;
      EnsureActiveWf(cfg, f, sa);
      var (g, b) := EnsureActive(cfg, f, sa);
      hide EnsureActive, Wf;
      if b.Some? {
        WriteIntoWf(cfg, g, b.value, lp);
        var p := WriteInto(cfg, g, b.value, lp).1;
        WroteAfterMove(f.mapping, g.mapping, lp, p.value);
        hide WriteInto, WroteOnly, SamePages;
      }
    }
  }

  lemma WroteAfterMove(m: Mapping, moved: Mapping, lp: nat, p: Phys)
    requires SamePages(m, moved)
    ensures WroteOnly(m, moved[lp := p], lp, p)
  {
  }

  lemma TranslateReadWf(cfg: Config, f: State, lp: nat)
    requires Wf(cfg, f)
    ensures Wf(cfg, TranslateRead(cfg, f, lp).0)
    ensures TranslateRead(cfg, f, lp).0.mapping == f.mapping
  {
    hide BlocksWf, PoolsWf, MapWf, Covers, CountWf, PseudoAddress;
  }

  /** Two different pages never translate to the same physical page, written or not. */
  lemma TranslateReadInjective(cfg: Config, f: State, p: nat, q: nat)
    requires cfg.Valid() && Wf(cfg, f) && p != q
    ensures var x, y := TranslateRead(cfg, f, p).1, TranslateRead(cfg, f, q).1; x.Some? && y.Some? ==> x != y
  {
    hide BlocksWf, PoolsWf, MapWf, Covers, CountWf, PseudoAddress, Config.Valid;
    if p in f.mapping { MappedIsLow(cfg, f, p); }
    if q in f.mapping { MappedIsLow(cfg, f, q); }
    if p in f.mapping && q in f.mapping { MappedApart(cfg, f, p, q); }
    if PseudoAddress(cfg, p).Some? { PseudoAddressInverse(cfg, p); }
    if PseudoAddress(cfg, q).Some? { PseudoAddressInverse(cfg, q); }
  }

  lemma MappedIsLow(cfg: Config, f: State, lp: nat)
    requires Wf(cfg, f) && lp in f.mapping
    ensures f.mapping[lp].block < PSEUDO_BLOCK_BIT
  {
    hide PoolsWf, Covers, CountWf, Local, Injective, InfoWf, Config.MaxBlocks;
    assert InUse(f.blocks, f.pool, f.mapping[lp]);
    assert BlockOf(f.mapping[lp]) in f.blocks;
  }

  lemma MappedApart(cfg: Config, f: State, p: nat, q: nat)
    requires Wf(cfg, f) && p in f.mapping && q in f.mapping && p != q
    ensures f.mapping[p] != f.mapping[q]
  {
    hide BlocksWf, PoolsWf, Covers, CountWf, Local, InUse;
  }

  // ----- erase state ------------------------------------------------------------------------------

  predicate OnlyEraseState(was: BlockInfo, info: BlockInfo) {
    info.total == was.total && info.valid == was.valid && info.free == was.free && info.next == was.next
  }

  lemma MarkedWf(cfg: Config, f: State, b: Block, info: BlockInfo)
    requires Wf(cfg, f) && b in f.blocks && OnlyEraseState(f.blocks[b], info)
    ensures Wf(cfg, f.(blocks := f.blocks[b := info])) && !f.aborted
  {
    hide Preferred, Live, Injective, Config.MaxBlocks, Local;
    BlocksUpdate(cfg, f.blocks, f.nextId, b, info);
    hide BlocksWf;
    MarkedCount(f.mapping, f.blocks, b, info);
    hide CountWf;
    MarkedMap(cfg, f.mapping, f.blocks, f.pool, b, info);
    hide MapWf;
    MarkedPools(f.blocks, f.pool, f.active, b, info);
    hide PoolsWf, Covers;
  }

  lemma MarkedCount(m: map<nat, Phys>, blocks: Blocks, b: Block, info: BlockInfo)
    requires CountWf(m, blocks, None) && b in blocks && info.valid == blocks[b].valid
    ensures CountWf(m, blocks[b := info], None)
  {
    hide Live;
  }

  lemma MarkedMap(cfg: Config, m: map<nat, Phys>, blocks: Blocks, pool: set<Block>, b: Block, info: BlockInfo)
    requires MapWf(cfg, m, blocks, pool) && b in blocks && info.next == blocks[b].next
    ensures MapWf(cfg, m, blocks[b := info], pool)
  {
    hide Preferred, Injective, Local;
    forall lp | lp in m ensures InUse(blocks[b := info], pool, m[lp]) { assert InUse(blocks, pool, m[lp]); }
  }

  lemma MarkedPools(blocks: Blocks, pool: set<Block>, active: map<int, Block>, b: Block, info: BlockInfo)
    requires PoolsWf(blocks, pool, active) && b in blocks && info.free == blocks[b].free
    ensures PoolsWf(blocks[b := info], pool, active)
  {
    forall sa | sa in active ensures Installable(blocks[b := info], pool, sa, active[sa]) {
      assert Installable(blocks, pool, sa, active[sa]);
    }
  }

  // ----- blocks are never forgotten ---------------------------------------------------------------

  lemma {:induction false} RelocateGrows(cfg: Config, f: State, victim: Block, pages: seq<nat>)
    ensures f.blocks.Keys <= Relocate(cfg, f, victim, pages).0.blocks.Keys
    decreases |pages|
  {
    hide Preferred;
    if pages != [] {
      var lp := pages[0];
      if lp !in f.mapping || BlockOf(f.mapping[lp]) != victim {
        RelocateGrows(cfg, f, victim, pages[1..]);
      } else {
        GcAllocateGrows(cfg, f, lp);
        var (g, to) := GcAllocate(cfg, f, lp);
        if to.Some? { RelocateGrows(cfg, Moved(g, lp, f.mapping[lp], to.value), victim, pages[1..]); }
      }
    }
  }

  lemma TakeFreeGrows(f: State, b: Block)
    requires b in f.blocks
    ensures TakeFree(f, b).blocks.Keys == f.blocks.Keys
  {
  }

  lemma NewBlockGrows(cfg: Config, f: State, sa: int)
    ensures f.blocks.Keys <= NewBlock(cfg, f, sa).0.blocks.Keys
  {
    hide AtCapacity;
  }

  lemma TakePageGrows(f: State, b: Block)
    ensures TakePage(f, b).0.blocks.Keys == f.blocks.Keys
  {
  }

  lemma GcAllocateGrows(cfg: Config, f: State, lp: nat)
    ensures f.blocks.Keys <= GcAllocate(cfg, f, lp).0.blocks.Keys
  {
    hide Preferred, IsPick, TakeFree, NewBlock, TakePage;
    if Preferred(cfg, lp).Some? {
      var sa := Preferred(cfg, lp).value;
      if Candidates(f, sa) != {} { TakeFreeGrows(f, PickFree(false, f, sa)); }
      NewBlockGrows(cfg, f, sa);
      var (g, b) := GcBlock(cfg, f, sa);
      if b.Some? { TakePageGrows(g, b.value); }
    }
  }

  lemma GcGrows(cfg: Config, f: State)
    ensures f.blocks.Keys <= Gc(cfg, f).blocks.Keys
  {
    hide NeedsGc, Relocate, Eligible, IsVictim, AverageErases;
    if NeedsGc(cfg, f) {
      var average := AverageErases(cfg, f);
      var g := Retire(f);
      assert g.blocks.Keys == f.blocks.Keys;
      if Eligible(cfg, g, average) != {} {
        var victim := Victim(cfg, g, average);
        RelocateGrows(cfg, g, victim, if victim in g.reverse then SortedKeys(g.reverse[victim]) else []);
      }
    }
  }

  lemma EnsureActiveGrows(cfg: Config, f: State, sa: int)
    ensures f.blocks.Keys <= EnsureActive(cfg, f, sa).0.blocks.Keys
  {
    hide Gc, NeedsGc, IsPick, TakeFree, NewBlock;
    GcGrows(cfg, f);
    var g := Gc(cfg, f);
    if Candidates(f, sa) != {} { TakeFreeGrows(f, PickFree(cfg.wearLeveling, f, sa)); }
    if Candidates(g, sa) != {} { TakeFreeGrows(g, PickFree(cfg.wearLeveling, g, sa)); }
    NewBlockGrows(cfg, g, sa);
  }

  lemma TranslateWriteGrows(cfg: Config, f: State, lp: nat)
    ensures f.blocks.Keys <= TranslateWrite(cfg, f, lp).0.blocks.Keys
  {
    hide EnsureActive, Preferred, AddReverse, DropReverse, Deactivate, TakePage;
    if Preferred(cfg, lp).Some? {
      EnsureActiveGrows(cfg, f, Preferred(cfg, lp).value);
      var (g, b) := EnsureActive(cfg, f, Preferred(cfg, lp).value);
      if b.Some? { TakePageGrows(g, b.value); }
    }
  }
}
