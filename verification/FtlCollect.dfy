/** When garbage collection runs, what it makes available, and exactly which host writes it saves in
    SSD mode. */
module FtlCollect {
  import opened Basics
  import opened Geometry
  import opened Ftl
  import opened FtlInvariant
  import opened FtlDanger

  /** The sub-array has neither an open block nor one in the pool. */
  predicate Bare(f: State, sa: int) { sa !in f.active && forall b :: b in f.pool ==> b.sa != sa }

  /** The share of pooled blocks has fallen below the over-provisioning ratio. */
  predicate Scarce(cfg: Config, f: State) { |f.pool| as real < cfg.overprovisioning * (|f.blocks| as real) }

  /** Collection is due exactly in SSD mode with too small a pool. */
  lemma DueExactly(cfg: Config, f: State)
    ensures NeedsGc(cfg, f) <==> cfg.mediaMode == 1 && Scarce(cfg, f)
  {
    if |f.blocks| != 0 { Ratio(|f.pool| as real, |f.blocks| as real, cfg.overprovisioning); }
  }

  lemma Ratio(a: real, b: real, c: real)
    requires b > 0.0
    ensures a / b < c <==> a < c * b
  {
    assert a == (a / b) * b;
    if a / b < c { assert (a / b) * b < c * b; } else { assert (a / b) * b >= c * b; }
  }

  lemma BareCandidates(f: State, sa: int)
    requires f.pool <= f.blocks.Keys
    ensures Bare(f, sa) <==> sa !in f.active && Candidates(f, sa) == {}
  {
    forall b | b in f.pool && b.sa == sa ensures b in Candidates(f, sa) { }
  }

  // ----- what collection leaves in another sub-array ------------------------------------------------------

  /** The sub-array's pool is as it was, and no fewer blocks exist. */
  predicate SamePool(cfg: Config, f: State, g: State, sa: int) {
    Candidates(g, sa) == Candidates(f, sa) && (AtCapacity(cfg, f) ==> AtCapacity(cfg, g))
  }

  lemma SamePoolTwice(cfg: Config, f: State, g: State, h: State, sa: int)
    requires SamePool(cfg, f, g, sa) && SamePool(cfg, g, h, sa)
    ensures SamePool(cfg, f, h, sa)
  {
  }

  lemma TakenPool(cfg: Config, f: State, b: Block, sa: int)
    requires b in f.blocks && b.sa != sa
    ensures SamePool(cfg, f, TakeFree(f, b), sa)
  {
    hide Config.MaxBlocks;
    assert TakeFree(f, b).blocks.Keys == f.blocks.Keys;
    assert Candidates(TakeFree(f, b), sa) == Candidates(f, sa);
  }

  lemma NewPool(cfg: Config, f: State, sa: int, other: int)
    requires f.pool <= f.blocks.Keys && sa != other
    ensures SamePool(cfg, f, NewBlock(cfg, f, sa).0, other)
  {
    hide Config.MaxBlocks;
    var b := Block(sa, f.nextId);
    if !AtCapacity(cfg, f) { assert Candidates(f.(blocks := f.blocks[b := FreshInfo(cfg)]), other) == Candidates(f, other); }
  }

  lemma PagePool(cfg: Config, f: State, b: Block, sa: int)
    ensures SamePool(cfg, f, TakePage(f, b).0, sa)
  {
    hide Config.MaxBlocks;
    if b in f.blocks && f.blocks[b].free > 0 {
      assert TakePage(f, b).0.blocks.Keys == f.blocks.Keys;
      assert Candidates(TakePage(f, b).0, sa) == Candidates(f, sa);
    }
  }

  lemma ActivePool(cfg: Config, f: State, g: State, sa: int)
    requires g.blocks == f.blocks && g.pool == f.pool && g.nextId == f.nextId
    ensures SamePool(cfg, f, g, sa)
  {
    hide Config.MaxBlocks;
    assert Candidates(g, sa) == Candidates(f, sa);
  }

  lemma GcBlockPool(cfg: Config, f: State, sa: int, other: int)
    requires f.pool <= f.blocks.Keys && sa != other
    ensures SamePool(cfg, f, GcBlock(cfg, f, sa).0, other)
  {
    hide SamePool, TakeFree, NewBlock, AtCapacity, IsPick;
    var (k, b) := GcBlock(cfg, f, sa);
    ActivePool(cfg, f, f, other);
    if sa !in f.active {
      if Candidates(f, sa) != {} {
        var free := PickedSub(f, sa);
        TakenPool(cfg, f, free, other);
        ActivePool(cfg, TakeFree(f, free), k, other);
        SamePoolTwice(cfg, f, TakeFree(f, free), k, other);
      } else {
        NewPool(cfg, f, sa, other);
        ActivePool(cfg, NewBlock(cfg, f, sa).0, k, other);
        SamePoolTwice(cfg, f, NewBlock(cfg, f, sa).0, k, other);
      }
    }
  }

  lemma PickedSub(f: State, sa: int) returns (b: Block)
    requires Candidates(f, sa) != {}
    ensures b == PickFree(false, f, sa) && b in f.blocks && b.sa == sa
  {
    b := PickFree(false, f, sa);
  }

  lemma GcAllocatePool(cfg: Config, f: State, victim: Block, lp: nat, sa: int)
    requires IdleVictim(cfg, f, victim) && lp in f.mapping && BlockOf(f.mapping[lp]) == victim && victim.sa != sa
    ensures SamePool(cfg, f, GcAllocate(cfg, f, lp).0, sa)
  {
    hide SamePool, GcBlock, TakePage, IdleVictim, Preferred;
    IdleIsWf(cfg, f, victim);
    PreferredVictim(cfg, f, victim, lp);
    KnownPool(cfg, f);
    GcBlockPool(cfg, f, victim.sa, sa);
    var (g, b) := GcBlock(cfg, f, victim.sa);
    if b.Some? {
      PagePool(cfg, g, b.value, sa);
      SamePoolTwice(cfg, f, g, TakePage(g, b.value).0, sa);
    }
  }

  lemma KnownPool(cfg: Config, f: State)
    requires Wf(cfg, f)
    ensures f.pool <= f.blocks.Keys
  {
    hide BlocksWf, MapWf, Covers, CountWf;
  }

  /** Relocation in another sub-array neither fills nor drains this one's pool. */
  lemma {:induction false} RelocatePool(cfg: Config, f: State, victim: Block, pages: seq<nat>, sa: int)
    requires cfg.pagesPerBlock > 0 && IdleVictim(cfg, f, victim) && victim.sa != sa
    ensures SamePool(cfg, f, Relocate(cfg, f, victim, pages).0, sa)
    decreases |pages|
  {
    hide IdleVictim, Moved, SamePages, SamePool;
    ActivePool(cfg, f, f, sa);
    if pages != [] {
      var lp := pages[0];
      if lp !in f.mapping || BlockOf(f.mapping[lp]) != victim {
        RelocatePool(cfg, f, victim, pages[1..], sa);
      } else {
        RelocateStep(cfg, f, victim, lp);
        GcAllocatePool(cfg, f, victim, lp, sa);
        hide GcAllocate;
        var (g, to) := GcAllocate(cfg, f, lp);
        if to.Some? {
          var h := Moved(g, lp, f.mapping[lp], to.value);
          MovedPool(cfg, g, lp, f.mapping[lp], to.value, sa);
          RelocatePool(cfg, h, victim, pages[1..], sa);
          SamePoolTwice(cfg, f, g, h, sa);
          SamePoolTwice(cfg, f, h, Relocate(cfg, h, victim, pages[1..]).0, sa);
        } else {
          ActivePool(cfg, g, g.(capacityError := true), sa);
          SamePoolTwice(cfg, f, g, g.(capacityError := true), sa);
        }
      }
    }
  }

  lemma MovedPool(cfg: Config, f: State, lp: nat, from: Phys, to: Phys, sa: int)
    ensures SamePool(cfg, f, Moved(f, lp, from, to), sa)
  {
    hide SamePool;
    ActivePool(cfg, f, Moved(f, lp, from, to), sa);
  }

  lemma ReclaimPool(cfg: Config, f: State, victim: Block, sa: int)
    requires victim in f.blocks && victim.sa != sa
    ensures SamePool(cfg, f, Reclaim(f, victim), sa)
  {
    hide Config.MaxBlocks;
    assert Reclaim(f, victim).blocks.Keys == f.blocks.Keys;
    assert Candidates(Reclaim(f, victim), sa) == Candidates(f, sa);
  }

  // ----- what collection leaves in the victim's sub-array ----------------------------------------------------

  /** The victim of its own sub-array is reclaimed exactly if it needs no block or there is one to take. */
  lemma RelocateHome(cfg: Config, f: State, victim: Block)
    requires cfg.pagesPerBlock > 0 && IdleVictim(cfg, f, victim) && victim.sa !in f.active
    ensures var (g, done) := Relocate(cfg, f, victim, Listing(f, victim));
      && done == (Live(f.mapping, victim) == {} || !NoBlockFor(cfg, f, victim.sa))
      && (!done ==> Candidates(g, victim.sa) == {} && AtCapacity(cfg, g))
  {
    hide IdleVictim, GcBlock, Relocate, IsErased, Candidates, Live, AtCapacity;
    IdleListed(cfg, f, victim);
    var pages := Listing(f, victim);
    hide Listing;
    OpenedBlock(cfg, f, victim);
    GcBlockNone(cfg, f, victim.sa);
    if Live(f.mapping, victim) == {} {
      RelocateNothing(cfg, f, victim, pages);
    } else {
      RelocateOpens(cfg, f, victim, pages);
      var (k, b) := GcBlock(cfg, f, victim.sa);
      if b.Some? { RelocateInto(cfg, k, victim, pages, b.value); } else { FlagPool(cfg, f, k, victim.sa); }
    }
  }

  lemma GcBlockNone(cfg: Config, f: State, sa: int)
    requires sa !in f.active
    ensures var (g, b) := GcBlock(cfg, f, sa);
      (b.None? <==> NoBlockFor(cfg, f, sa)) && (b.None? ==> g.blocks == f.blocks && g.pool == f.pool && g.nextId == f.nextId)
  {
    hide AtCapacity, TakeFree, IsPick, Candidates;
  }

  lemma FlagPool(cfg: Config, f: State, g: State, sa: int)
    requires g.blocks == f.blocks && g.pool == f.pool && g.nextId == f.nextId && NoBlockFor(cfg, f, sa)
    ensures NoBlockFor(cfg, g.(capacityError := true), sa)
  {
  }

  // ----- what collection achieves ------------------------------------------------------------------------------

  /** The victim collection picks, if any. */
  ghost predicate Picks(cfg: Config, f: State, victim: Block) {
    var average := AverageErases(cfg, f);
    Eligible(cfg, Retire(f), average) != {} && victim == Victim(cfg, Retire(f), average)
  }

  /** The victim lies in the sub-array and needs no block to move into, or one may be created. */
  ghost predicate PicksHere(cfg: Config, f: State, sa: int) {
    exists v :: Picks(cfg, f, v) && v.sa == sa && (Live(f.mapping, v) == {} || !AtCapacity(cfg, f))
  }

  /** Collection for a bare sub-array puts a block in its pool exactly if it finds a dead one there, or picks
      a victim there that needs no block or has one to move into. */
  lemma CollectPools(cfg: Config, f: State, sa: int)
    requires cfg.pagesPerBlock > 0 && Wf(cfg, f) && Bare(f, sa) && cfg.mediaMode == 1 && Scarce(cfg, f)
    ensures var g := Gc(cfg, f);
      && (Candidates(g, sa) != {} <==> HasDead(f, sa) || PicksHere(cfg, f, sa))
      && (AtCapacity(cfg, f) && Candidates(g, sa) == {} ==> AtCapacity(cfg, g))
      && ((forall v :: Picks(cfg, f, v) ==> v.sa == sa) && Candidates(g, sa) == {} ==> AtCapacity(cfg, g) == AtCapacity(cfg, f))
  {
    hide Wf, Relocate, Listing, Live, IsErased, Candidates, Dead, Eligible, IsVictim, AverageErases, HasDead, NeedsGc, AtCapacity, Scarce,
        Bare, Reclaim, Retire;
    DueExactly(cfg, f);
    KnownPool(cfg, f);
    BareCandidates(f, sa);
    var average := AverageErases(cfg, f);
    var r := Retire(f);
    RetireWf(cfg, f);
    RetiredCandidates(f, sa);
    RetiredCapacity(cfg, f);
    GcIs(cfg, f);
    if Eligible(cfg, r, average) != {} {
      var victim := Victim(cfg, r, average);
      assert Picks(cfg, f, victim);
      VictimIdle(cfg, r, average);
      RelocatedIdle(cfg, r, victim);
      var (h, done) := Relocate(cfg, r, victim, Listing(r, victim));
      if victim.sa == sa {
        RelocateHome(cfg, r, victim);
        ReclaimFrame(h, victim, Block(victim.sa, victim.id + 1));
      } else {
        RelocatePool(cfg, r, victim, Listing(r, victim), sa);
        ReclaimPool(cfg, h, victim, sa);
      }
    }
  }

  lemma RetiredCapacity(cfg: Config, f: State)
    ensures AtCapacity(cfg, Retire(f)) == AtCapacity(cfg, f)
  {
    hide Dead;
    assert Retire(f).blocks.Keys == f.blocks.Keys;
  }

  // ----- host writes in SSD mode -------------------------------------------------------------------------------

  /** The sub-array has no block to give. */
  predicate Exhausted(cfg: Config, f: State, sa: int) {
    && sa !in f.active && (forall b :: b in f.pool ==> b.sa != sa)
    && (|f.blocks| >= cfg.MaxBlocks() || f.nextId >= 0x8000_0000)
  }

  /** With a large enough pool a write moves and erases nothing, and fails only for want of a block to
      create. */
  lemma AmplePool(cfg: Config, f: State, lp: nat)
    requires cfg.pagesPerBlock > 0 && Wf(cfg, f)
    requires cfg.mediaMode != 1 || |f.pool| as real >= cfg.overprovisioning * (|f.blocks| as real)
    ensures var (g, p) := TranslateWrite(cfg, f, lp);
      && g.acts == f.acts && (forall q :: q in f.mapping && q != lp ==> q in g.mapping && g.mapping[q] == f.mapping[q])
      && (Preferred(cfg, lp).Some? ==> (p.None? <==> Exhausted(cfg, f, Preferred(cfg, lp).value)))
  {
    hide Wf, NeedsGc, Preferred, EnsureActive, WriteInto, Exhausted, Gc, SamePages, Unmapped, NoBlockFor, Candidates;
    DueExactly(cfg, f);
    if Preferred(cfg, lp).Some? {
      var sa := Preferred(cfg, lp).value;
      EnsureActiveWf(cfg, f, sa);
      var (h, b) := EnsureActive(cfg, f, sa);
      EnsureNoActs(cfg, f, sa);
      NoGc(cfg, f);
      ExhaustedIs(cfg, f, sa);
      if b.Some? {
        WriteIntoWf(cfg, h, b.value, lp);
        WriteIntoActs(cfg, h, b.value, lp);
      }
    }
  }

  lemma ExhaustedIs(cfg: Config, f: State, sa: int)
    requires Wf(cfg, f)
    ensures Exhausted(cfg, f, sa) <==> sa !in f.active && Candidates(f, sa) == {} && NoBlockFor(cfg, f, sa)
  {
    hide Wf, Config.MaxBlocks, Candidates;
    KnownPool(cfg, f);
    BareCandidates(f, sa);
  }

  lemma EnsureNoActs(cfg: Config, f: State, sa: int)
    requires !NeedsGc(cfg, f)
    ensures var g := EnsureActive(cfg, f, sa).0; g.acts == f.acts && g.mapping == f.mapping
  {
    hide NeedsGc, IsPick, Candidates, Gc, TakeFree, NewBlock;
    NoGc(cfg, f);
    NewBlockFrame(cfg, f, sa);
    if Candidates(f, sa) != {} {
      PickedTables(cfg, f, sa);
      TakeFreeFrame(f, PickFree(cfg.wearLeveling, f, sa));
    }
  }

  lemma NewBlockFrame(cfg: Config, f: State, sa: int)
    ensures var (g, b) := NewBlock(cfg, f, sa); g.acts == f.acts && g.mapping == f.mapping && g.active == f.active && g.pool == f.pool
    ensures var (g, b) := NewBlock(cfg, f, sa); b.Some? ==> b == Some(Block(sa, f.nextId)) && g.blocks == f.blocks[b.value := FreshInfo(cfg)]
  {
    hide AtCapacity;
  }

  lemma TakeFreeFrame(f: State, b: Block)
    requires b in f.blocks
    ensures var g := TakeFree(f, b); g.acts == f.acts && g.mapping == f.mapping && g.active == f.active
  {
  }

  lemma WriteIntoActs(cfg: Config, f: State, b: Block, lp: nat)
    ensures WriteInto(cfg, f, b, lp).0.acts == f.acts
  {
    hide AddReverse, DropReverse, Retires, OneLess, Deactivate;
  }

  /** With too small a pool, a dead block of the sub-array is collected and the write goes through. */
  lemma ScarcePool(cfg: Config, f: State, lp: nat, dead: Block)
    requires cfg.pagesPerBlock > 0 && Wf(cfg, f) && Preferred(cfg, lp) == Some(dead.sa)
    requires cfg.mediaMode == 1 && |f.pool| as real < cfg.overprovisioning * (|f.blocks| as real)
    requires dead in f.blocks && f.blocks[dead].valid == 0 && dead !in f.pool
        && (dead.sa in f.active ==> f.active[dead.sa] != dead)
    ensures TranslateWrite(cfg, f, lp).1.Some?
  {
    hide Wf, Preferred, HasDead, TranslateWrite, AtCapacity, Picks, Gc, Bare;
    FoundDead(f, dead);
    SsdWriteFails(cfg, f, lp);
  }

  lemma FoundDead(f: State, dead: Block)
    requires dead in f.blocks && f.blocks[dead].valid == 0 && dead !in f.pool && !IsActive(f, dead)
    ensures HasDead(f, dead.sa)
  {
    assert dead in Dead(f);
  }

  /** The write finds no block although collection was due: nothing dead in the sub-array, and the victim
      it could move there has nowhere to go, or one moved elsewhere took the last block. */
  ghost predicate CollectsInVain(cfg: Config, f: State, sa: int) {
    && !HasDead(f, sa)
    && (if exists v :: Picks(cfg, f, v) && v.sa != sa then AtCapacity(cfg, Gc(cfg, f))
        else AtCapacity(cfg, f) && forall v :: Picks(cfg, f, v) ==> Live(f.mapping, v) != {})
  }

  /** A write in SSD mode fails exactly if the sub-array has neither an open nor a pooled block, and either
      no collection is due and no block may be created, or collection is in vain. */
  lemma SsdWriteFails(cfg: Config, f: State, lp: nat)
    requires cfg.pagesPerBlock > 0 && Wf(cfg, f) && cfg.mediaMode == 1 && Preferred(cfg, lp).Some?
    ensures var sa := Preferred(cfg, lp).value;
      TranslateWrite(cfg, f, lp).1.None? <==>
        Bare(f, sa) && if Scarce(cfg, f) then CollectsInVain(cfg, f, sa) else AtCapacity(cfg, f)
  {
    hide Wf, NeedsGc, Gc, Preferred, TranslateWrite, AtCapacity, Picks, HasDead, Live, Scarce, Bare, WroteOnly, SamePages;
    var sa := Preferred(cfg, lp).value;
    TranslateWriteWf(cfg, f, lp);
    DueExactly(cfg, f);
    NoGc(cfg, f);
    KnownPool(cfg, f);
    BareCandidates(f, sa);
    if Bare(f, sa) && Scarce(cfg, f) {
      CollectPools(cfg, f, sa);
      OneVictim(cfg, f);
    }
  }

  lemma OneVictim(cfg: Config, f: State)
    ensures forall v, w :: Picks(cfg, f, v) && Picks(cfg, f, w) ==> v == w
  {
    hide Retire, AverageErases, Eligible, IsVictim;
  }

  // ----- where a write lands -----------------------------------------------------------------------------------

  /** The pooled block of the sub-array to take: the least worn under wear levelling, else the lowest
      number. */
  predicate FirstChoice(cfg: Config, f: State, b: Block) {
    && b in f.pool && b in f.blocks
    && forall c :: c in f.pool && c in f.blocks && c.sa == b.sa ==>
         if cfg.wearLeveling && f.blocks[b].erases != f.blocks[c].erases then f.blocks[b].erases < f.blocks[c].erases else b.id <= c.id
  }

  lemma PickIsFirstChoice(cfg: Config, f: State, sa: int)
    requires Candidates(f, sa) != {}
    ensures var b := PickFree(cfg.wearLeveling, f, sa); FirstChoice(cfg, f, b) && b.sa == sa
  {
    var b := PickFree(cfg.wearLeveling, f, sa);
    forall c | c in f.pool && c in f.blocks && c.sa == sa
      ensures if cfg.wearLeveling && f.blocks[b].erases != f.blocks[c].erases then f.blocks[b].erases < f.blocks[c].erases else b.id <= c.id
    {
      assert c in Candidates(f, sa);
      assert Preferable(cfg.wearLeveling, f, b, c);
    }
  }

  /** The next page of a block. */
  predicate NextPage(f: State, b: Block, p: Phys) { b in f.blocks && p == Phys(b.sa, b.id, f.blocks[b].next) }

  /** Without collection, a write takes the next page of the open block, else the first page of the pooled
      block to prefer, else the first page of the next block to be created. */
  lemma WriteLands(cfg: Config, f: State, lp: nat)
    requires cfg.pagesPerBlock > 0 && Wf(cfg, f) && Preferred(cfg, lp).Some? && !(cfg.mediaMode == 1 && Scarce(cfg, f))
    ensures var sa, p := Preferred(cfg, lp).value, TranslateWrite(cfg, f, lp).1;
      p.Some? ==>
        if sa in f.active then NextPage(f, f.active[sa], p.value)
        else if exists c :: c in f.pool && c.sa == sa then exists b :: FirstChoice(cfg, f, b) && p.value == Phys(sa, b.id, 0) && b.sa == sa
        else p.value == Phys(sa, f.nextId, 0)
  {
    hide Wf, Preferred, Scarce, NeedsGc, FirstChoice, EnsureActive, WriteInto, SamePages;
    DueExactly(cfg, f);
    var sa := Preferred(cfg, lp).value;
    EnsureActiveWf(cfg, f, sa);
    var (h, b) := EnsureActive(cfg, f, sa);
    if b.Some? {
      WriteIntoNext(cfg, h, b.value, lp);
      OpenedFirst(cfg, f, sa);
    }
  }

  lemma WriteIntoNext(cfg: Config, f: State, b: Block, lp: nat)
    ensures var p := WriteInto(cfg, f, b, lp).1; p.Some? ==> NextPage(f, b, p.value)
  {
    hide Commit;
  }

  lemma OpenedFirst(cfg: Config, f: State, sa: int)
    requires Wf(cfg, f) && !NeedsGc(cfg, f)
    ensures var (h, b) := EnsureActive(cfg, f, sa);
      b.Some? ==>
        if sa in f.active then h == f && b.value == f.active[sa]
        else if exists c :: c in f.pool && c.sa == sa then
          FirstChoice(cfg, f, b.value) && b.value.sa == sa && b.value in h.blocks && h.blocks[b.value].next == 0
        else b.value == Block(sa, f.nextId) && b.value in h.blocks && h.blocks[b.value].next == 0
  {
    hide Wf, NeedsGc, Gc, IsPick, Candidates, FirstChoice, TakeFree, NewBlock;
    NoGc(cfg, f);
    KnownPool(cfg, f);
    BareCandidates(f, sa);
    NewBlockFrame(cfg, f, sa);
    if Candidates(f, sa) != {} {
      PickedTables(cfg, f, sa);
      PickIsFirstChoice(cfg, f, sa);
      TakeFreeFrame(f, PickFree(cfg.wearLeveling, f, sa));
      TakenNext(f, PickFree(cfg.wearLeveling, f, sa));
    }
  }

  lemma TakenNext(f: State, b: Block)
    requires b in f.blocks
    ensures var g := TakeFree(f, b); b in g.blocks && g.blocks[b].next == 0
  {
  }

  // ----- the victim --------------------------------------------------------------------------------------------

  /** Without wear levelling, or on unworn blocks, the victim is an idle block with the fewest valid pages. */
  lemma GreedyVictim(cfg: Config, f: State, victim: Block, c: Block)
    requires Picks(cfg, f, victim) && (!cfg.wearLeveling || AverageErases(cfg, f) <= 0.0)
    requires c in f.blocks && c !in f.pool && !IsActive(f, c) && 0 < f.blocks[c].valid
    ensures victim in f.blocks && victim !in f.pool && 0 < f.blocks[victim].valid <= f.blocks[c].valid
  {
    var average := AverageErases(cfg, f);
    hide AverageErases;
    RetiredInfo(f, victim);
    RetiredInfo(f, c);
    var r := Retire(f);
    hide Retire;
    if f.blocks[c].valid as real < CostLimit(cfg, average) {
      assert c in Eligible(cfg, r, average);
      assert NotWorse(cfg, r, average, victim, c);
    }
  }

  lemma RetiredInfo(f: State, b: Block)
    ensures b in Idle(Retire(f)) <==> b in Idle(f) && b !in Dead(f)
    ensures b in f.blocks <==> b in Retire(f).blocks
    ensures b in f.blocks ==> Retire(f).blocks[b].valid == f.blocks[b].valid && Retire(f).blocks[b].erases == f.blocks[b].erases
  {
  }

  /** Under wear levelling, blocks worn beyond the average count for more than their valid pages: of two
      blocks equally full the victim is not the more worn one, and of two blocks no more worn than the
      average it is not the fuller one. */
  lemma WearVictim(cfg: Config, f: State, victim: Block, c: Block)
    requires Picks(cfg, f, victim) && cfg.wearLeveling && AverageErases(cfg, f) > 0.0
    requires c in f.blocks && c !in f.pool && !IsActive(f, c) && 0 < f.blocks[c].valid
    requires Cost(cfg, AverageErases(cfg, f), f.blocks[c]) < 1000000000000000000000000000000.0
    ensures victim in f.blocks && 0 < f.blocks[victim].valid
    ensures f.blocks[victim].valid == f.blocks[c].valid && f.blocks[victim].erases as real > AverageErases(cfg, f)
        ==> f.blocks[victim].erases <= f.blocks[c].erases
    ensures f.blocks[victim].erases as real <= AverageErases(cfg, f) && f.blocks[c].erases as real <= AverageErases(cfg, f)
        ==> f.blocks[victim].valid <= f.blocks[c].valid
  {
    hide AverageErases, Retire, Cost, CostLimit, NotWorse, Dead, Idle, Picks;
    var average := AverageErases(cfg, f);
    var r := Retire(f);
    RetiredInfo(f, victim);
    RetiredInfo(f, c);
    CostFactor(cfg, average, f.blocks[c]);
    PickedNotWorse(cfg, f, victim, c);
    CostFactor(cfg, average, f.blocks[victim]);
    WearOrder(average, f.blocks[victim], f.blocks[c]);
  }

  lemma PickedNotWorse(cfg: Config, f: State, victim: Block, c: Block)
    requires Picks(cfg, f, victim) && c in f.blocks && c !in f.pool && !IsActive(f, c) && 0 < f.blocks[c].valid
    requires Cost(cfg, AverageErases(cfg, f), f.blocks[c]) < CostLimit(cfg, AverageErases(cfg, f))
    ensures victim in f.blocks && 0 < f.blocks[victim].valid
    ensures Cost(cfg, AverageErases(cfg, f), f.blocks[victim]) <= Cost(cfg, AverageErases(cfg, f), f.blocks[c])
  {
    hide AverageErases, Retire, CostLimit, Cost, Dead, IsActive;
    var average := AverageErases(cfg, f);
    var r := Retire(f);
    RetiredInfo(f, victim);
    RetiredInfo(f, c);
    IdleIs(f, c);
    SameCost(cfg, average, r.blocks[victim], f.blocks[victim]);
    SameCost(cfg, average, r.blocks[c], f.blocks[c]);
    assert c in Eligible(cfg, r, average);
    assert NotWorse(cfg, r, average, victim, c);
  }

  lemma IdleIs(f: State, b: Block)
    requires b in f.blocks && b !in f.pool && !IsActive(f, b) && 0 < f.blocks[b].valid
    ensures b in Idle(f) && b !in Dead(f)
  {
  }

  lemma SameCost(cfg: Config, average: real, x: BlockInfo, y: BlockInfo)
    requires x.valid == y.valid && x.erases == y.erases
    ensures Cost(cfg, average, x) == Cost(cfg, average, y)
  {
  }

  lemma CostFactor(cfg: Config, average: real, info: BlockInfo)
    requires cfg.wearLeveling && average > 0.0
    ensures Cost(cfg, average, info) == info.valid as real * Factor(average, info.erases)
    ensures CostLimit(cfg, average) == 1000000000000000000000000000000.0
  {
  }

  lemma WearOrder(average: real, x: BlockInfo, y: BlockInfo)
    requires average > 0.0 && 0 < x.valid && x.valid as real * Factor(average, x.erases) <= y.valid as real * Factor(average, y.erases)
    ensures x.valid == y.valid && x.erases as real > average ==> x.erases <= y.erases
    ensures x.erases as real <= average && y.erases as real <= average ==> x.valid <= y.valid
  {
    if x.valid == y.valid && x.erases as real > average && x.erases > y.erases {
      Penalty(average, y.erases, x.erases);
      Heavier(x.valid as real, Factor(average, y.erases), Factor(average, x.erases));
    }
  }

  /** What wear adds to the cost of a block. */
  function Factor(average: real, erases: nat): real
    requires average > 0.0
  {
    if erases as real > average then 1.0 + 0.5 * (erases as real - average) / average else 1.0
  }

  lemma Penalty(average: real, a: nat, b: nat)
    requires average > 0.0 && a < b && b as real > average
    ensures Factor(average, a) < Factor(average, b)
  {
    var x, y := 0.5 * (a as real - average), 0.5 * (b as real - average);
    assert y / average > 0.0;
    if a as real > average { Scaled(x, y, average); }
  }

  lemma Scaled(x: real, y: real, d: real)
    requires d > 0.0 && x < y
    ensures x / d < y / d
  {
  }

  lemma Heavier(v: real, x: real, y: real)
    requires v > 0.0 && x < y
    ensures v * x < v * y
  {
  }

  /** A victim that was emptied is back in the pool, erased, with all its pages free. */
  lemma VictimReclaimed(cfg: Config, f: State, victim: Block)
    requires cfg.pagesPerBlock > 0 && Wf(cfg, f) && NeedsGc(cfg, f) && Picks(cfg, f, victim) && victim in Gc(cfg, f).pool
    ensures var g := Gc(cfg, f);
      && victim in g.blocks && g.blocks[victim].erased && g.blocks[victim].valid == 0 && g.blocks[victim].next == 0
      && g.blocks[victim].free == cfg.pagesPerBlock && g.acts != [] && g.acts[|g.acts| - 1] == EraseAll(victim)
  {
    hide Wf, Relocate, Listing, Live, Dead, Eligible, IsVictim, AverageErases, NeedsGc, Retire;
    var r := Retire(f);
    RetireWf(cfg, f);
    VictimIdle(cfg, r, AverageErases(cfg, f));
    RelocatedSize(cfg, r, victim);
    GcIs(cfg, f);
  }

  lemma RelocatedSize(cfg: Config, f: State, victim: Block)
    requires cfg.pagesPerBlock > 0 && IdleVictim(cfg, f, victim)
    ensures var h := Relocate(cfg, f, victim, Listing(f, victim)).0;
      victim in h.blocks && victim !in h.pool && h.blocks[victim].total == cfg.pagesPerBlock
  {
    hide Relocate, Listing, Listed, SamePages, PoolsWf, MapWf, Covers, CountWf, Config.MaxBlocks;
    IdleListed(cfg, f, victim);
    RelocateWf(cfg, f, victim, Listing(f, victim));
    var h := Relocate(cfg, f, victim, Listing(f, victim)).0;
    assert InfoWf(cfg, h.blocks[victim]);
  }

  /** Relocation opens the pooled block with the lowest number, however worn. */
  lemma RelocationTakesLowest(cfg: Config, f: State, sa: int, c: Block)
    requires sa !in f.active && c in f.pool && c in f.blocks && c.sa == sa
    ensures var b := GcBlock(cfg, f, sa).1; b.Some? && b.value.sa == sa && b.value in f.pool && b.value.id <= c.id
  {
    hide TakeFree, NewBlock;
    assert c in Candidates(f, sa);
    assert Preferable(false, f, PickFree(false, f, sa), c);
  }

  // ----- wear ---------------------------------------------------------------------------------------------------------

  /** Known blocks stay known with their erase counts. */
  predicate SameWear(f: State, g: State) { forall b :: b in f.blocks ==> b in g.blocks && g.blocks[b].erases == f.blocks[b].erases }

  lemma SameWearTwice(f: State, g: State, h: State)
    requires SameWear(f, g) && SameWear(g, h)
    ensures SameWear(f, h)
  {
  }

  lemma PageWear(f: State, b: Block)
    ensures SameWear(f, TakePage(f, b).0)
  {
  }

  lemma FreeWear(f: State, b: Block)
    requires b in f.blocks
    ensures SameWear(f, TakeFree(f, b))
  {
  }

  lemma RetireWear(f: State)
    ensures SameWear(f, Retire(f))
  {
    hide Dead;
  }

  lemma BlockWear(cfg: Config, f: State, sa: int)
    requires Wf(cfg, f)
    ensures SameWear(f, NewBlock(cfg, f, sa).0)
  {
    hide AtCapacity, PoolsWf, MapWf, Covers, CountWf;
  }

  lemma GcAllocateWear(cfg: Config, f: State, lp: nat)
    requires Wf(cfg, f)
    ensures SameWear(f, GcAllocate(cfg, f, lp).0)
  {
    hide Wf, Preferred, NewBlock, TakeFree, TakePage, SameWear, IsPick;
    NothingWears(f);
    if Preferred(cfg, lp).Some? {
      var sa := Preferred(cfg, lp).value;
      var (g, b) := GcBlock(cfg, f, sa);
      if sa !in f.active {
        if Candidates(f, sa) != {} {
          var free := PickedSub(f, sa);
          FreeWear(f, free);
          OpenWear(f, TakeFree(f, free), g);
        } else {
          BlockWear(cfg, f, sa);
          OpenWear(f, NewBlock(cfg, f, sa).0, g);
        }
      }
      if b.Some? {
        PageWear(g, b.value);
        SameWearTwice(f, g, TakePage(g, b.value).0);
      }
    }
    ErrorWear(f);
  }

  lemma NothingWears(f: State)
    ensures SameWear(f, f)
  {
  }

  lemma ErrorWear(f: State)
    ensures SameWear(f, f.(mappingError := true)) && SameWear(f, f.(capacityError := true))
  {
  }

  lemma OpenWear(f: State, g: State, h: State)
    requires SameWear(f, g) && h.blocks == g.blocks
    ensures SameWear(f, h)
  {
  }

  lemma {:induction false} RelocateWear(cfg: Config, f: State, victim: Block, pages: seq<nat>)
    requires cfg.pagesPerBlock > 0 && IdleVictim(cfg, f, victim)
    ensures SameWear(f, Relocate(cfg, f, victim, pages).0)
    decreases |pages|
  {
    hide IdleVictim, SamePages, SameWear, GcAllocate, Moved;
    NothingWears(f);
    if pages != [] {
      var lp := pages[0];
      if lp !in f.mapping || BlockOf(f.mapping[lp]) != victim {
        RelocateWear(cfg, f, victim, pages[1..]);
      } else {
        RelocateStep(cfg, f, victim, lp);
        IdleIsWf(cfg, f, victim);
        GcAllocateWear(cfg, f, lp);
        var (g, to) := GcAllocate(cfg, f, lp);
        if to.Some? {
          var h := Moved(g, lp, f.mapping[lp], to.value);
          MovedWear(f, g, lp, f.mapping[lp], to.value);
          RelocateWear(cfg, h, victim, pages[1..]);
          SameWearTwice(f, h, Relocate(cfg, h, victim, pages[1..]).0);
        } else {
          OpenWear(f, g, g.(capacityError := true));
        }
      }
    }
  }

  lemma MovedWear(f: State, g: State, lp: nat, from: Phys, to: Phys)
    requires SameWear(f, g)
    ensures SameWear(f, Moved(g, lp, from, to))
  {
  }

  lemma ReclaimWear(f: State, g: State, victim: Block)
    requires SameWear(f, g) && victim in g.blocks
    ensures SameWear(f, Reclaim(g, victim))
  {
  }

  lemma GcWear(cfg: Config, f: State)
    requires cfg.pagesPerBlock > 0 && Wf(cfg, f)
    ensures SameWear(f, Gc(cfg, f))
  {
    hide Wf, Relocate, Listing, Dead, Eligible, IsVictim, AverageErases, NeedsGc, Retire, SameWear, Reclaim;
    NothingWears(f);
    if NeedsGc(cfg, f) {
      var r := Retire(f);
      RetireWear(f);
      RetireWf(cfg, f);
      GcIs(cfg, f);
      if Eligible(cfg, r, AverageErases(cfg, f)) != {} {
        var victim := Victim(cfg, r, AverageErases(cfg, f));
        VictimIdle(cfg, r, AverageErases(cfg, f));
        RelocateWear(cfg, r, victim, Listing(r, victim));
        var h := Relocate(cfg, r, victim, Listing(r, victim)).0;
        SameWearTwice(f, r, h);
        RelocatedIdle(cfg, r, victim);
        ReclaimWear(f, h, victim);
      }
    }
  }

  lemma EnsureActiveWear(cfg: Config, f: State, sa: int)
    requires cfg.pagesPerBlock > 0 && Wf(cfg, f)
    ensures SameWear(f, EnsureActive(cfg, f, sa).0)
  {
    hide Wf, Gc, NeedsGc, SameWear, TakeFree, NewBlock, IsPick, Candidates, SamePages;
    NothingWears(f);
    GcWf(cfg, f);
    GcWear(cfg, f);
    var g, h := Gc(cfg, f), EnsureActive(cfg, f, sa).0;
    BlockWear(cfg, g, sa);
    SameWearTwice(f, g, NewBlock(cfg, g, sa).0);
    OpenWearIf(f, NewBlock(cfg, g, sa).0, h);
    if Candidates(f, sa) != {} {
      PickedTables(cfg, f, sa);
      FreeWear(f, PickFree(cfg.wearLeveling, f, sa));
      OpenWearIf(f, TakeFree(f, PickFree(cfg.wearLeveling, f, sa)), h);
    }
    if Candidates(g, sa) != {} {
      PickedTables(cfg, g, sa);
      FreeWear(g, PickFree(cfg.wearLeveling, g, sa));
      SameWearTwice(f, g, TakeFree(g, PickFree(cfg.wearLeveling, g, sa)));
      OpenWearIf(f, TakeFree(g, PickFree(cfg.wearLeveling, g, sa)), h);
    }
  }

  lemma OpenWearIf(f: State, g: State, h: State)
    requires SameWear(f, g)
    ensures h.blocks == g.blocks ==> SameWear(f, h)
  {
  }

  lemma WriteIntoWear(cfg: Config, f: State, b: Block, lp: nat)
    ensures SameWear(f, WriteInto(cfg, f, b, lp).0)
  {
    hide AddReverse, DropReverse, Deactivate, Retires;
  }

  /** Host writes, collection included, and invalidations count no wear. */
  lemma WritesCountNoWear(cfg: Config, f: State, lp: nat)
    requires cfg.pagesPerBlock > 0 && Wf(cfg, f)
    ensures SameWear(f, TranslateWrite(cfg, f, lp).0) && SameWear(f, Invalidate(cfg, f, lp))
  {
    hide Wf, Preferred, EnsureActive, WriteInto, SameWear, Invalidate;
    NothingWears(f);
    ErrorWear(f);
    InvalidateWear(cfg, f, lp);
    if Preferred(cfg, lp).Some? {
      var sa := Preferred(cfg, lp).value;
      EnsureActiveWear(cfg, f, sa);
      var (g, b) := EnsureActive(cfg, f, sa);
      if b.Some? {
        WriteIntoWear(cfg, g, b.value, lp);
        SameWearTwice(f, g, WriteInto(cfg, g, b.value, lp).0);
      }
    }
  }

  lemma InvalidateWear(cfg: Config, f: State, lp: nat)
    ensures SameWear(f, Invalidate(cfg, f, lp))
  {
    hide DropReverse, Deactivate, Retires;
  }

  // ----- the average -------------------------------------------------------------------------------------------------

  lemma {:induction false} SumBounds(blocks: map<Block, BlockInfo>, low: nat, high: nat)
    requires forall b :: b in blocks ==> low <= blocks[b].erases <= high
    ensures low * |blocks| <= Sum(blocks, ErasesOf) <= high * |blocks|
    decreases |blocks|
  {
    hide Sum;
    if blocks == map[] {
      SumNothing(blocks);
    } else {
      var b :| b in blocks;
      SumRemove(blocks, b, ErasesOf);
      SmallerMap(blocks, b);
      SumBounds(blocks - {b}, low, high);
      OneFewer(blocks, b);
      OneMoreTimes(low, |blocks - {b}|);
      OneMoreTimes(high, |blocks - {b}|);
    }
  }

  lemma SumNothing(blocks: map<Block, BlockInfo>)
    requires blocks == map[]
    ensures Sum(blocks, ErasesOf) == 0 && |blocks| == 0
  {
  }

  lemma OneMoreTimes(a: nat, n: nat)
    ensures a * (n + 1) == a * n + a
  {
  }

  lemma OneFewer(blocks: map<Block, BlockInfo>, b: Block)
    requires b in blocks
    ensures |blocks| == |blocks - {b}| + 1
  {
    assert (blocks - {b}).Keys == blocks.Keys - {b};
    assert |blocks.Keys| == |blocks.Keys - {b}| + 1;
  }

  /** Under wear levelling the average lies between the least and the greatest erase count, and is positive
      once a block is worn. */
  lemma AverageLiesBetween(cfg: Config, f: State, low: nat, high: nat)
    requires cfg.wearLeveling && f.blocks != map[] && forall b :: b in f.blocks ==> low <= f.blocks[b].erases <= high
    ensures low as real <= AverageErases(cfg, f) <= high as real
    ensures (exists b :: b in f.blocks && f.blocks[b].erases > 0) ==> AverageErases(cfg, f) > 0.0
  {
    hide Sum;
    NotEmpty(f.blocks);
    SumBounds(f.blocks, low, high);
    MeanBetween(low, high, Sum(f.blocks, ErasesOf), |f.blocks|);
    if b :| b in f.blocks && f.blocks[b].erases > 0 {
      SumRemove(f.blocks, b, ErasesOf);
      Positive(Sum(f.blocks, ErasesOf) as real, |f.blocks| as real);
    }
  }

  lemma MeanBetween(low: nat, high: nat, sum: nat, n: nat)
    requires n > 0 && low * n <= sum <= high * n
    ensures low as real <= sum as real / n as real <= high as real
  {
    assert low as real * n as real == (low * n) as real && high as real * n as real == (high * n) as real;
    Between(low as real, high as real, sum as real, n as real);
  }

  lemma NotEmpty(blocks: map<Block, BlockInfo>)
    requires blocks != map[]
    ensures |blocks| > 0
  {
  }

  lemma Between(low: real, high: real, sum: real, n: real)
    requires n >= 1.0 && low * n <= sum <= high * n
    ensures low <= sum / n <= high
  {
    assert (sum / n) * n == sum;
  }

  lemma Positive(sum: real, n: real)
    requires n > 0.0 && sum > 0.0
    ensures sum / n > 0.0
  {
  }
}
