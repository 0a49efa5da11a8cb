/** Which host writes erase live data, read off the state before the write: the active block is dirty
    and shared, or garbage collection is about to fill a dead block with a victim of the same
    sub-array and leave it open. */
module FtlDanger {
  import opened Basics
  import opened Geometry
  import opened Ftl
  import opened FtlInvariant

  /** No other page lives in the block. */
  predicate Alone(m: Mapping, lp: nat, b: Block) { forall q :: q in m && q != lp ==> BlockOf(m[q]) != b }

  /** The block would be erased under another live page. */
  predicate Exposes(f: State, b: Block, lp: nat) { !IsErased(f, b) && !Alone(f.mapping, lp, b) }

  /** The sub-array's write would collect first: it has neither an open block nor one in the pool. */
  ghost predicate Collects(cfg: Config, f: State, sa: int) { sa !in f.active && Candidates(f, sa) == {} && NeedsGc(cfg, f) }

  /** Collection moves a victim of this sub-array into one block and leaves room in it. */
  ghost predicate LeavesOpen(cfg: Config, f: State, sa: int) {
    var average := AverageErases(cfg, f);
    Eligible(cfg, Retire(f), average) != {} &&
    var victim := Victim(cfg, Retire(f), average);
    victim.sa == sa && 0 < |Live(f.mapping, victim)| < cfg.pagesPerBlock
  }

  /** The sub-array has an idle block without a valid page: collection pools it dirty. */
  predicate HasDead(f: State, sa: int) { exists b :: b in Dead(f) && b.sa == sa }

  /** A host write of the page endangers another one, judged before the write. */
  ghost predicate Endangered(cfg: Config, f: State, lp: nat) {
    match Preferred(cfg, lp)
    case None => false
    case Some(sa) =>
      if sa in f.active then Exposes(f, f.active[sa], lp)
      else
        && Collects(cfg, f, sa) && HasDead(f, sa) && LeavesOpen(cfg, f, sa)
        && !Alone(f.mapping, lp, Victim(cfg, Retire(f), AverageErases(cfg, f)))
  }

  /** What translation leads to: the chosen block is dirty and holds another live page. */
  ghost predicate ErasesLive(cfg: Config, f: State, lp: nat) {
    var (g, p) := TranslateWrite(cfg, f, lp);
    p.Some? && Exposes(g, BlockOf(p.value), lp)
  }

  // ----- relocation into one block ------------------------------------------------------------------

  lemma {:induction false} RelocateNothing(cfg: Config, f: State, victim: Block, pages: seq<nat>)
    requires Live(f.mapping, victim) == {}
    ensures Relocate(cfg, f, victim, pages) == (f, true)
    decreases |pages|
  {
    forall q | q in f.mapping ensures BlockOf(f.mapping[q]) != victim { assert q !in Live(f.mapping, victim); }
    if pages != [] {
      RelocateNothing(cfg, f, victim, pages[1..]);
    }
  }

  /** The open block takes the victim's page. */
  lemma MoveIntoOpen(cfg: Config, f: State, victim: Block, lp: nat, target: Block)
    requires cfg.pagesPerBlock > 0 && IdleVictim(cfg, f, victim) && lp in f.mapping && BlockOf(f.mapping[lp]) == victim
    requires victim.sa in f.active && f.active[victim.sa] == target
    ensures target in f.blocks && f.blocks[target].free > 0
    ensures GcAllocate(cfg, f, lp) == TakePage(f, target) && GcAllocate(cfg, f, lp).1.Some?
  {
    hide BlocksWf, CountWf, Covers;
    PreferredVictim(cfg, f, victim, lp);
    assert Installable(f.blocks, f.pool, victim.sa, target);
    hide Preferred, MapWf;
  }

  lemma PreferredVictim(cfg: Config, f: State, victim: Block, lp: nat)
    requires Wf(cfg, f) && lp in f.mapping && BlockOf(f.mapping[lp]) == victim
    ensures Preferred(cfg, lp) == Some(victim.sa)
  {
    hide BlocksWf, CountWf, Covers, PoolsWf, Preferred, Injective, InUse;
  }

  lemma LiveMoved(m: Mapping, lp: nat, to: Phys, victim: Block)
    requires lp in m && BlockOf(m[lp]) == victim && BlockOf(to) != victim
    ensures Live(m[lp := to], victim) == Live(m, victim) - {lp} && |Live(m[lp := to], victim)| + 1 == |Live(m, victim)|
    ensures Live(m[lp := to], BlockOf(to)) == Live(m, BlockOf(to)) + {lp}
  {
    assert lp in Live(m, victim);
  }

  /** One step of relocation in the tables this module looks at. */
  lemma MovedTables(cfg: Config, f: State, victim: Block, lp: nat, target: Block)
    requires cfg.pagesPerBlock > 0 && IdleVictim(cfg, f, victim) && lp in f.mapping && BlockOf(f.mapping[lp]) == victim
    requires victim.sa in f.active && f.active[victim.sa] == target && target != victim
    ensures var (g, to) := GcAllocate(cfg, f, lp);
      && to.Some? && target in f.blocks && f.blocks[target].free > 0
      && var h := Moved(g, lp, f.mapping[lp], to.value);
      && IdleVictim(cfg, h, victim) && target in h.blocks && h.blocks[target].free == f.blocks[target].free - 1
      && h.active == (if f.blocks[target].free == 1 then f.active - {victim.sa} else f.active)
      && IsErased(h, target) == IsErased(f, target)
      && |Live(h.mapping, victim)| + 1 == |Live(f.mapping, victim)|
      && Live(h.mapping, target) == Live(f.mapping, target) + {lp} && Live(h.mapping, victim) == Live(f.mapping, victim) - {lp}
  {
    hide Wf, GcAllocate, Preferred, SamePages, Live;
    ActiveSub(cfg, f, victim.sa);
    MoveIntoOpen(cfg, f, victim, lp, target);
    RelocateStep(cfg, f, victim, lp);
    var (g, to) := GcAllocate(cfg, f, lp);
    LiveMoved(f.mapping, lp, to.value, victim);
  }

  lemma ActiveSub(cfg: Config, f: State, sa: int)
    requires Wf(cfg, f) && sa in f.active
    ensures f.active[sa].sa == sa && f.active[sa] in f.blocks && f.active[sa] !in f.pool
  {
    hide BlocksWf, CountWf, Covers, MapWf;
    assert Installable(f.blocks, f.pool, sa, f.active[sa]);
  }

  /** With room for all of it, the whole victim moves into the open block, which stays open exactly if
      room is left. */
  lemma {:induction false} RelocateInto(cfg: Config, f: State, victim: Block, pages: seq<nat>, target: Block)
    requires cfg.pagesPerBlock > 0 && IdleVictim(cfg, f, victim) && Listed(f.mapping, victim, pages)
    requires victim.sa in f.active && f.active[victim.sa] == target && target != victim
    requires target in f.blocks && |Live(f.mapping, victim)| <= f.blocks[target].free
    ensures var (g, done) := Relocate(cfg, f, victim, pages);
      && done && IsErased(g, target) == IsErased(f, target)
      && Live(g.mapping, target) == Live(f.mapping, target) + Live(f.mapping, victim)
      && g.active == (if |Live(f.mapping, victim)| == f.blocks[target].free then f.active - {victim.sa} else f.active)
    decreases |pages|
  {
    hide IdleVictim, GcAllocate, Moved, IsErased, Listed, Live;
    OpenHasRoom(cfg, f, victim, target);
    if Live(f.mapping, victim) == {} {
      RelocateNothing(cfg, f, victim, pages);
    } else {
      NonemptyList(f.mapping, victim, pages);
      var lp := pages[0];
      ListedTail(f.mapping, victim, pages, lp, Phys(0, 0, 0));
      if lp !in f.mapping || BlockOf(f.mapping[lp]) != victim {
        RelocateInto(cfg, f, victim, pages[1..], target);
      } else {
        MovedTables(cfg, f, victim, lp, target);
        var (g, to) := GcAllocate(cfg, f, lp);
        var h := Moved(g, lp, f.mapping[lp], to.value);
        MovedList(cfg, f, victim, pages);
        if f.blocks[target].free == 1 {
          assert Live(h.mapping, victim) == {};
          RelocateNothing(cfg, h, victim, pages[1..]);
        } else {
          RelocateInto(cfg, h, victim, pages[1..], target);
        }
      }
    }
  }

  lemma OpenHasRoom(cfg: Config, f: State, victim: Block, target: Block)
    requires IdleVictim(cfg, f, victim) && victim.sa in f.active && f.active[victim.sa] == target
    ensures target in f.blocks && f.blocks[target].free > 0
  {
    hide BlocksWf, CountWf, Covers, MapWf;
    assert Installable(f.blocks, f.pool, victim.sa, target);
  }

  lemma NonemptyList(m: Mapping, victim: Block, pages: seq<nat>)
    requires Listed(m, victim, pages) && Live(m, victim) != {}
    ensures pages != []
  {
    var lp :| lp in Live(m, victim);
  }

  lemma MovedList(cfg: Config, f: State, victim: Block, pages: seq<nat>)
    requires cfg.pagesPerBlock > 0 && IdleVictim(cfg, f, victim) && Listed(f.mapping, victim, pages) && pages != []
    requires pages[0] in f.mapping && BlockOf(f.mapping[pages[0]]) == victim && GcAllocate(cfg, f, pages[0]).1.Some?
    ensures var (g, to) := GcAllocate(cfg, f, pages[0]);
      Listed(Moved(g, pages[0], f.mapping[pages[0]], to.value).mapping, victim, pages[1..])
  {
    hide IdleVictim, GcAllocate, SamePages;
    RelocateStep(cfg, f, victim, pages[0]);
    ListedTail(f.mapping, victim, pages, pages[0], GcAllocate(cfg, f, pages[0]).1.value);
  }

  // ----- opening the first block ----------------------------------------------------------------------

  /** Relocation first opens a block for the victim's sub-array, or fails there. */
  lemma {:induction false} RelocateOpens(cfg: Config, f: State, victim: Block, pages: seq<nat>)
    requires cfg.pagesPerBlock > 0 && IdleVictim(cfg, f, victim) && Listed(f.mapping, victim, pages)
    requires victim.sa !in f.active && Live(f.mapping, victim) != {}
    ensures var (g, b) := GcBlock(cfg, f, victim.sa);
      Relocate(cfg, f, victim, pages) == if b.Some? then Relocate(cfg, g, victim, pages) else (g.(capacityError := true), false)
    decreases |pages|
  {
    hide IdleVictim, TakePage, Moved, Listed, Live;
    NonemptyList(f.mapping, victim, pages);
    GcBlockFrame(cfg, f, victim.sa);
    var (g, b) := GcBlock(cfg, f, victim.sa);
    hide GcBlock;
    var lp := pages[0];
    ListedTail(f.mapping, victim, pages, lp, Phys(0, 0, 0));
    if lp !in f.mapping || BlockOf(f.mapping[lp]) != victim {
      RelocateOpens(cfg, f, victim, pages[1..]);
    } else {
      IdleIsWf(cfg, f, victim);
      PreferredVictim(cfg, f, victim, lp);
      hide Preferred;
    }
  }

  lemma IdleIsWf(cfg: Config, f: State, victim: Block)
    requires IdleVictim(cfg, f, victim)
    ensures Wf(cfg, f)
  {
    hide Wf;
  }

  lemma GcBlockFrame(cfg: Config, f: State, sa: int)
    ensures var (g, b) := GcBlock(cfg, f, sa);
      g.mapping == f.mapping && (b.Some? ==> GcBlock(cfg, g, sa) == (g, b))
  {
    hide IsPick, AtCapacity, Candidates;
  }

  /** The block opened is a whole one without live pages: a pooled one, with its erase state, or a new
      one, erased. */
  lemma OpenedBlock(cfg: Config, f: State, victim: Block)
    requires cfg.pagesPerBlock > 0 && IdleVictim(cfg, f, victim) && victim.sa !in f.active
    ensures var (g, b) := GcBlock(cfg, f, victim.sa);
      if b.None? then g.active == f.active && Candidates(f, victim.sa) == {}
      else
        && IdleVictim(cfg, g, victim) && g.mapping == f.mapping && b.value != victim && b.value.sa == victim.sa
        && g.active == f.active[victim.sa := b.value] && b.value in g.blocks && g.blocks[b.value].free == cfg.pagesPerBlock
        && Live(f.mapping, b.value) == {}
        && (if Candidates(f, victim.sa) == {} then IsErased(g, b.value)
            else b.value in Candidates(f, victim.sa) && IsErased(g, b.value) == IsErased(f, b.value))
  {
    hide Live, CountWf, Covers, Injective, Local, InUse;
    GcBlockWf(cfg, f, victim.sa);
    GcBlockEffect(cfg, f, victim.sa, victim);
    var (g, b) := GcBlock(cfg, f, victim.sa);
    if b.Some? {
      PickedOrNew(cfg, f, victim.sa);
      UnusedBlockIsEmpty(cfg, f.mapping, f.blocks, f.pool, b.value);
    }
    hide GcBlock, BlocksWf, PoolsWf, MapWf;
    OpenedTables(cfg, f, victim.sa);
  }

  lemma PickedOrNew(cfg: Config, f: State, sa: int)
    requires Wf(cfg, f) && sa !in f.active
    ensures var b := GcBlock(cfg, f, sa).1; b.Some? ==> b.value in f.pool || b.value !in f.blocks
  {
    hide CountWf, Covers, MapWf, PoolsWf, Config.MaxBlocks, InfoWf;
  }

  lemma OpenedTables(cfg: Config, f: State, sa: int)
    requires BlocksWf(cfg, f.blocks, f.nextId) && sa !in f.active
    ensures var (g, b) := GcBlock(cfg, f, sa);
      if b.None? then g.active == f.active && Candidates(f, sa) == {}
      else
        && g.mapping == f.mapping && g.active == f.active[sa := b.value] && b.value in g.blocks
        && g.blocks[b.value].free == cfg.pagesPerBlock
        && (if Candidates(f, sa) == {} then IsErased(g, b.value)
            else b.value in Candidates(f, sa) && IsErased(g, b.value) == IsErased(f, b.value))
  {
    if Candidates(f, sa) != {} {
      var free := PickFree(false, f, sa);
      assert InfoWf(cfg, f.blocks[free]);
      hide BlocksWf, Candidates, NewBlock, IsPick;
    } else {
      hide AtCapacity, BlocksWf, Candidates, TakeFree;
    }
  }

  // ----- what collection leaves open --------------------------------------------------------------------

  /** Relocation in another sub-array neither opens nor closes a block of this one. */
  lemma {:induction false} RelocateElsewhere(cfg: Config, f: State, victim: Block, pages: seq<nat>, sa: int)
    requires cfg.pagesPerBlock > 0 && IdleVictim(cfg, f, victim) && victim.sa != sa && sa !in f.active
    ensures sa !in Relocate(cfg, f, victim, pages).0.active
    decreases |pages|
  {
    hide IdleVictim, Moved, SamePages;
    if pages != [] {
      var lp := pages[0];
      if lp !in f.mapping || BlockOf(f.mapping[lp]) != victim {
        RelocateElsewhere(cfg, f, victim, pages[1..], sa);
      } else {
        RelocateStep(cfg, f, victim, lp);
        AllocatesAt(cfg, f, victim, lp, sa);
        hide GcAllocate;
        var (g, to) := GcAllocate(cfg, f, lp);
        if to.Some? {
          MovedActive(g, lp, f.mapping[lp], to.value);
          RelocateElsewhere(cfg, Moved(g, lp, f.mapping[lp], to.value), victim, pages[1..], sa);
        }
      }
    }
  }

  lemma MovedActive(f: State, lp: nat, from: Phys, to: Phys)
    ensures Moved(f, lp, from, to).active == f.active
  {
  }

  lemma AllocatesAt(cfg: Config, f: State, victim: Block, lp: nat, sa: int)
    requires IdleVictim(cfg, f, victim) && lp in f.mapping && BlockOf(f.mapping[lp]) == victim && victim.sa != sa && sa !in f.active
    ensures sa !in GcAllocate(cfg, f, lp).0.active
  {
    hide Wf, Preferred, NewBlock, TakeFree, IsPick;
    PreferredVictim(cfg, f, victim, lp);
    NewBlockActive(cfg, f, victim.sa);
    if Candidates(f, victim.sa) != {} { TakeFreeActive(f, PickFree(false, f, victim.sa)); }
  }

  lemma TakeFreeActive(f: State, b: Block)
    requires b in f.blocks
    ensures TakeFree(f, b).active == f.active
  {
  }

  /** The pages relocation works through. */
  ghost function Listing(f: State, victim: Block): seq<nat> { if victim in f.reverse then SortedKeys(f.reverse[victim]) else [] }

  /** Collecting a victim of the sub-array: either one block is opened and stays open with everything the
      victim held, or no block of the sub-array is open afterwards. */
  lemma RelocateOutcome(cfg: Config, f: State, victim: Block)
    requires cfg.pagesPerBlock > 0 && IdleVictim(cfg, f, victim) && victim.sa !in f.active
    ensures var (g, done) := Relocate(cfg, f, victim, Listing(f, victim)); var (k, b) := GcBlock(cfg, f, victim.sa);
      if 0 < |Live(f.mapping, victim)| < cfg.pagesPerBlock && b.Some? then
        && done && victim.sa in g.active && g.active[victim.sa] == b.value && b.value != victim
        && IsErased(g, b.value) == (Candidates(f, victim.sa) == {} || IsErased(f, b.value))
        && (Candidates(f, victim.sa) == {} || b.value in Candidates(f, victim.sa))
        && Live(g.mapping, b.value) == Live(f.mapping, victim)
      else victim.sa !in g.active
  {
    hide IdleVictim, GcBlock, Relocate, IsErased, Candidates, Live;
    IdleListed(cfg, f, victim);
    var pages := Listing(f, victim);
    hide Listing;
    OpenedBlock(cfg, f, victim);
    if Live(f.mapping, victim) == {} {
      RelocateNothing(cfg, f, victim, pages);
    } else {
      RelocateOpens(cfg, f, victim, pages);
      var (k, b) := GcBlock(cfg, f, victim.sa);
      if b.Some? { RelocateInto(cfg, k, victim, pages, b.value); }
    }
  }

  lemma IdleListed(cfg: Config, f: State, victim: Block)
    requires IdleVictim(cfg, f, victim)
    ensures Listed(f.mapping, victim, Listing(f, victim)) && |Live(f.mapping, victim)| <= cfg.pagesPerBlock
  {
    hide PoolsWf, MapWf, Config.MaxBlocks, SortedKeys, Live;
    VictimListed(f.mapping, f.reverse, victim);
    assert InfoWf(cfg, f.blocks[victim]);
  }

  /** Retirement pools exactly the sub-array's dead blocks, dirty. */
  lemma RetiredCandidates(f: State, sa: int)
    requires Candidates(f, sa) == {}
    ensures Candidates(Retire(f), sa) != {} <==> HasDead(f, sa)
    ensures forall b :: b in Candidates(Retire(f), sa) ==> !IsErased(Retire(f), b)
    ensures Retire(f).mapping == f.mapping && Retire(f).active == f.active
  {
    hide Idle;
    var g := Retire(f);
    forall b | b in Candidates(g, sa) ensures b in Dead(f) && b.sa == sa { assert b !in Candidates(f, sa); }
    forall b | b in Dead(f) && b.sa == sa ensures b in Candidates(g, sa) { DeadKnown(f, b); }
  }

  lemma DeadKnown(f: State, b: Block)
    requires b in Dead(f)
    ensures b in f.blocks && b !in f.pool
  {
  }

  lemma ReclaimFrame(f: State, victim: Block, b: Block)
    requires victim in f.blocks && !IsActive(f, victim) && b != victim
    ensures var g := Reclaim(f, victim);
      && g.mapping == f.mapping && g.active == f.active && IsErased(g, b) == IsErased(f, b) && victim in Candidates(g, victim.sa)
  {
  }

  /** After collection the sub-array has an open block exactly if relocation left one, and that block is
      dirty exactly if a dead one was there to take. */
  lemma GcOutcome(cfg: Config, f: State, sa: int)
    requires cfg.pagesPerBlock > 0 && Wf(cfg, f) && Collects(cfg, f, sa)
    ensures var g := Gc(cfg, f);
      if sa in g.active then
        && LeavesOpen(cfg, f, sa) && IsErased(g, g.active[sa]) == !HasDead(f, sa) && Candidates(g, sa) != {}
        && Live(g.mapping, g.active[sa]) == Live(f.mapping, Victim(cfg, Retire(f), AverageErases(cfg, f)))
      else !(LeavesOpen(cfg, f, sa) && HasDead(f, sa))
  {
    hide Wf, Relocate, GcBlock, Listing, Live, IsErased, Candidates, Dead, Retire, Eligible, IsVictim, AverageErases, HasDead, NeedsGc;
    var average := AverageErases(cfg, f);
    var r := Retire(f);
    RetireWf(cfg, f);
    RetiredCandidates(f, sa);
    if Eligible(cfg, r, average) != {} {
      var victim := Victim(cfg, r, average);
      VictimIdle(cfg, r, average);
      var (h, done) := Relocate(cfg, r, victim, Listing(r, victim));
      GcIs(cfg, f);
      RelocatedIdle(cfg, r, victim);
      if victim.sa == sa {
        RelocateOutcome(cfg, r, victim);
        SomeOpened(cfg, r, sa);
        if sa in h.active { ReclaimFrame(h, victim, h.active[sa]); }
      } else {
        RelocateElsewhere(cfg, r, victim, Listing(r, victim), sa);
      }
      ReclaimActive(h, victim);
    } else {
      GcIs(cfg, f);
    }
  }

  lemma GcIs(cfg: Config, f: State)
    requires NeedsGc(cfg, f)
    ensures var average := AverageErases(cfg, f); var r := Retire(f);
      Gc(cfg, f) ==
        if Eligible(cfg, r, average) == {} then r
        else
          var victim := Victim(cfg, r, average);
          var (h, done) := Relocate(cfg, r, victim, Listing(r, victim));
          if done && victim in h.blocks then Reclaim(h, victim) else h
  {
    hide Retire, Eligible, AverageErases, IsVictim, Relocate, Reclaim;
  }

  lemma VictimIdle(cfg: Config, f: State, average: real)
    requires Wf(cfg, f) && Eligible(cfg, f, average) != {}
    ensures IdleVictim(cfg, f, Victim(cfg, f, average))
  {
    hide Wf, Cost, CostLimit, NotWorse;
  }

  lemma RelocatedIdle(cfg: Config, f: State, victim: Block)
    requires cfg.pagesPerBlock > 0 && IdleVictim(cfg, f, victim)
    ensures var h := Relocate(cfg, f, victim, Listing(f, victim)).0; victim in h.blocks && !IsActive(h, victim)
  {
    hide Wf, Relocate, Listing, Listed, SamePages;
    IdleListed(cfg, f, victim);
    RelocateWf(cfg, f, victim, Listing(f, victim));
  }

  lemma ReclaimActive(f: State, victim: Block)
    requires victim in f.blocks && !IsActive(f, victim)
    ensures Reclaim(f, victim).active == f.active
  {
  }

  /** A pooled block for the sub-array is always opened. */
  lemma SomeOpened(cfg: Config, f: State, sa: int)
    ensures Candidates(f, sa) != {} && sa !in f.active ==> GcBlock(cfg, f, sa).1.Some?
  {
    hide Candidates, IsPick, NewBlock;
  }

  // ----- the write --------------------------------------------------------------------------------------

  /** Blocks from the pool hold nothing, new ones are erased: neither endangers a page. */
  lemma FreshSafe(cfg: Config, f: State, sa: int, lp: nat, active: map<int, Block>)
    requires Wf(cfg, f)
    ensures forall b :: b in Candidates(f, sa) ==> !Exposes(TakeFree(f, b).(active := active), b, lp)
    ensures var (g, b) := NewBlock(cfg, f, sa); b.Some? ==> !Exposes(g.(active := active), b.value, lp)
  {
    forall b | b in Candidates(f, sa) ensures !Exposes(TakeFree(f, b).(active := active), b, lp) { PooledAlone(cfg, f, b, lp); }
    hide Wf, AtCapacity, Alone;
  }

  lemma PooledAlone(cfg: Config, f: State, b: Block, lp: nat)
    requires Wf(cfg, f) && b in f.pool
    ensures Alone(f.mapping, lp, b)
  {
    hide BlocksWf, PoolsWf, CountWf, Covers, Local, Injective;
    forall q | q in f.mapping ensures BlockOf(f.mapping[q]) != b { assert InUse(f.blocks, f.pool, f.mapping[q]); }
  }

  /** A block in use is untouched when another leaves the pool. */
  lemma TakenElsewhere(f: State, spare: Block, b: Block, lp: nat)
    requires spare in f.blocks && b != spare
    ensures Exposes(TakeFree(f, spare), b, lp) == Exposes(f, b, lp)
  {
    hide Alone;
  }

  /** The block a write opens endangers a page exactly in the state described. */
  lemma OpensExposed(cfg: Config, f: State, sa: int, lp: nat)
    requires cfg.pagesPerBlock > 0 && Wf(cfg, f) && sa !in f.active
    ensures var (h, b) := EnsureActive(cfg, f, sa);
      (b.Some? && Exposes(h, b.value, lp)) <==>
        Collects(cfg, f, sa) && HasDead(f, sa) && LeavesOpen(cfg, f, sa)
        && !Alone(f.mapping, lp, Victim(cfg, Retire(f), AverageErases(cfg, f)))
  {
    hide Wf, Gc, NeedsGc, Candidates, Exposes, TakeFree, NewBlock, HasDead, LeavesOpen, Alone, AverageErases, Retire, IsPick;
    NewBlockActive(cfg, Gc(cfg, f), sa);
    if Candidates(f, sa) != {} {
      PickedTables(cfg, f, sa);
      FreshSafe(cfg, f, sa, lp, f.active[sa := PickFree(cfg.wearLeveling, f, sa)]);
    } else {
      GcWf(cfg, f);
      var g := Gc(cfg, f);
      if !NeedsGc(cfg, f) { NoGc(cfg, f); } else { GcOutcome(cfg, f, sa); }
      if Candidates(g, sa) != {} { PickedTables(cfg, g, sa); }
      if sa in g.active {
        ActiveSub(cfg, g, sa);
        TakenElsewhere(g, PickFree(cfg.wearLeveling, g, sa), g.active[sa], lp);
        SameShare(g.mapping, g.active[sa], f.mapping, Victim(cfg, Retire(f), AverageErases(cfg, f)), lp);
        ExposesIs(g, g.active[sa], lp);
      } else {
        var b := EnsureActive(cfg, f, sa).1;
        if b.Some? { FreshSafe(cfg, g, sa, lp, g.active[sa := b.value]); }
      }
    }
  }

  lemma PickedTables(cfg: Config, f: State, sa: int)
    requires Candidates(f, sa) != {}
    ensures var b := PickFree(cfg.wearLeveling, f, sa); b in Candidates(f, sa) && b in f.pool && b in f.blocks && TakeFree(f, b).active == f.active
  {
  }

  lemma ExposesIs(f: State, b: Block, lp: nat)
    ensures Exposes(f, b, lp) <==> !IsErased(f, b) && !Alone(f.mapping, lp, b)
  {
  }

  /** Blocks with the same live pages are shared alike. */
  lemma SameShare(m: Mapping, b: Block, m': Mapping, b': Block, lp: nat)
    requires Live(m, b) == Live(m', b')
    ensures Alone(m, lp, b) == Alone(m', lp, b')
  {
    AloneAmong(m, lp, b);
    AloneAmong(m', lp, b');
    hide Alone, Live;
  }

  lemma AloneAmong(m: Mapping, lp: nat, b: Block)
    ensures Alone(m, lp, b) <==> Live(m, b) <= {lp}
  {
    if Live(m, b) <= {lp} {
      forall q | q in m && q != lp ensures BlockOf(m[q]) != b { assert q !in Live(m, b); }
    }
  }

  lemma AloneUpdate(m: Mapping, lp: nat, p: Phys, b: Block)
    ensures Alone(m[lp := p], lp, b) == Alone(m, lp, b)
  {
    if Alone(m[lp := p], lp, b) {
      forall q | q in m && q != lp ensures BlockOf(m[q]) != b { assert m[lp := p][q] == m[q]; }
    }
  }

  /** Reserving the page and committing it change neither the block's erase state nor who shares it. */
  lemma WrittenExposed(cfg: Config, f: State, b: Block, lp: nat)
    requires Wf(cfg, f) && b.sa in f.active && f.active[b.sa] == b && Preferred(cfg, lp) == Some(b.sa)
    ensures var (g, p) := WriteInto(cfg, f, b, lp); p.Some? && BlockOf(p.value) == b && Exposes(g, b, lp) == Exposes(f, b, lp)
  {
    hide Wf, WriteInto, Preferred, IsErased, Unmapped, Alone;
    WriteIntoWf(cfg, f, b, lp);
    AloneUpdate(f.mapping, lp, WriteInto(cfg, f, b, lp).1.value, b);
    WriteErased(cfg, f, b, lp);
  }

  lemma WriteErased(cfg: Config, f: State, b: Block, lp: nat)
    requires Wf(cfg, f) && b.sa in f.active && f.active[b.sa] == b
    ensures IsErased(WriteInto(cfg, f, b, lp).0, b) == IsErased(f, b)
  {
    hide BlocksWf, MapWf, Covers, AddReverse, DropReverse, Deactivate;
    assert Installable(f.blocks, f.pool, b.sa, b);
    hide PoolsWf;
    if lp in f.mapping && BlockOf(f.mapping[lp]) == b { assert lp in Live(f.mapping, b); }
  }

  /** A write erases another live page if and only if it is endangered beforehand. */
  lemma EndangeredExactly(cfg: Config, f: State, lp: nat)
    requires cfg.pagesPerBlock > 0 && Wf(cfg, f)
    ensures ErasesLive(cfg, f, lp) <==> Endangered(cfg, f, lp)
  {
    hide Wf, Preferred, EnsureActive, WriteInto, Exposes, Collects, HasDead, LeavesOpen, Alone, Retire, AverageErases, SamePages;
    if Preferred(cfg, lp).Some? {
      var sa := Preferred(cfg, lp).value;
      EnsureActiveWf(cfg, f, sa);
      var (h, b) := EnsureActive(cfg, f, sa);
      if b.Some? { WrittenExposed(cfg, h, b.value, lp); }
      if sa in f.active { OpenAlready(cfg, f, sa); } else { OpensExposed(cfg, f, sa, lp); }
    }
  }

  lemma OpenAlready(cfg: Config, f: State, sa: int)
    requires sa in f.active
    ensures EnsureActive(cfg, f, sa) == (f, Some(f.active[sa]))
  {
    hide AllocateBlock;
  }
}
