/** The FTL as the mutable object it is: loops over its ordered tables compute the transitions of Ftl. */
module FtlDevice {
  import opened Basics
  import opened Geometry
  import opened Ftl
  import FtlExact

  // ----- ordered block tables ---------------------------------------------------------------------------

  lemma {:induction false} LeastBlockExists(s: set<Block>)
    requires s != {}
    ensures exists b :: b in s && forall c :: c in s ==> BlockLeq(b, c)
  {
    var e :| e in s;
    if s == {e} {
      assert forall c :: c in s ==> BlockLeq(e, c);
    } else {
      LeastBlockExists(s - {e});
      var m :| m in s - {e} && forall c :: c in s - {e} ==> BlockLeq(m, c);
      var least := if BlockLeq(e, m) then e else m;
      forall c | c in s ensures BlockLeq(least, c) { if c != e { assert c in s - {e}; } }
      assert least in s;
    }
  }

  function LeastBlock(s: set<Block>): (b: Block)
    requires s != {}
    ensures b in s && forall c :: c in s ==> BlockLeq(b, c)
  {
    LeastBlockExists(s);
    var b :| b in s && forall c :: c in s ==> BlockLeq(b, c);
    b
  }

  /** Iteration order of a `std::map` or `std::set` keyed by blocks. */
  function SortedBlocks(s: set<Block>): (keys: seq<Block>)
    ensures forall b :: b in keys <==> b in s
    ensures forall i, j :: 0 <= i < j < |keys| ==> keys[i] != keys[j] && BlockLeq(keys[i], keys[j])
    decreases |s|
  {
    if s == {} then [] else
      var b := LeastBlock(s);
      [b] + SortedBlocks(s - {b})
  }

  /** The keys visited so far. */
  function Seen(keys: seq<Block>, i: nat): set<Block>
    requires i <= |keys|
  {
    set b | b in keys[..i]
  }

  lemma SeenNext(keys: seq<Block>, i: nat)
    requires i < |keys| && forall a, b :: 0 <= a < b < |keys| ==> keys[a] != keys[b]
    ensures Seen(keys, i + 1) == Seen(keys, i) + {keys[i]} && keys[i] !in Seen(keys, i)
  {
    assert keys[..i + 1] == keys[..i] + [keys[i]];
  }

  // ----- the search for a free block --------------------------------------------------------------------

  /** The best candidate among the blocks seen. */
  ghost predicate BestFree(wear: bool, f: State, sa: int, seen: set<Block>, best: Option<Block>) {
    match best
    case None => forall c :: c in Candidates(f, sa) ==> c !in seen
    case Some(b) => b in Candidates(f, sa) && b in seen && forall c :: c in Candidates(f, sa) && c in seen ==> Preferable(wear, f, b, c)
  }

  lemma BestFreeStep(wear: bool, f: State, sa: int, seen: set<Block>, best: Option<Block>, b: Block, next: Option<Block>)
    requires BestFree(wear, f, sa, seen, best) && b in f.pool && forall c :: c in seen ==> BlockLeq(c, b)
    requires next == if b.sa == sa && b in f.blocks
        && (best.None? || (wear && f.blocks[b].erases < Wear(wear, f, best.value))) then Some(b) else best
    ensures BestFree(wear, f, sa, seen + {b}, next)
  {
  }

  lemma BestFreeIsPick(wear: bool, f: State, sa: int, best: Option<Block>)
    requires BestFree(wear, f, sa, f.pool, best)
    ensures best.Some? <==> Candidates(f, sa) != {}
    ensures best.Some? ==> best.value == PickFree(wear, f, sa)
  {
    if best.Some? { PickUnique(wear, f, sa, best.value); }
  }

  // ----- the search for a victim ------------------------------------------------------------------------

  ghost predicate BestVictim(cfg: Config, g: State, average: real, seen: set<Block>, best: Option<Block>) {
    match best
    case None => forall c :: c in Eligible(cfg, g, average) ==> c !in seen
    case Some(b) => b in Eligible(cfg, g, average) && b in seen && forall c :: c in Eligible(cfg, g, average) && c in seen ==> NotWorse(cfg, g, average, b, c)
  }

  lemma BestVictimStep(cfg: Config, g: State, average: real, seen: set<Block>, best: Option<Block>, b: Block, next: Option<Block>)
    requires BestVictim(cfg, g, average, seen, best) && forall c :: c in seen ==> BlockLeq(c, b)
    requires next == if b in Eligible(cfg, g, average)
        && (best.None? || CostOf(cfg, g, average, b) < CostOf(cfg, g, average, best.value)) then Some(b) else best
    ensures BestVictim(cfg, g, average, seen + {b}, next)
  {
    hide Eligible, CostOf;
  }

  lemma BestVictimIs(cfg: Config, g: State, average: real, best: Option<Block>)
    requires BestVictim(cfg, g, average, g.blocks.Keys, best)
    ensures best.Some? <==> Eligible(cfg, g, average) != {}
    ensures best.Some? ==> best.value == Victim(cfg, g, average) && best.value in g.blocks
  {
    hide NotWorse;
    if best.Some? { VictimUnique(cfg, g, average, best.value); }
  }

  /** The retirements done when only some blocks have been visited. */
  function RetiredSoFar(f: State, seen: set<Block>): State {
    f.(blocks := Dirtied(f.blocks, Dead(f) * seen), pool := f.pool + Dead(f) * seen)
  }

  class Device {
    const cfg: Config
    var mapping: map<nat, Phys>
    var reverse: map<Block, set<nat>>
    var blocks: map<Block, BlockInfo>
    var pool: set<Block>
    var active: map<int, Block>
    var nextId: nat
    var capacityError: bool
    var mappingError: bool
    var aborted: bool
    ghost var acts: seq<MediaAct>

    ghost function Contents(): State
      reads this
    {
      State(mapping, reverse, blocks, pool, active, nextId, capacityError, mappingError, aborted, acts)
    }

    constructor (config: Config)
      ensures cfg == config && Contents() == Empty
    {
      cfg := config;
      mapping, reverse, blocks, pool, active := map[], map[], map[], {}, map[];
      nextId, capacityError, mappingError, aborted, acts := 0, false, false, false, [];
    }

    method FindFree(sa: int, wear: bool) returns (best: Option<Block>)
      ensures best.Some? <==> Candidates(Contents(), sa) != {}
      ensures best.Some? ==> best.value == PickFree(wear, Contents(), sa) && best.value in blocks
    {
      hide Preferable, IsPick;
      var keys := SortedBlocks(pool);
      best := None;
      var i := 0;
      NoneSeen(wear, Contents(), sa, keys);
      while i < |keys|
        invariant i <= |keys| && BestFree(wear, Contents(), sa, Seen(keys, i), best)
      {
        var b := keys[i];
        ghost var was := best;
        if b.sa == sa && b in blocks {
          if best.None? || (wear && best.value in blocks && blocks[b].erases < blocks[best.value].erases) { best := Some(b); }
        }
        SeenNext(keys, i);
        SeenLeq(keys, i);
        BestFreeStep(wear, Contents(), sa, Seen(keys, i), was, b, best);
        i := i + 1;
      }
      assert Seen(keys, |keys|) == pool;
      BestFreeIsPick(wear, Contents(), sa, best);
    }

    method Take(b: Block)
      requires b in blocks
      modifies this`pool, this`blocks
      ensures Contents() == TakeFree(old(Contents()), b)
    {
      pool := pool - {b};
      blocks := blocks[b := blocks[b].(free := blocks[b].total, next := 0, valid := 0)];
    }

    method Create(sa: int) returns (b: Option<Block>)
      modifies this`capacityError, this`nextId, this`blocks
      ensures (Contents(), b) == NewBlock(cfg, old(Contents()), sa)
    {
      if |blocks| >= cfg.MaxBlocks() || nextId >= PSEUDO_BLOCK_BIT {
        capacityError := true;
        return None;
      }
      b := Some(Block(sa, nextId));
      nextId := nextId + 1;
      blocks := blocks[b.value := FreshInfo(cfg)];
    }

    method AdvanceCursor(b: Block) returns (p: Option<Phys>)
      modifies this`aborted, this`blocks, this`active
      ensures (Contents(), p) == TakePage(old(Contents()), b)
    {
      if b !in blocks || blocks[b].free == 0 {
        aborted := true;
        return None;
      }
      var info := blocks[b];
      blocks := blocks[b := info.(next := info.next + 1, free := info.free - 1, valid := info.valid + 1)];
      if info.free == 1 { active := active - {b.sa}; }
      return Some(Phys(b.sa, b.id, info.next));
    }

    method MustCollect() returns (needed: bool)
      ensures needed == NeedsGc(cfg, Contents())
    {
      if HbfMode(cfg) || |blocks| == 0 { return false; }
      return (|pool| as real) / (|blocks| as real) < cfg.overprovisioning;
    }

    method Average() returns (average: real)
      ensures average == AverageErases(cfg, Contents())
    {
      NoAverage(cfg, Contents());
      if !cfg.wearLeveling || |blocks| == 0 { return 0.0; }
      var keys := SortedBlocks(blocks.Keys);
      var total, i := 0, 0;
      hide Sum, Seen, AverageErases;
      SumStart(blocks, keys);
      while i < |keys|
        invariant i <= |keys| && total + Sum(blocks - Seen(keys, i), ErasesOf) == Sum(blocks, ErasesOf)
      {
        SumStep(blocks, keys, i, ErasesOf);
        total := total + blocks[keys[i]].erases;
        i := i + 1;
      }
      SumEnd(blocks, keys, ErasesOf);
      AverageIs(cfg, Contents(), total);
      return total as real / |blocks| as real;
    }

    /** One block of the scan: a dead idle block joins the pool dirty, a cheaper idle block becomes the
        victim. */
    method Visit(b: Block, average: real, best: Option<Block>, minimum: real) returns (victim: Option<Block>, least: real)
      requires b in blocks
      modifies this`pool, this`blocks
      ensures var f := old(Contents()); var idle := b !in f.pool && !IsActive(f, b);
        && Contents() == (if idle && f.blocks[b].valid == 0
            then f.(blocks := f.blocks[b := f.blocks[b].(erased := false)], pool := f.pool + {b}) else f)
        && (victim, least) == (if idle && f.blocks[b].valid != 0 && Cost(cfg, average, f.blocks[b]) < minimum
                               then (Some(b), Cost(cfg, average, f.blocks[b])) else (best, minimum))
    {
      victim, least := best, minimum;
      if b in pool || (b.sa in active && active[b.sa] == b) { return; }
      var info := blocks[b];
      if info.valid == 0 {
        blocks := blocks[b := info.(erased := false)];
        pool := pool + {b};
        return;
      }
      var cost := Cost(cfg, average, info);
      if cost < least { victim, least := Some(b), cost; }
    }

    /** One pass over all blocks retires the dead ones and finds the cheapest idle one. */
    method ScanBlocks(average: real) returns (victim: Option<Block>)
      modifies this`pool, this`blocks
      ensures Contents() == Retire(old(Contents()))
      ensures victim.Some? <==> Eligible(cfg, Contents(), average) != {}
      ensures victim.Some? ==> victim.value == Victim(cfg, Contents(), average) && victim.value in blocks
    {
      hide NotWorse, Eligible, Cost, CostLimit, CostOf, Dead, Dirtied, Seen, BestVictim, Retire, RetiredSoFar, IsActive;
      ghost var f := Contents();
      ghost var g := Retire(f);
      var keys := SortedBlocks(blocks.Keys);
      victim := None;
      var minimum := CostLimit(cfg, average);
      var i := 0;
      ScanStart(cfg, f, average, keys);
      while i < |keys|
        invariant i <= |keys| && Contents() == RetiredSoFar(f, Seen(keys, i)) && f.active == active
        invariant BestVictim(cfg, g, average, Seen(keys, i), victim)
        invariant minimum == LeastCost(cfg, g, average, victim)
      {
        var b := keys[i];
        VisitFacts(cfg, f, average, Seen(keys, i), b, keys, i);
        ScanStep(cfg, f, average, Seen(keys, i), b, victim);
        victim, minimum := Visit(b, average, victim, minimum);
        i := i + 1;
      }
      ScanEnd(cfg, f, average, keys, victim);
    }

    /** Relocate the pages copied from the victim's reverse set; false if one cannot be placed. */
    method MovePages(victim: Block, pages: seq<nat>) returns (done: bool)
      modifies this
      ensures (Contents(), done) == Relocate(cfg, old(Contents()), victim, pages)
    {
      hide GcAllocate;
      var i := 0;
      assert pages[0..] == pages;
      while i < |pages|
        invariant i <= |pages| && Relocate(cfg, Contents(), victim, pages[i..]) == Relocate(cfg, old(Contents()), victim, pages)
      {
        var lp := pages[i];
        assert pages[i..][0] == lp && pages[i..][1..] == pages[i + 1..];
        if lp in mapping && mapping[lp].sa == victim.sa && mapping[lp].block == victim.id {
          var to := AllocateForGc(lp);
          if to.None? {
            capacityError := true;
            return false;
          }
          ghost var before := Contents();
          var from := mapping[lp];
          mapping := mapping[lp := to.value];
          var b := Block(to.value.sa, to.value.block);
          reverse := reverse[b := (if b in reverse then reverse[b] else {}) + {lp}];
          acts := acts + [Copy(from, to.value)];
          assert Contents() == Moved(before, lp, from, to.value);
        }
        i := i + 1;
      }
      return true;
    }

    /** `allocate_page_for_gc`. */
    method AllocateForGc(lp: nat) returns (p: Option<Phys>)
      modifies this
      ensures (Contents(), p) == GcAllocate(cfg, old(Contents()), lp)
      ensures mapping == old(mapping)
    {
      hide PickFree, Candidates, TakeFree, NewBlock, TakePage;
      GcKeepsMapping(cfg, Contents(), lp);
      match Preferred(cfg, lp)
      case None =>
        mappingError := true;
        return None;
      case Some(sa) =>
        var b: Option<Block> := None;
        if sa in active {
          b := Some(active[sa]);
        } else {
          b := FindFree(sa, false);
          if b.Some? { Take(b.value); } else { b := Create(sa); }
          if b.None? { return None; }
          active := active[sa := b.value];
        }
        p := AdvanceCursor(b.value);
    }

    method Collect()
      modifies this
      ensures Contents() == Gc(cfg, old(Contents()))
    {
      hide Eligible, Relocate, Retire, NeedsGc, AverageErases, Victim, Reclaim;
      var needed := MustCollect();
      if !needed { return; }
      var average := Average();
      var victim := ScanBlocks(average);
      if victim.None? { return; }
      var pages := if victim.value in reverse then SortedKeys(reverse[victim.value]) else [];
      var done := MovePages(victim.value, pages);
      if done && victim.value in blocks { Recycle(victim.value); }
    }

    method Recycle(victim: Block)
      requires victim in blocks
      modifies this
      ensures Contents() == Reclaim(old(Contents()), victim)
    {
      reverse := reverse - {victim};
      var info := blocks[victim];
      blocks := blocks[victim := info.(erased := true, free := info.total, next := 0, valid := 0)];
      if victim.sa in active && active[victim.sa] == victim { active := active - {victim.sa}; }
      pool := pool + {victim};
      acts := acts + [EraseAll(victim)];
    }

    method Allocate(sa: int) returns (b: Option<Block>)
      modifies this
      ensures (Contents(), b) == AllocateBlock(cfg, old(Contents()), sa)
    {
      hide Gc, NeedsGc, PickFree, Candidates, TakeFree, NewBlock;
      b := FindFree(sa, cfg.wearLeveling);
      if b.Some? {
        Take(b.value);
        return;
      }
      UnneededGc(cfg, Contents());
      var needed := MustCollect();
      if needed {
        Collect();
        b := FindFree(sa, cfg.wearLeveling);
        if b.Some? {
          Take(b.value);
          return;
        }
      }
      b := Create(sa);
    }

    /** `translate`. */
    method Translate(lp: nat, isWrite: bool) returns (p: Option<Phys>)
      modifies this
      ensures (Contents(), p) == if isWrite then TranslateWrite(cfg, old(Contents()), lp)
          else TranslateRead(cfg, old(Contents()), lp)
    {
      hide AllocateBlock, TakePage, Preferred, PseudoAddress, Commit;
      if !isWrite {
        if lp in mapping { return Some(mapping[lp]); }
        p := PseudoAddress(cfg, lp);
        if p.None? { mappingError := true; }
        return;
      }
      match Preferred(cfg, lp)
      case None =>
        mappingError := true;
        return None;
      case Some(sa) =>
        if sa !in active {
          var b := Allocate(sa);
          if b.None? { return None; }
          if sa !in active { active := active[sa := b.value]; }
        }
        p := AdvanceCursor(active[sa]);
        if p.Some? { Bind(lp, p.value); }
    }

    /** The overwrite is committed once the new page is reserved. */
    method Bind(lp: nat, p: Phys)
      modifies this
      ensures Contents() == Commit(cfg, old(Contents()), lp, p)
    {
      hide Ftl.Invalidate;
      if lp in mapping { Invalidate(lp); }
      mapping := mapping[lp := p];
      var b := Block(p.sa, p.block);
      reverse := reverse[b := (if b in reverse then reverse[b] else {}) + {lp}];
    }

    method Invalidate(lp: nat)
      modifies this
      ensures Contents() == Ftl.Invalidate(cfg, old(Contents()), lp)
    {
      if lp !in mapping { return; }
      var b := Block(mapping[lp].sa, mapping[lp].block);
      if b in blocks && blocks[b].valid > 0 {
        blocks := blocks[b := blocks[b].(valid := blocks[b].valid - 1)];
        if HbfMode(cfg) && blocks[b].valid == 0 && b !in pool {
          blocks := blocks[b := blocks[b].(erased := false)];
          if b.sa in active && active[b.sa] == b { active := active - {b.sa}; }
          pool := pool + {b};
        }
      }
      Unindex(b, lp);
      mapping := mapping - {lp};
    }

    method Unindex(b: Block, lp: nat)
      modifies this`reverse
      ensures reverse == DropReverse(old(reverse), b, lp)
    {
      if b in reverse {
        reverse := reverse[b := reverse[b] - {lp}];
        if reverse[b] == {} {
          reverse := reverse - {b};
          assert reverse == old(reverse) - {b};
        }
      }
    }

    method IsBlockErased(b: Block) returns (erased: bool)
      ensures erased == IsErased(Contents(), b)
    {
      return b in blocks && blocks[b].erased;
    }

    method MarkBlockErasing(b: Block)
      modifies this`blocks, this`aborted
      ensures Contents() == MarkErasing(old(Contents()), b)
    {
      if b !in blocks { aborted := true; return; }
      blocks := blocks[b := blocks[b].(erased := false)];
    }

    method MarkBlockErased(b: Block)
      modifies this`blocks, this`aborted
      ensures Contents() == MarkErased(old(Contents()), b)
    {
      if b !in blocks { aborted := true; return; }
      blocks := blocks[b := blocks[b].(erased := true, erases := blocks[b].erases + 1)];
    }

    /** The valid-page total of `get_usage`. */
    method ValidPages() returns (total: nat)
      ensures total == Sum(blocks, FtlExact.ValidOf)
    {
      var keys := SortedBlocks(blocks.Keys);
      total := 0;
      var i := 0;
      hide Sum, Seen;
      SumStart(blocks, keys);
      while i < |keys|
        invariant i <= |keys| && total + Sum(blocks - Seen(keys, i), FtlExact.ValidOf) == Sum(blocks, FtlExact.ValidOf)
      {
        SumStep(blocks, keys, i, FtlExact.ValidOf);
        total := total + blocks[keys[i]].valid;
        i := i + 1;
      }
      SumEnd(blocks, keys, FtlExact.ValidOf);
    }
  }

  lemma NoAverage(cfg: Config, f: State)
    ensures !cfg.wearLeveling || |f.blocks| == 0 ==> AverageErases(cfg, f) == 0.0
  {
  }

  lemma AverageIs(cfg: Config, f: State, total: nat)
    requires cfg.wearLeveling && |f.blocks| != 0 && total == Sum(f.blocks, ErasesOf)
    ensures AverageErases(cfg, f) == total as real / |f.blocks| as real
  {
  }

  lemma SumStart(blocks: map<Block, BlockInfo>, keys: seq<Block>)
    ensures blocks - Seen(keys, 0) == blocks
  {
  }

  lemma SumStep(blocks: map<Block, BlockInfo>, keys: seq<Block>, i: nat, weight: BlockInfo -> nat)
    requires i < |keys| && keys[i] in blocks && forall a, b :: 0 <= a < b < |keys| ==> keys[a] != keys[b]
    ensures Sum(blocks - Seen(keys, i), weight) == weight(blocks[keys[i]]) + Sum(blocks - Seen(keys, i + 1), weight)
  {
    hide Sum, Seen;
    SeenNext(keys, i);
    var left := blocks - Seen(keys, i);
    assert keys[i] in left && left[keys[i]] == blocks[keys[i]];
    SumRemove(left, keys[i], weight);
    assert left - {keys[i]} == blocks - Seen(keys, i + 1);
  }

  lemma SumEnd(blocks: map<Block, BlockInfo>, keys: seq<Block>, weight: BlockInfo -> nat)
    requires forall b :: b in keys <==> b in blocks
    ensures Sum(blocks - Seen(keys, |keys|), weight) == 0
  {
    assert keys[..|keys|] == keys;
    assert blocks - Seen(keys, |keys|) == map[];
  }

  lemma NoneSeen(wear: bool, f: State, sa: int, keys: seq<Block>)
    ensures BestFree(wear, f, sa, Seen(keys, 0), None)
  {
  }

  lemma SeenLeq(keys: seq<Block>, i: nat)
    requires i < |keys| && forall a, b :: 0 <= a < b < |keys| ==> BlockLeq(keys[a], keys[b])
    ensures forall c :: c in Seen(keys, i) ==> BlockLeq(c, keys[i])
  {
    forall c | c in Seen(keys, i) ensures BlockLeq(c, keys[i]) {
      var a :| 0 <= a < i && keys[a] == c;
    }
  }

  lemma UnneededGc(cfg: Config, f: State)
    ensures !NeedsGc(cfg, f) ==> Gc(cfg, f) == f
  {
    hide NeedsGc, Relocate, Eligible;
  }

  lemma GcKeepsMapping(cfg: Config, f: State, lp: nat)
    ensures GcAllocate(cfg, f, lp).0.mapping == f.mapping
  {
    hide PickFree, Candidates, TakeFree, NewBlock, TakePage, Preferred;
    if Preferred(cfg, lp).Some? {
      var sa := Preferred(cfg, lp).value;
      if Candidates(f, sa) != {} { FtlExact.PickedIsCandidate(false, f, sa); KeepsMapping(cfg, f, sa, PickFree(false, f, sa)); } else { KeepsMapping(cfg, f, sa, Block(0, 0)); }
      var (g, b) := GcBlock(cfg, f, sa);
      if b.Some? { KeepsMapping(cfg, g, sa, b.value); }
    }
  }

  lemma KeepsMapping(cfg: Config, f: State, sa: int, b: Block)
    ensures NewBlock(cfg, f, sa).0.mapping == f.mapping && TakePage(f, b).0.mapping == f.mapping
    ensures b in f.blocks ==> TakeFree(f, b).mapping == f.mapping
  {
  }

  // ----- the scan for dead and eligible blocks -----------------------------------------------------------

  lemma ScanStart(cfg: Config, f: State, average: real, keys: seq<Block>)
    ensures RetiredSoFar(f, Seen(keys, 0)) == f && BestVictim(cfg, Retire(f), average, Seen(keys, 0), None)
  {
    assert Dead(f) * Seen(keys, 0) == {};
    assert Dirtied(f.blocks, {}) == f.blocks;
  }

  /** What the next block looks like part-way through the scan, and what the scan does to it. */
  lemma VisitFacts(cfg: Config, f: State, average: real, seen: set<Block>, b: Block, keys: seq<Block>, i: nat)
    requires i < |keys| && b == keys[i] && seen == Seen(keys, i) && b in f.blocks
    requires forall a, c :: 0 <= a < c < |keys| ==> keys[a] != keys[c] && BlockLeq(keys[a], keys[c])
    ensures Seen(keys, i + 1) == seen + {b} && b !in seen && forall c :: c in seen ==> BlockLeq(c, b)
    ensures var now := RetiredSoFar(f, seen); var after := RetiredSoFar(f, seen + {b}); var g := Retire(f);
      && b in now.blocks && now.blocks[b] == f.blocks[b] && (b in now.pool <==> b in f.pool)
          && (IsActive(now, b) <==> IsActive(f, b))
      && (if b !in f.pool && !IsActive(f, b) && f.blocks[b].valid == 0
          then after == now.(blocks := now.blocks[b := now.blocks[b].(erased := false)], pool := now.pool + {b})
              else after == now)
      && (b in Eligible(cfg, g, average) <==> b !in f.pool && !IsActive(f, b) && f.blocks[b].valid != 0 && Cost(cfg, average, f.blocks[b]) < CostLimit(cfg, average))
      && (b in Eligible(cfg, g, average) ==> CostOf(cfg, g, average, b) == Cost(cfg, average, f.blocks[b]))
  {
    hide Cost, CostLimit, Seen;
    SeenNext(keys, i);
    SeenLeq(keys, i);
    RetireStep(f, seen, b);
    EligibleIs(cfg, f, average, b);
  }

  lemma RetireStep(f: State, seen: set<Block>, b: Block)
    requires b in f.blocks && b !in seen
    ensures var now := RetiredSoFar(f, seen); var after := RetiredSoFar(f, seen + {b});
      && b in now.blocks && now.blocks[b] == f.blocks[b] && (b in now.pool <==> b in f.pool)
          && (IsActive(now, b) <==> IsActive(f, b))
      && (if b !in f.pool && !IsActive(f, b) && f.blocks[b].valid == 0
          then after == now.(blocks := now.blocks[b := now.blocks[b].(erased := false)], pool := now.pool + {b})
              else after == now)
  {
    var now, after := RetiredSoFar(f, seen), RetiredSoFar(f, seen + {b});
    if b in Dead(f) {
      assert Dead(f) * (seen + {b}) == Dead(f) * seen + {b};
      assert after.blocks == now.blocks[b := now.blocks[b].(erased := false)];
    } else {
      assert Dead(f) * (seen + {b}) == Dead(f) * seen;
    }
  }

  lemma EligibleIs(cfg: Config, f: State, average: real, b: Block)
    requires b in f.blocks
    ensures var g := Retire(f);
      && (b in Eligible(cfg, g, average) <==> b !in f.pool && !IsActive(f, b) && f.blocks[b].valid != 0 && Cost(cfg, average, f.blocks[b]) < CostLimit(cfg, average))
      && (b in Eligible(cfg, g, average) ==> CostOf(cfg, g, average, b) == Cost(cfg, average, f.blocks[b]))
  {
    hide CostLimit;
    var g := Retire(f);
    assert b in g.blocks && g.blocks[b].valid == f.blocks[b].valid && g.blocks[b].erases == f.blocks[b].erases;
  }

  function LeastCost(cfg: Config, g: State, average: real, best: Option<Block>): real {
    if best.Some? then CostOf(cfg, g, average, best.value) else CostLimit(cfg, average)
  }

  /** Comparing with the running minimum is comparing with the best eligible block so far. */
  lemma ScanStep(cfg: Config, f: State, average: real, seen: set<Block>, b: Block, best: Option<Block>)
    requires b in f.blocks && (forall c :: c in seen ==> BlockLeq(c, b)) && BestVictim(cfg, Retire(f), average, seen, best)
    requires b in RetiredSoFar(f, seen).blocks && RetiredSoFar(f, seen).blocks[b] == f.blocks[b]
        && (b in RetiredSoFar(f, seen).pool <==> b in f.pool)
    ensures var g, now := Retire(f), RetiredSoFar(f, seen);
      var better := b !in now.pool && !IsActive(now, b) && now.blocks[b].valid != 0
          && Cost(cfg, average, now.blocks[b]) < LeastCost(cfg, g, average, best);
      BestVictim(cfg, g, average, seen + {b}, if better then Some(b) else best)
      && (better ==> Cost(cfg, average, now.blocks[b]) == LeastCost(cfg, g, average, Some(b)))
  {
    hide Cost, CostLimit, CostOf, Eligible, Dead, Dirtied, BestVictim;
    EligibleIs(cfg, f, average, b);
    BestIsEligible(cfg, Retire(f), average, seen, best);
    var better := b in Eligible(cfg, Retire(f), average)
        && (best.None? || CostOf(cfg, Retire(f), average, b) < CostOf(cfg, Retire(f), average, best.value));
    BestVictimStep(cfg, Retire(f), average, seen, best, b, if better then Some(b) else best);
  }

  lemma BestIsEligible(cfg: Config, g: State, average: real, seen: set<Block>, best: Option<Block>)
    requires BestVictim(cfg, g, average, seen, best)
    ensures best.Some? ==> CostOf(cfg, g, average, best.value) < CostLimit(cfg, average)
  {
    hide Cost, CostLimit;
  }

  lemma ScanEnd(cfg: Config, f: State, average: real, keys: seq<Block>, best: Option<Block>)
    requires (forall b :: b in keys <==> b in f.blocks) && BestVictim(cfg, Retire(f), average, Seen(keys, |keys|), best)
    ensures RetiredSoFar(f, Seen(keys, |keys|)) == Retire(f)
    ensures best.Some? <==> Eligible(cfg, Retire(f), average) != {}
    ensures best.Some? ==> best.value == Victim(cfg, Retire(f), average) && best.value in Retire(f).blocks
  {
    hide NotWorse, Eligible;
    assert keys[..|keys|] == keys;
    assert Seen(keys, |keys|) == f.blocks.Keys;
    assert Dead(f) * f.blocks.Keys == Dead(f);
    assert Retire(f).blocks.Keys == f.blocks.Keys;
    BestVictimIs(cfg, Retire(f), average, best);
  }
}
