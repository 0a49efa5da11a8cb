/** The controller's side of the FTL: translated addresses lie in the page's channel, and every entry
    keeps pinning the physical page it was given until it leaves the MSHR table. */
module ControllerFtl {
  import opened Basics
  import opened Geometry
  import opened Controller
  import opened ControllerTables
  import Ftl
  import FtlInvariant
  import FtlExact

  ghost predicate FtlOk(cfg: Config, f: Ftl.State) {
    && FtlInvariant.Wf(cfg, f) && !f.mappingError
    && (Ftl.HbfMode(cfg) ==> FtlExact.Exact(f))
  }

  /** What an entry's address is to the FTL: a write's block is known; in HBF mode a mapped page is
      served where it is mapped, and an unmapped one only by reads at its pseudo address. */
  predicate Pinned(cfg: Config, k: nat, e: Entry, mapping: map<nat, Phys>, blocks: map<Ftl.Block, Ftl.BlockInfo>) {
    && (e.isWriteOp ==> Ftl.BlockOf(PhysOf(e)) in blocks)
    && (Ftl.HbfMode(cfg) ==>
         if k in mapping then PhysOf(e) == mapping[k]
         else !e.isWriteOp && PseudoAddress(cfg, k) == Some(PhysOf(e)))
  }

  predicate PinsOk(cfg: Config, mshr: Mshr, mapping: map<nat, Phys>, blocks: map<Ftl.Block, Ftl.BlockInfo>) {
    cfg.ftlEnabled ==> forall k :: k in mshr ==> Pinned(cfg, k, mshr[k], mapping, blocks)
  }

  /** The parts of an entry the pinning speaks about. */
  predicate SamePin(e: Entry, g: Entry) { PhysOf(g) == PhysOf(e) && g.isWriteOp == e.isWriteOp }

  lemma PinsMap(cfg: Config, mshr: Mshr, mshr': Mshr, mapping: map<nat, Phys>, blocks: map<Ftl.Block, Ftl.BlockInfo>,
      blocks': map<Ftl.Block, Ftl.BlockInfo>)
    requires PinsOk(cfg, mshr, mapping, blocks) && mshr'.Keys <= mshr.Keys && blocks.Keys <= blocks'.Keys
    requires forall k :: k in mshr' ==> SamePin(mshr[k], mshr'[k])
    ensures PinsOk(cfg, mshr', mapping, blocks')
  {
    hide PseudoAddress;
    if cfg.ftlEnabled {
      forall k | k in mshr' ensures Pinned(cfg, k, mshr'[k], mapping, blocks') {
        assert Pinned(cfg, k, mshr[k], mapping, blocks);
        assert SamePin(mshr[k], mshr'[k]);
      }
    }
  }

  /** In HBF mode no two entries address one physical page. */
  lemma EntriesApart(cfg: Config, mshr: Mshr, f: Ftl.State, j: nat, k: nat)
    requires cfg.Valid() && cfg.ftlEnabled && Ftl.HbfMode(cfg) && FtlOk(cfg, f) && PinsOk(cfg, mshr, f.mapping, f.blocks)
    requires j in mshr && k in mshr && j != k
    ensures PhysOf(mshr[j]) != PhysOf(mshr[k])
  {
    hide FtlInvariant.Wf, FtlExact.Exact, PseudoAddress, Config.Valid;
    assert Pinned(cfg, j, mshr[j], f.mapping, f.blocks) && Pinned(cfg, k, mshr[k], f.mapping, f.blocks);
    FtlInvariant.TranslateReadInjective(cfg, f, j, k);
  }

  lemma PinsMapOne(cfg: Config, mshr: Mshr, k: nat, e: Entry, mapping: map<nat, Phys>, blocks: map<Ftl.Block, Ftl.BlockInfo>)
    requires PinsOk(cfg, mshr, mapping, blocks) && k in mshr && SamePin(mshr[k], e)
    ensures PinsOk(cfg, mshr[k := e], mapping, blocks)
  {
    PinsMap(cfg, mshr, mshr[k := e], mapping, blocks, blocks);
    hide PinsOk;
  }

  lemma PinsEnter(cfg: Config, mshr: Mshr, k: nat, e: Entry, mapping: map<nat, Phys>, blocks: map<Ftl.Block, Ftl.BlockInfo>)
    requires PinsOk(cfg, mshr, mapping, blocks) && (cfg.ftlEnabled ==> Pinned(cfg, k, e, mapping, blocks))
    ensures PinsOk(cfg, mshr[k := e], mapping, blocks)
  {
    hide Pinned;
  }

  /** A write to a page without an entry moves no other page in HBF mode. */
  lemma PinsWrite(cfg: Config, mshr: Mshr, f: Ftl.State, page: nat)
    requires cfg.Valid() && FtlOk(cfg, f) && page !in mshr && PinsOk(cfg, mshr, f.mapping, f.blocks)
    ensures var g := Ftl.TranslateWrite(cfg, f, page).0; PinsOk(cfg, mshr, g.mapping, g.blocks)
  {
    hide PseudoAddress, Config.Valid, FtlInvariant.Wf, FtlExact.Exact, Ftl.TranslateWrite;
    FtlInvariant.TranslateWriteGrows(cfg, f, page);
    if Ftl.HbfMode(cfg) { WriteMovesOne(cfg, f, page); }
    var g := Ftl.TranslateWrite(cfg, f, page).0;
    if cfg.ftlEnabled {
      forall k | k in mshr ensures Pinned(cfg, k, mshr[k], g.mapping, g.blocks) {
        assert Pinned(cfg, k, mshr[k], f.mapping, f.blocks);
      }
    }
  }

  lemma WriteMovesOne(cfg: Config, f: Ftl.State, page: nat)
    requires cfg.Valid() && FtlOk(cfg, f) && Ftl.HbfMode(cfg)
    ensures var g := Ftl.TranslateWrite(cfg, f, page).0;
      forall k :: k != page ==> (k in g.mapping <==> k in f.mapping) && (k in f.mapping ==> g.mapping[k] == f.mapping[k])
  {
    hide FtlInvariant.Wf, FtlExact.Exact, Ftl.TranslateWrite, FtlInvariant.Unmapped;
    FtlExact.TranslateWriteExact(cfg, f, page);
  }

  lemma WrittenIsPinned(cfg: Config, f: Ftl.State, page: nat, e: Entry)
    requires cfg.Valid() && FtlOk(cfg, f) && e.isWriteOp
    requires Ftl.TranslateWrite(cfg, f, page).1 == Some(PhysOf(e))
    ensures var g := Ftl.TranslateWrite(cfg, f, page).0; Pinned(cfg, page, e, g.mapping, g.blocks)
  {
    hide PseudoAddress, Ftl.TranslateWrite, FtlExact.Exact, Preferred, FtlInvariant.BlocksWf, FtlInvariant.PoolsWf,
        FtlInvariant.CountWf, FtlInvariant.Covers, FtlInvariant.Injective;
    FtlInvariant.TranslateWriteWf(cfg, f, page);
    var (g, p) := Ftl.TranslateWrite(cfg, f, page);
    assert g.mapping[page] == p.value;
    assert FtlInvariant.InUse(g.blocks, g.pool, g.mapping[page]);
  }

  // ----- translation ------------------------------------------------------------------------------

  /** Both copies of the placement arithmetic agree, so a translated page is in its channel. */
  lemma PreferredInChannel(cfg: Config, page: nat)
    requires cfg.Valid() && ChannelOf(cfg, page).Some?
    ensures Preferred(cfg, page).Some? && InChannel(cfg, ChannelOf(cfg, page).value, Preferred(cfg, page).value)
  {
    ValidIsComparable(cfg);
    MapsAgree(cfg, page);
  }

  /** The page has no direct block number. */
  predicate Beyond(cfg: Config, page: nat)
    requires cfg.pagesPerBlock > 0
  {
    page / cfg.pagesPerBlock >= PSEUDO_BLOCK_BIT
  }

  /** Without the FTL a page is addressed in its own channel, exactly if it has a direct block number; block
      and offset give the page back. */
  lemma DirectInChannel(cfg: Config, page: nat)
    requires cfg.Valid() && ChannelOf(cfg, page).Some?
    ensures var phys := DirectAddress(cfg, page, ChannelOf(cfg, page).value);
      && (phys.None? <==> Beyond(cfg, page))
      && (phys.Some? ==> PSEUDO_BLOCK_BIT <= phys.value.block < WORD32 && phys.value.page < cfg.pagesPerBlock)
      && (phys.Some? ==> page == (phys.value.block - PSEUDO_BLOCK_BIT) * cfg.pagesPerBlock + phys.value.page)
      && (phys.Some? ==> InChannel(cfg, ChannelOf(cfg, page).value, phys.value.sa))
  {
    ValidIsComparable(cfg);
    MapsAgree(cfg, page);
    HighBlockDefined(cfg, page);
    if HighBlock(cfg, page).Some? { HighBlockInverse(cfg, page); }
    hide Preferred, HighBlock, ChannelOf, Owns;
  }

  /** A read is translated without changing the FTL, into its own channel, or lies beyond 2^31 - 1
      direct blocks. */
  lemma ReadAddress(cfg: Config, f: Ftl.State, page: nat)
    requires cfg.Valid() && FtlOk(cfg, f) && ChannelOf(cfg, page).Some?
    ensures var (g, phys) := Ftl.TranslateRead(cfg, f, page);
      if phys.Some? then
        && g == f && InChannel(cfg, ChannelOf(cfg, page).value, phys.value.sa)
        && (if page in f.mapping then phys.value == f.mapping[page] else PseudoAddress(cfg, page) == phys)
      else page / cfg.pagesPerBlock >= PSEUDO_BLOCK_BIT - 1
  {
    PreferredInChannel(cfg, page);
    PseudoAddressDefined(cfg, page);
    if page in f.mapping {
      assert FtlInvariant.Local(cfg, f.mapping);
      hide ChannelOf;
    }
    hide Preferred, ChannelOf, Owns;
  }

  /** The page's sub-array has no block in the pool (nor an open one, in HBF mode), and the device has as
      many blocks as its capacity or the block ids allow. */
  ghost predicate OutOfBlocks(cfg: Config, f: Ftl.State, page: nat) {
    match Preferred(cfg, page)
    case None => false
    case Some(sa) => Ftl.NoBlockFor(cfg, f, sa) && (Ftl.HbfMode(cfg) ==> sa !in f.active)
  }

  lemma FailedFlush(cfg: Config, f: Ftl.State, page: nat)
    requires cfg.Valid() && FtlInvariant.Wf(cfg, f) && Preferred(cfg, page).Some?
    ensures var (g, phys) := Ftl.TranslateWrite(cfg, f, page);
      && (phys.None? ==> g.capacityError && OutOfBlocks(cfg, g, page))
      && (Ftl.HbfMode(cfg) ==> (phys.None? <==> OutOfBlocks(cfg, f, page)))
  {
    hide FtlInvariant.Wf, Ftl.TranslateWrite, Preferred, FtlInvariant.WriteFails;
    FtlInvariant.TranslateWriteWf(cfg, f, page);
    if Ftl.HbfMode(cfg) { FtlExact.HbfWriteFails(cfg, f, page); }
  }

  /** The write half of the contract: an address in the page's channel, or no block to be had for it; in
      HBF mode that can be told before the call. */
  lemma FlushFtl(cfg: Config, f: Ftl.State, page: nat)
    requires cfg.Valid() && FtlOk(cfg, f) && ChannelOf(cfg, page).Some?
    ensures var (g, phys) := Ftl.TranslateWrite(cfg, f, page);
      && FtlOk(cfg, g) && !g.aborted
      && (phys.Some? ==> InChannel(cfg, ChannelOf(cfg, page).value, phys.value.sa))
      && (phys.None? ==> g.capacityError && OutOfBlocks(cfg, g, page))
      && (Ftl.HbfMode(cfg) ==> (phys.None? <==> OutOfBlocks(cfg, f, page)))
  {
    FailedFlushOf(cfg, f, page);
    PreferredInChannel(cfg, page);
    FtlInvariant.TranslateWriteWf(cfg, f, page);
    if Ftl.HbfMode(cfg) { FtlExact.TranslateWriteExact(cfg, f, page); }
    var g := Ftl.TranslateWrite(cfg, f, page).0;
    assert !g.aborted by { hide FtlInvariant.BlocksWf, FtlInvariant.MapWf, FtlInvariant.PoolsWf, FtlInvariant.CountWf, FtlInvariant.Covers; }
    hide FtlInvariant.Wf, FtlExact.Exact, Ftl.TranslateWrite, Preferred, ChannelOf, InChannel, OutOfBlocks;
  }

  lemma FailedFlushOf(cfg: Config, f: Ftl.State, page: nat)
    requires cfg.Valid() && FtlOk(cfg, f) && ChannelOf(cfg, page).Some?
    ensures var (g, phys) := Ftl.TranslateWrite(cfg, f, page);
      && (phys.None? ==> g.capacityError && OutOfBlocks(cfg, g, page))
      && (Ftl.HbfMode(cfg) ==> (phys.None? <==> OutOfBlocks(cfg, f, page)))
  {
    hide FtlInvariant.Wf, FtlExact.Exact, Ftl.TranslateWrite, Preferred, ChannelOf, InChannel, OutOfBlocks, Config.Valid;
    PreferredInChannel(cfg, page);
    FailedFlush(cfg, f, page);
  }

  // ----- erase state ------------------------------------------------------------------------------

  /** Erase-state marks never assert and disturb no table, in HBF mode because only a block in use is
      ever marked. */
  lemma MarkOk(cfg: Config, f: Ftl.State, b: Ftl.Block, info: Ftl.BlockInfo)
    requires FtlOk(cfg, f) && b in f.blocks && (Ftl.HbfMode(cfg) ==> b !in f.pool)
        && FtlInvariant.OnlyEraseState(f.blocks[b], info)
    ensures FtlOk(cfg, f.(blocks := f.blocks[b := info])) && !f.aborted
  {
    FtlInvariant.MarkedWf(cfg, f, b, info);
    if Ftl.HbfMode(cfg) { FtlExact.MarkedExact(f, b, info); }
    hide FtlInvariant.Wf, FtlExact.Exact;
  }

  lemma WriteBlockInUse(cfg: Config, mshr: Mshr, f: Ftl.State, k: nat)
    requires FtlOk(cfg, f) && cfg.ftlEnabled && PinsOk(cfg, mshr, f.mapping, f.blocks) && k in mshr && mshr[k].isWriteOp
    ensures var b := Ftl.BlockOf(PhysOf(mshr[k])); b in f.blocks && (Ftl.HbfMode(cfg) ==> b !in f.pool)
  {
    hide PseudoAddress, FtlExact.Exact, FtlInvariant.BlocksWf, FtlInvariant.PoolsWf, FtlInvariant.CountWf,
        FtlInvariant.Covers, FtlInvariant.Injective, FtlInvariant.Local;
    assert Pinned(cfg, k, mshr[k], f.mapping, f.blocks);
    if Ftl.HbfMode(cfg) { assert FtlInvariant.InUse(f.blocks, f.pool, f.mapping[k]); }
  }

  lemma MarkErasingOk(cfg: Config, mshr: Mshr, f: Ftl.State, k: nat)
    requires FtlOk(cfg, f) && cfg.ftlEnabled && PinsOk(cfg, mshr, f.mapping, f.blocks) && k in mshr && mshr[k].isWriteOp
    ensures var b := Ftl.BlockOf(PhysOf(mshr[k])); var g := Ftl.MarkErasing(f, b); var h := Ftl.MarkErased(f, b);
      && FtlOk(cfg, g) && !g.aborted && g.mapping == f.mapping && g.blocks.Keys == f.blocks.Keys
      && FtlOk(cfg, h) && !h.aborted && h.mapping == f.mapping && h.blocks.Keys == f.blocks.Keys
  {
    hide FtlOk, PinsOk;
    WriteBlockInUse(cfg, mshr, f, k);
    var b := Ftl.BlockOf(PhysOf(mshr[k]));
    var info := f.blocks[b];
    MarkOk(cfg, f, b, info.(erased := true, erases := info.erases + 1));
    MarkOk(cfg, f, b, info.(erased := false));
  }
}
