/** The NAND discipline and the freshness of what is served, for the FTL in HBF mode: which cells hold
    what, when a block may be programmed, and what caches and registers may contain. */
module Media {
  import opened Basics
  import opened Geometry
  import opened Controller
  import opened ControllerTables
  import Ftl
  import FtlExact
  import FtlInvariant
  import Lru
  import Nand

  type Subs = seq<Nand.Sub>
  type Blocks = map<Ftl.Block, Ftl.BlockInfo>
  type Homes = map<nat, Home>

  function CellOf(subs: Subs, p: Phys): Option<Nand.Cell> {
    if 0 <= p.sa < |subs| then Nand.CellAt(subs[p.sa], p.block, p.page) else None
  }

  /** What the last PROGRAM of a page stored. */
  function Latest(homes: Homes, page: nat): Option<Nand.Cell> {
    if page in homes then Some(Nand.Cell(page, homes[page].version)) else None
  }

  // ----- the discipline, read off the trace ---------------------------------------------------------

  /** Version of the last PROGRAM of a page in a trace. */
  function LastProgram(log: seq<MediaEvent>, page: nat): Option<nat> {
    if log == [] then None
    else
      var e := log[|log| - 1];
      if e.ProgramIssued? && e.page == page then Some(e.version) else LastProgram(log[..|log| - 1], page)
  }

  /** Not programmed since the last ERASE of its block. */
  predicate Rewritable(log: seq<MediaEvent>, p: Phys) {
    log == [] ||
    var e := log[|log| - 1];
    if e.ProgramIssued? && e.phys == p then false
    else (e.EraseIssued? && e.target == Ftl.BlockOf(p)) || Rewritable(log[..|log| - 1], p)
  }

  function Expected(log: seq<MediaEvent>, page: nat): Option<Nand.Cell> {
    match LastProgram(log, page) case None => None case Some(v) => Some(Nand.Cell(page, v))
  }

  /** PROGRAM only where nothing was programmed since the last ERASE; ERASE never under a page still
      stored there; a cache, register or cell read serves the page's last PROGRAM. */
  predicate EventOk(log: seq<MediaEvent>, e: MediaEvent) {
    match e
    case EraseIssued(_, _, lost) => lost == {}
    case ProgramIssued(_, phys, _, _, clean) => clean && Rewritable(log, phys)
    case ReadIssued(page, _, served) => served == Expected(log, page)
    case CacheServed(page, served) => served == Expected(log, page)
  }

  predicate Disciplined(log: seq<MediaEvent>) { forall i :: 0 <= i < |log| ==> EventOk(log[..i], log[i]) }

  lemma DisciplinedAppend(log: seq<MediaEvent>, e: MediaEvent)
    requires Disciplined(log) && EventOk(log, e)
    ensures Disciplined(log + [e])
  {
    hide EventOk;
    var all := log + [e];
    forall i | 0 <= i < |all| ensures EventOk(all[..i], all[i]) {
      if i < |log| { assert all[..i] == log[..i]; } else { assert all[..i] == log; }
    }
  }

  // ----- invariants ---------------------------------------------------------------------------------

  /** A block in use whose ERASE has completed. */
  predicate Usable(blocks: Blocks, pool: set<Ftl.Block>, b: Ftl.Block) { b in blocks && b !in pool && blocks[b].erased }

  /** Cells lie in known blocks; in an erased block in use, only below the cursor. */
  ghost predicate CellsOk(subs: Subs, blocks: Blocks, pool: set<Ftl.Block>) {
    forall p: Phys :: CellOf(subs, p).Some? ==>
      Ftl.BlockOf(p) in blocks && (Usable(blocks, pool, Ftl.BlockOf(p)) ==> p.page < blocks[Ftl.BlockOf(p)].next)
  }

  predicate Awaits(mshr: Mshr, lp: nat) { lp in mshr && Unprogrammed(mshr[lp]) }

  /** Before its PROGRAM a mapped page has a blank cell, once its block is erased; afterwards the cell
      holds the page's last PROGRAM. */
  predicate StoredOk(subs: Subs, blocks: Blocks, homes: Homes, lp: nat, p: Phys, awaits: bool) {
    var b := Ftl.BlockOf(p);
    if awaits then (b in blocks && blocks[b].erased ==> CellOf(subs, p).None?) && (lp in homes ==> homes[lp].phys != p)
    else b in blocks && blocks[b].erased && lp in homes && homes[lp].phys == p && CellOf(subs, p) == Latest(homes, lp)
  }

  predicate ContentsOk(subs: Subs, mapping: map<nat, Phys>, blocks: Blocks, homes: Homes, mshr: Mshr) {
    && (forall lp :: lp in mapping ==> StoredOk(subs, blocks, homes, lp, mapping[lp], Awaits(mshr, lp)))
    && homes.Keys <= mapping.Keys
  }

  ghost predicate Blank(subs: Subs, b: Ftl.Block) { forall p: Phys :: Ftl.BlockOf(p) == b ==> CellOf(subs, p).None? }

  /** A block being erased is blank and not yet usable. */
  ghost predicate ErasingOk(subs: Subs, blocks: Blocks, mshr: Mshr) {
    forall k :: k in mshr && mshr[k].op == Erasing ==>
      var b := Ftl.BlockOf(PhysOf(mshr[k])); b in blocks && !blocks[b].erased && Blank(subs, b)
  }

  ghost predicate RegistersOk(subs: Subs) { forall i :: 0 <= i < |subs| ==> Nand.Coherent(subs[i]) }

  /** What a read brought stays the page's last PROGRAM until it is delivered. */
  predicate FreshOk(mshr: Mshr, homes: Homes) {
    forall k :: k in mshr && !mshr[k].isWriteOp && !Queued(mshr[k]) ==> mshr[k].data == Latest(homes, k)
  }

  predicate CacheOk(cache: seq<nat>, cached: map<nat, Option<Nand.Cell>>, homes: Homes) {
    Distinct(cache) && forall p :: p in cache ==> p in cached && cached[p] == Latest(homes, p)
  }

  ghost predicate LogOk(log: seq<MediaEvent>, homes: Homes, subs: Subs) {
    && (forall p :: Expected(log, p) == Latest(homes, p))
    && (forall p: Phys :: 0 <= p.sa < |subs| ==> (Rewritable(log, p) <==> CellOf(subs, p).None?))
  }

  ghost predicate MediaOk(s: State) {
    && CellsOk(s.subs, s.ftl.blocks, s.ftl.pool) && ContentsOk(s.subs, s.ftl.mapping, s.ftl.blocks, s.homes, s.mshr)
    && ErasingOk(s.subs, s.ftl.blocks, s.mshr) && RegistersOk(s.subs) && FreshOk(s.mshr, s.homes)
    && CacheOk(s.cache, s.cached, s.homes) && LogOk(s.media, s.homes, s.subs)
  }

  // ----- entries that do not touch the media --------------------------------------------------------

  predicate SameMedia(e: Entry, g: Entry) {
    && Unprogrammed(g) == Unprogrammed(e) && (g.op == Erasing ==> e.op == Erasing)
    && PhysOf(g) == PhysOf(e) && g.isWriteOp == e.isWriteOp
    && (!g.isWriteOp && !Queued(g) ==> !Queued(e) && g.data == e.data)
  }

  lemma MediaMap(mshr: Mshr, mshr': Mshr, homes: Homes, subs: Subs, mapping: map<nat, Phys>, blocks: Blocks)
    requires ContentsOk(subs, mapping, blocks, homes, mshr) && ErasingOk(subs, blocks, mshr) && FreshOk(mshr, homes)
    requires mshr'.Keys <= mshr.Keys && forall k :: k in mshr' ==> SameMedia(mshr[k], mshr'[k])
    requires forall k :: k in mshr && k !in mshr' ==> !Unprogrammed(mshr[k])
    ensures ContentsOk(subs, mapping, blocks, homes, mshr') && ErasingOk(subs, blocks, mshr') && FreshOk(mshr', homes)
  {
    hide StoredOk, Blank, Latest;
    forall lp | lp in mapping ensures StoredOk(subs, blocks, homes, lp, mapping[lp], Awaits(mshr', lp)) {
      assert Awaits(mshr', lp) == Awaits(mshr, lp) by { if lp in mshr' { assert SameMedia(mshr[lp], mshr'[lp]); } }
    }
    forall k | k in mshr' ensures SameMedia(mshr[k], mshr'[k]) { }
  }

  /** A new queued read. */
  lemma MediaEnterRead(mshr: Mshr, k: nat, e: Entry, homes: Homes, subs: Subs, mapping: map<nat, Phys>, blocks: Blocks)
    requires ContentsOk(subs, mapping, blocks, homes, mshr) && ErasingOk(subs, blocks, mshr) && FreshOk(mshr, homes)
    requires k !in mshr && !e.isWriteOp && Queued(e)
    ensures ContentsOk(subs, mapping, blocks, homes, mshr[k := e]) && ErasingOk(subs, blocks, mshr[k := e])
        && FreshOk(mshr[k := e], homes)
  {
    hide StoredOk, Blank, Latest;
    forall lp | lp in mapping ensures StoredOk(subs, blocks, homes, lp, mapping[lp], Awaits(mshr[k := e], lp)) {
      assert Awaits(mshr[k := e], lp) == Awaits(mshr, lp);
    }
  }

  // ----- a write is translated and queued -------------------------------------------------------------

  lemma MediaWriteCells(f: Ftl.State, g: Ftl.State, p: Phys, subs: Subs)
    requires CellsOk(subs, f.blocks, f.pool) && FtlExact.WriteEffect(f, g, p)
    ensures CellsOk(subs, g.blocks, g.pool)
  {
    hide CellOf;
    forall q: Phys | CellOf(subs, q).Some?
      ensures Ftl.BlockOf(q) in g.blocks && (Usable(g.blocks, g.pool, Ftl.BlockOf(q)) ==> q.page < g.blocks[Ftl.BlockOf(q)].next)
    {
      assert Ftl.BlockOf(q) in f.blocks;
    }
  }

  /** A block with a live page before and after stays in use throughout. */
  lemma MediaWriteContents(f: Ftl.State, g: Ftl.State, page: nat, p: Phys, subs: Subs, homes: Homes, mshr: Mshr, e: Entry)
    requires ContentsOk(subs, f.mapping, f.blocks, homes, mshr) && CellsOk(subs, f.blocks, f.pool)
        && FtlExact.WriteEffect(f, g, p)
    requires page !in mshr && g.mapping == f.mapping[page := p] && FtlInvariant.Unmapped(f.mapping, p)
    requires forall lp :: lp in f.mapping ==> InUse(f.blocks, f.pool, f.mapping[lp])
    requires forall lp :: lp in g.mapping ==> InUse(g.blocks, g.pool, g.mapping[lp])
    requires Unprogrammed(e)
    ensures ContentsOk(subs, g.mapping, g.blocks, homes, mshr[page := e])
  {
    hide CellOf, Latest;
    var m := mshr[page := e];
    forall lp | lp in g.mapping ensures StoredOk(subs, g.blocks, homes, lp, g.mapping[lp], Awaits(m, lp)) {
      if lp != page {
        assert Awaits(m, lp) == Awaits(mshr, lp);
        assert InUse(f.blocks, f.pool, f.mapping[lp]) && InUse(g.blocks, g.pool, g.mapping[lp]);
        assert StoredOk(subs, f.blocks, homes, lp, f.mapping[lp], Awaits(mshr, lp));
      } else {
        if page in homes {
          assert StoredOk(subs, f.blocks, homes, page, f.mapping[page], false);
          assert f.mapping[page] != p;
        }
        if CellOf(subs, p).Some? { assert Ftl.BlockOf(p) in f.blocks; }
      }
    }
  }

  predicate InUse(blocks: Blocks, pool: set<Ftl.Block>, p: Phys) { Ftl.BlockOf(p) in blocks && Ftl.BlockOf(p) !in pool }

  lemma MediaWriteErasing(f: Ftl.State, g: Ftl.State, page: nat, p: Phys, subs: Subs, mshr: Mshr, e: Entry)
    requires ErasingOk(subs, f.blocks, mshr) && FtlExact.WriteEffect(f, g, p) && e.op != Erasing
    requires forall k :: k in mshr && mshr[k].op == Erasing ==> InUse(f.blocks, f.pool, PhysOf(mshr[k])) && InUse(g.blocks, g.pool, PhysOf(mshr[k]))
    ensures ErasingOk(subs, g.blocks, mshr[page := e])
  {
    hide Blank;
  }

  // ----- erase --------------------------------------------------------------------------------------

  lemma StartEraseCells(cfg: Config, subs: Subs, b: Ftl.Block)
    requires 0 <= b.sa < |subs|
    ensures var subs' := subs[b.sa := Nand.StartErase(cfg, subs[b.sa], b.id)];
      forall p: Phys :: CellOf(subs', p) == if Ftl.BlockOf(p) == b then None else CellOf(subs, p)
  {
  }

  /** A block that still awaits its ERASE holds no programmed live page: none is lost, and the block
      becomes blank. */
  lemma MediaStartErase(subs: Subs, subs': Subs, f: Ftl.State, b: Ftl.Block, homes: Homes, mshr: Mshr, k: nat)
    requires CellsOk(subs, f.blocks, f.pool) && ContentsOk(subs, f.mapping, f.blocks, homes, mshr)
        && ErasingOk(subs, f.blocks, mshr)
    requires b in f.blocks && !f.blocks[b].erased && k in mshr && Unprogrammed(mshr[k]) && Ftl.BlockOf(PhysOf(mshr[k])) == b
    requires forall p: Phys :: CellOf(subs', p) == if Ftl.BlockOf(p) == b then None else CellOf(subs, p)
    ensures var blocks, m := f.blocks[b := f.blocks[b].(erased := false)], mshr[k := mshr[k].(op := Erasing)];
      CellsOk(subs', blocks, f.pool) && ContentsOk(subs', f.mapping, blocks, homes, m) && ErasingOk(subs', blocks, m)
  {
    hide CellOf, Latest;
    var blocks, m := f.blocks[b := f.blocks[b].(erased := false)], mshr[k := mshr[k].(op := Erasing)];
    forall lp | lp in f.mapping ensures StoredOk(subs', blocks, homes, lp, f.mapping[lp], Awaits(m, lp)) {
      assert Awaits(m, lp) == Awaits(mshr, lp);
      assert StoredOk(subs, f.blocks, homes, lp, f.mapping[lp], Awaits(mshr, lp));
    }
    forall j | j in m && m[j].op == Erasing
      ensures var c := Ftl.BlockOf(PhysOf(m[j])); c in blocks && !blocks[c].erased && Blank(subs', c)
    {
      var c := Ftl.BlockOf(PhysOf(m[j]));
      if j != k { assert c in f.blocks && !f.blocks[c].erased && Blank(subs, c); }
    }
  }

  lemma NothingLost(s: State, b: Ftl.Block)
    requires ContentsOk(s.subs, s.ftl.mapping, s.ftl.blocks, s.homes, s.mshr) && b in s.ftl.blocks && !s.ftl.blocks[b].erased
    ensures Stored(s, b) == {}
  {
    hide CellOf, Latest;
    forall p | p in s.ftl.mapping ensures p !in Stored(s, b) {
      assert StoredOk(s.subs, s.ftl.blocks, s.homes, p, s.ftl.mapping[p], Awaits(s.mshr, p));
    }
  }

  /** The ERASE completes: every page waiting for its block may program. */
  lemma MediaErased(subs: Subs, f: Ftl.State, b: Ftl.Block, info: Ftl.BlockInfo, homes: Homes, mshr: Mshr, k: nat, e: Entry)
    requires CellsOk(subs, f.blocks, f.pool) && ContentsOk(subs, f.mapping, f.blocks, homes, mshr)
        && ErasingOk(subs, f.blocks, mshr)
    requires k in mshr && mshr[k].op == Erasing && mshr[k].isWriteOp && Ftl.BlockOf(PhysOf(mshr[k])) == b
        && e == mshr[k].(op := Waiting)
    requires b in f.blocks && info.erased && info.next == f.blocks[b].next
    requires forall j :: j in mshr && mshr[j].op == Erasing && Ftl.BlockOf(PhysOf(mshr[j])) == b ==> j == k
    ensures var blocks, m := f.blocks[b := info], mshr[k := e];
      CellsOk(subs, blocks, f.pool) && ContentsOk(subs, f.mapping, blocks, homes, m) && ErasingOk(subs, blocks, m)
  {
    hide CellOf, Latest;
    var blocks, m := f.blocks[b := info], mshr[k := e];
    assert Blank(subs, b) && !f.blocks[b].erased;
    forall lp | lp in f.mapping ensures StoredOk(subs, blocks, homes, lp, f.mapping[lp], Awaits(m, lp)) {
      assert Awaits(m, lp) == Awaits(mshr, lp);
      assert StoredOk(subs, f.blocks, homes, lp, f.mapping[lp], Awaits(mshr, lp));
    }
    forall j | j in m && m[j].op == Erasing
      ensures var c := Ftl.BlockOf(PhysOf(m[j])); c in blocks && !blocks[c].erased && Blank(subs, c)
    {
      assert j != k && Ftl.BlockOf(PhysOf(mshr[j])) != b;
    }
  }

  // ----- program ------------------------------------------------------------------------------------

  lemma StartProgramCells(cfg: Config, subs: Subs, p: Phys, cell: Nand.Cell)
    requires 0 <= p.sa < |subs|
    ensures var subs' := subs[p.sa := Nand.StartProgram(cfg, subs[p.sa], p.block, p.page, cell)];
      forall q: Phys :: CellOf(subs', q) == if q == p then Some(cell) else CellOf(subs, q)
  {
  }

  lemma MediaStartProgram(subs: Subs, subs': Subs, f: Ftl.State, p: Phys, homes: Homes, mshr: Mshr, k: nat, version: nat)
    requires CellsOk(subs, f.blocks, f.pool) && ContentsOk(subs, f.mapping, f.blocks, homes, mshr)
        && ErasingOk(subs, f.blocks, mshr)
    requires k in mshr && Unprogrammed(mshr[k]) && PhysOf(mshr[k]) == p && k in f.mapping && f.mapping[k] == p
    requires Ftl.BlockOf(p) in f.blocks && f.blocks[Ftl.BlockOf(p)].erased && p.page < f.blocks[Ftl.BlockOf(p)].next
    requires FtlInvariant.Injective(f.mapping)
    requires forall q: Phys :: CellOf(subs', q) == if q == p then Some(Nand.Cell(k, version)) else CellOf(subs, q)
    ensures CellOf(subs, p).None?
    ensures var m, h := mshr[k := mshr[k].(op := Programming)], homes[k := Home(p, version)];
      CellsOk(subs', f.blocks, f.pool) && ContentsOk(subs', f.mapping, f.blocks, h, m) && ErasingOk(subs', f.blocks, m)
  {
    hide CellOf;
    var m, h := mshr[k := mshr[k].(op := Programming)], homes[k := Home(p, version)];
    assert StoredOk(subs, f.blocks, homes, k, p, Awaits(mshr, k));
    forall lp | lp in f.mapping ensures StoredOk(subs', f.blocks, h, lp, f.mapping[lp], Awaits(m, lp)) {
      if lp != k {
        assert Awaits(m, lp) == Awaits(mshr, lp);
        assert StoredOk(subs, f.blocks, homes, lp, f.mapping[lp], Awaits(mshr, lp));
      }
    }
    forall j | j in m && m[j].op == Erasing
      ensures var c := Ftl.BlockOf(PhysOf(m[j])); c in f.blocks && !f.blocks[c].erased && Blank(subs', c)
    {
      assert TargetOf(mshr[j]) in f.blocks && Blank(subs, TargetOf(mshr[j]));
    }
  }

  function TargetOf(e: Entry): Ftl.Block { Ftl.BlockOf(PhysOf(e)) }

  // ----- reads --------------------------------------------------------------------------------------

  /** A read finds the page's last PROGRAM, or nothing at a pseudo address. */
  lemma ReadFindsLatest(cfg: Config, s: State, k: nat)
    requires ContentsOk(s.subs, s.ftl.mapping, s.ftl.blocks, s.homes, s.mshr) && RegistersOk(s.subs)
    requires k in s.mshr && !s.mshr[k].isWriteOp && 0 <= s.mshr[k].sa < |s.subs|
    requires if k in s.ftl.mapping then PhysOf(s.mshr[k]) == s.ftl.mapping[k] else s.mshr[k].block >= PSEUDO_BLOCK_BIT
    ensures var e := s.mshr[k]; var sub := s.subs[e.sa];
      && Nand.Served(cfg, sub, e.block, e.offset) == Latest(s.homes, k)
      && Nand.Coherent(Nand.StartRead(cfg, sub, e.block, e.offset))
  {
    hide Nand.StartRead, Nand.Served;
    var e := s.mshr[k];
    var sub := s.subs[e.sa];
    Nand.ServedIsStored(cfg, sub, e.block, e.offset);
    if k in s.ftl.mapping {
      assert StoredOk(s.subs, s.ftl.blocks, s.homes, k, s.ftl.mapping[k], Awaits(s.mshr, k));
    } else {
      assert Nand.CellAt(sub, e.block, e.offset) == None;
    }
    Nand.ReadCoherent(cfg, sub, e.block, e.offset);
  }

  // ----- cache --------------------------------------------------------------------------------------

  lemma InsertMembers(cfg: Config, cache: seq<nat>, page: nat)
    requires Distinct(cache)
    ensures Distinct(CacheInsert(cfg, cache, page))
    ensures forall p :: p in CacheInsert(cfg, cache, page) ==> p == page || p in cache
  {
    hide Lru.Without;
    if page in cache {
      PromoteMembers(cache, page);
    } else {
      Lru.DistinctCons(page, cache);
      if |cache| > 0 { Lru.DistinctCons(page, cache[..|cache| - 1]); }
    }
  }

  lemma PromoteMembers(cache: seq<nat>, page: nat)
    requires Distinct(cache) && page in cache
    ensures Distinct([page] + Lru.Without(cache, page))
    ensures forall p :: p in [page] + Lru.Without(cache, page) <==> p in cache
  {
    hide Lru.Without;
    Lru.WithoutFacts(cache, page);
    Lru.DistinctCons(page, Lru.Without(cache, page));
  }

  // ----- log ----------------------------------------------------------------------------------------

  lemma LogRead(log: seq<MediaEvent>, e: MediaEvent, homes: Homes, subs: Subs)
    requires LogOk(log, homes, subs) && (e.ReadIssued? || e.CacheServed?)
    ensures LogOk(log + [e], homes, subs)
  {
    hide CellOf, Latest;
    var all := log + [e];
    assert all[..|all| - 1] == log;
    forall p ensures Expected(all, p) == Latest(homes, p) { assert LastProgram(all, p) == LastProgram(log, p); }
    forall p: Phys | 0 <= p.sa < |subs| ensures Rewritable(all, p) <==> CellOf(subs, p).None? { assert Rewritable(all, p) == Rewritable(log, p); }
  }

  lemma LogErase(log: seq<MediaEvent>, e: MediaEvent, homes: Homes, subs: Subs, subs': Subs)
    requires LogOk(log, homes, subs) && e.EraseIssued? && |subs'| == |subs|
    requires forall p: Phys :: CellOf(subs', p) == if Ftl.BlockOf(p) == e.target then None else CellOf(subs, p)
    ensures LogOk(log + [e], homes, subs')
  {
    hide CellOf, Latest;
    var all := log + [e];
    assert all[..|all| - 1] == log;
    forall p ensures Expected(all, p) == Latest(homes, p) { assert LastProgram(all, p) == LastProgram(log, p); }
  }

  lemma LogProgram(log: seq<MediaEvent>, e: MediaEvent, homes: Homes, subs: Subs, subs': Subs)
    requires LogOk(log, homes, subs) && e.ProgramIssued? && |subs'| == |subs|
    requires forall p: Phys :: CellOf(subs', p) == if p == e.phys then Some(Nand.Cell(e.page, e.version)) else CellOf(subs, p)
    ensures LogOk(log + [e], homes[e.page := Home(e.phys, e.version)], subs')
  {
    hide CellOf;
    var all, h := log + [e], homes[e.page := Home(e.phys, e.version)];
    assert all[..|all| - 1] == log;
    forall p ensures Expected(all, p) == Latest(h, p) {
      assert Expected(log, p) == Latest(homes, p);
      if p != e.page { assert LastProgram(all, p) == LastProgram(log, p); }
    }
  }

  lemma SameCells(subs: Subs, subs': Subs)
    requires |subs'| == |subs| && forall i :: 0 <= i < |subs| ==> subs'[i].cells == subs[i].cells
    ensures forall p: Phys :: CellOf(subs', p) == CellOf(subs, p)
  {
  }

  lemma MediaSameCells(subs: Subs, subs': Subs, f: Ftl.State, homes: Homes, mshr: Mshr, log: seq<MediaEvent>)
    requires |subs'| == |subs| && forall p: Phys :: CellOf(subs', p) == CellOf(subs, p)
    requires CellsOk(subs, f.blocks, f.pool) && ContentsOk(subs, f.mapping, f.blocks, homes, mshr)
        && ErasingOk(subs, f.blocks, mshr) && LogOk(log, homes, subs)
    ensures CellsOk(subs', f.blocks, f.pool) && ContentsOk(subs', f.mapping, f.blocks, homes, mshr)
        && ErasingOk(subs', f.blocks, mshr) && LogOk(log, homes, subs')
  {
    hide CellOf, Latest, Rewritable, Expected;
    forall lp | lp in f.mapping ensures StoredOk(subs', f.blocks, homes, lp, f.mapping[lp], Awaits(mshr, lp)) {
      assert StoredOk(subs, f.blocks, homes, lp, f.mapping[lp], Awaits(mshr, lp));
    }
    forall k | k in mshr && mshr[k].op == Erasing ensures Blank(subs', Ftl.BlockOf(PhysOf(mshr[k]))) {
      assert Blank(subs, Ftl.BlockOf(PhysOf(mshr[k])));
    }
  }
}
