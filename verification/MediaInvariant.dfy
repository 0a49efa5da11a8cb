/** The NAND discipline and freshness over every run, with the FTL enabled in HBF mode. */
module MediaInvariant {
  import opened Basics
  import opened Geometry
  import opened Controller
  import opened ControllerTables
  import opened ControllerFtl
  import opened ControllerInvariant
  import opened Media
  import Ftl
  import FtlExact
  import FtlInvariant
  import Lru
  import Nand

  /** Sections 11.2 and 11.4 of the OCP HBF specification: the host-visible media behind the FTL, without
      device-side data movement. */
  predicate HbfDevice(cfg: Config) { cfg.Valid() && cfg.ftlEnabled && Ftl.HbfMode(cfg) }

  ghost predicate Good(cfg: Config, s: State) { Disciplined(s.media) && (s.halt == Running ==> MediaOk(s)) }

  lemma InitGood(cfg: Config)
    requires HbfDevice(cfg)
    ensures Good(cfg, Init(cfg))
  {
    forall i | 0 <= i < cfg.Subarrays() { Nand.NewSubCoherent(cfg); }
  }

  /** The media invariants name only these fields. */
  lemma MediaFrame(s: State, t: State)
    requires MediaOk(s)
    requires t.subs == s.subs && t.ftl == s.ftl && t.homes == s.homes && t.mshr == s.mshr && t.cache == s.cache
        && t.cached == s.cached && t.media == s.media
    ensures MediaOk(t)
  {
    hide CellsOk, ContentsOk, ErasingOk, RegistersOk, FreshOk, CacheOk, LogOk;
  }

  lemma MediaEntries(s: State, mshr: Mshr)
    requires MediaOk(s) && mshr.Keys <= s.mshr.Keys
    requires forall k :: k in mshr ==> SameMedia(s.mshr[k], mshr[k])
    requires forall k :: k in s.mshr && k !in mshr ==> !Unprogrammed(s.mshr[k])
    ensures MediaOk(s.(mshr := mshr))
  {
    hide CellsOk, ContentsOk, ErasingOk, RegistersOk, FreshOk, CacheOk, LogOk, SameMedia, Unprogrammed;
    MediaMap(s.mshr, mshr, s.homes, s.subs, s.ftl.mapping, s.ftl.blocks);
  }

  lemma SameMediaRefl(e: Entry)
    ensures SameMedia(e, e)
  {
  }

  lemma MediaEntry(s: State, k: nat, e: Entry)
    requires MediaOk(s) && k in s.mshr && SameMedia(s.mshr[k], e)
    ensures MediaOk(s.(mshr := s.mshr[k := e]))
  {
    hide MediaOk, SameMedia, Unprogrammed;
    forall j | j in s.mshr { SameMediaRefl(s.mshr[j]); }
    MediaEntries(s, s.mshr[k := e]);
  }

  // ----- push ---------------------------------------------------------------------------------------

  lemma EnterReadGood(cfg: Config, s: State, r: Request, page: nat, ch: nat, phys: Phys)
    requires MediaOk(s) && page !in s.mshr
    ensures MediaOk(Enter(s, page, ReadEntry(cfg, s, r, page, ch, phys)))
  {
    hide CellsOk, ContentsOk, ErasingOk, RegistersOk, FreshOk, CacheOk, LogOk;
    MediaEnterRead(s.mshr, page, ReadEntry(cfg, s, r, page, ch, phys), s.homes, s.subs, s.ftl.mapping, s.ftl.blocks);
  }

  lemma NewReadGood(cfg: Config, s: State, r: Request, page: nat, ch: nat)
    requires HbfDevice(cfg) && Good(cfg, s) && s.halt == Running && page !in s.mshr && FtlOk(cfg, s.ftl)
        && ChannelOf(cfg, page) == Some(ch)
    ensures Good(cfg, NewRead(cfg, s, r, page, ch))
  {
    hide MediaOk, Disciplined, FtlOk, Ftl.TranslateRead, InChannel, ChannelOf, PseudoAddress;
    ReadAddress(cfg, s.ftl, page);
    var phys := Ftl.TranslateRead(cfg, s.ftl, page).1;
    if phys.Some? {
      assert s.(ftl := s.ftl) == s;
      EnterReadGood(cfg, s, r, page, ch, phys.value);
    }
  }

  lemma ErasingInUse(cfg: Config, mshr: Mshr, f: Ftl.State, k: nat)
    requires HbfDevice(cfg) && FtlOk(cfg, f) && PinsOk(cfg, mshr, f.mapping, f.blocks) && k in mshr && mshr[k].isWriteOp
    ensures k in f.mapping && f.mapping[k] == PhysOf(mshr[k]) && Media.InUse(f.blocks, f.pool, PhysOf(mshr[k]))
  {
    hide PseudoAddress, FtlOk;
    WriteBlockInUse(cfg, mshr, f, k);
    assert Pinned(cfg, k, mshr[k], f.mapping, f.blocks);
  }

  lemma AllMappedInUse(cfg: Config, f: Ftl.State)
    requires FtlOk(cfg, f)
    ensures forall lp :: lp in f.mapping ==> Media.InUse(f.blocks, f.pool, f.mapping[lp])
    ensures FtlInvariant.Injective(f.mapping)
    ensures forall lp :: lp in f.mapping ==> f.mapping[lp].page < f.blocks[Ftl.BlockOf(f.mapping[lp])].next && f.mapping[lp].block < PSEUDO_BLOCK_BIT
  {
    hide FtlExact.Exact, FtlInvariant.PoolsWf, FtlInvariant.CountWf, FtlInvariant.Covers, FtlInvariant.Local,
        Config.MaxBlocks, FtlInvariant.InfoWf;
    forall lp | lp in f.mapping ensures FtlInvariant.InUse(f.blocks, f.pool, f.mapping[lp]) { }
  }

  lemma EraseIsWrite(cfg: Config, mshr: Mshr, k: nat)
    requires EntriesOk(cfg, mshr) && k in mshr && mshr[k].op == Erasing
    ensures mshr[k].isWriteOp && InFlight(mshr[k])
  {
    hide InChannel, ChannelOf;
    assert EntryOk(cfg, k, mshr[k]);
  }

  lemma FlushMappedGood(cfg: Config, s: State, page: nat, ch: nat)
    requires HbfDevice(cfg) && EntriesOk(cfg, s.mshr) && FtlOk(cfg, s.ftl) && PinsOk(cfg, s.mshr, s.ftl.mapping, s.ftl.blocks)
    requires Good(cfg, s) && s.halt == Running && page in s.buffer && page !in s.mshr && ChannelOf(cfg, page) == Some(ch)
    ensures Good(cfg, FlushMapped(cfg, s, page, ch))
  {
    hide EntriesOk, FtlOk, PinsOk, Disciplined, CellsOk, ContentsOk, ErasingOk, RegistersOk, FreshOk, CacheOk, LogOk,
        ChannelOf, InChannel,
         Ftl.TranslateWrite, AddWrite, FtlExact.WriteEffect, FtlInvariant.Unmapped, Media.InUse, Config.Valid,
             FtlInvariant.Injective, RequestedBytes;
    FlushFtl(cfg, s.ftl, page);
    TranslateFacts(cfg, s.ftl, page);
    PinsWrite(cfg, s.mshr, s.ftl, page);
    var (g, phys) := Ftl.TranslateWrite(cfg, s.ftl, page);
    if phys.Some? {
      var p := phys.value;
      var e := WriteEntry(s.buffer[page], page, ch, p);
      AllMappedInUse(cfg, s.ftl);
      AllMappedInUse(cfg, g);
      forall k | k in s.mshr && s.mshr[k].op == Erasing
        ensures Media.InUse(s.ftl.blocks, s.ftl.pool, PhysOf(s.mshr[k])) && Media.InUse(g.blocks, g.pool, PhysOf(s.mshr[k]))
      {
        EraseIsWrite(cfg, s.mshr, k);
        ErasingInUse(cfg, s.mshr, s.ftl, k);
        ErasingInUse(cfg, s.mshr, g, k);
      }
      MediaWriteCells(s.ftl, g, p, s.subs);
      MediaWriteContents(s.ftl, g, page, p, s.subs, s.homes, s.mshr, e);
      MediaWriteErasing(s.ftl, g, page, p, s.subs, s.mshr, e);
      FreshWrite(s.mshr, page, e, s.homes);
    }
  }

  lemma TranslateFacts(cfg: Config, f: Ftl.State, page: nat)
    requires HbfDevice(cfg) && FtlOk(cfg, f)
    ensures var (g, p) := Ftl.TranslateWrite(cfg, f, page);
      p.Some? ==> FtlExact.WriteEffect(f, g, p.value) && g.mapping == f.mapping[page := p.value] && FtlInvariant.Unmapped(f.mapping, p.value)
  {
    hide FtlInvariant.Wf, FtlExact.Exact, Ftl.TranslateWrite, FtlExact.WriteEffect, FtlInvariant.Unmapped;
    FtlExact.TranslateWriteExact(cfg, f, page);
    FtlExact.TranslateWriteEffect(cfg, f, page);
  }

  lemma FreshWrite(mshr: Mshr, k: nat, e: Entry, homes: Homes)
    requires FreshOk(mshr, homes) && e.isWriteOp
    ensures FreshOk(mshr[k := e], homes)
  {
    hide Latest;
  }

  lemma FlushGood(cfg: Config, s: State, page: nat, force: bool)
    requires HbfDevice(cfg) && Inv(cfg, s) && Good(cfg, s)
    ensures Good(cfg, Flush(cfg, s, page, force))
  {
    hide Disciplined, MediaOk, FlushMapped, ChannelOf, Config.Valid;
    if s.halt == Running && page in s.buffer {
      TablesParts(cfg, s);
      BufferedPage(cfg, s, page);
      hide Tables, EntriesOk, FtlOk, PinsOk;
      var ch := ChannelOf(cfg, page).value;
      if page !in s.mshr { FlushMappedGood(cfg, s, page, ch); }
      if s.buffer[page].requests == [] { MediaFrame(s, s.(buffer := s.buffer - {page})); }
    }
  }

  lemma TablesParts(cfg: Config, s: State)
    requires Tables(cfg, s)
    ensures EntriesOk(cfg, s.mshr) && FtlOk(cfg, s.ftl) && PinsOk(cfg, s.mshr, s.ftl.mapping, s.ftl.blocks)
    ensures ActiveOk(cfg, s.mshr, s.subs, s.active) && QueueOk(s.mshr, s.queue)
  {
    hide EntriesOk, QueueOk, ActiveOk, BufferOk, CreditOk, WritesOk, FtlOk, PinsOk;
  }

  lemma {:induction false} FlushEachGood(cfg: Config, s: State, pages: seq<nat>)
    requires HbfDevice(cfg) && Inv(cfg, s) && Good(cfg, s)
    ensures Good(cfg, FlushEach(cfg, s, pages))
    decreases |pages|
  {
    hide Inv, Good, Flush;
    if pages != [] {
      FlushInv(cfg, s, pages[0], false);
      FlushGood(cfg, s, pages[0], false);
      FlushEachGood(cfg, Flush(cfg, s, pages[0], false), pages[1..]);
    }
  }

  lemma {:induction false} FlushOverdueGood(cfg: Config, s: State, pages: seq<nat>)
    requires HbfDevice(cfg) && Inv(cfg, s) && Good(cfg, s)
    ensures Good(cfg, FlushOverdue(cfg, s, pages))
    decreases |pages|
  {
    hide Inv, Good, Flush, Overdue;
    if pages != [] {
      FlushInv(cfg, s, pages[0], false);
      FlushGood(cfg, s, pages[0], false);
      FlushOverdueGood(cfg, if Overdue(cfg, s, pages[0]) then Flush(cfg, s, pages[0], false) else s, pages[1..]);
    }
  }

  lemma PushWriteGood(cfg: Config, s: State, r: Request, page: nat)
    requires HbfDevice(cfg) && Tables(cfg, s) && Good(cfg, s) && s.halt == Running && r.isWrite && page == cfg.PageOf(r.addr)
    requires ChannelOf(cfg, page).Some? && s.pushed != [] && Last(s.pushed) == r
    ensures Good(cfg, PushWrite(cfg, s, r, page))
  {
    hide Tables, Disciplined, MediaOk, Coverage, ChannelOf, Flush, FlushEach, AddToBuffer;
    if Coverage(cfg, page, r).Some? {
      var bytes := Coverage(cfg, page, r).value;
      CoverageInPage(cfg, page, r);
      AddToBufferInv(cfg, s, r, page, bytes);
      var t := AddToBuffer(s, r, page, bytes);
      AddToBufferGood(cfg, s, r, page, bytes);
      FlushGood(cfg, t, page, false);
      FlushEachGood(cfg, t, SortedKeys(t.buffer.Keys));
    }
  }

  lemma AddToBufferGood(cfg: Config, s: State, r: Request, page: nat, bytes: set<nat>)
    requires Good(cfg, s)
    ensures Good(cfg, AddToBuffer(s, r, page, bytes))
  {
    hide MediaOk, Disciplined;
    if s.halt == Running { MediaFrame(s, AddToBuffer(s, r, page, bytes)); }
  }

  lemma AttachedMedia(cfg: Config, e: Entry, r: Request)
    ensures SameMedia(e, Attached(e, r)) && SameMedia(e, Coalesced(cfg, e, r))
  {
  }

  lemma PushReadGood(cfg: Config, s: State, r: Request, page: nat, ch: nat)
    requires HbfDevice(cfg) && Tables(cfg, s) && Good(cfg, s) && s.halt == Running && ChannelOf(cfg, page) == Some(ch)
    requires s.pushed != [] && Last(s.pushed) == r
    ensures Good(cfg, PushRead(cfg, s, r, page, ch))
  {
    hide Tables, Disciplined, MediaOk, ChannelOf, Flush, NewRead, Attached, Coalesced, SameMedia, Config.Valid, Coverage;
    FlushInv(cfg, s, page, true);
    FlushGood(cfg, s, page, true);
    var t := if page in s.buffer then Flush(cfg, s, page, true) else s;
    if t.halt == Running {
      if page in t.mshr {
        var e := t.mshr[page];
        AttachedMedia(cfg, e, r);
        MediaEntry(t, page, Attached(e, r));
        MediaEntry(t, page, Coalesced(cfg, e, r));
      } else {
        TablesFtl(cfg, t);
        NewReadGood(cfg, t, r, page, ch);
      }
    }
  }

  lemma PushGood(cfg: Config, s: State, r: Request)
    requires HbfDevice(cfg) && Inv(cfg, s) && Good(cfg, s)
    ensures Good(cfg, Push(cfg, s, r))
  {
    hide Disciplined, MediaOk, PushWrite, PushRead, ChannelOf, Config.Valid, Coverage, Tables;
    if s.halt == Running {
      var page := cfg.PageOf(r.addr);
      var t := s.(pushed := s.pushed + [r]);
      MediaFrame(s, t);
      TablesReturnq(cfg, s);
      TablesReturn(cfg, s, t);
      if ChannelOf(cfg, page).Some? {
        if r.isWrite { PushWriteGood(cfg, t, r, page); } else { PushReadGood(cfg, t, r, page, ChannelOf(cfg, page).value); }
      }
    }
  }

  // ----- cycle --------------------------------------------------------------------------------------

  lemma BeginTickGood(cfg: Config, s: State)
    requires MediaOk(s)
    ensures MediaOk(BeginTick(cfg, s))
  {
    hide MediaOk, SameMedia, Released;
    var t := BeginTick(cfg, s);
    forall k | k in s.mshr ensures SameMedia(s.mshr[k], t.mshr[k]) { ReleasedMedia(cfg, t.tick, s.mshr[k]); }
    MediaEntries(s, t.mshr);
    MediaFrame(s.(mshr := t.mshr), t);
  }

  lemma ReleasedMedia(cfg: Config, tick: nat, e: Entry)
    ensures SameMedia(e, Released(cfg, tick, e))
  {
  }

  lemma MaturedMedia(tick: nat, e: Entry)
    ensures SameMedia(e, Matured(tick, e))
  {
  }

  lemma ReadyHitsGood(s: State)
    requires MediaOk(s)
    ensures MediaOk(ReadyHits(s))
  {
    hide MediaOk, SameMedia, Matured;
    var t := ReadyHits(s);
    forall k | k in s.mshr ensures SameMedia(s.mshr[k], t.mshr[k]) { MaturedMedia(s.tick, s.mshr[k]); }
    MediaEntries(s, t.mshr);
  }

  lemma AdvanceRegisters(subs: Subs, sa: nat)
    requires RegistersOk(subs) && sa < |subs|
    ensures RegistersOk(subs[sa := Nand.Advance(subs[sa])])
  {
    Nand.AdvanceCoherent(subs[sa]);
    hide Nand.Coherent, Nand.Advance;
  }

  lemma AdvanceSubGood(s: State, sa: nat, active: set<nat>)
    requires MediaOk(s) && sa < |s.subs|
    ensures MediaOk(s.(subs := s.subs[sa := Nand.Advance(s.subs[sa])], active := active))
  {
    hide CellsOk, ContentsOk, ErasingOk, RegistersOk, FreshOk, CacheOk, LogOk, CellOf;
    AdvanceRegisters(s.subs, sa);
    var subs := s.subs[sa := Nand.Advance(s.subs[sa])];
    SameCells(s.subs, subs);
    MediaSameCells(s.subs, subs, s.ftl, s.homes, s.mshr, s.media);
  }

  lemma FinishedMedia(e: Entry)
    requires InFlight(e) && e.op != Erasing
    ensures SameMedia(e, Finished(e))
  {
  }

  lemma EraseFinishFtl(cfg: Config, s: State, k: nat)
    requires HbfDevice(cfg) && FtlOk(cfg, s.ftl) && PinsOk(cfg, s.mshr, s.ftl.mapping, s.ftl.blocks) && k in s.mshr
        && s.mshr[k].isWriteOp
    ensures var b := Ftl.BlockOf(PhysOf(s.mshr[k]));
      b in s.ftl.blocks && Ftl.MarkErased(s.ftl,
          b) == s.ftl.(blocks := s.ftl.blocks[b := s.ftl.blocks[b].(erased := true,
          erases := s.ftl.blocks[b].erases + 1)])
  {
    hide FtlOk, PinsOk;
    WriteBlockInUse(cfg, s.mshr, s.ftl, k);
  }

  lemma OneEraser(cfg: Config, mshr: Mshr, subs: Subs, active: set<nat>, k: nat)
    requires EntriesOk(cfg, mshr) && FlightOk(mshr, subs, active) && k in mshr && mshr[k].op == Erasing
    ensures forall j :: j in mshr && mshr[j].op == Erasing && Ftl.BlockOf(PhysOf(mshr[j])) == Ftl.BlockOf(PhysOf(mshr[k])) ==> j == k
  {
    hide EntriesOk;
    forall j | j in mshr && mshr[j].op == Erasing { EraseIsWrite(cfg, mshr, j); }
  }

  lemma EraseFinishGood(cfg: Config, s: State, k: nat)
    requires HbfDevice(cfg) && MediaOk(s) && k in s.mshr && s.mshr[k].op == Erasing
    requires EntriesOk(cfg, s.mshr) && FtlOk(cfg, s.ftl) && PinsOk(cfg, s.mshr, s.ftl.mapping, s.ftl.blocks)
    requires forall j :: j in s.mshr && s.mshr[j].op == Erasing && Ftl.BlockOf(PhysOf(s.mshr[j])) == Ftl.BlockOf(PhysOf(s.mshr[k])) ==> j == k
    ensures MediaOk(Finish(cfg, s, k))
  {
    hide CellsOk, ContentsOk, ErasingOk, RegistersOk, FreshOk, CacheOk, LogOk, EntriesOk, FtlOk, PinsOk, Ftl.MarkErased,
        Config.Valid, Queued;
    var e := s.mshr[k];
    EraseIsWrite(cfg, s.mshr, k);
    EraseFinishFtl(cfg, s, k);
    var b := Ftl.BlockOf(PhysOf(e));
    var info := s.ftl.blocks[b].(erased := true, erases := s.ftl.blocks[b].erases + 1);
    MediaErased(s.subs, s.ftl, b, info, s.homes, s.mshr, k, Finished(e));
    FreshWrite(s.mshr, k, Finished(e), s.homes);
  }

  lemma FinishGood(cfg: Config, s: State, k: nat)
    requires HbfDevice(cfg) && MediaOk(s) && k in s.mshr && InFlight(s.mshr[k])
    requires EntriesOk(cfg, s.mshr) && FtlOk(cfg, s.ftl) && PinsOk(cfg, s.mshr, s.ftl.mapping, s.ftl.blocks)
    requires s.mshr[k].op == Erasing ==>
      forall j :: j in s.mshr && s.mshr[j].op == Erasing && Ftl.BlockOf(PhysOf(s.mshr[j])) == Ftl.BlockOf(PhysOf(s.mshr[k])) ==> j == k
    ensures MediaOk(Finish(cfg, s, k)) && Finish(cfg, s, k).media == s.media
  {
    hide MediaOk, EntriesOk, FtlOk, PinsOk, SameMedia, Ftl.MarkErased, Config.Valid;
    if s.mshr[k].op == Erasing {
      EraseFinishGood(cfg, s, k);
    } else {
      var e := s.mshr[k];
      FinishedMedia(e);
      MediaEntry(s, k, Finished(e));
      MediaFrame(s.(mshr := s.mshr[k := Finished(e)]), Finish(cfg, s, k));
    }
  }

  lemma AdvanceOneGood(cfg: Config, s: State, sa: nat)
    requires HbfDevice(cfg) && Tables(cfg, s) && MediaOk(s)
    ensures MediaOk(AdvanceOne(cfg, s, sa)) && AdvanceOne(cfg, s, sa).media == s.media
  {
    hide MediaOk, Finish, EntriesOk, FtlOk, PinsOk, QueueOk, FlightOk, BufferOk, CreditOk, WritesOk, BusyOk,
        Nand.Advance, Config.Valid;
    if sa < |s.subs| {
      var sub := Nand.Advance(s.subs[sa]);
      AdvanceSubGood(s, sa, s.active);
      AdvanceSubGood(s, sa, s.active - {sa});
      var done := Serving(s.mshr, sa);
      if sub.phase == Nand.Idle && done != {} {
        var k := MinOf(done);
        var u := s.(subs := s.subs[sa := sub], active := s.active - {sa});
        if s.mshr[k].op == Erasing { OneEraser(cfg, s.mshr, s.subs, s.active, k); }
        FinishGood(cfg, u, k);
      }
    }
  }

  lemma {:induction false} AdvanceEachGood(cfg: Config, s: State, sas: seq<nat>)
    requires HbfDevice(cfg) && Tables(cfg, s) && s.halt == Running && MediaOk(s)
    ensures MediaOk(AdvanceEach(cfg, s, sas)) && AdvanceEach(cfg, s, sas).media == s.media
    decreases |sas|
  {
    hide Tables, MediaOk, AdvanceOne, Config.Valid;
    if sas != [] {
      AdvanceOneInv(cfg, s, sas[0]);
      AdvanceOneGood(cfg, s, sas[0]);
      AdvanceEachGood(cfg, AdvanceOne(cfg, s, sas[0]), sas[1..]);
    }
  }

  // Delivery: only finished reads fill the cache, with the page's last PROGRAM.

  lemma FillIsFresh(cfg: Config, s: State, k: nat)
    requires EntriesOk(cfg, s.mshr) && FreshOk(s.mshr, s.homes) && k in s.mshr && s.mshr[k].fillCache
    ensures s.mshr[k].page == k && s.mshr[k].data == Latest(s.homes, k)
  {
    hide InChannel, ChannelOf, Latest;
    assert EntryOk(cfg, k, s.mshr[k]);
  }

  lemma CacheFill(cfg: Config, cache: seq<nat>, cached: map<nat, Option<Nand.Cell>>, homes: Homes, page: nat)
    requires CacheOk(cache, cached, homes)
    ensures CacheOk(CacheInsert(cfg, cache, page), cached[page := Latest(homes, page)], homes)
  {
    hide Latest, CacheInsert;
    InsertMembers(cfg, cache, page);
  }

  lemma PageIsKey(cfg: Config, s: State, k: nat)
    requires EntriesOk(cfg, s.mshr) && k in s.mshr
    ensures s.mshr[k].page == k
    ensures s.mshr[k].delivering ==> !Unprogrammed(s.mshr[k])
  {
    hide InChannel, ChannelOf;
    assert EntryOk(cfg, k, s.mshr[k]);
  }

  lemma DeliverCacheGood(cfg: Config, s: State, k: nat)
    requires EntriesOk(cfg, s.mshr) && MediaOk(s) && k in s.mshr && s.mshr[k].fillCache
    ensures MediaOk(s.(cache := CacheInsert(cfg, s.cache, k), cached := s.cached[k := s.mshr[k].data]))
  {
    hide EntriesOk, CellsOk, ContentsOk, ErasingOk, RegistersOk, FreshOk, CacheOk, LogOk, CacheInsert, Latest;
    FillIsFresh(cfg, s, k);
    CacheFill(cfg, s.cache, s.cached, s.homes, k);
  }

  lemma DeliveredMedia(e: Entry, rest: seq<Request>, fill: bool)
    ensures SameMedia(e, e.(pending := rest, fillCache := fill))
  {
  }

  lemma DeliverOneGood(cfg: Config, s: State, k: nat)
    requires EntriesOk(cfg, s.mshr) && MediaOk(s)
    ensures MediaOk(DeliverOne(cfg, s, k)) && DeliverOne(cfg, s, k).media == s.media
  {
    hide EntriesOk, MediaOk, Affordable, CacheInsert, SameMedia, Unprogrammed, LinkBytes;
    if !(k !in s.mshr || !s.mshr[k].delivering || |s.returnq| >= cfg.returnCapacity || s.mshr[k].channel >= |s.channels|) {
      var t := DeliverOne(cfg, s, k);
      PageIsKey(cfg, s, k);
      if s.mshr[k].fillCache { DeliverCacheGood(cfg, s, k); }
      var u := s.(cache := t.cache, cached := t.cached);
      assert MediaOk(u);
      if k in t.mshr {
        DeliveredMedia(s.mshr[k], t.mshr[k].pending, t.mshr[k].fillCache);
        MediaEntry(u, k, t.mshr[k]);
      } else {
        forall j | j in t.mshr { SameMediaRefl(s.mshr[j]); }
        MediaEntries(u, t.mshr);
      }
      MediaFrame(u.(mshr := t.mshr), t);
    }
  }

  lemma {:induction false} DeliverEachGood(cfg: Config, s: State, keys: seq<nat>)
    requires Tables(cfg, s) && MediaOk(s)
    ensures MediaOk(DeliverEach(cfg, s, keys)) && DeliverEach(cfg, s, keys).media == s.media
    decreases |keys|
  {
    hide MediaOk, DeliverOne, EntriesOk, QueueOk, ActiveOk, BufferOk, CreditOk, WritesOk, FtlOk, PinsOk;
    if keys != [] {
      DeliverOneInv(cfg, s, keys[0]);
      DeliverOneGood(cfg, s, keys[0]);
      DeliverEachGood(cfg, DeliverOne(cfg, s, keys[0]), keys[1..]);
    }
  }

  lemma MediaHalfGood(cfg: Config, s: State)
    requires HbfDevice(cfg) && Tables(cfg, s) && s.halt == Running && MediaOk(s)
    ensures MediaOk(MediaHalf(cfg, s)) && MediaHalf(cfg, s).media == s.media
  {
    hide Tables, MediaOk, AdvanceEach, DeliverEach, BeginTick, ReadyHits, DrainWindow, Config.Valid;
    var s1 := BeginTick(cfg, s);
    BeginTickInv(cfg, s);
    BeginTickKeeps(cfg, s);
    BeginTickGood(cfg, s);
    var s2 := AdvanceEach(cfg, s1, SortedKeys(s1.active));
    AdvanceEachInv(cfg, s1, SortedKeys(s1.active));
    AdvanceEachGood(cfg, s1, SortedKeys(s1.active));
    var s3 := ReadyHits(s2);
    ReadyHitsInv(cfg, s2);
    ReadyHitsGood(s2);
    var s4 := DeliverEach(cfg, s3, SortedKeys(s3.mshr.Keys));
    DeliverEachGood(cfg, s3, SortedKeys(s3.mshr.Keys));
    MediaFrame(s4, DrainWindow(cfg, s4)) by { DrainWindowFrame(cfg, s4); }
    DrainWindowFrame(cfg, s4);
    StepLogs(cfg, s, s2);
  }

  lemma StepLogs(cfg: Config, s: State, u: State)
    ensures BeginTick(cfg, s).media == s.media && ReadyHits(u).media == u.media
  {
  }

  lemma DrainWindowFrame(cfg: Config, s: State)
    ensures var t := DrainWindow(cfg, s);
      t.subs == s.subs && t.ftl == s.ftl && t.homes == s.homes && t.mshr == s.mshr && t.cache == s.cache
          && t.cached == s.cached && t.media == s.media
  {
    hide UpdateDrain, CountWrites;
  }

  // ----- scheduling ---------------------------------------------------------------------------------

  /** What StartRead and StartWrite may assume of the chosen entry. */
  lemma ChosenEntry(cfg: Config, s: State, i: nat)
    requires HbfDevice(cfg) && Tables(cfg, s) && i < |s.queue| && Candidate(s, s.queue[i])
    ensures var k := s.queue[i]; var e := s.mshr[k];
      && e.page == k && Queued(e) && (IsRead(s, k) <==> !e.isWriteOp)
      && (if k in s.ftl.mapping then PhysOf(e) == s.ftl.mapping[k] else !e.isWriteOp && e.block >= PSEUDO_BLOCK_BIT)
      && (e.isWriteOp ==> Media.InUse(s.ftl.blocks, s.ftl.pool, PhysOf(e)) && e.block < PSEUDO_BLOCK_BIT && e.offset < s.ftl.blocks[Ftl.BlockOf(PhysOf(e))].next)
      && FtlInvariant.Injective(s.ftl.mapping)
  {
    hide EntriesOk, FtlOk, PinsOk, ActiveOk, QueueOk, Tables, FtlInvariant.Injective, Media.InUse, PseudoAddress;
    TablesParts(cfg, s);
    CandidateKind(cfg, s, i);
    PageIsKey(cfg, s, s.queue[i]);
    AllMappedInUse(cfg, s.ftl);
    PinOf(cfg, s.mshr, s.ftl, s.queue[i]);
  }

  lemma PinOf(cfg: Config, mshr: Mshr, f: Ftl.State, k: nat)
    requires HbfDevice(cfg) && PinsOk(cfg, mshr, f.mapping, f.blocks) && k in mshr
    ensures if k in f.mapping then PhysOf(mshr[k]) == f.mapping[k] else !mshr[k].isWriteOp && mshr[k].block >= PSEUDO_BLOCK_BIT
  {
    hide PseudoAddress, Config.Valid;
    assert Pinned(cfg, k, mshr[k], f.mapping, f.blocks);
    if k !in f.mapping { PseudoIsHigh(cfg, k); }
  }

  lemma PseudoIsHigh(cfg: Config, page: nat)
    ensures PseudoAddress(cfg, page).Some? ==> PseudoAddress(cfg, page).value.block >= PSEUDO_BLOCK_BIT
  {
    hide Preferred;
  }

  lemma FreshIssue(mshr: Mshr, k: nat, e: Entry, homes: Homes)
    requires FreshOk(mshr, homes) && !e.isWriteOp && e.data == Latest(homes, k)
    ensures FreshOk(mshr[k := e], homes)
  {
    hide Latest;
  }

  /** A read changes no classification of writes. */
  lemma ReadIssueContents(mshr: Mshr, k: nat, e: Entry, homes: Homes, subs: Subs, mapping: map<nat, Phys>, blocks: Blocks)
    requires ContentsOk(subs, mapping, blocks, homes, mshr) && ErasingOk(subs, blocks, mshr) && k in mshr
    requires !mshr[k].isWriteOp && !e.isWriteOp && e.op != Erasing
    ensures ContentsOk(subs, mapping, blocks, homes, mshr[k := e]) && ErasingOk(subs, blocks, mshr[k := e])
  {
    hide StoredOk, Blank;
    forall lp | lp in mapping ensures StoredOk(subs, blocks, homes, lp, mapping[lp], Awaits(mshr[k := e], lp)) {
      assert Awaits(mshr[k := e], lp) == Awaits(mshr, lp);
    }
  }

  lemma StartHitGood(cfg: Config, s: State, i: nat)
    requires HbfDevice(cfg) && Tables(cfg, s) && MediaOk(s) && Disciplined(s.media) && i < |s.queue|
    requires Candidate(s, s.queue[i]) && IsRead(s, s.queue[i]) && cfg.cacheEntries > 0 && s.mshr[s.queue[i]].page in s.cache
    ensures MediaOk(Start(cfg, s, i)) && Disciplined(Start(cfg, s, i).media)
  {
    hide Tables, CellsOk, ContentsOk, ErasingOk, RegistersOk, FreshOk, LogOk, Disciplined, Latest, Expected, Lru.Without,
        Media.InUse, FtlInvariant.Injective, Config.Valid, Distinct;
    ChosenEntry(cfg, s, i);
    var k := s.queue[i];
    var t := Start(cfg, s, i);
    PromoteMembers(s.cache, k);
    ReadIssueContents(s.mshr, k, t.mshr[k], s.homes, s.subs, s.ftl.mapping, s.ftl.blocks);
    FreshIssue(s.mshr, k, t.mshr[k], s.homes);
    var e := CacheServed(k, s.cached[k]);
    LogRead(s.media, e, s.homes, s.subs);
    LogExpects(s.media, s.homes, s.subs, k);
    DisciplinedAppend(s.media, e);
  }

  lemma LogExpects(log: seq<MediaEvent>, homes: Homes, subs: Subs, page: nat)
    requires LogOk(log, homes, subs)
    ensures Expected(log, page) == Latest(homes, page)
  {
    hide Expected, Latest, Rewritable, CellOf;
  }

  lemma LogRewritable(log: seq<MediaEvent>, homes: Homes, subs: Subs, p: Phys)
    requires LogOk(log, homes, subs) && 0 <= p.sa < |subs| && CellOf(subs, p).None?
    ensures Rewritable(log, p) && Nand.Address(p.block, p.page) !in subs[p.sa].cells
  {
    assert CellOf(subs, p).None?;
    hide Expected, Latest, Rewritable, CellOf;
  }

  lemma RegistersUpdate(subs: Subs, sa: nat, sub: Nand.Sub)
    requires RegistersOk(subs) && sa < |subs| && Nand.Coherent(sub)
    ensures RegistersOk(subs[sa := sub])
  {
    hide Nand.Coherent;
  }

  lemma StartMissGood(cfg: Config, s: State, i: nat)
    requires HbfDevice(cfg) && Tables(cfg, s) && MediaOk(s) && Disciplined(s.media) && i < |s.queue|
    requires Candidate(s, s.queue[i]) && IsRead(s, s.queue[i]) && !(cfg.cacheEntries > 0 && s.mshr[s.queue[i]].page in s.cache)
    ensures MediaOk(Start(cfg, s, i)) && Disciplined(Start(cfg, s, i).media)
  {
    hide Tables, CellsOk, ContentsOk, ErasingOk, RegistersOk, FreshOk, CacheOk, LogOk, Disciplined, Latest, Expected,
        Media.InUse, FtlInvariant.Injective, Config.Valid,
         Nand.Served, Nand.StartRead, Nand.Coherent, CellOf;
    ChosenEntry(cfg, s, i);
    var k := s.queue[i];
    var e := s.mshr[k];
    ReadFindsLatest(cfg, s, k);
    var t := Start(cfg, s, i);
    StartReadCells(cfg, s.subs[e.sa], e.block, e.offset);
    SameCells(s.subs, t.subs);
    MediaSameCells(s.subs, t.subs, s.ftl, s.homes, s.mshr, s.media);
    RegistersUpdate(s.subs, e.sa, t.subs[e.sa]);
    ReadIssueContents(s.mshr, k, t.mshr[k], s.homes, t.subs, s.ftl.mapping, s.ftl.blocks);
    FreshIssue(s.mshr, k, t.mshr[k], s.homes);
    var ev := ReadIssued(k, PhysOf(e), t.mshr[k].data);
    LogRead(s.media, ev, s.homes, t.subs);
    LogExpects(s.media, s.homes, s.subs, k);
    DisciplinedAppend(s.media, ev);
  }

  lemma StartReadCells(cfg: Config, sub: Nand.Sub, block: nat, page: nat)
    ensures Nand.StartRead(cfg, sub, block, page).cells == sub.cells
  {
    hide Nand.Hit;
  }

  lemma CacheWithout(cache: seq<nat>, cached: map<nat, Option<Nand.Cell>>, homes: Homes, page: nat, h: Home)
    requires CacheOk(cache, cached, homes)
    ensures CacheOk(Lru.Without(cache, page), cached, homes) && CacheOk(Lru.Without(cache, page), cached, homes[page := h])
  {
    hide Lru.Without, Distinct;
    Lru.WithoutFacts(cache, page);
  }

  lemma FreshProgram(mshr: Mshr, k: nat, e: Entry, homes: Homes, h: Home)
    requires FreshOk(mshr, homes) && e.isWriteOp
    ensures FreshOk(mshr[k := e], homes[k := h])
  {
  }

  lemma StartEraseGood(cfg: Config, s: State, i: nat)
    requires HbfDevice(cfg) && Tables(cfg, s) && MediaOk(s) && Disciplined(s.media) && i < |s.queue|
    requires Candidate(s, s.queue[i]) && !IsRead(s, s.queue[i]) && !Ftl.IsErased(s.ftl, Ftl.BlockOf(PhysOf(s.mshr[s.queue[i]])))
    ensures MediaOk(Start(cfg, s, i)) && Disciplined(Start(cfg, s, i).media)
  {
    hide Tables, CellsOk, ContentsOk, ErasingOk, RegistersOk, FreshOk, CacheOk, LogOk, Disciplined, Latest, Expected,
        FtlInvariant.Injective, Config.Valid,
         Nand.StartErase, Nand.Coherent, CellOf, Lru.Without, Stored, Rewritable;
    ChosenEntry(cfg, s, i);
    var k := s.queue[i];
    var e := s.mshr[k];
    var b := Ftl.BlockOf(PhysOf(e));
    var t := Start(cfg, s, i);
    StartEraseCells(cfg, s.subs, b);
    NothingLost(s, b);
    StoredFrame(s, s.(queue := t.queue, readDue := t.readDue, cache := t.cache, active := t.active), b);
    MediaStartErase(s.subs, t.subs, s.ftl, b, s.homes, s.mshr, k);
    EraseRegisters(cfg, s.subs, e.sa, e.block);
    CacheWithout(s.cache, s.cached, s.homes, k, Home(PhysOf(e), 0));
    FreshWrite(s.mshr, k, t.mshr[k], s.homes);
    var ev := EraseIssued(k, b, {});
    LogErase(s.media, ev, s.homes, s.subs, t.subs);
    DisciplinedAppend(s.media, ev);
  }

  lemma StoredFrame(s: State, t: State, b: Ftl.Block)
    requires t.ftl == s.ftl && t.homes == s.homes
    ensures Stored(t, b) == Stored(s, b)
  {
  }

  lemma EraseRegisters(cfg: Config, subs: Subs, sa: nat, block: nat)
    requires RegistersOk(subs) && sa < |subs| && block < PSEUDO_BLOCK_BIT
    ensures RegistersOk(subs[sa := Nand.StartErase(cfg, subs[sa], block)])
  {
    hide Nand.Coherent, Nand.StartErase;
    Nand.EraseCoherent(cfg, subs[sa], block);
  }

  lemma ProgramRegisters(cfg: Config, subs: Subs, sa: nat, block: nat, page: nat, cell: Nand.Cell)
    requires RegistersOk(subs) && sa < |subs| && block < PSEUDO_BLOCK_BIT && Nand.Address(block, page) !in subs[sa].cells
    ensures RegistersOk(subs[sa := Nand.StartProgram(cfg, subs[sa], block, page, cell)])
  {
    hide Nand.Coherent, Nand.StartProgram;
    Nand.ProgramCoherent(cfg, subs[sa], block, page, cell);
  }

  lemma StartProgramGood(cfg: Config, s: State, i: nat)
    requires HbfDevice(cfg) && Tables(cfg, s) && MediaOk(s) && Disciplined(s.media) && i < |s.queue|
    requires Candidate(s, s.queue[i]) && !IsRead(s, s.queue[i]) && Ftl.IsErased(s.ftl, Ftl.BlockOf(PhysOf(s.mshr[s.queue[i]])))
    ensures MediaOk(Start(cfg, s, i)) && Disciplined(Start(cfg, s, i).media)
  {
    hide Tables, CellsOk, ContentsOk, ErasingOk, RegistersOk, FreshOk, CacheOk, LogOk, Disciplined, Latest, Expected,
        FtlInvariant.Injective, Config.Valid,
         Nand.StartProgram, Nand.Coherent, CellOf, Lru.Without, Rewritable, Padding;
    ChosenEntry(cfg, s, i);
    var k := s.queue[i];
    var e := s.mshr[k];
    var p := PhysOf(e);
    var t := Start(cfg, s, i);
    var cell := Nand.Cell(k, t.programs);
    StartProgramCells(cfg, s.subs, p, cell);
    MediaStartProgram(s.subs, t.subs, s.ftl, p, s.homes, s.mshr, k, t.programs);
    LogRewritable(s.media, s.homes, s.subs, p);
    ProgramRegisters(cfg, s.subs, e.sa, e.block, e.offset, cell);
    CacheWithout(s.cache, s.cached, s.homes, k, Home(p, t.programs));
    FreshProgram(s.mshr, k, t.mshr[k], s.homes, Home(p, t.programs));
    var ev := ProgramIssued(k, p, e.covered, t.programs, true);
    LogProgram(s.media, ev, s.homes, s.subs, t.subs);
    DisciplinedAppend(s.media, ev);
  }

  lemma StartGood(cfg: Config, s: State, i: nat)
    requires HbfDevice(cfg) && Tables(cfg, s) && MediaOk(s) && Disciplined(s.media) && i < |s.queue| && Candidate(s, s.queue[i])
    ensures MediaOk(Start(cfg, s, i)) && Disciplined(Start(cfg, s, i).media)
  {
    hide Tables, MediaOk, Disciplined, Start, Candidate, Config.Valid, Ftl.IsErased, IsRead;
    var k := s.queue[i];
    KeyKnown(s, k);
    if IsRead(s, k) {
      if cfg.cacheEntries > 0 && s.mshr[k].page in s.cache { StartHitGood(cfg, s, i); } else { StartMissGood(cfg, s, i); }
    } else {
      if Ftl.IsErased(s.ftl, Ftl.BlockOf(PhysOf(s.mshr[k]))) { StartProgramGood(cfg, s, i); } else { StartEraseGood(cfg, s, i); }
    }
  }

  /** An ERASE (or any other operation) starts only on a sub-array with nothing in flight: no read of
      the block can be under way. */
  lemma StartsAlone(cfg: Config, s: State, i: nat)
    requires Tables(cfg, s) && i < |s.queue| && Candidate(s, s.queue[i])
    ensures forall j :: j in s.mshr && InFlight(s.mshr[j]) ==> s.mshr[j].sa != s.mshr[s.queue[i]].sa
  {
    hide EntriesOk, QueueOk, BufferOk, CreditOk, WritesOk, FtlOk, PinsOk;
  }

  lemma KeyKnown(s: State, k: nat)
    requires Candidate(s, k)
    ensures k in s.mshr
  {
  }

  lemma {:induction false} ScheduleUpToGood(cfg: Config, s: State, budget: nat)
    requires HbfDevice(cfg) && Tables(cfg, s) && s.halt == Running && s.tick > 0 && MediaOk(s) && Disciplined(s.media)
    ensures var t := ScheduleUpTo(cfg, s, budget); MediaOk(t) && Disciplined(t.media)
    decreases budget
  {
    hide Tables, MediaOk, Disciplined, Start, Pick, Misplaced, Candidate, PrefersReads, Config.Valid;
    NothingMisplaced(cfg, s);
    if budget != 0 && |s.active| < cfg.MaxActive() {
      PickIsCandidate(s, PrefersReads(cfg, s), cfg.Scheduler() != 0);
      var i := Pick(s, PrefersReads(cfg, s), cfg.Scheduler() != 0);
      if i < |s.queue| {
        StartInv(cfg, s, i);
        StartGood(cfg, s, i);
        ScheduleUpToGood(cfg, Start(cfg, s, i), budget - 1);
      }
    }
  }

  lemma ScheduleGood(cfg: Config, s: State)
    requires HbfDevice(cfg) && Inv(cfg, s) && s.tick > 0 && Good(cfg, s)
    ensures Good(cfg, Schedule(cfg, s))
  {
    hide Tables, MediaOk, Disciplined, ScheduleUpTo, Config.Valid;
    if s.halt == Running { ScheduleUpToGood(cfg, s, cfg.MaxActive()); }
  }

  lemma IdleDrainGood(cfg: Config, s: State)
    requires HbfDevice(cfg) && Inv(cfg, s) && Good(cfg, s)
    ensures Good(cfg, IdleDrain(cfg, s))
  {
    hide Inv, Good, FlushEach, LastArrival, Config.Valid;
    FlushEachGood(cfg, s, SortedKeys(s.buffer.Keys));
  }

  lemma CycleGood(cfg: Config, s: State)
    requires HbfDevice(cfg) && Inv(cfg, s) && Good(cfg, s)
    ensures Good(cfg, Cycle(cfg, s))
  {
    hide Tables, MediaOk, Disciplined, MediaHalf, FlushOverdue, Schedule, IdleDrain, Config.Valid;
    if s.halt == Running {
      var s5 := MediaHalf(cfg, s);
      MediaHalfInv(cfg, s);
      MediaHalfGood(cfg, s);
      var pages := SortedKeys(s5.buffer.Keys);
      FlushOverdueInv(cfg, s5, pages);
      FlushOverdueGood(cfg, s5, pages);
      var s6 := FlushOverdue(cfg, s5, pages);
      ScheduleInv(cfg, s6);
      ScheduleGood(cfg, s6);
      IdleDrainGood(cfg, Schedule(cfg, s6));
    }
  }

  lemma PopGood(cfg: Config, s: State)
    requires Good(cfg, s)
    ensures Good(cfg, Pop(s))
  {
    hide MediaOk, Disciplined;
    if s.halt == Running { MediaFrame(s, Pop(s)); }
  }

  lemma ApplyGood(cfg: Config, s: State, c: Call)
    requires HbfDevice(cfg) && Inv(cfg, s) && Good(cfg, s)
    ensures Good(cfg, Apply(cfg, s, c))
  {
    hide Inv, Good, Push, Cycle, Pop, Config.Valid;
    match c
    case CallPush(r) => PushGood(cfg, s, r);
    case CallCycle => CycleGood(cfg, s);
    case CallPop => PopGood(cfg, s);
  }

  lemma {:induction false} RunGood(cfg: Config, s: State, calls: seq<Call>)
    requires HbfDevice(cfg) && Inv(cfg, s) && Good(cfg, s)
    ensures Good(cfg, Run(cfg, s, calls))
    decreases |calls|
  {
    hide Inv, Good, Apply;
    if calls != [] {
      ApplyInv(cfg, s, calls[0]);
      ApplyGood(cfg, s, calls[0]);
      RunGood(cfg, Apply(cfg, s, calls[0]), calls[1..]);
    }
  }

  /** Over every run: no PROGRAM hits a page programmed since its block's last ERASE, no ERASE destroys
      a page still stored there, and no cache or register serves anything but the last PROGRAM. */
  lemma RunDisciplined(cfg: Config, calls: seq<Call>)
    requires HbfDevice(cfg)
    ensures Disciplined(Run(cfg, Init(cfg), calls).media)
  {
    hide Inv, Disciplined, MediaOk;
    InitInv(cfg);
    InitGood(cfg);
    RunGood(cfg, Init(cfg), calls);
  }
}
