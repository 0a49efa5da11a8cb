/** With room for the buffered pages a drain always ends with an empty device: no tick can run out of
    blocks or of direct addresses. */
module Capacity {
  import opened Basics
  import opened Geometry
  import opened Controller
  import opened ControllerTables
  import opened ControllerFtl
  import opened ControllerInvariant
  import opened Progress
  import History
  import Ftl
  import FtlExact
  import FtlInvariant
  import Lru
  import Nand

  /** Every buffered page could still get a block of its own; without the FTL, it has a direct address. */
  predicate Roomy(cfg: Config, f: Ftl.State, buffer: map<nat, Buffered>)
    requires cfg.pagesPerBlock > 0
  {
    if cfg.ftlEnabled then f.nextId + |buffer| <= cfg.MaxBlocks() && f.nextId + |buffer| <= PSEUDO_BLOCK_BIT
    else !BeyondBuffered(cfg, buffer)
  }

  /** A step that buffers nothing and creates no block. */
  predicate SameRoom(s: State, t: State) { t.buffer == s.buffer && t.ftl.nextId == s.ftl.nextId }

  // ----- media steps -----------------------------------------------------------------------------------

  lemma FinishRoom(cfg: Config, s: State, k: nat)
    requires k in s.mshr
    ensures SameRoom(s, Finish(cfg, s, k))
  {
    hide Finished;
  }

  lemma AdvanceOneRoom(cfg: Config, s: State, sa: nat)
    ensures SameRoom(s, AdvanceOne(cfg, s, sa))
  {
    hide Serves, Nand.Advance, Finish;
    if sa < |s.subs| && Serving(s.mshr, sa) != {} {
      FinishRoom(cfg, s.(subs := s.subs[sa := Nand.Advance(s.subs[sa])], active := s.active - {sa}), MinOf(Serving(s.mshr, sa)));
    }
  }

  lemma {:induction false} AdvanceEachRoom(cfg: Config, s: State, sas: seq<nat>)
    ensures SameRoom(s, AdvanceEach(cfg, s, sas))
    decreases |sas|
  {
    hide AdvanceOne;
    if sas != [] {
      AdvanceOneRoom(cfg, s, sas[0]);
      AdvanceEachRoom(cfg, AdvanceOne(cfg, s, sas[0]), sas[1..]);
    }
  }

  lemma DeliverOneRoom(cfg: Config, s: State, k: nat)
    ensures SameRoom(s, DeliverOne(cfg, s, k))
  {
    hide Affordable, CacheInsert, LinkBytes;
  }

  lemma {:induction false} DeliverEachRoom(cfg: Config, s: State, keys: seq<nat>)
    ensures SameRoom(s, DeliverEach(cfg, s, keys))
    decreases |keys|
  {
    hide DeliverOne;
    if keys != [] {
      DeliverOneRoom(cfg, s, keys[0]);
      DeliverEachRoom(cfg, DeliverOne(cfg, s, keys[0]), keys[1..]);
    }
  }

  lemma MediaHalfRoom(cfg: Config, s: State)
    ensures SameRoom(s, MediaHalf(cfg, s))
  {
    hide AdvanceEach, DeliverEach, CountWrites, UpdateDrain, Released, Matured, Replenished;
    var s1 := BeginTick(cfg, s);
    AdvanceEachRoom(cfg, s1, SortedKeys(s1.active));
    var s3 := ReadyHits(AdvanceEach(cfg, s1, SortedKeys(s1.active)));
    DeliverEachRoom(cfg, s3, SortedKeys(s3.mshr.Keys));
  }

  // ----- scheduling --------------------------------------------------------------------------------------

  lemma StartReadRoom(cfg: Config, s: State, k: nat)
    requires Candidate(s, k)
    ensures SameRoom(s, StartRead(cfg, s, k))
  {
    hide Nand.StartRead, Nand.Served, Lru.Without;
  }

  lemma StartEraseRoom(cfg: Config, s: State, k: nat)
    requires Candidate(s, k)
    ensures SameRoom(s, StartErase(cfg, s, k))
  {
    hide Nand.StartErase, Stored;
  }

  lemma StartProgramRoom(cfg: Config, s: State, k: nat)
    requires Candidate(s, k)
    ensures SameRoom(s, StartProgram(cfg, s, k))
  {
    hide Nand.StartProgram, Padding;
  }

  lemma StartRoom(cfg: Config, s: State, i: nat)
    requires i < |s.queue|
    ensures SameRoom(s, Start(cfg, s, i))
  {
    hide StartRead, StartErase, StartProgram, Candidate, IsRead, Ftl.IsErased, Lru.Without;
    var k := s.queue[i];
    if Candidate(s, k) {
      CandidateEntry(s, k);
      var e := s.mshr[k];
      var t := s.(queue := s.queue[..i] + s.queue[i + 1..], readDue := s.readDue && !(cfg.Scheduler() == 2 && IsRead(s, k)));
      var u := t.(cache := Lru.Without(t.cache, e.page), active := t.active + {e.sa});
      SameCandidates(s, t, k);
      SameCandidates(s, u, k);
      StartReadRoom(cfg, t, k);
      StartEraseRoom(cfg, u, k);
      StartProgramRoom(cfg, u, k);
    }
  }

  lemma CandidateEntry(s: State, k: nat)
    requires Candidate(s, k)
    ensures k in s.mshr && s.mshr[k].sa >= 0
  {
  }

  lemma SameCandidates(s: State, t: State, k: nat)
    requires t.mshr == s.mshr && t.subs == s.subs
    ensures Candidate(t, k) == Candidate(s, k)
  {
  }

  lemma {:induction false} ScheduleUpToRoom(cfg: Config, s: State, budget: nat)
    ensures SameRoom(s, ScheduleUpTo(cfg, s, budget))
    decreases budget
  {
    hide Start, Pick, Misplaced, PrefersReads;
    if budget != 0 {
      var i := Pick(s, PrefersReads(cfg, s), cfg.Scheduler() != 0);
      if i < |s.queue| {
        StartRoom(cfg, s, i);
        ScheduleUpToRoom(cfg, Start(cfg, s, i), budget - 1);
      }
    }
  }

  // ----- flushing ----------------------------------------------------------------------------------------

  /** With room no flush fails, and room is left for the others. */
  lemma FlushRoom(cfg: Config, s: State, page: nat, force: bool)
    requires Drainable(cfg) && Inv(cfg, s) && s.halt == Running && Roomy(cfg, s.ftl, s.buffer)
    ensures var t := Flush(cfg, s, page, force); t.halt == Running && Roomy(cfg, t.ftl, t.buffer)
  {
    hide Tables, HaltOk, Config.Valid, Flush, OutOfRoom, Roomy, Flushed, Ftl.TranslateWrite, FtlOk, ChannelOf;
    DrainableValid(cfg);
    FlushInv(cfg, s, page, force);
    FlushPlaces(cfg, s, page, force);
    FlushOutcome(cfg, s, page, force);
    FlushTranslates(cfg, s, page, force);
    var t := Flush(cfg, s, page, force);
    if t != s {
      FlushedBuffer(s, t, page);
      if cfg.ftlEnabled { FtlExact.HbfWriteGrows(cfg, s.ftl, page); }
      RoomLeft(cfg, s.ftl, s.buffer, t.ftl, page);
    }
  }

  lemma FlushedBuffer(s: State, t: State, page: nat)
    requires Flushed(s, t, page)
    ensures page in s.buffer && t.buffer == s.buffer - {page}
  {
  }

  lemma RoomLeft(cfg: Config, f: Ftl.State, buffer: map<nat, Buffered>, g: Ftl.State, page: nat)
    requires cfg.pagesPerBlock > 0 && Roomy(cfg, f, buffer) && page in buffer && (cfg.ftlEnabled ==> g.nextId <= f.nextId + 1)
    ensures Roomy(cfg, g, buffer - {page})
  {
    hide Beyond, Config.MaxBlocks;
    assert (buffer - {page}).Keys == buffer.Keys - {page};
    assert |buffer.Keys - {page}| == |buffer.Keys| - 1;
  }

  /** The tests of a failing flush are false when there is room. */
  lemma FlushPlaces(cfg: Config, s: State, page: nat, force: bool)
    requires Drainable(cfg) && Inv(cfg, s) && s.halt == Running && Roomy(cfg, s.ftl, s.buffer)
    ensures Flush(cfg, s, page, force).halt == Running
  {
    hide HaltOk, Tables, Config.Valid, FlushMapped, DirectAddress, ChannelOf, WriteEntry, AddWrite, Roomy, Deferred;
    DrainableValid(cfg);
    if page in s.buffer {
      BufferedPage(cfg, s, page);
      TablesFtl(cfg, s);
      if cfg.ftlEnabled {
        MappedPlaces(cfg, s, page, ChannelOf(cfg, page).value);
      } else {
        DirectInChannel(cfg, page);
        RoomyIsWithin(cfg, s.ftl, s.buffer, page);
      }
    }
  }

  lemma RoomyIsWithin(cfg: Config, f: Ftl.State, buffer: map<nat, Buffered>, page: nat)
    requires cfg.pagesPerBlock > 0 && !cfg.ftlEnabled && Roomy(cfg, f, buffer) && page in buffer
    ensures !Beyond(cfg, page)
  {
  }

  lemma MappedPlaces(cfg: Config, s: State, page: nat, ch: nat)
    requires Drainable(cfg) && FtlOk(cfg, s.ftl) && s.halt == Running && cfg.ftlEnabled && Roomy(cfg, s.ftl, s.buffer)
    requires page in s.buffer && ChannelOf(cfg, page) == Some(ch)
    ensures FlushMapped(cfg, s, page, ch).halt == Running
  {
    hide FtlOk, Config.Valid, Ftl.TranslateWrite, InChannel, ChannelOf, Roomy, OutOfBlocks, Issue;
    DrainableBlocks(cfg);
    FlushFtl(cfg, s.ftl, page);
    FtlModeOk(cfg);
    RoomForBlock(cfg, s.ftl, s.buffer, page);
    var (f, phys) := Ftl.TranslateWrite(cfg, s.ftl, page);
    if phys.Some? { IssueRuns(s.(ftl := f), page, ch, phys.value); }
  }

  lemma FtlModeOk(cfg: Config)
    requires Drainable(cfg) && cfg.ftlEnabled
    ensures Ftl.HbfMode(cfg)
  {
  }

  lemma IssueRuns(s: State, page: nat, ch: nat, phys: Phys)
    requires page in s.buffer
    ensures Issue(s, page, ch, phys).halt == s.halt
  {
    hide WriteEntry, AddWrite;
  }

  lemma RoomForBlock(cfg: Config, f: Ftl.State, buffer: map<nat, Buffered>, page: nat)
    requires cfg.pagesPerBlock > 0 && cfg.ftlEnabled && FtlOk(cfg, f) && Roomy(cfg, f, buffer) && page in buffer
    ensures !OutOfBlocks(cfg, f, page)
  {
    hide Preferred, Ftl.Candidates, Config.MaxBlocks, FtlExact.Exact;
    BlocksNumbered(cfg, f);
    assert |buffer.Keys| > 0 by { assert page in buffer.Keys; }
  }

  /** The FTL numbers its blocks consecutively. */
  lemma BlocksNumbered(cfg: Config, f: Ftl.State)
    requires FtlOk(cfg, f)
    ensures |f.blocks| == f.nextId
  {
    hide FtlInvariant.PoolsWf, FtlInvariant.MapWf, FtlInvariant.Covers, FtlInvariant.CountWf, FtlExact.Exact;
  }

  lemma {:induction false} FlushEachRoom(cfg: Config, s: State, pages: seq<nat>)
    requires Drainable(cfg) && Inv(cfg, s) && s.halt == Running && Roomy(cfg, s.ftl, s.buffer)
    ensures var t := FlushEach(cfg, s, pages); t.halt == Running && Roomy(cfg, t.ftl, t.buffer)
    ensures var t := FlushOverdue(cfg, s, pages); t.halt == Running && Roomy(cfg, t.ftl, t.buffer)
    decreases |pages|
  {
    hide Inv, Flush, Config.Valid, Roomy, Overdue;
    if pages != [] {
      DrainableValid(cfg);
      FlushInv(cfg, s, pages[0], false);
      FlushRoom(cfg, s, pages[0], false);
      FlushEachRoom(cfg, Flush(cfg, s, pages[0], false), pages[1..]);
      FlushEachRoom(cfg, s, pages[1..]);
    }
  }

  // ----- whole ticks --------------------------------------------------------------------------------------

  /** A cycle of a device with room keeps running and keeps the room. */
  lemma CycleRoom(cfg: Config, s: State)
    requires Drainable(cfg) && Inv(cfg, s) && s.halt == Running && Roomy(cfg, s.ftl, s.buffer)
    ensures var t := Cycle(cfg, s); t.halt == Running && Roomy(cfg, t.ftl, t.buffer)
  {
    hide Tables, HaltOk, MediaHalf, FlushOverdue, FlushEach, ScheduleUpTo, Config.Valid, LastArrival, Roomy;
    DrainableValid(cfg);
    var s5 := MediaHalf(cfg, s);
    MediaHalfInv(cfg, s);
    MediaHalfRoom(cfg, s);
    RoomySame(cfg, s, s5);
    RunningInv(cfg, s5);
    var pages := SortedKeys(s5.buffer.Keys);
    FlushOverdueInv(cfg, s5, pages);
    FlushEachRoom(cfg, s5, pages);
    var s6 := FlushOverdue(cfg, s5, pages);
    ScheduleInv(cfg, s6);
    ScheduleRuns(cfg, s6);
    ScheduleUpToRoom(cfg, s6, cfg.MaxActive());
    var s7 := Schedule(cfg, s6);
    RoomySame(cfg, s6, s7);
    FlushEachRoom(cfg, s7, SortedKeys(s7.buffer.Keys));
  }

  lemma RoomySame(cfg: Config, s: State, t: State)
    requires cfg.pagesPerBlock > 0 && SameRoom(s, t) && Roomy(cfg, s.ftl, s.buffer)
    ensures Roomy(cfg, t.ftl, t.buffer)
  {
    hide Beyond;
  }

  lemma {:induction false} PopAllRoom(s: State)
    ensures SameRoom(s, PopAll(s)) && PopAll(s).halt == s.halt
    decreases |s.returnq|
  {
    if s.halt == Running && s.returnq != [] { PopAllRoom(Pop(s)); }
  }

  lemma {:induction false} TicksRun(cfg: Config, s: State, n: nat)
    requires Drainable(cfg) && Draining(cfg, s) && Roomy(cfg, s.ftl, s.buffer)
    ensures Ticks(cfg, s, n).halt == Running
    decreases n
  {
    hide Inv, History.HistoryOk, Cycle, PopAll, Roomy, SameRoom, Config.Valid;
    DrainableValid(cfg);
    if n > 0 {
      var c := Cycle(cfg, s);
      CycleRoom(cfg, s);
      CycleInv(cfg, s);
      CycleHalts(cfg, s);
      History.CycleHistory(cfg, s);
      PopAllKeeps(cfg, c);
      PopAllRoom(c);
      RoomySame(cfg, c, PopAll(c));
      TicksRun(cfg, PopAll(c), n - 1);
    }
  }

  /** Bounded drain: from any point of any run whose requests are at most 128 bytes, with a block left for
      every buffered page, a finite number of ticks leaves no work. */
  lemma RunDrains(cfg: Config, calls: seq<Call>) returns (n: nat)
    requires Drainable(cfg)
    requires var s := Run(cfg, Init(cfg), calls); s.halt == Running && forall r :: r in s.pushed ==> r.size <= 128
    requires var s := Run(cfg, Init(cfg), calls);
      if cfg.ftlEnabled then |s.ftl.blocks| + |s.buffer| <= cfg.MaxBlocks() && |s.ftl.blocks| + |s.buffer| <= PSEUDO_BLOCK_BIT
      else forall p :: p in s.buffer ==> !Beyond(cfg, p)
    ensures var t := Ticks(cfg, PopAll(Run(cfg, Init(cfg), calls)), n); t.halt == Running && !HasWork(t)
  {
    hide Inv, History.HistoryOk, Run, PopAll, OutOfRoom, HasWork, Load, Wait, Ticks, SameRoom, Beyond, Draining;
    DrainableValid(cfg);
    var s := Run(cfg, Init(cfg), calls);
    RunDraining(cfg, calls);
    RunNumbered(cfg, calls);
    PopAllRoom(s);
    RoomySame(cfg, s, PopAll(s));
    n := RunSettles(cfg, calls);
    TicksRun(cfg, PopAll(s), n);
    OutIsHalted(cfg, Ticks(cfg, PopAll(s), n));
  }

  lemma RunNumbered(cfg: Config, calls: seq<Call>)
    requires cfg.Valid() && Run(cfg, Init(cfg), calls).halt == Running
    ensures var s := Run(cfg, Init(cfg), calls); |s.ftl.blocks| == s.ftl.nextId
  {
    hide Tables, HaltOk, Run, FtlOk;
    ReachableInv(cfg, calls);
    TablesFtl(cfg, Run(cfg, Init(cfg), calls));
    BlocksNumbered(cfg, Run(cfg, Init(cfg), calls).ftl);
  }
}
