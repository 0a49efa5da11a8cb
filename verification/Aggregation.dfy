/** The read-aggregation window over whole runs: a read waits no longer than the window allows, and is issued
    no earlier than its threshold or its window permits. */
module Aggregation {
  import opened Basics
  import opened Geometry
  import opened Controller
  import opened ControllerTables
  import opened ControllerInvariant
  import Ftl
  import Limits
  import Lru
  import Nand
  import WriteDrain

  /** A read that aggregates has asked for less than the threshold and is inside its window; one that does
      not has asked for enough, or waited the window, or aggregation is off. */
  predicate InWindow(cfg: Config, tick: nat, e: Entry) {
    && e.firstTick <= tick
    && (if e.aggregating
        then cfg.readAggregation && e.requestedBytes < cfg.ReadThreshold() && (tick == e.firstTick || tick - e.firstTick < cfg.readAggWindow)
        else !cfg.readAggregation || e.requestedBytes >= cfg.ReadThreshold() || tick - e.firstTick >= cfg.readAggWindow)
  }

  predicate Windows(cfg: Config, s: State) { forall k :: k in s.mshr && !s.mshr[k].isWriteOp ==> InWindow(cfg, s.tick, s.mshr[k]) }

  // ----- steps that leave the windows alone --------------------------------------------------------------------

  /** Reads keep what their window depends on; nothing but writes is new. */
  predicate SameReads(mshr: Mshr, after: Mshr) {
    forall k :: k in after && !after[k].isWriteOp ==>
      k in mshr && !mshr[k].isWriteOp && after[k].aggregating == mshr[k].aggregating
      && after[k].firstTick == mshr[k].firstTick && after[k].requestedBytes == mshr[k].requestedBytes
  }

  predicate Still(s: State, t: State) { SameReads(s.mshr, t.mshr) && t.tick == s.tick }

  lemma StillTwice(s: State, t: State, u: State)
    requires Still(s, t) && Still(t, u)
    ensures Still(s, u)
  {
  }

  lemma StillWindows(cfg: Config, s: State, t: State)
    requires Windows(cfg, s) && Still(s, t)
    ensures Windows(cfg, t)
  {
  }

  lemma StillSame(s: State, t: State)
    requires t.mshr == s.mshr && t.tick == s.tick
    ensures Still(s, t)
  {
  }

  lemma FinishStill(cfg: Config, s: State, k: nat)
    requires k in s.mshr
    ensures Still(s, Finish(cfg, s, k))
  {
    hide Ftl.MarkErased;
  }

  lemma AdvanceOneStill(cfg: Config, s: State, sa: nat)
    ensures Still(s, AdvanceOne(cfg, s, sa))
  {
    hide Serves, Nand.Advance, Finish, Still;
    StillSame(s, s);
    if sa < |s.subs| {
      var u := s.(subs := s.subs[sa := Nand.Advance(s.subs[sa])], active := s.active - {sa});
      StillSame(s, u);
      StillSame(s, s.(subs := s.subs[sa := Nand.Advance(s.subs[sa])]));
      if Serving(s.mshr, sa) != {} {
        FinishStill(cfg, u, MinOf(Serving(s.mshr, sa)));
        StillTwice(s, u, Finish(cfg, u, MinOf(Serving(s.mshr, sa))));
      }
    }
  }

  lemma {:induction false} AdvanceEachStill(cfg: Config, s: State, sas: seq<nat>)
    ensures Still(s, AdvanceEach(cfg, s, sas))
    decreases |sas|
  {
    hide AdvanceOne, Still;
    StillSame(s, s);
    if sas != [] {
      var t := AdvanceOne(cfg, s, sas[0]);
      AdvanceOneStill(cfg, s, sas[0]);
      AdvanceEachStill(cfg, t, sas[1..]);
      StillTwice(s, t, AdvanceEach(cfg, t, sas[1..]));
    }
  }

  lemma ReadyHitsStill(s: State)
    ensures Still(s, ReadyHits(s))
  {
  }

  lemma DeliverOneStill(cfg: Config, s: State, k: nat)
    ensures Still(s, DeliverOne(cfg, s, k))
  {
    hide Affordable, CacheInsert, LinkBytes;
  }

  lemma {:induction false} DeliverEachStill(cfg: Config, s: State, keys: seq<nat>)
    ensures Still(s, DeliverEach(cfg, s, keys))
    decreases |keys|
  {
    hide DeliverOne, Still;
    StillSame(s, s);
    if keys != [] {
      var t := DeliverOne(cfg, s, keys[0]);
      DeliverOneStill(cfg, s, keys[0]);
      DeliverEachStill(cfg, t, keys[1..]);
      StillTwice(s, t, DeliverEach(cfg, t, keys[1..]));
    }
  }

  lemma DrainWindowStill(cfg: Config, s: State)
    ensures Still(s, DrainWindow(cfg, s))
  {
    hide UpdateDrain, CountWrites;
  }

  lemma IssueStill(s: State, page: nat, ch: nat, phys: Phys)
    requires page in s.buffer
    ensures Still(s, Issue(s, page, ch, phys))
  {
    hide AddWrite, RequestedBytes;
  }

  lemma FlushMappedStill(cfg: Config, s: State, page: nat, ch: nat)
    requires page in s.buffer
    ensures Still(s, FlushMapped(cfg, s, page, ch))
  {
    hide Ftl.TranslateWrite, InChannel, Issue, Still;
    var (f, phys) := Ftl.TranslateWrite(cfg, s.ftl, page);
    var t := s.(ftl := f);
    StillSame(s, t);
    StillSame(s, t.(halt := FlushMapped(cfg, s, page, ch).halt));
    if phys.Some? {
      IssueStill(t, page, ch, phys.value);
      StillTwice(s, t, Issue(t, page, ch, phys.value));
    }
  }

  lemma FlushStill(cfg: Config, s: State, page: nat, force: bool)
    ensures Still(s, Flush(cfg, s, page, force))
  {
    hide FlushMapped, DirectAddress, ChannelOf, Issue, Still;
    StillSame(s, s);
    StillSame(s, s.(buffer := s.buffer - {page}));
    StillSame(s, s.(halt := Flush(cfg, s, page, force).halt));
    if s.halt == Running && page in s.buffer && ChannelOf(cfg, page).Some? {
      var ch := ChannelOf(cfg, page).value;
      FlushMappedStill(cfg, s, page, ch);
      if DirectAddress(cfg, page, ch).Some? { IssueStill(s, page, ch, DirectAddress(cfg, page, ch).value); }
    }
  }

  lemma {:induction false} FlushEachStill(cfg: Config, s: State, pages: seq<nat>)
    ensures Still(s, FlushEach(cfg, s, pages)) && Still(s, FlushOverdue(cfg, s, pages))
    decreases |pages|
  {
    hide Flush, Overdue, Still;
    StillSame(s, s);
    if pages != [] {
      var t := Flush(cfg, s, pages[0], false);
      FlushStill(cfg, s, pages[0], false);
      FlushEachStill(cfg, t, pages[1..]);
      FlushEachStill(cfg, s, pages[1..]);
      StillTwice(s, t, FlushEach(cfg, t, pages[1..]));
      StillTwice(s, t, FlushOverdue(cfg, t, pages[1..]));
    }
  }

  lemma StartReadStill(cfg: Config, s: State, k: nat)
    requires Candidate(s, k)
    ensures Still(s, StartRead(cfg, s, k))
  {
    hide Nand.StartRead, Nand.Served, Lru.Without;
  }

  lemma StartWriteStill(cfg: Config, s: State, k: nat)
    requires Candidate(s, k)
    ensures Still(s, StartWrite(cfg, s, k))
  {
    hide Nand.StartProgram, Nand.StartErase, Ftl.MarkErasing, Ftl.IsErased, Lru.Without, Stored, Padding;
  }

  lemma StartStill(cfg: Config, s: State, i: nat)
    requires i < |s.queue|
    ensures Still(s, Start(cfg, s, i))
  {
    hide StartRead, StartWrite, IsRead, Still;
    var k := s.queue[i];
    var t := s.(queue := s.queue[..i] + s.queue[i + 1..], readDue := s.readDue && !(cfg.Scheduler() == 2 && IsRead(s, k)));
    StillSame(s, t);
    StillSame(s, s.(halt := Assertion));
    if Candidate(s, k) {
      assert Candidate(t, k);
      StartReadStill(cfg, t, k);
      StartWriteStill(cfg, t, k);
      StillTwice(s, t, StartRead(cfg, t, k));
      StillTwice(s, t, StartWrite(cfg, t, k));
    }
  }

  lemma {:induction false} ScheduleUpToStill(cfg: Config, s: State, budget: nat)
    ensures Still(s, ScheduleUpTo(cfg, s, budget))
    decreases budget
  {
    hide Start, Pick, Misplaced, PrefersReads, Still;
    StillSame(s, s);
    StillSame(s, s.(halt := QueueAffinity));
    if budget != 0 && |s.active| < cfg.MaxActive() {
      var i := Pick(s, PrefersReads(cfg, s), cfg.Scheduler() != 0);
      if i < |s.queue| {
        var t := Start(cfg, s, i);
        StartStill(cfg, s, i);
        ScheduleUpToStill(cfg, t, budget - 1);
        StillTwice(s, t, ScheduleUpTo(cfg, t, budget - 1));
      }
    }
  }

  // ----- the clock and reads -----------------------------------------------------------------------------------

  lemma ReleasedInWindow(cfg: Config, tick: nat, e: Entry)
    requires InWindow(cfg, tick, e) && e.pending != [] && !e.pending[0].isWrite
    ensures InWindow(cfg, tick + 1, Released(cfg, tick + 1, e))
  {
  }

  lemma BeginTickWindows(cfg: Config, s: State)
    requires Tables(cfg, s) && Windows(cfg, s)
    ensures Windows(cfg, BeginTick(cfg, s))
  {
    hide QueueOk, ActiveOk, BufferOk, CreditOk, WritesOk, InWindow, Replenished, InChannel, ChannelOf;
    forall k | k in s.mshr && !s.mshr[k].isWriteOp ensures InWindow(cfg, s.tick + 1, Released(cfg, s.tick + 1, s.mshr[k])) {
      assert EntryOk(cfg, k, s.mshr[k]);
      assert s.mshr[k].pending[0] in s.mshr[k].pending;
      ReleasedInWindow(cfg, s.tick, s.mshr[k]);
    }
  }

  lemma CoalescedInWindow(cfg: Config, tick: nat, e: Entry, r: Request)
    requires InWindow(cfg, tick, e)
    ensures InWindow(cfg, tick, Coalesced(cfg, e, r))
  {
  }

  lemma NewReadWindows(cfg: Config, s: State, r: Request, page: nat, ch: nat)
    requires Windows(cfg, s)
    ensures Windows(cfg, NewRead(cfg, s, r, page, ch))
  {
    hide Ftl.TranslateRead, InChannel, DirectAddress, ReadEntry, InWindow, Enter;
    var phys := if cfg.ftlEnabled then Ftl.TranslateRead(cfg, s.ftl, page).1 else DirectAddress(cfg, page, ch);
    if phys.Some? {
      ReadEntryInWindow(cfg, s, r, page, ch, phys.value);
      var e := ReadEntry(cfg, s, r, page, ch, phys.value);
      EnterWindows(cfg, s, page, e);
      var f := Ftl.TranslateRead(cfg, s.ftl, page).0;
      StillSame(s, s.(ftl := f));
      EnterWindows(cfg, s.(ftl := f), page, e);
    }
  }

  lemma EnterWindows(cfg: Config, s: State, page: nat, e: Entry)
    requires Windows(cfg, s) && InWindow(cfg, s.tick, e)
    ensures Windows(cfg, Enter(s, page, e))
  {
    hide InWindow;
  }

  lemma ReadEntryInWindow(cfg: Config, s: State, r: Request, page: nat, ch: nat, phys: Phys)
    ensures InWindow(cfg, s.tick, ReadEntry(cfg, s, r, page, ch, phys))
  {
  }

  lemma PushReadWindows(cfg: Config, s: State, r: Request, page: nat, ch: nat)
    requires cfg.Valid() && Inv(cfg, s) && s.halt == Running && Windows(cfg, s)
    ensures Windows(cfg, PushRead(cfg, s, r, page, ch))
  {
    hide Tables, Flush, NewRead, InWindow, Attached, Coalesced, Config.Valid;
    FlushStill(cfg, s, page, true);
    FlushInv(cfg, s, page, true);
    var u := if page in s.buffer then Flush(cfg, s, page, true) else s;
    StillWindows(cfg, s, Flush(cfg, s, page, true));
    if u.halt == Running {
      if page in u.mshr {
        AttachedKind(cfg, u, page, r);
        if !u.mshr[page].isWriteOp { CoalescedInWindow(cfg, u.tick, u.mshr[page], r); }
      } else {
        NewReadWindows(cfg, u, r, page, ch);
      }
    }
  }

  lemma AttachedKind(cfg: Config, s: State, k: nat, r: Request)
    requires Tables(cfg, s) && k in s.mshr
    ensures Attached(s.mshr[k], r).isWriteOp == s.mshr[k].isWriteOp && Coalesced(cfg, s.mshr[k], r).isWriteOp == s.mshr[k].isWriteOp
    ensures !s.mshr[k].isWriteOp ==> s.mshr[k].pending != [] && !s.mshr[k].pending[0].isWrite
  {
    hide QueueOk, ActiveOk, BufferOk, CreditOk, WritesOk, InChannel, ChannelOf;
    assert EntryOk(cfg, k, s.mshr[k]);
    if !s.mshr[k].isWriteOp { assert s.mshr[k].pending[0] in s.mshr[k].pending; }
  }

  lemma PushWriteWindows(cfg: Config, s: State, r: Request, page: nat)
    requires cfg.pageSize > 0 && Windows(cfg, s)
    ensures Windows(cfg, PushWrite(cfg, s, r, page))
  {
    hide Coverage, Flush, FlushEach, AddToBuffer, Still, Windows;
    StillSame(s, s.(halt := CoverageCrossesPage));
    StillWindows(cfg, s, s.(halt := CoverageCrossesPage));
    if Coverage(cfg, page, r).Some? {
      var u := AddToBuffer(s, r, page, Coverage(cfg, page, r).value);
      AddStill(s, r, page, Coverage(cfg, page, r).value);
      StillWindows(cfg, s, u);
      FlushStill(cfg, u, page, false);
      StillWindows(cfg, u, Flush(cfg, u, page, false));
      FlushEachStill(cfg, u, SortedKeys(u.buffer.Keys));
      StillWindows(cfg, u, FlushEach(cfg, u, SortedKeys(u.buffer.Keys)));
    }
  }

  lemma AddStill(s: State, r: Request, page: nat, bytes: set<nat>)
    ensures Still(s, AddToBuffer(s, r, page, bytes))
  {
    hide Buffer;
  }

  lemma PushWindows(cfg: Config, s: State, r: Request)
    requires cfg.Valid() && Inv(cfg, s) && s.halt == Running && Windows(cfg, s)
    ensures Windows(cfg, Push(cfg, s, r))
  {
    hide Tables, ChannelOf, PushWrite, PushRead, Config.Valid, Windows;
    WriteDrain.PageSizePositive(cfg);
    var page := cfg.PageOf(r.addr);
    var t := s.(pushed := s.pushed + [r]);
    PushedTables(cfg, s, r);
    StillSame(s, t);
    StillWindows(cfg, s, t);
    StillSame(s, t.(halt := Unplaced));
    StillWindows(cfg, s, t.(halt := Unplaced));
    if ChannelOf(cfg, page).Some? {
      if r.isWrite { PushWriteWindows(cfg, t, r, page); } else {
        RunningInv(cfg, t);
        PushReadWindows(cfg, t, r, page, ChannelOf(cfg, page).value);
      }
    }
  }

  // ----- over whole runs ---------------------------------------------------------------------------------------

  lemma CycleWindows(cfg: Config, s: State)
    requires cfg.Valid() && Inv(cfg, s) && s.halt == Running && Windows(cfg, s)
    ensures Windows(cfg, Cycle(cfg, s))
  {
    hide Tables, Config.Valid, BeginTick, AdvanceEach, ReadyHits, DeliverEach, DrainWindow, FlushOverdue, FlushEach, ScheduleUpTo,
        LastArrival, Windows, Still, SortedKeys;
    var s1 := BeginTick(cfg, s);
    BeginTickWindows(cfg, s);
    var s2 := AdvanceEach(cfg, s1, SortedKeys(s1.active));
    AdvanceEachStill(cfg, s1, SortedKeys(s1.active));
    StillWindows(cfg, s1, s2);
    var s3 := ReadyHits(s2);
    ReadyHitsStill(s2);
    StillWindows(cfg, s2, s3);
    var s4 := DeliverEach(cfg, s3, SortedKeys(s3.mshr.Keys));
    DeliverEachStill(cfg, s3, SortedKeys(s3.mshr.Keys));
    StillWindows(cfg, s3, s4);
    var s5 := DrainWindow(cfg, s4);
    DrainWindowStill(cfg, s4);
    StillWindows(cfg, s4, s5);
    var s6 := FlushOverdue(cfg, s5, SortedKeys(s5.buffer.Keys));
    FlushEachStill(cfg, s5, SortedKeys(s5.buffer.Keys));
    StillWindows(cfg, s5, s6);
    ScheduleUpToStill(cfg, s6, cfg.MaxActive());
    var s7 := Schedule(cfg, s6);
    StillSame(s6, s6);
    StillWindows(cfg, s6, s7);
    FlushEachStill(cfg, s7, SortedKeys(s7.buffer.Keys));
    StillWindows(cfg, s7, FlushEach(cfg, s7, SortedKeys(s7.buffer.Keys)));
  }

  lemma {:induction false} RunWindows(cfg: Config, s: State, calls: seq<Call>)
    requires cfg.Valid() && Inv(cfg, s) && Windows(cfg, s)
    ensures Windows(cfg, Run(cfg, s, calls))
    decreases |calls|
  {
    hide Inv, Push, Cycle, Config.Valid, Windows;
    WriteDrain.PageSizePositive(cfg);
    if calls != [] {
      var t := Apply(cfg, s, calls[0]);
      ApplyInv(cfg, s, calls[0]);
      if s.halt != Running {
        Limits.HaltedRun(cfg, s, calls);
      } else {
        match calls[0] {
          case CallPush(r) => PushWindows(cfg, s, r);
          case CallCycle => CycleWindows(cfg, s);
          case CallPop =>
            StillSame(s, Pop(s));
            StillWindows(cfg, s, Pop(s));
        }
        RunWindows(cfg, t, calls[1..]);
      }
    }
  }

  /** In every run, every read entry is inside its window or let go for a reason. */
  lemma ReachableWindows(cfg: Config, calls: seq<Call>)
    requires cfg.Valid()
    ensures Windows(cfg, Run(cfg, Init(cfg), calls))
  {
    hide Inv, Run, Config.Valid;
    InitInv(cfg);
    RunWindows(cfg, Init(cfg), calls);
  }

  /** A read that can be issued has asked for the threshold, waited the window, or is not aggregated; one
      held back for aggregation only has neither. */
  lemma IssuedForReason(cfg: Config, s: State, k: nat)
    requires Windows(cfg, s) && k in s.mshr && !s.mshr[k].isWriteOp
    ensures var e := s.mshr[k]; var waited := s.tick - e.firstTick;
      var enough := e.requestedBytes >= if cfg.readThresholdKnob > 0 then cfg.readThresholdKnob else cfg.pageSize;
      && (Candidate(s, k) ==> !cfg.readAggregation || enough || waited >= cfg.readAggWindow)
      && (e.aggregating ==> cfg.readAggregation && !enough && (waited == 0 || waited < cfg.readAggWindow))
  {
    assert InWindow(cfg, s.tick, s.mshr[k]);
  }
}
