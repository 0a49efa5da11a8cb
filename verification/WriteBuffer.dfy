/** When buffered writes leave for the media, and how many of them: the write buffer over single calls and
    whole runs. */
module WriteBuffer {
  import opened Basics
  import opened Geometry
  import opened Controller
  import opened ControllerTables
  import opened ControllerFtl
  import opened ControllerInvariant
  import Ftl
  import Limits
  import Capacity
  import Timing
  import WriteDrain

  // ----- one page ------------------------------------------------------------------------------------------

  /** The page has to stay: an entry of its own is still in the device, or its channel has all the writes it
      may have. */
  predicate Stuck(cfg: Config, s: State, page: nat) {
    page in s.mshr || (ChannelOf(cfg, page).Some? && ChannelOf(cfg, page).value < |s.channels|
                       && s.channels[ChannelOf(cfg, page).value].outstandingWrites >= cfg.maxOutstandingWrites)
  }

  /** Nothing else in the buffer changes, entries and outstanding writes only grow. */
  predicate OnlyLeaves(s: State, t: State, page: nat) {
    && (forall q :: q in s.buffer && q != page ==> q in t.buffer && t.buffer[q] == s.buffer[q])
    && (forall q :: q in t.buffer ==> q in s.buffer && t.buffer[q] == s.buffer[q])
    && (forall q :: q in s.mshr ==> q in t.mshr)
    && |t.channels| == |s.channels| && (forall c :: 0 <= c < |s.channels| ==> s.channels[c].outstandingWrites <= t.channels[c].outstandingWrites)
    && t.tick == s.tick
  }

  lemma IssueLeaves(s: State, page: nat, ch: nat, phys: Phys)
    requires page in s.buffer
    ensures var t := Issue(s, page, ch, phys); OnlyLeaves(s, t, page) && page !in t.buffer && page in t.mshr && t.channels == AddWrite(s.channels, ch)
  {
    hide WriteEntry;
  }

  lemma FlushMappedLeaves(cfg: Config, s: State, page: nat, ch: nat)
    requires page in s.buffer
    ensures var t := FlushMapped(cfg, s, page, ch);
      OnlyLeaves(s, t, page) && (t.halt == Running ==> page !in t.buffer && page in t.mshr && t.channels == AddWrite(s.channels, ch))
  {
    hide Ftl.TranslateWrite, InChannel, Issue, AddWrite, OnlyLeaves;
    var (f, phys) := Ftl.TranslateWrite(cfg, s.ftl, page);
    StaysSame(s, s.(ftl := f), page);
    StaysSame(s, s.(ftl := f, halt := FlushMapped(cfg, s, page, ch).halt), page);
    if phys.Some? {
      IssueLeaves(s.(ftl := f), page, ch, phys.value);
      LeavesFrom(s, s.(ftl := f), Issue(s.(ftl := f), page, ch, phys.value), page);
    }
  }

  lemma LeavesFrom(s: State, t: State, u: State, page: nat)
    requires t.buffer == s.buffer && t.mshr == s.mshr && t.channels == s.channels && t.tick == s.tick && OnlyLeaves(t, u, page)
    ensures OnlyLeaves(s, u, page)
  {
  }

  lemma StaysSame(s: State, t: State, page: nat)
    requires t.buffer == s.buffer && t.mshr == s.mshr && t.channels == s.channels && t.tick == s.tick
    ensures OnlyLeaves(s, t, page)
  {
  }

  /** A flush takes the page out of the buffer unless it is stuck; a forced one minds only the entry. */
  lemma FlushExactly(cfg: Config, s: State, page: nat, force: bool)
    requires Tables(cfg, s) && s.halt == Running && page in s.buffer && Flush(cfg, s, page, force).halt == Running
    ensures var t := Flush(cfg, s, page, force);
      && OnlyLeaves(s, t, page)
      && (page in t.buffer <==> page in s.mshr || (!force && Stuck(cfg, s, page)))
      && (page in t.buffer ==> t == s)
      && (page !in t.buffer ==> page in t.mshr && t.channels == AddWrite(s.channels, ChannelOf(cfg, page).value))
  {
    hide Tables, FlushMapped, DirectAddress, ChannelOf, Issue, OnlyLeaves, AddWrite;
    BufferedPage(cfg, s, page);
    var ch := ChannelOf(cfg, page).value;
    StaysSame(s, s, page);
    FlushMappedLeaves(cfg, s, page, ch);
    if DirectAddress(cfg, page, ch).Some? { IssueLeaves(s, page, ch, DirectAddress(cfg, page, ch).value); }
  }

  // ----- several pages ----------------------------------------------------------------------------------------

  /** Only the pages listed (and due, when only those go) may have left; those left behind are stuck. */
  predicate Drained(cfg: Config, s: State, t: State, pages: seq<nat>, due: nat -> bool) {
    && (forall q :: q in t.buffer ==> q in s.buffer && t.buffer[q] == s.buffer[q])
    && (forall q :: q in s.buffer && (q !in pages || !due(q)) ==> q in t.buffer)
    && (forall q :: q in t.buffer && q in pages && due(q) ==> Stuck(cfg, t, q))
    && (forall q :: q in s.mshr ==> q in t.mshr) && t.tick == s.tick
    && |t.channels| == |s.channels| && (forall c :: 0 <= c < |s.channels| ==> s.channels[c].outstandingWrites <= t.channels[c].outstandingWrites)
  }

  lemma DrainedStep(cfg: Config, s: State, t: State, u: State, pages: seq<nat>, due: nat -> bool)
    requires pages != [] && OnlyLeaves(s, t, pages[0]) && Drained(cfg, t, u, pages[1..], due)
    requires pages[0] in s.buffer && !due(pages[0]) ==> pages[0] in t.buffer
    requires pages[0] in t.buffer && due(pages[0]) ==> Stuck(cfg, u, pages[0])
    ensures Drained(cfg, s, u, pages, due)
  {
    hide Stuck;
    assert pages == [pages[0]] + pages[1..];
  }

  /** What stays stuck while the others leave. */
  lemma StuckAfter(cfg: Config, s: State, t: State, pages: seq<nat>, due: nat -> bool, q: nat)
    requires Drained(cfg, s, t, pages, due) && Stuck(cfg, s, q)
    ensures Stuck(cfg, t, q)
  {
    hide ChannelOf;
  }

  lemma {:induction false} FlushEachDrains(cfg: Config, s: State, pages: seq<nat>)
    requires cfg.Valid() && Inv(cfg, s) && s.halt == Running && FlushEach(cfg, s, pages).halt == Running
    ensures Drained(cfg, s, FlushEach(cfg, s, pages), pages, q => true)
    decreases |pages|
  {
    hide Tables, HaltOk, Flush, Drained, OnlyLeaves, Stuck, Config.Valid;
    NothingDrained(cfg, s, q => true);
    if pages != [] {
      var t, u := Flush(cfg, s, pages[0], false), FlushEach(cfg, s, pages);
      FlushInv(cfg, s, pages[0], false);
      if t.halt != Running { EachHalted(cfg, t, pages[1..]); }
      FlushEachDrains(cfg, t, pages[1..]);
      FlushFirst(cfg, s, pages[0]);
      if pages[0] in t.buffer { StuckAfter(cfg, t, u, pages[1..], q => true, pages[0]); }
      DrainedStep(cfg, s, t, u, pages, q => true);
    }
  }

  lemma FlushFirst(cfg: Config, s: State, page: nat)
    requires Tables(cfg, s) && s.halt == Running && Flush(cfg, s, page, false).halt == Running
    ensures var t := Flush(cfg, s, page, false); OnlyLeaves(s, t, page) && (page in t.buffer ==> Stuck(cfg, t, page))
  {
    hide Tables, OnlyLeaves;
    if page in s.buffer {
      FlushExactly(cfg, s, page, false);
    } else {
      FlushAbsent(cfg, s, page);
      StaysSame(s, s, page);
    }
  }

  lemma FlushAbsent(cfg: Config, s: State, page: nat)
    requires page !in s.buffer
    ensures Flush(cfg, s, page, false) == s
  {
  }

  lemma NothingDrained(cfg: Config, s: State, due: nat -> bool)
    ensures Drained(cfg, s, s, [], due)
  {
  }

  lemma {:induction false} EachHalted(cfg: Config, s: State, pages: seq<nat>)
    requires s.halt != Running
    ensures FlushEach(cfg, s, pages) == s && FlushOverdue(cfg, s, pages) == s
    decreases |pages|
  {
    if pages != [] { EachHalted(cfg, s, pages[1..]); }
  }

  /** The deadline step flushes exactly the pages past the aggregation timeout that are not stuck. */
  lemma {:induction false} FlushOverdueDrains(cfg: Config, s: State, pages: seq<nat>, due: nat -> bool)
    requires cfg.Valid() && Inv(cfg, s) && s.halt == Running && FlushOverdue(cfg, s, pages).halt == Running
    requires forall q :: q in s.buffer ==> (due(q) <==> Overdue(cfg, s, q))
    ensures Drained(cfg, s, FlushOverdue(cfg, s, pages), pages, due)
    decreases |pages|
  {
    hide Tables, HaltOk, Flush, Drained, OnlyLeaves, Stuck, Config.Valid;
    NothingDrained(cfg, s, due);
    if pages != [] {
      var t, u := (if Overdue(cfg, s, pages[0]) then Flush(cfg, s, pages[0], false) else s), FlushOverdue(cfg, s, pages);
      FlushInv(cfg, s, pages[0], false);
      if t.halt != Running { EachHalted(cfg, t, pages[1..]); }
      StaysSame(s, s, pages[0]);
      if Overdue(cfg, s, pages[0]) { FlushFirst(cfg, s, pages[0]); }
      SameDue(cfg, s, t, pages[0], due);
      FlushOverdueDrains(cfg, t, pages[1..], due);
      if pages[0] in t.buffer && due(pages[0]) { StuckAfter(cfg, t, u, pages[1..], due, pages[0]); }
      DrainedStep(cfg, s, t, u, pages, due);
    }
  }

  lemma SameDue(cfg: Config, s: State, t: State, page: nat, due: nat -> bool)
    requires OnlyLeaves(s, t, page) && forall q :: q in s.buffer ==> (due(q) <==> Overdue(cfg, s, q))
    ensures forall q :: q in t.buffer ==> (due(q) <==> Overdue(cfg, t, q))
    ensures page in t.buffer ==> page in s.buffer
  {
  }

  // ----- a cycle ----------------------------------------------------------------------------------------------

  /** Until a cycle comes to issuing, exactly the pages past the aggregation timeout have left the buffer,
      apart from stuck ones. */
  lemma LatePagesLeave(cfg: Config, s: State)
    requires cfg.Valid() && Inv(cfg, s) && s.halt == Running && Timing.BeforeIssue(cfg, s).halt == Running
    ensures var t := Timing.BeforeIssue(cfg, s);
      && (forall q :: q in t.buffer ==> q in s.buffer && t.buffer[q] == s.buffer[q])
      && (forall q :: q in s.buffer && s.tick + 1 - s.buffer[q].firstTick <= cfg.writeAggTimeout ==> q in t.buffer)
      && (forall q :: q in t.buffer && s.tick + 1 - s.buffer[q].firstTick > cfg.writeAggTimeout ==> Stuck(cfg, t, q))
  {
    hide Tables, HaltOk, MediaHalf, FlushOverdue, Stuck, Config.Valid, SortedKeys;
    var m := MediaHalf(cfg, s);
    MediaHalfInv(cfg, s);
    RunningInv(cfg, m);
    Capacity.MediaHalfRoom(cfg, s);
    var pages := SortedKeys(m.buffer.Keys);
    var due := (q: nat) => q in m.buffer && m.tick - m.buffer[q].firstTick > cfg.writeAggTimeout;
    assert forall q :: q in m.buffer ==> (due(q) <==> Overdue(cfg, m, q));
    FlushOverdueDrains(cfg, m, pages, due);
    assert forall q :: q in m.buffer ==> q in pages;
  }

  lemma {:induction false} LastArrivalIs(buffer: map<nat, Buffered>, pages: seq<nat>)
    ensures forall q :: q in pages && q in buffer ==> buffer[q].lastTick <= LastArrival(buffer, pages)
    ensures LastArrival(buffer, pages) == 0 || exists q :: q in pages && q in buffer && buffer[q].lastTick == LastArrival(buffer, pages)
  {
    if pages != [] {
      LastArrivalIs(buffer, pages[1..]);
      assert pages == [pages[0]] + pages[1..];
      var last := LastArrival(buffer, pages);
      if last != 0 && last == LastArrival(buffer, pages[1..]) {
        var q :| q in pages[1..] && q in buffer && buffer[q].lastTick == last;
        assert q in pages;
      }
    }
  }

  /** Nothing in flight or queued, and no buffered page touched for 100 ticks. */
  predicate Quiet(s: State) {
    s.buffer != map[] && s.mshr == map[] && s.queue == [] && s.tick > 100 && forall q :: q in s.buffer ==> s.tick - s.buffer[q].lastTick > 100
  }

  lemma QuietIs(s: State)
    ensures Quiet(s) <==> s.buffer != map[] && s.mshr == map[] && s.queue == [] && s.tick - LastArrival(s.buffer, SortedKeys(s.buffer.Keys)) > 100
  {
    var pages := SortedKeys(s.buffer.Keys);
    LastArrivalIs(s.buffer, pages);
    if s.buffer != map[] {
      var q :| q in s.buffer;
      assert q in pages;
    }
  }

  /** The idle drain touches the buffer exactly when all is quiet, and then every page goes, apart from
      stuck ones. */
  lemma IdleDrainExactly(cfg: Config, s: State)
    requires cfg.Valid() && Inv(cfg, s) && s.halt == Running && IdleDrain(cfg, s).halt == Running
    ensures var t := IdleDrain(cfg, s);
      && (!Quiet(s) ==> t == s)
      && (Quiet(s) ==> Drained(cfg, s, t, SortedKeys(s.buffer.Keys), q => true))
  {
    hide Tables, HaltOk, FlushEach, LastArrival, Drained, Config.Valid, SortedKeys;
    QuietIs(s);
    if Quiet(s) { FlushEachDrains(cfg, s, SortedKeys(s.buffer.Keys)); }
  }

  // ----- a write arrives ------------------------------------------------------------------------------------------

  /** A write that completes its page sends that page on; one that brings a new page into a full buffer sends
      every page on; any other only joins the buffer. Pages that should go but stay are stuck. */
  lemma PushWriteExactly(cfg: Config, s: State, r: Request, page: nat)
    requires cfg.Valid() && Inv(cfg, s) && s.halt == Running
    requires ChannelOf(cfg, page).Some? && cfg.PageOf(r.addr) == page && r.isWrite && Coverage(cfg, page, r).Some?
    requires Push(cfg, s, r).halt == Running
    ensures var bytes := Coverage(cfg, page, r).value; var u := AddToBuffer(s.(pushed := s.pushed + [r]), r, page, bytes);
      var t := Push(cfg, s, r);
      && (if |u.buffer[page].covered| == cfg.pageSize then OnlyLeaves(u, t, page) && (page in t.buffer ==> Stuck(cfg, t, page))
          else if page !in s.buffer && |s.buffer| + 1 >= (if cfg.writeBufferKnob > 0 then cfg.writeBufferKnob else 32) then Drained(cfg, u, t, SortedKeys(u.buffer.Keys), q => true)
          else t == u)
  {
    hide Tables, HaltOk, Flush, FlushEach, Coverage, ChannelOf, OnlyLeaves, Drained, Stuck, Config.Valid, Buffer, SortedKeys;
    WriteDrain.PageSizePositive(cfg);
    var v := s.(pushed := s.pushed + [r]);
    var bytes := Coverage(cfg, page, r).value;
    var u := AddToBuffer(v, r, page, bytes);
    PushedTables(cfg, s, r);
    AddRunning(cfg, v, r, page, bytes);
    if |u.buffer[page].covered| == cfg.pageSize {
      FlushFirst(cfg, u, page);
    } else if page !in s.buffer && |s.buffer| + 1 >= cfg.WriteBufferMax() {
      FlushEachDrains(cfg, u, SortedKeys(u.buffer.Keys));
    }
  }

  lemma AddRunning(cfg: Config, s: State, r: Request, page: nat, bytes: set<nat>)
    requires cfg.Valid() && Tables(cfg, s) && s.halt == Running && r.isWrite && cfg.PageOf(r.addr) == page && ChannelOf(cfg, page).Some?
        && Coverage(cfg, page, r) == Some(bytes)
    ensures var u := AddToBuffer(s, r, page, bytes);
      Inv(cfg, u) && u.halt == Running && page in u.buffer && |u.buffer| == (if page in s.buffer then |s.buffer| else |s.buffer| + 1)
  {
    hide Tables, Coverage, ChannelOf, Buffer;
    CoverageInPage(cfg, page, r);
    AddToBufferInv(cfg, s, r, page, bytes);
    RunningInv(cfg, AddToBuffer(s, r, page, bytes));
  }

  /** A page keeps the tick of its first write for as long as it is buffered, and has the tick of its latest;
      its requests and bytes are those written. */
  lemma WriteTimes(cfg: Config, s: State, r: Request, page: nat, q: nat)
    requires cfg.Valid() && Inv(cfg, s) && s.halt == Running && ChannelOf(cfg, page).Some? && cfg.PageOf(r.addr) == page && r.isWrite
    requires Coverage(cfg, page, r).Some? && Push(cfg, s, r).halt == Running && q in Push(cfg, s, r).buffer
    ensures var b := Push(cfg, s, r).buffer[q];
      if q == page then
        && b.lastTick == s.tick && b.firstTick == (if page in s.buffer then s.buffer[page].firstTick else s.tick)
        && b.requests == (if page in s.buffer then s.buffer[page].requests else []) + [r]
        && b.covered == (if page in s.buffer then s.buffer[page].covered else {}) + Coverage(cfg, page, r).value
      else q in s.buffer && b == s.buffer[q]
  {
    hide Inv, Flush, FlushEach, Coverage, ChannelOf, Stuck, Config.Valid, Push, SortedKeys, AddToBuffer;
    WriteDrain.PageSizePositive(cfg);
    PushWriteExactly(cfg, s, r, page);
    Added(s.(pushed := s.pushed + [r]), r, page, Coverage(cfg, page, r).value);
  }

  lemma Added(s: State, r: Request, page: nat, bytes: set<nat>)
    ensures var t := AddToBuffer(s, r, page, bytes);
      && page in t.buffer && (forall q :: q in t.buffer && q != page ==> q in s.buffer && t.buffer[q] == s.buffer[q])
      && var b := t.buffer[page];
      && b.lastTick == s.tick && b.firstTick == (if page in s.buffer then s.buffer[page].firstTick else s.tick)
      && b.requests == (if page in s.buffer then s.buffer[page].requests else []) + [r]
      && b.covered == (if page in s.buffer then s.buffer[page].covered else {}) + bytes
  {
    assert [] + [r] == [r];
    assert {} + bytes == bytes;
  }

  // ----- a read of a buffered page -----------------------------------------------------------------------------

  /** A read forces its buffered page out, whatever the limit of outstanding writes, unless an entry of that
      page is still in the device; it then follows the writes that were buffered, or joins that entry. */
  lemma ReadForcesFlush(cfg: Config, s: State, r: Request, page: nat)
    requires cfg.Valid() && Inv(cfg, s) && s.halt == Running && ChannelOf(cfg, page).Some? && cfg.PageOf(r.addr) == page && !r.isWrite
    requires page in s.buffer && Push(cfg, s, r).halt == Running
    ensures var t := Push(cfg, s, r);
      && (page in t.buffer <==> page in s.mshr) && page in t.mshr
      && t.mshr[page].pending == (if page in s.mshr then s.mshr[page].pending else s.buffer[page].requests) + [r]
      && (page !in s.mshr ==> t.mshr[page].isWriteOp && t.mshr[page].op == Waiting)
  {
    hide Tables, HaltOk, Flush, ChannelOf, Config.Valid, NewRead, OnlyLeaves, AddWrite, Stuck, Attached, Coalesced, Flushed;
    var v := s.(pushed := s.pushed + [r]);
    PushedTables(cfg, s, r);
    RunningInv(cfg, v);
    FlushExactly(cfg, v, page, true);
    FlushOutcome(cfg, v, page, true);
    var u := Flush(cfg, v, page, true);
    AttachedLast(cfg, u.mshr[page], r);
    if page !in s.mshr { FlushedEntry(v, u, page); }
  }

  lemma AttachedLast(cfg: Config, e: Entry, r: Request)
    ensures Attached(e, r).pending == e.pending + [r] && Coalesced(cfg, e, r).pending == e.pending + [r]
    ensures Attached(e, r).isWriteOp == e.isWriteOp == Coalesced(cfg, e, r).isWriteOp && Attached(e, r).op == e.op == Coalesced(cfg, e, r).op
  {
  }

  lemma FlushedEntry(s: State, t: State, page: nat)
    requires Flushed(s, t, page)
    ensures page in s.buffer && page in t.mshr && t.mshr[page].pending == s.buffer[page].requests && t.mshr[page].isWriteOp && t.mshr[page].op == Waiting
  {
    hide RequestedBytes;
  }

  // ----- outstanding writes ----------------------------------------------------------------------------------------

  predicate Within(s: State, bound: nat) { forall c :: 0 <= c < |s.channels| ==> s.channels[c].outstandingWrites <= bound }

  /** A flush that is not forced respects the limit of outstanding writes of a channel. */
  lemma FlushWithin(cfg: Config, s: State, page: nat, bound: nat)
    requires Within(s, bound) && cfg.maxOutstandingWrites <= bound
    ensures Within(Flush(cfg, s, page, false), bound) && Within(Flush(cfg, s, page, true), bound + 1)
  {
    hide FlushMapped, DirectAddress, ChannelOf, Issue;
    if s.halt == Running && page in s.buffer && page !in s.mshr && ChannelOf(cfg, page).Some? {
      var ch := ChannelOf(cfg, page).value;
      FlushMappedWrites(cfg, s, page, ch);
      if DirectAddress(cfg, page, ch).Some? { IssueWrites(s, page, ch, DirectAddress(cfg, page, ch).value); }
    }
  }

  predicate OneMore(s: State, t: State, ch: nat) { t.channels == s.channels || t.channels == AddWrite(s.channels, ch) }

  lemma IssueWrites(s: State, page: nat, ch: nat, phys: Phys)
    requires page in s.buffer
    ensures OneMore(s, Issue(s, page, ch, phys), ch)
  {
    hide WriteEntry, AddWrite;
  }

  lemma FlushMappedWrites(cfg: Config, s: State, page: nat, ch: nat)
    requires page in s.buffer
    ensures OneMore(s, FlushMapped(cfg, s, page, ch), ch)
  {
    hide Ftl.TranslateWrite, InChannel, Issue, AddWrite;
    var (f, phys) := Ftl.TranslateWrite(cfg, s.ftl, page);
    if phys.Some? { IssueWrites(s.(ftl := f), page, ch, phys.value); }
  }

  lemma {:induction false} FlushEachWithin(cfg: Config, s: State, pages: seq<nat>, bound: nat)
    requires Within(s, bound) && cfg.maxOutstandingWrites <= bound
    ensures Within(FlushEach(cfg, s, pages), bound) && Within(FlushOverdue(cfg, s, pages), bound)
    decreases |pages|
  {
    hide Flush, Within, Overdue;
    if pages != [] {
      FlushWithin(cfg, s, pages[0], bound);
      FlushEachWithin(cfg, Flush(cfg, s, pages[0], false), pages[1..], bound);
      FlushEachWithin(cfg, s, pages[1..], bound);
    }
  }

  lemma DeliverOneWithin(cfg: Config, s: State, k: nat, bound: nat)
    requires Within(s, bound)
    ensures Within(DeliverOne(cfg, s, k), bound)
  {
    hide Affordable, CacheInsert, LinkBytes;
  }

  lemma {:induction false} DeliverEachWithin(cfg: Config, s: State, keys: seq<nat>, bound: nat)
    requires Within(s, bound)
    ensures Within(DeliverEach(cfg, s, keys), bound)
    decreases |keys|
  {
    hide DeliverOne, Within;
    if keys != [] {
      DeliverOneWithin(cfg, s, keys[0], bound);
      DeliverEachWithin(cfg, DeliverOne(cfg, s, keys[0]), keys[1..], bound);
    }
  }

  lemma SameWithin(s: State, t: State, bound: nat)
    requires Within(s, bound) && t.channels == s.channels
    ensures Within(t, bound)
  {
  }

  lemma BeginWithin(cfg: Config, s: State, bound: nat)
    requires Within(s, bound)
    ensures Within(BeginTick(cfg, s), bound)
  {
    hide Released;
  }

  lemma CycleWithin(cfg: Config, s: State, bound: nat)
    requires Within(s, bound) && cfg.maxOutstandingWrites <= bound
    ensures Within(Cycle(cfg, s), bound)
  {
    hide BeginTick, AdvanceEach, ReadyHits, DeliverEach, DrainWindow, FlushOverdue, FlushEach, ScheduleUpTo, LastArrival, Within, SortedKeys;
    var s1 := BeginTick(cfg, s);
    BeginWithin(cfg, s, bound);
    var s2 := AdvanceEach(cfg, s1, SortedKeys(s1.active));
    Limits.AdvanceEachChannels(cfg, s1, SortedKeys(s1.active));
    var s3 := ReadyHits(s2);
    Limits.QuietLinks(cfg, s2);
    SameWithin(s1, s3, bound);
    var s4 := DeliverEach(cfg, s3, SortedKeys(s3.mshr.Keys));
    DeliverEachWithin(cfg, s3, SortedKeys(s3.mshr.Keys), bound);
    Limits.QuietLinks(cfg, s4);
    var s5 := DrainWindow(cfg, s4);
    SameWithin(s4, s5, bound);
    FlushEachWithin(cfg, s5, SortedKeys(s5.buffer.Keys), bound);
    var s6 := FlushOverdue(cfg, s5, SortedKeys(s5.buffer.Keys));
    Limits.ScheduleUpToChannels(cfg, s6, cfg.MaxActive());
    SameWithin(s6, Schedule(cfg, s6), bound);
    FlushEachWithin(cfg, Schedule(cfg, s6), SortedKeys(Schedule(cfg, s6).buffer.Keys), bound);
  }

  lemma PushWithin(cfg: Config, s: State, r: Request, bound: nat)
    requires cfg.pageSize > 0 && Within(s, bound) && cfg.maxOutstandingWrites <= bound
    ensures Within(Push(cfg, s, r), if r.isWrite then bound else bound + 1)
  {
    hide ChannelOf, Coverage, Flush, FlushEach, NewRead, AddToBuffer, Attached, Coalesced, Within;
    var page := cfg.PageOf(r.addr);
    var t := s.(pushed := s.pushed + [r]);
    SameWithin(s, t, bound);
    MoreWithin(s, bound);
    MoreWithin(t, bound);
    if ChannelOf(cfg, page).Some? {
      if r.isWrite {
        if Coverage(cfg, page, r).Some? {
          var u := AddToBuffer(t, r, page, Coverage(cfg, page, r).value);
          AddedChannels(t, r, page, Coverage(cfg, page, r).value);
          SameWithin(t, u, bound);
          FlushWithin(cfg, u, page, bound);
          FlushEachWithin(cfg, u, SortedKeys(u.buffer.Keys), bound);
        }
        SameWithin(t, t.(halt := CoverageCrossesPage), bound);
      } else {
        PushReadWithin(cfg, t, r, page, ChannelOf(cfg, page).value, bound);
      }
    }
    SameWithin(t, t.(halt := Unplaced), bound);
    MoreWithin(t.(halt := Unplaced), bound);
  }

  lemma PushReadWithin(cfg: Config, s: State, r: Request, page: nat, ch: nat, bound: nat)
    requires Within(s, bound) && cfg.maxOutstandingWrites <= bound
    ensures Within(PushRead(cfg, s, r, page, ch), bound + 1)
  {
    hide Flush, NewRead, Attached, Coalesced, Within;
    MoreWithin(s, bound);
    FlushWithin(cfg, s, page, bound);
    var u := if page in s.buffer then Flush(cfg, s, page, true) else s;
    NewReadChannels(cfg, u, r, page, ch);
    SameWithin(u, NewRead(cfg, u, r, page, ch), bound + 1);
    SameWithin(u, PushRead(cfg, s, r, page, ch), bound + 1);
  }

  lemma NewReadChannels(cfg: Config, s: State, r: Request, page: nat, ch: nat)
    ensures NewRead(cfg, s, r, page, ch).channels == s.channels
  {
    hide Ftl.TranslateRead, InChannel, DirectAddress, ReadEntry;
  }

  lemma AddedChannels(s: State, r: Request, page: nat, bytes: set<nat>)
    ensures AddToBuffer(s, r, page, bytes).channels == s.channels
  {
    hide Buffer;
  }

  lemma MoreWithin(s: State, bound: nat)
    requires Within(s, bound)
    ensures Within(s, bound + 1)
  {
  }

  /** Reads pushed in a run. */
  function Reads(calls: seq<Call>): nat {
    if calls == [] then 0 else (if calls[0].CallPush? && !calls[0].request.isWrite then 1 else 0) + Reads(calls[1..])
  }

  /** In any run a channel has no more outstanding writes than its limit, plus one for each read pushed: only
      a read of a buffered page may force one more. */
  lemma {:induction false} OutstandingBound(cfg: Config, s: State, calls: seq<Call>, bound: nat)
    requires cfg.pageSize > 0 && Within(s, bound) && cfg.maxOutstandingWrites <= bound
    ensures Within(Run(cfg, s, calls), bound + Reads(calls))
    decreases |calls|
  {
    hide Push, Cycle, Within;
    if calls != [] {
      var t := Apply(cfg, s, calls[0]);
      if calls[0].CallPush? { PushWithin(cfg, s, calls[0].request, bound); }
      CycleWithin(cfg, s, bound);
      SameWithin(s, Pop(s), bound);
      OutstandingBound(cfg, t, calls[1..], if calls[0].CallPush? && !calls[0].request.isWrite then bound + 1 else bound);
    }
  }

  /** From the empty device. */
  lemma OutstandingWrites(cfg: Config, calls: seq<Call>)
    requires cfg.pageSize > 0
    ensures Within(Run(cfg, Init(cfg), calls), cfg.maxOutstandingWrites + Reads(calls))
  {
    hide Run, Reads;
    OutstandingBound(cfg, Init(cfg), calls, cfg.maxOutstandingWrites);
  }
}
