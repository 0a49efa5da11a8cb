/** The bounded write-drain window of scheduler mode 2, over whole runs of the controller. */
module WriteDrain {
  import opened Basics
  import opened Geometry
  import opened Controller
  import opened ControllerTables
  import opened ControllerInvariant
  import opened ControllerFtl
  import Limits
  import Ftl
  import Lru
  import Nand

  // ----- reads first ----------------------------------------------------------------------------------

  lemma {:induction false} FirstOfKind(s: State, queue: seq<nat>, kind: bool, k: nat)
    requires k in queue && Candidate(s, k) && IsRead(s, k) == kind
    ensures var i := FirstCandidate(s, queue, Some(kind)); i < |queue| && Candidate(s, queue[i]) && IsRead(s, queue[i]) == kind
  {
    hide Candidate, IsRead;
    if !(Candidate(s, queue[0]) && IsRead(s, queue[0]) == kind) {
      assert k in queue[1..];
      FirstOfKind(s, queue[1..], kind, k);
    }
  }

  /** Outside write windows, in both read-priority modes, no write is picked while a read can issue. */
  lemma ReadsFirst(cfg: Config, s: State, k: nat)
    requires (cfg.Scheduler() == 1 || (cfg.Scheduler() == 2 && s.drainUntil == 0)) && k in s.queue && Candidate(s, k)
        && IsRead(s, k)
    ensures var i := Pick(s, PrefersReads(cfg, s), cfg.Scheduler() != 0); i < |s.queue| && Candidate(s, s.queue[i]) && IsRead(s, s.queue[i])
  {
    hide Candidate, IsRead, FirstCandidate;
    FirstOfKind(s, s.queue, true, k);
  }

  /** Inside a window, no read is picked while a write can issue. */
  lemma WritesFirst(cfg: Config, s: State, k: nat)
    requires cfg.Scheduler() == 2 && s.drainUntil != 0 && k in s.queue && Candidate(s, k) && !IsRead(s, k)
    ensures var i := Pick(s, PrefersReads(cfg, s), cfg.Scheduler() != 0); i < |s.queue| && Candidate(s, s.queue[i]) && !IsRead(s, s.queue[i])
  {
    hide Candidate, IsRead, FirstCandidate;
    FirstOfKind(s, s.queue, false, k);
  }

  // ----- first come, first served, and nothing left undone ------------------------------------------------

  lemma {:induction false} FirstIsFirst(s: State, queue: seq<nat>, wanted: Option<bool>, j: nat)
    requires j < |queue| && j < FirstCandidate(s, queue, wanted)
    ensures !Candidate(s, queue[j]) || (wanted.Some? && IsRead(s, queue[j]) != wanted.value)
  {
    hide Candidate, IsRead;
    if j > 0 { FirstIsFirst(s, queue[1..], wanted, j - 1); }
  }

  lemma {:induction false} FirstFits(s: State, queue: seq<nat>, wanted: Option<bool>)
    ensures var i := FirstCandidate(s, queue, wanted);
      i < |queue| ==> Candidate(s, queue[i]) && (wanted.Some? ==> IsRead(s, queue[i]) == wanted.value)
  {
    hide Candidate, IsRead;
    if queue != [] { FirstFits(s, queue[1..], wanted); }
  }

  /** Nothing that could issue is passed over, except entries of the other kind for one of the preferred
      kind. */
  lemma PickIsFirst(s: State, preferReads: bool, typed: bool, j: nat)
    requires j < |s.queue| && j < Pick(s, preferReads, typed) && Candidate(s, s.queue[j])
    ensures var i := Pick(s, preferReads, typed);
      i < |s.queue| && typed && IsRead(s, s.queue[i]) == preferReads && IsRead(s, s.queue[j]) != preferReads
  {
    hide Candidate, IsRead, FirstCandidate;
    var wanted := if typed then Some(preferReads) else None;
    FirstFits(s, s.queue, wanted);
    if j < FirstCandidate(s, s.queue, wanted) { FirstIsFirst(s, s.queue, wanted, j); }
    if typed && j < FirstCandidate(s, s.queue, None) { FirstIsFirst(s, s.queue, None, j); }
  }

  /** Issuing stops only at the active limit, at the budget of issues, or with nothing left that could. */
  lemma {:induction false} ScheduleExhausts(cfg: Config, s: State, budget: nat)
    requires Tables(cfg, s) && s.halt == Running && s.tick > 0
    ensures var t := ScheduleUpTo(cfg, s, budget);
      || (|t.active| >= cfg.maxActiveKnob && t.active != {}) || |t.queue| + budget == |s.queue|
      || forall k :: k in t.queue ==> !Candidate(t, k)
    decreases budget
  {
    hide Tables, Start, Pick, Misplaced, Candidate, PrefersReads;
    NothingMisplaced(cfg, s);
    if budget != 0 && |s.active| < cfg.MaxActive() {
      PickIsCandidate(s, PrefersReads(cfg, s), cfg.Scheduler() != 0);
      var i := Pick(s, PrefersReads(cfg, s), cfg.Scheduler() != 0);
      if i < |s.queue| {
        StartInv(cfg, s, i);
        Limits.StartFrame(cfg, s, i);
        ScheduleExhausts(cfg, Start(cfg, s, i), budget - 1);
      } else {
        forall k | k in s.queue ensures !Candidate(s, k) {
          var j :| 0 <= j < |s.queue| && s.queue[j] == k;
          if Candidate(s, k) { PickIsFirst(s, PrefersReads(cfg, s), cfg.Scheduler() != 0, j); }
        }
      }
    }
  }

  // ----- the controller takes turns -------------------------------------------------------------------

  function WindowOf(s: State): (nat, bool) { (s.drainUntil, s.readDue) }

  predicate IsReadEvent(e: MediaEvent) { e.ReadIssued? || e.CacheServed? }

  /** A read was issued after the first events of the trace. */
  predicate ReadSince(log: seq<MediaEvent>, from: nat) { exists j :: from <= j < |log| && IsReadEvent(log[j]) }

  /** A step that leaves the window and the trace alone. */
  predicate SameWindow(s: State, t: State) { WindowOf(t) == WindowOf(s) && t.media == s.media && t.tick == s.tick }

  lemma FinishWindow(cfg: Config, s: State, k: nat)
    requires k in s.mshr
    ensures SameWindow(s, Finish(cfg, s, k))
  {
    hide Ftl.MarkErased, Finished;
  }

  lemma AdvanceOneWindow(cfg: Config, s: State, sa: nat)
    ensures SameWindow(s, AdvanceOne(cfg, s, sa))
  {
    hide Serves, Nand.Advance, Finish;
    if sa < |s.subs| && Serving(s.mshr, sa) != {} {
      FinishWindow(cfg, s.(subs := s.subs[sa := Nand.Advance(s.subs[sa])], active := s.active - {sa}),
          MinOf(Serving(s.mshr, sa)));
    }
  }

  lemma {:induction false} AdvanceEachWindow(cfg: Config, s: State, sas: seq<nat>)
    ensures SameWindow(s, AdvanceEach(cfg, s, sas))
    decreases |sas|
  {
    hide AdvanceOne;
    if sas != [] {
      AdvanceOneWindow(cfg, s, sas[0]);
      AdvanceEachWindow(cfg, AdvanceOne(cfg, s, sas[0]), sas[1..]);
    }
  }

  lemma DeliverOneWindow(cfg: Config, s: State, k: nat)
    ensures SameWindow(s, DeliverOne(cfg, s, k))
  {
    hide Affordable, CacheInsert, LinkBytes;
  }

  lemma {:induction false} DeliverEachWindow(cfg: Config, s: State, keys: seq<nat>)
    ensures SameWindow(s, DeliverEach(cfg, s, keys))
    decreases |keys|
  {
    hide DeliverOne;
    if keys != [] {
      DeliverOneWindow(cfg, s, keys[0]);
      DeliverEachWindow(cfg, DeliverOne(cfg, s, keys[0]), keys[1..]);
    }
  }

  lemma FlushWindow(cfg: Config, s: State, page: nat, force: bool)
    ensures SameWindow(s, Flush(cfg, s, page, force))
  {
    hide FlushMapped, DirectAddress, ChannelOf, Issue;
    if s.halt == Running && page in s.buffer && ChannelOf(cfg, page).Some? {
      var ch := ChannelOf(cfg, page).value;
      FlushMappedWindow(cfg, s, page, ch);
      if DirectAddress(cfg, page, ch).Some? { IssueWindow(s, page, ch, DirectAddress(cfg, page, ch).value); }
    }
  }

  lemma IssueWindow(s: State, page: nat, ch: nat, phys: Phys)
    requires page in s.buffer
    ensures SameWindow(s, Issue(s, page, ch, phys))
  {
    hide WriteEntry, AddWrite;
  }

  lemma FlushMappedWindow(cfg: Config, s: State, page: nat, ch: nat)
    requires page in s.buffer
    ensures SameWindow(s, FlushMapped(cfg, s, page, ch))
  {
    hide Ftl.TranslateWrite, InChannel, Issue;
    var (f, phys) := Ftl.TranslateWrite(cfg, s.ftl, page);
    if phys.Some? { IssueWindow(s.(ftl := f), page, ch, phys.value); }
  }

  lemma {:induction false} FlushEachWindow(cfg: Config, s: State, pages: seq<nat>)
    ensures SameWindow(s, FlushEach(cfg, s, pages)) && SameWindow(s, FlushOverdue(cfg, s, pages))
    decreases |pages|
  {
    hide Flush, Overdue;
    if pages != [] {
      FlushWindow(cfg, s, pages[0], false);
      FlushEachWindow(cfg, Flush(cfg, s, pages[0], false), pages[1..]);
      FlushEachWindow(cfg, s, pages[1..]);
    }
  }

  lemma StartReadWindow(cfg: Config, s: State, k: nat)
    requires Candidate(s, k)
    ensures var t := StartRead(cfg, s, k);
      WindowOf(t) == WindowOf(s) && t.tick == s.tick && |t.media| == |s.media| + 1 && t.media[..|s.media|] == s.media
          && IsReadEvent(t.media[|s.media|])
  {
    hide Nand.StartRead, Nand.Served, Lru.Without;
  }

  lemma StartWriteWindow(cfg: Config, s: State, k: nat)
    requires Candidate(s, k)
    ensures var t := StartWrite(cfg, s, k);
      WindowOf(t) == WindowOf(s) && t.tick == s.tick && |t.media| == |s.media| + 1 && t.media[..|s.media|] == s.media
          && !IsReadEvent(t.media[|s.media|])
  {
    hide Nand.StartProgram, Nand.StartErase, Ftl.MarkErasing, Ftl.IsErased, Lru.Without, Stored, Padding;
  }

  /** Issuing one operation pays the read that is owed exactly if it is a read. */
  lemma StartWindow(cfg: Config, s: State, i: nat)
    requires i < |s.queue| && Candidate(s, s.queue[i]) && cfg.Scheduler() == 2
    ensures var t := Start(cfg, s, i);
      && t.drainUntil == s.drainUntil && t.tick == s.tick
      && |t.media| == |s.media| + 1 && t.media[..|s.media|] == s.media
      && t.readDue == (s.readDue && !IsReadEvent(t.media[|s.media|]))
  {
    hide StartRead, StartWrite, Candidate, IsRead, IsReadEvent;
    var k := s.queue[i];
    var t := s.(queue := s.queue[..i] + s.queue[i + 1..], readDue := s.readDue && !(cfg.Scheduler() == 2 && IsRead(s, k)));
    SameCandidate(s, t, k);
    if IsRead(s, k) { StartReadWindow(cfg, t, k); } else { StartWriteWindow(cfg, t, k); }
  }

  lemma SameCandidate(s: State, t: State, k: nat)
    requires t.mshr == s.mshr && t.subs == s.subs
    ensures Candidate(t, k) == Candidate(s, k)
  {
  }

  /** The window only changes by reads issued, and the trace only grows. */
  predicate ReadsPay(s: State, t: State) {
    && t.drainUntil == s.drainUntil && t.tick == s.tick && |t.media| >= |s.media| && t.media[..|s.media|] == s.media
    && t.readDue == (s.readDue && !ReadSince(t.media, |s.media|))
  }

  lemma ReadsPayStep(s: State, t: State, u: State)
    requires t.drainUntil == s.drainUntil && t.tick == s.tick && |t.media| == |s.media| + 1 && t.media[..|s.media|] == s.media
    requires t.readDue == (s.readDue && !IsReadEvent(t.media[|s.media|])) && ReadsPay(t, u)
    ensures ReadsPay(s, u)
  {
    hide IsReadEvent;
    assert u.media[..|s.media|] == u.media[..|t.media|][..|s.media|];
    assert u.media[|s.media|] == u.media[..|t.media|][|s.media|];
    if ReadSince(u.media, |t.media|) {
      var j :| |t.media| <= j < |u.media| && IsReadEvent(u.media[j]);
      assert ReadSince(u.media, |s.media|);
    } else if IsReadEvent(t.media[|s.media|]) {
      assert IsReadEvent(u.media[|s.media|]);
    } else {
      forall j | |s.media| <= j < |u.media| ensures !IsReadEvent(u.media[j]) { assert j > |s.media| ==> |t.media| <= j; }
    }
  }

  lemma {:induction false} ScheduleUpToWindow(cfg: Config, s: State, budget: nat)
    requires Tables(cfg, s) && s.halt == Running && s.tick > 0 && cfg.Scheduler() == 2
    ensures ReadsPay(s, ScheduleUpTo(cfg, s, budget))
    decreases budget
  {
    hide Tables, Start, Pick, Misplaced, Candidate, PrefersReads, IsReadEvent, ReadsPay;
    ReadsPayNothing(s);
    NothingMisplaced(cfg, s);
    if budget != 0 && |s.active| < cfg.MaxActive() {
      PickIsCandidate(s, PrefersReads(cfg, s), cfg.Scheduler() != 0);
      var i := Pick(s, PrefersReads(cfg, s), cfg.Scheduler() != 0);
      if i < |s.queue| {
        StartInv(cfg, s, i);
        StartWindow(cfg, s, i);
        ScheduleUpToWindow(cfg, Start(cfg, s, i), budget - 1);
        ReadsPayStep(s, Start(cfg, s, i), ScheduleUpTo(cfg, Start(cfg, s, i), budget - 1));
      }
    }
  }

  lemma ReadsPayNothing(s: State)
    ensures ReadsPay(s, s)
  {
  }

  /** What a cycle has done when it updates the window. */
  function BeforeWindow(cfg: Config, s: State): State {
    var s1 := BeginTick(cfg, s);
    var s3 := ReadyHits(AdvanceEach(cfg, s1, SortedKeys(s1.active)));
    DeliverEach(cfg, s3, SortedKeys(s3.mshr.Keys))
  }

  /** The writes a cycle counts: buffered pages and queued write entries. */
  function PendingWrites(cfg: Config, s: State): nat {
    var t := BeforeWindow(cfg, s);
    |t.buffer| + CountWrites(t.mshr, t.queue)
  }

  lemma MediaHalfTurn(cfg: Config, s: State)
    requires cfg.Scheduler() == 2
    ensures var t := MediaHalf(cfg, s);
      && (t.drainUntil, t.readDue) == UpdateDrain(PendingWrites(cfg, s), cfg.DrainHigh(), s.tick + 1, cfg.drainMaxwait,
          s.drainUntil, s.readDue)
      && t.media == s.media && t.tick == s.tick + 1
  {
    hide AdvanceEach, DeliverEach, CountWrites, Matured, Released, UpdateDrain;
    var s1 := BeginTick(cfg, s);
    AdvanceEachWindow(cfg, s1, SortedKeys(s1.active));
    var s3 := ReadyHits(AdvanceEach(cfg, s1, SortedKeys(s1.active)));
    DeliverEachWindow(cfg, s3, SortedKeys(s3.mshr.Keys));
  }

  lemma IssueHalfTurn(cfg: Config, s: State)
    requires cfg.Valid() && Tables(cfg, s) && s.halt == Running && s.tick > 0 && cfg.Scheduler() == 2
    ensures var t := IdleDrain(cfg, Schedule(cfg, FlushOverdue(cfg, s, SortedKeys(s.buffer.Keys))));
      t.halt == Running ==> ReadsPay(s, t)
  {
    hide Tables, HaltOk, FlushOverdue, FlushEach, ScheduleUpTo, LastArrival, Config.Valid, ReadSince;
    RunningInv(cfg, s);
    var pages := SortedKeys(s.buffer.Keys);
    FlushOverdueInv(cfg, s, pages);
    FlushEachWindow(cfg, s, pages);
    var s6 := FlushOverdue(cfg, s, pages);
    if s6.halt == Running { ScheduleUpToWindow(cfg, s6, cfg.MaxActive()); }
    var s7 := Schedule(cfg, s6);
    FlushEachWindow(cfg, s7, SortedKeys(s7.buffer.Keys));
    HaltedCycle(cfg, s6);
  }

  /** Whether this cycle issues a read. */
  ghost predicate IssuesRead(cfg: Config, s: State) { ReadSince(Cycle(cfg, s).media, |s.media|) }

  /** A cycle moves the window as `hbf_update_write_drain` says for the writes it counts, and a read it
      issues pays what is owed. */
  lemma CycleTurns(cfg: Config, s: State)
    requires cfg.Valid() && Inv(cfg, s) && s.halt == Running && cfg.Scheduler() == 2 && Cycle(cfg, s).halt == Running
    ensures var t := Cycle(cfg, s);
      var (until, due) := UpdateDrain(PendingWrites(cfg, s), cfg.DrainHigh(), s.tick + 1, cfg.drainMaxwait, s.drainUntil,
          s.readDue);
      t.drainUntil == until && t.readDue == (due && !IssuesRead(cfg, s)) && t.tick == s.tick + 1
  {
    hide Tables, HaltOk, MediaHalf, FlushOverdue, Schedule, IdleDrain, Config.Valid, ReadSince, UpdateDrain, PendingWrites;
    MediaHalfInv(cfg, s);
    MediaHalfTurn(cfg, s);
    IssueHalfTurn(cfg, MediaHalf(cfg, s));
  }

  lemma HaltedCycle(cfg: Config, s: State)
    ensures s.halt != Running ==> IdleDrain(cfg, Schedule(cfg, s)).halt != Running
  {
    hide FlushEach, LastArrival, ScheduleUpTo;
  }

  lemma PushWriteWindow(cfg: Config, s: State, r: Request, page: nat)
    requires cfg.pageSize > 0
    ensures SameWindow(s, PushWrite(cfg, s, r, page))
  {
    hide Coverage, Flush, FlushEach, AddToBuffer;
    if Coverage(cfg, page, r).Some? {
      var u := AddToBuffer(s, r, page, Coverage(cfg, page, r).value);
      AddWindow(s, r, page, Coverage(cfg, page, r).value);
      FlushWindow(cfg, u, page, false);
      FlushEachWindow(cfg, u, SortedKeys(u.buffer.Keys));
    }
  }

  lemma PushReadWindow(cfg: Config, s: State, r: Request, page: nat, ch: nat)
    ensures SameWindow(s, PushRead(cfg, s, r, page, ch))
  {
    hide Flush, NewRead, Attached, Coalesced;
    FlushWindow(cfg, s, page, true);
    NewReadWindow(cfg, if page in s.buffer then Flush(cfg, s, page, true) else s, r, page, ch);
  }

  lemma PushWindow(cfg: Config, s: State, r: Request)
    requires cfg.pageSize > 0
    ensures WindowOf(Push(cfg, s, r)) == WindowOf(s) && Push(cfg, s, r).tick == s.tick
  {
    hide ChannelOf, PushWrite, PushRead;
    var page := cfg.PageOf(r.addr);
    var t := s.(pushed := s.pushed + [r]);
    PushWriteWindow(cfg, t, r, page);
    if ChannelOf(cfg, page).Some? { PushReadWindow(cfg, t, r, page, ChannelOf(cfg, page).value); }
  }

  lemma AddWindow(s: State, r: Request, page: nat, bytes: set<nat>)
    ensures SameWindow(s, AddToBuffer(s, r, page, bytes))
  {
  }

  lemma NewReadWindow(cfg: Config, s: State, r: Request, page: nat, ch: nat)
    ensures SameWindow(s, NewRead(cfg, s, r, page, ch))
  {
    hide Ftl.TranslateRead, InChannel, DirectAddress, ReadEntry;
  }

  // ----- when windows open and close -----------------------------------------------------------------------

  /** A window opens exactly when the high mark is reached and no read is owed; it closes exactly at its
      deadline or when the writes fall below the mark; a read is owed exactly from a deadline until one
      issues or the writes fall below the mark. */
  lemma WindowExactly(cfg: Config, s: State)
    requires cfg.Valid() && Inv(cfg, s) && s.halt == Running && cfg.Scheduler() == 2 && Cycle(cfg, s).halt == Running
    ensures var t, high := Cycle(cfg, s), PendingWrites(cfg, s) >= if cfg.drainHighKnob > 0 then cfg.drainHighKnob else 1;
      && (Opening(cfg, s) <==> s.drainUntil == 0 && high && !s.readDue)
      && (Opening(cfg, s) ==> t.drainUntil == Min(s.tick + 1 + cfg.drainMaxwait, 0xFFFF_FFFF_FFFF_FFFF))
      && (s.drainUntil != 0 ==> t.drainUntil == if high && s.tick + 1 < s.drainUntil then s.drainUntil else 0)
      && (t.readDue <==> high && (s.readDue || 0 < s.drainUntil <= s.tick + 1) && !IssuesRead(cfg, s))
  {
    hide Inv, Cycle, Config.Valid, PendingWrites, IssuesRead;
    CycleTurns(cfg, s);
  }

  ghost function PendingIn(mshr: Mshr, queue: seq<nat>): set<nat> { set k | k in queue && PendingWrite(mshr, k) }

  lemma PendingStep(mshr: Mshr, queue: seq<nat>)
    requires Distinct(queue) && queue != []
    ensures queue[0] !in PendingIn(mshr, queue[1..]) && Distinct(queue[1..])
    ensures PendingIn(mshr, queue) == PendingIn(mshr, queue[1..]) + (if PendingWrite(mshr, queue[0]) then {queue[0]} else {})
  {
    hide PendingWrite;
    assert queue == [queue[0]] + queue[1..];
    forall k ensures k in queue <==> k == queue[0] || k in queue[1..] { }
  }

  lemma {:induction false} CountIsSize(mshr: Mshr, queue: seq<nat>)
    requires Distinct(queue)
    ensures CountWrites(mshr, queue) == |PendingIn(mshr, queue)|
  {
    hide PendingWrite, Distinct;
    if queue != [] {
      PendingStep(mshr, queue);
      hide PendingIn;
      CountIsSize(mshr, queue[1..]);
    }
  }

  /** What is counted: the write entries waiting to be issued. */
  lemma CountsQueuedWrites(cfg: Config, s: State)
    requires Tables(cfg, s)
    ensures CountWrites(s.mshr, s.queue) == |set k | k in s.mshr && Queued(s.mshr[k]) && s.mshr[k].isWriteOp|
  {
    hide ActiveOk, BufferOk, CreditOk, WritesOk, FtlOk, PinsOk, InChannel, ChannelOf;
    CountIsSize(s.mshr, s.queue);
    forall k | k in s.queue ensures PendingWrite(s.mshr, k) <==> s.mshr[k].isWriteOp {
      assert EntryOk(cfg, k, s.mshr[k]);
      assert s.mshr[k].pending[0] in s.mshr[k].pending;
    }
    assert PendingIn(s.mshr, s.queue) == set k | k in s.mshr && Queued(s.mshr[k]) && s.mshr[k].isWriteOp;
  }

  // ----- over whole runs ------------------------------------------------------------------------------

  /** The next cycle opens a window. */
  ghost predicate Opening(cfg: Config, s: State) { s.drainUntil == 0 && Cycle(cfg, s).drainUntil != 0 }

  /** The window is open after every one of the calls. */
  ghost predicate OpenThroughout(cfg: Config, s: State, calls: seq<Call>)
    requires cfg.pageSize > 0
    decreases |calls|
  {
    s.drainUntil != 0 && (calls == [] || OpenThroughout(cfg, Apply(cfg, s, calls[0]), calls[1..]))
  }

  /** Some cycle of the run issues a read, or counts fewer writes than the high mark. */
  ghost predicate Relieved(cfg: Config, s: State, calls: seq<Call>)
    requires cfg.pageSize > 0
    decreases |calls|
  {
    calls != [] &&
    ((calls[0].CallCycle? && (IssuesRead(cfg, s) || PendingWrites(cfg, s) < cfg.DrainHigh()))
     || Relieved(cfg, Apply(cfg, s, calls[0]), calls[1..]))
  }

  lemma OtherCalls(cfg: Config, s: State, call: Call)
    requires cfg.pageSize > 0 && !call.CallCycle?
    ensures var t := Apply(cfg, s, call); t.drainUntil == s.drainUntil && t.readDue == s.readDue && t.tick == s.tick
  {
    hide Push;
    match call { case CallPush(r) => PushWindow(cfg, s, r); case CallPop => }
  }

  /** An open window keeps its deadline, and the clock stays before it. */
  lemma {:induction false} KeepsDeadline(cfg: Config, s: State, calls: seq<Call>)
    requires cfg.Valid() && Inv(cfg, s) && cfg.Scheduler() == 2 && Run(cfg, s, calls).halt == Running
        && OpenThroughout(cfg, s, calls)
    ensures Limits.Cycles(calls) > 0 ==> s.tick + Limits.Cycles(calls) < s.drainUntil
    decreases |calls|
  {
    hide Inv, Push, Cycle, Config.Valid, PendingWrites, IssuesRead;
    PageSizePositive(cfg);
    if calls != [] {
      var t := Apply(cfg, s, calls[0]);
      ApplyInv(cfg, s, calls[0]);
      WasRunning(cfg, t, calls[1..]);
      KeepsDeadline(cfg, t, calls[1..]);
      if calls[0].CallCycle? {
        HaltedNothing(cfg, s);
        CycleTurns(cfg, s);
      } else {
        OtherCalls(cfg, s, calls[0]);
      }
    }
  }

  /** In any run, a window stays open for at most max(maxwait, 1) cycles, the one that opens it included. */
  lemma WindowIsShort(cfg: Config, s: State, calls: seq<Call>)
    requires cfg.Valid() && Inv(cfg, s) && cfg.Scheduler() == 2 && Opening(cfg, s)
    requires Run(cfg, Cycle(cfg, s), calls).halt == Running && OpenThroughout(cfg, Cycle(cfg, s), calls)
    ensures 1 + Limits.Cycles(calls) <= if cfg.drainMaxwait > 1 then cfg.drainMaxwait else 1
  {
    hide Inv, Cycle, Config.Valid, PendingWrites, IssuesRead, Run, OpenThroughout, Limits.Cycles;
    PageSizePositive(cfg);
    CycleInv(cfg, s);
    WasRunning(cfg, Cycle(cfg, s), calls);
    HaltedNothing(cfg, s);
    IsOpen(cfg, Cycle(cfg, s), calls);
    CycleTurns(cfg, s);
    KeepsDeadline(cfg, Cycle(cfg, s), calls);
  }

  /** Without relief the window is open or a read is owed. */
  lemma {:induction false} StaysBlocked(cfg: Config, s: State, calls: seq<Call>)
    requires cfg.Valid() && Inv(cfg, s) && cfg.Scheduler() == 2 && (s.drainUntil != 0 || s.readDue)
    requires Run(cfg, s, calls).halt == Running && !Relieved(cfg, s, calls)
    ensures var t := Run(cfg, s, calls); t.drainUntil != 0 || t.readDue
    decreases |calls|
  {
    hide Inv, Push, Cycle, Config.Valid, PendingWrites, IssuesRead;
    PageSizePositive(cfg);
    if calls != [] {
      var t := Apply(cfg, s, calls[0]);
      ApplyInv(cfg, s, calls[0]);
      WasRunning(cfg, t, calls[1..]);
      if calls[0].CallCycle? {
        HaltedNothing(cfg, s);
        CycleTurns(cfg, s);
      } else {
        OtherCalls(cfg, s, calls[0]);
      }
      StaysBlocked(cfg, t, calls[1..]);
    }
  }

  /** In any run, between two openings some cycle issued a read or counted fewer writes than the mark. */
  lemma NoReopening(cfg: Config, s: State, calls: seq<Call>)
    requires cfg.Valid() && Inv(cfg, s) && cfg.Scheduler() == 2 && Opening(cfg, s)
    requires var t := Run(cfg, Cycle(cfg, s), calls); t.halt == Running && Opening(cfg, t) && Cycle(cfg, t).halt == Running
    ensures Relieved(cfg, Cycle(cfg, s), calls)
  {
    hide Inv, Cycle, Config.Valid, PendingWrites, IssuesRead, Run, Relieved;
    PageSizePositive(cfg);
    CycleInv(cfg, s);
    WasRunning(cfg, Cycle(cfg, s), calls);
    HaltedNothing(cfg, s);
    CycleTurns(cfg, s);
    if !Relieved(cfg, Cycle(cfg, s), calls) {
      StaysBlocked(cfg, Cycle(cfg, s), calls);
      RunInv(cfg, Cycle(cfg, s), calls);
      CycleTurns(cfg, Run(cfg, Cycle(cfg, s), calls));
    }
  }

  lemma WasRunning(cfg: Config, s: State, calls: seq<Call>)
    requires cfg.pageSize > 0 && Run(cfg, s, calls).halt == Running
    ensures s.halt == Running
  {
    hide Run;
    if s.halt != Running { Limits.HaltedRun(cfg, s, calls); }
  }

  lemma IsOpen(cfg: Config, s: State, calls: seq<Call>)
    requires cfg.pageSize > 0 && OpenThroughout(cfg, s, calls)
    ensures s.drainUntil != 0
  {
    hide Apply;
  }

  lemma PageSizePositive(cfg: Config)
    requires cfg.Valid()
    ensures cfg.pageSize > 0
  {
  }

  lemma HaltedNothing(cfg: Config, s: State)
    ensures s.halt != Running ==> Cycle(cfg, s) == s
  {
  }
}
