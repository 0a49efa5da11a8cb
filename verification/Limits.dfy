/** Bounds over whole runs: link bandwidth, device occupancy, and the write-drain window. */
module Limits {
  import opened Basics
  import opened Geometry
  import opened Controller
  import opened ControllerTables
  import opened ControllerInvariant
  import History
  import Ftl
  import Lru
  import Nand

  // ----- the link -------------------------------------------------------------------------------------

  /** What a channel has carried, plus what it could carry at once. */
  function Potential(c: Channel): real { c.transferred as real + c.credit }

  predicate SameLinks(s: State, t: State) {
    |t.channels| == |s.channels| && forall c :: 0 <= c < |s.channels| ==> t.channels[c].credit == s.channels[c].credit && t.channels[c].transferred == s.channels[c].transferred
  }

  /** Carrying bytes spends exactly their credit. */
  predicate SpendsCredit(s: State, t: State) {
    |t.channels| == |s.channels| && forall c :: 0 <= c < |s.channels| ==> Potential(t.channels[c]) == Potential(s.channels[c])
  }

  lemma SpendsTrans(s: State, t: State, u: State)
    requires SpendsCredit(s, t) && SpendsCredit(t, u)
    ensures SpendsCredit(s, u)
  {
    hide Potential;
  }

  lemma SameSpends(s: State, t: State)
    requires SameLinks(s, t)
    ensures SpendsCredit(s, t)
  {
  }

  lemma {:induction false} AffordableSpends(pending: seq<Request>, limit: nat, credit: real)
    ensures var (n, left) := Affordable(pending, limit, credit); credit - left == LinkBytes(pending[..n]) as real
    decreases limit
  {
    var n := Affordable(pending, limit, credit).0;
    if n > 0 {
      var cost := if pending[0].isWrite then 0 else pending[0].size;
      AffordableSpends(pending[1..], limit - 1, if cost > 0 then credit - cost as real else credit);
      assert pending[..n][1..] == pending[1..][..n - 1];
    }
  }

  lemma DeliverOneSpends(cfg: Config, s: State, k: nat)
    ensures SpendsCredit(s, DeliverOne(cfg, s, k))
  {
    hide Affordable, CacheInsert, LinkBytes;
    if !(k !in s.mshr || !s.mshr[k].delivering || |s.returnq| >= cfg.returnCapacity || s.mshr[k].channel >= |s.channels|) {
      var e := s.mshr[k];
      AffordableSpends(e.pending, Min(|e.pending|, cfg.returnCapacity - |s.returnq|), s.channels[e.channel].credit);
    }
  }

  lemma {:induction false} DeliverEachSpends(cfg: Config, s: State, keys: seq<nat>)
    ensures SpendsCredit(s, DeliverEach(cfg, s, keys))
    decreases |keys|
  {
    hide DeliverOne, SpendsCredit, Potential;
    if keys == [] {
      SameSpends(s, s);
    } else {
      var t := DeliverOne(cfg, s, keys[0]);
      DeliverOneSpends(cfg, s, keys[0]);
      DeliverEachSpends(cfg, t, keys[1..]);
      SpendsTrans(s, t, DeliverEach(cfg, t, keys[1..]));
    }
  }

  lemma FinishChannels(cfg: Config, s: State, k: nat)
    requires k in s.mshr
    ensures Finish(cfg, s, k).channels == s.channels
  {
    hide Ftl.MarkErased, Finished;
  }

  lemma AdvanceOneChannels(cfg: Config, s: State, sa: nat)
    ensures AdvanceOne(cfg, s, sa).channels == s.channels
  {
    hide Serves, Nand.Advance, Finish;
    if sa < |s.subs| && Serving(s.mshr, sa) != {} {
      FinishChannels(cfg, s.(subs := s.subs[sa := Nand.Advance(s.subs[sa])], active := s.active - {sa}),
          MinOf(Serving(s.mshr, sa)));
    }
  }

  lemma {:induction false} AdvanceEachChannels(cfg: Config, s: State, sas: seq<nat>)
    ensures AdvanceEach(cfg, s, sas).channels == s.channels
    decreases |sas|
  {
    hide AdvanceOne;
    if sas != [] {
      AdvanceOneChannels(cfg, s, sas[0]);
      AdvanceEachChannels(cfg, AdvanceOne(cfg, s, sas[0]), sas[1..]);
    }
  }

  lemma StartReadFrame(cfg: Config, s: State, k: nat)
    requires Candidate(s, k)
    ensures var t := StartRead(cfg, s, k); t.channels == s.channels && t.tick == s.tick && t.queue == s.queue
  {
    hide Nand.StartRead, Nand.Served, Lru.Without;
  }

  lemma StartWriteFrame(cfg: Config, s: State, k: nat)
    requires Candidate(s, k)
    ensures var t := StartWrite(cfg, s, k); t.channels == s.channels && t.tick == s.tick && t.queue == s.queue
  {
    hide Nand.StartProgram, Nand.StartErase, Ftl.MarkErasing, Ftl.IsErased, Lru.Without, Stored, Padding;
  }

  /** Issuing an entry takes it off the queue, and touches neither the links nor the clock. */
  lemma StartFrame(cfg: Config, s: State, i: nat)
    requires i < |s.queue|
    ensures var t := Start(cfg, s, i); t.channels == s.channels && t.tick == s.tick
    ensures Candidate(s, s.queue[i]) ==> Start(cfg, s, i).queue == s.queue[..i] + s.queue[i + 1..]
  {
    hide StartRead, StartWrite, IsRead;
    var k := s.queue[i];
    var t := s.(queue := s.queue[..i] + s.queue[i + 1..], readDue := s.readDue && !(cfg.Scheduler() == 2 && IsRead(s, k)));
    if Candidate(s, k) {
      assert Candidate(t, k);
      StartReadFrame(cfg, t, k);
      StartWriteFrame(cfg, t, k);
    }
  }

  lemma {:induction false} ScheduleUpToChannels(cfg: Config, s: State, budget: nat)
    ensures ScheduleUpTo(cfg, s, budget).channels == s.channels
    decreases budget
  {
    hide Start, Pick, Misplaced, PrefersReads;
    if budget != 0 && |s.active| < cfg.MaxActive() && !(exists k :: k in s.queue && Misplaced(cfg, s, k)) {
      var i := Pick(s, PrefersReads(cfg, s), cfg.Scheduler() != 0);
      if i < |s.queue| {
        StartFrame(cfg, s, i);
        ScheduleUpToChannels(cfg, Start(cfg, s, i), budget - 1);
      }
    }
  }

  lemma IssueLinks(s: State, page: nat, ch: nat, phys: Phys)
    requires page in s.buffer
    ensures SameLinks(s, Issue(s, page, ch, phys))
  {
    hide WriteEntry;
  }

  lemma FlushMappedLinks(cfg: Config, s: State, page: nat, ch: nat)
    requires page in s.buffer
    ensures SameLinks(s, FlushMapped(cfg, s, page, ch))
  {
    hide Ftl.TranslateWrite, InChannel, Issue;
    var (f, phys) := Ftl.TranslateWrite(cfg, s.ftl, page);
    if phys.Some? { IssueLinks(s.(ftl := f), page, ch, phys.value); }
  }

  lemma FlushLinks(cfg: Config, s: State, page: nat, force: bool)
    ensures SameLinks(s, Flush(cfg, s, page, force))
  {
    hide FlushMapped, DirectAddress, ChannelOf, Issue;
    if s.halt == Running && page in s.buffer && ChannelOf(cfg, page).Some? {
      var ch := ChannelOf(cfg, page).value;
      FlushMappedLinks(cfg, s, page, ch);
      if DirectAddress(cfg, page, ch).Some? { IssueLinks(s, page, ch, DirectAddress(cfg, page, ch).value); }
    }
  }

  lemma LinksTrans(s: State, t: State, u: State)
    requires SameLinks(s, t) && SameLinks(t, u)
    ensures SameLinks(s, u)
  {
  }

  lemma {:induction false} FlushEachLinks(cfg: Config, s: State, pages: seq<nat>)
    ensures SameLinks(s, FlushEach(cfg, s, pages)) && SameLinks(s, FlushOverdue(cfg, s, pages))
    decreases |pages|
  {
    hide Flush, Overdue;
    if pages != [] {
      var t := Flush(cfg, s, pages[0], false);
      FlushLinks(cfg, s, pages[0], false);
      FlushEachLinks(cfg, t, pages[1..]);
      FlushEachLinks(cfg, s, pages[1..]);
      LinksTrans(s, t, FlushEach(cfg, t, pages[1..]));
      LinksTrans(s, t, FlushOverdue(cfg, t, pages[1..]));
    }
  }

  lemma {:induction false} PushLinks(cfg: Config, s: State, r: Request)
    requires cfg.pageSize > 0
    ensures SameLinks(s, Push(cfg, s, r))
  {
    hide ChannelOf, Coverage, Flush, FlushEach, NewRead, AddToBuffer, SameLinks, Attached, Coalesced;
    SelfLinks(s);
    if s.halt == Running {
      var page := cfg.PageOf(r.addr);
      var t := s.(pushed := s.pushed + [r]);
      SelfLinks(t);
      if ChannelOf(cfg, page).Some? {
        if r.isWrite {
          if Coverage(cfg, page, r).Some? {
            var u := AddToBuffer(t, r, page, Coverage(cfg, page, r).value);
            BufferLinks(t, r, page, Coverage(cfg, page, r).value);
            FlushLinks(cfg, u, page, false);
            FlushEachLinks(cfg, u, SortedKeys(u.buffer.Keys));
            LinksTrans(t, u, Flush(cfg, u, page, false));
            LinksTrans(t, u, FlushEach(cfg, u, SortedKeys(u.buffer.Keys)));
          }
          FrameLinks(s, t, PushWrite(cfg, t, r, page));
        } else {
          var u := if page in t.buffer then Flush(cfg, t, page, true) else t;
          FlushLinks(cfg, t, page, true);
          NewReadLinks(cfg, u, r, page, ChannelOf(cfg, page).value);
          LinksTrans(t, u, NewRead(cfg, u, r, page, ChannelOf(cfg, page).value));
          FrameLinks(t, u, PushRead(cfg, t, r, page, ChannelOf(cfg, page).value));
          FrameLinks(s, t, PushRead(cfg, t, r, page, ChannelOf(cfg, page).value));
        }
      }
      FrameLinks(s, t, t.(halt := Unplaced));
    }
  }

  lemma SelfLinks(s: State)
    ensures SameLinks(s, s)
  {
  }

  lemma BufferLinks(s: State, r: Request, page: nat, bytes: set<nat>)
    ensures SameLinks(s, AddToBuffer(s, r, page, bytes))
  {
  }

  lemma NewReadLinks(cfg: Config, s: State, r: Request, page: nat, ch: nat)
    ensures SameLinks(s, NewRead(cfg, s, r, page, ch))
  {
    hide Ftl.TranslateRead, InChannel, DirectAddress;
  }

  lemma FrameLinks(s: State, t: State, u: State)
    ensures SameLinks(s, t) && (u.channels == t.channels || SameLinks(t, u)) ==> SameLinks(s, u)
    ensures s.channels == t.channels && SameLinks(t, u) ==> SameLinks(s, u)
    ensures s.channels == t.channels && u.channels == t.channels ==> SameLinks(s, u)
  {
  }

  /** One cycle: a tick's bandwidth flows into the bucket, which holds one tick's bandwidth or 128 bytes,
      and bytes carried flow out. */
  lemma CycleCredit(cfg: Config, s: State, c: nat)
    requires cfg.Valid() && Inv(cfg, s) && s.halt == Running && c < |s.channels|
    ensures var t := Cycle(cfg, s); var bucket := if cfg.bandwidth > 128.0 then cfg.bandwidth else 128.0;
      && |t.channels| == |s.channels|
      && Potential(t.channels[c]) == s.channels[c].transferred as real
           + (if s.channels[c].credit + cfg.bandwidth > bucket then bucket else s.channels[c].credit + cfg.bandwidth)
  {
    hide Inv, AdvanceEach, ReadyHits, DeliverEach, DrainWindow, FlushOverdue, FlushEach, ScheduleUpTo, LastArrival, Config.Valid;
    var s1 := BeginTick(cfg, s);
    var s2 := AdvanceEach(cfg, s1, SortedKeys(s1.active));
    AdvanceEachChannels(cfg, s1, SortedKeys(s1.active));
    var s3 := ReadyHits(s2);
    QuietLinks(cfg, s2);
    var s4 := DeliverEach(cfg, s3, SortedKeys(s3.mshr.Keys));
    DeliverEachSpends(cfg, s3, SortedKeys(s3.mshr.Keys));
    QuietLinks(cfg, s4);
    var s5 := DrainWindow(cfg, s4);
    FlushEachLinks(cfg, s5, SortedKeys(s5.buffer.Keys));
    var s6 := FlushOverdue(cfg, s5, SortedKeys(s5.buffer.Keys));
    ScheduleUpToChannels(cfg, s6, cfg.MaxActive());
    var s7 := Schedule(cfg, s6);
    FlushEachLinks(cfg, s7, SortedKeys(s7.buffer.Keys));
  }

  /** The potential grows by at most a tick's bandwidth and never exceeds the bytes carried before it by
      more than the bucket. */
  lemma CycleLink(cfg: Config, s: State, c: nat)
    requires cfg.Valid() && Inv(cfg, s) && s.halt == Running && c < |s.channels|
    ensures var t := Cycle(cfg, s);
      && |t.channels| == |s.channels|
      && Potential(t.channels[c]) <= Potential(s.channels[c]) + cfg.bandwidth
      && Potential(t.channels[c]) <= s.channels[c].transferred as real + cfg.MaxCredit()
  {
    hide Inv, Cycle, Config.Valid;
    CycleCredit(cfg, s, c);
  }

  lemma QuietLinks(cfg: Config, s: State)
    ensures ReadyHits(s).channels == s.channels && DrainWindow(cfg, s).channels == s.channels
  {
    hide UpdateDrain, CountWrites, Matured;
  }

  function Cycles(calls: seq<Call>): nat {
    if calls == [] then 0 else (if calls[0].CallCycle? then 1 else 0) + Cycles(calls[1..])
  }

  lemma ApplyLink(cfg: Config, s: State, call: Call, c: nat)
    requires cfg.Valid() && Inv(cfg, s) && c < |s.channels|
    ensures var t := Apply(cfg, s, call);
      && |t.channels| == |s.channels|
      && (if call.CallCycle? && s.halt == Running then
            && Potential(t.channels[c]) <= Potential(s.channels[c]) + cfg.bandwidth
            && Potential(t.channels[c]) <= s.channels[c].transferred as real + cfg.MaxCredit()
          else t.channels[c].transferred == s.channels[c].transferred && t.channels[c].credit == s.channels[c].credit)
  {
    hide Inv, Push, Potential;
    match call
    case CallPush(r) => PushLinks(cfg, s, r);
    case CallCycle =>
      if s.halt == Running { CycleLink(cfg, s, c); }
      hide Cycle;
    case CallPop =>
  }

  /** Over any calls containing T cycles: at most T more ticks' worth of bandwidth. */
  lemma {:induction false} RunPotential(cfg: Config, s: State, calls: seq<Call>, c: nat)
    requires cfg.Valid() && Inv(cfg, s) && c < |s.channels|
    ensures var t := Run(cfg, s, calls);
      |t.channels| == |s.channels| && Potential(t.channels[c]) <= Potential(s.channels[c]) + Cycles(calls) as real * cfg.bandwidth
    decreases |calls|
  {
    hide Inv, Apply;
    if calls != [] {
      ApplyInv(cfg, s, calls[0]);
      ApplyLink(cfg, s, calls[0], c);
      RunPotential(cfg, Apply(cfg, s, calls[0]), calls[1..], c);
    }
  }

  /** The link bound: in any stretch of a run with T > 0 cycles a channel carries at most one full bucket
      and T - 1 ticks of bandwidth. */
  lemma {:induction false} LinkBound(cfg: Config, s: State, calls: seq<Call>, c: nat)
    requires cfg.Valid() && Inv(cfg, s) && s.halt == Running && c < |s.channels| && Cycles(calls) > 0
    ensures var t := Run(cfg, s, calls);
      |t.channels| == |s.channels| && (t.halt == Running ==>
        (t.channels[c].transferred - s.channels[c].transferred) as real <= cfg.MaxCredit() + (Cycles(calls) - 1) as real * cfg.bandwidth)
    decreases |calls|
  {
    hide Tables, HaltOk, Apply, Potential;
    var t := Apply(cfg, s, calls[0]);
    var rest := calls[1..];
    ApplyInv(cfg, s, calls[0]);
    ApplyLink(cfg, s, calls[0], c);
    RunPotential(cfg, t, rest, c);
    RunInv(cfg, t, rest);
    var u := Run(cfg, t, rest);
    if t.halt != Running {
      HaltedRun(cfg, t, rest);
    } else if calls[0].CallCycle? {
      if u.halt == Running {
        CreditNonnegative(cfg, u, c);
        PotentialIs(u.channels[c]);
      }
    } else {
      LinkBound(cfg, t, rest, c);
    }
  }

  /** From the empty device a channel carries no more than the bandwidth of the cycles so far: the buckets
      start empty. */
  lemma LinkFromStart(cfg: Config, calls: seq<Call>, c: nat)
    requires cfg.Valid() && c < cfg.Channels()
    ensures var t := Run(cfg, Init(cfg), calls);
      |t.channels| == cfg.Channels() && (t.halt == Running ==> t.channels[c].transferred as real <= Cycles(calls) as real * cfg.bandwidth)
  {
    hide Tables, HaltOk, Run, Cycles, Potential;
    InitInv(cfg);
    RunPotential(cfg, Init(cfg), calls, c);
    RunInv(cfg, Init(cfg), calls);
    PotentialIs(Init(cfg).channels[c]);
    var t := Run(cfg, Init(cfg), calls);
    if t.halt == Running {
      PotentialIs(t.channels[c]);
      CreditNonnegative(cfg, t, c);
    }
  }

  lemma PotentialIs(c: Channel)
    ensures Potential(c) == c.transferred as real + c.credit
  {
  }

  lemma CreditNonnegative(cfg: Config, s: State, c: nat)
    requires Tables(cfg, s) && c < |s.channels|
    ensures 0.0 <= s.channels[c].credit <= cfg.MaxCredit()
  {
    hide EntriesOk, QueueOk, ActiveOk, BufferOk, WritesOk;
  }

  lemma {:induction false} HaltedRun(cfg: Config, s: State, calls: seq<Call>)
    requires cfg.pageSize > 0 && s.halt != Running
    ensures Run(cfg, s, calls) == s
    decreases |calls|
  {
    if calls != [] { HaltedRun(cfg, s, calls[1..]); }
  }

  /** In any run, no more sub-arrays are busy at once than the knob says. */
  lemma ActiveBound(cfg: Config, calls: seq<Call>)
    requires cfg.Valid() && Run(cfg, Init(cfg), calls).halt == Running
    ensures |Run(cfg, Init(cfg), calls).active| <= if cfg.maxActiveKnob > 0 then cfg.maxActiveKnob else 1
  {
    hide Run, Config.Valid, EntriesOk, QueueOk, BufferOk, CreditOk, WritesOk, BusyOk, FlightOk, HaltOk;
    ReachableInv(cfg, calls);
  }

  // ----- occupancy ------------------------------------------------------------------------------------

  /** Page operations in the device: the quantity `full` compares with its limit. */
  function Occupancy(s: State): nat { |s.mshr| + |s.buffer| }

  lemma KeysSize<K, A, B>(m: map<K, A>, n: map<K, B>)
    requires m.Keys <= n.Keys
    ensures |m| <= |n|
  {
    Subset(m.Keys, n.Keys);
    assert |m| == |m.Keys| && |n| == |n.Keys|;
  }

  lemma {:induction false} Subset<K>(a: set<K>, b: set<K>)
    requires a <= b
    ensures |a| <= |b|
  {
    if a != {} {
      var x :| x in a;
      Subset(a - {x}, b - {x});
    }
  }

  lemma FlushedOccupancy(s: State, t: State, page: nat)
    requires Flushed(s, t, page)
    ensures Occupancy(t) == Occupancy(s)
  {
    hide WriteEntry;
    assert t.mshr.Keys == s.mshr.Keys + {page} && t.buffer.Keys == s.buffer.Keys - {page};
    assert |t.mshr| == |t.mshr.Keys| && |t.buffer| == |t.buffer.Keys| && |s.mshr| == |s.mshr.Keys|
        && |s.buffer| == |s.buffer.Keys|;
  }

  lemma FlushOccupancy(cfg: Config, s: State, page: nat, force: bool)
    requires cfg.Valid() && Inv(cfg, s)
    ensures var t := Flush(cfg, s, page, force); t.halt == Running ==> Occupancy(t) == Occupancy(s)
  {
    hide Inv, Flush, Flushed, Occupancy, Config.Valid;
    FlushOutcome(cfg, s, page, force);
    if Flushed(s, Flush(cfg, s, page, force), page) { FlushedOccupancy(s, Flush(cfg, s, page, force), page); }
  }

  lemma FlushHalted(cfg: Config, s: State, page: nat, force: bool)
    requires s.halt != Running
    ensures Flush(cfg, s, page, force) == s
  {
  }

  lemma {:induction false} FlushEachOccupancy(cfg: Config, s: State, pages: seq<nat>)
    requires cfg.Valid() && Inv(cfg, s)
    ensures var t := FlushEach(cfg, s, pages); t.halt == Running ==> s.halt == Running && Occupancy(t) == Occupancy(s)
    ensures var t := FlushOverdue(cfg, s, pages); t.halt == Running ==> s.halt == Running && Occupancy(t) == Occupancy(s)
    decreases |pages|
  {
    hide Inv, Flush, Overdue, Occupancy, Config.Valid;
    if pages != [] {
      var t := Flush(cfg, s, pages[0], false);
      FlushInv(cfg, s, pages[0], false);
      FlushOccupancy(cfg, s, pages[0], false);
      if s.halt != Running { FlushHalted(cfg, s, pages[0], false); }
      FlushEachOccupancy(cfg, t, pages[1..]);
      FlushEachOccupancy(cfg, s, pages[1..]);
    }
  }

  lemma SameOccupancy(s: State, t: State)
    requires History.SameRequests(s, t)
    ensures Occupancy(t) == Occupancy(s)
  {
    assert |t.mshr| == |t.mshr.Keys| && |s.mshr| == |s.mshr.Keys|;
  }

  lemma DeliverOneOccupancy(cfg: Config, s: State, k: nat)
    ensures DeliverOne(cfg, s, k).mshr.Keys <= s.mshr.Keys && DeliverOne(cfg, s, k).buffer == s.buffer
  {
    hide Affordable, CacheInsert, LinkBytes;
  }

  lemma {:induction false} DeliverEachOccupancy(cfg: Config, s: State, keys: seq<nat>)
    ensures DeliverEach(cfg, s, keys).mshr.Keys <= s.mshr.Keys && DeliverEach(cfg, s, keys).buffer == s.buffer
    decreases |keys|
  {
    hide DeliverOne;
    if keys != [] {
      DeliverOneOccupancy(cfg, s, keys[0]);
      DeliverEachOccupancy(cfg, DeliverOne(cfg, s, keys[0]), keys[1..]);
    }
  }

  lemma CycleOccupancy(cfg: Config, s: State)
    requires cfg.Valid() && Inv(cfg, s)
    ensures var t := Cycle(cfg, s); t.halt == Running ==> Occupancy(t) <= Occupancy(s)
  {
    hide Tables, HaltOk, BeginTick, AdvanceEach, ReadyHits, DeliverEach, DrainWindow, FlushOverdue, FlushEach,
        ScheduleUpTo, LastArrival, Config.Valid, History.SameRequests;
    if s.halt == Running {
      var s1 := BeginTick(cfg, s);
      History.BeginTickSame(cfg, s);
      SameOccupancy(s, s1);
      var s2 := AdvanceEach(cfg, s1, SortedKeys(s1.active));
      History.AdvanceEachSame(cfg, s1, SortedKeys(s1.active));
      SameOccupancy(s1, s2);
      var s3 := ReadyHits(s2);
      History.ReadyHitsSame(s2);
      SameOccupancy(s2, s3);
      var s4 := DeliverEach(cfg, s3, SortedKeys(s3.mshr.Keys));
      DeliverEachOccupancy(cfg, s3, SortedKeys(s3.mshr.Keys));
      KeysSize(s4.mshr, s3.mshr);
      var s5 := DrainWindow(cfg, s4);
      History.DrainWindowSame(cfg, s4);
      SameOccupancy(s4, s5);
      MediaHalfInv(cfg, s);
      assert s5 == MediaHalf(cfg, s);
      RunningInv(cfg, s5);
      var pages := SortedKeys(s5.buffer.Keys);
      FlushOverdueInv(cfg, s5, pages);
      FlushEachOccupancy(cfg, s5, pages);
      var s6 := FlushOverdue(cfg, s5, pages);
      History.ScheduleUpToSame(cfg, s6, cfg.MaxActive());
      ScheduleInv(cfg, s6);
      SameOccupancy(s6, ScheduleUpTo(cfg, s6, cfg.MaxActive()));
      var s7 := Schedule(cfg, s6);
      FlushEachOccupancy(cfg, s7, SortedKeys(s7.buffer.Keys));
    }
  }

  lemma AddedOccupancy(s: State, r: Request, page: nat, bytes: set<nat>)
    ensures Occupancy(AddToBuffer(s, r, page, bytes)) <= Occupancy(s) + 1
  {
    var t := AddToBuffer(s, r, page, bytes);
    assert t.buffer.Keys == s.buffer.Keys + {page};
    assert |t.buffer| == |t.buffer.Keys| && |s.buffer| == |s.buffer.Keys|;
  }

  lemma EnteredOccupancy(cfg: Config, s: State, t: State, r: Request, page: nat, ch: nat)
    requires ReadEntered(cfg, s, t, r, page, ch)
    ensures Occupancy(t) <= Occupancy(s) + 1
  {
    hide ReadEntry;
    assert t.mshr.Keys == s.mshr.Keys + {page};
    assert |t.mshr| == |t.mshr.Keys| && |s.mshr| == |s.mshr.Keys|;
  }

  lemma AttachedOccupancy(s: State, k: nat, e: Entry)
    requires k in s.mshr
    ensures Occupancy(s.(mshr := s.mshr[k := e])) == Occupancy(s)
  {
    assert s.mshr[k := e].Keys == s.mshr.Keys;
    assert |s.mshr[k := e]| == |s.mshr[k := e].Keys| && |s.mshr| == |s.mshr.Keys|;
  }

  lemma PushOccupancy(cfg: Config, s: State, r: Request)
    requires cfg.Valid() && Inv(cfg, s)
    ensures var t := Push(cfg, s, r); t.halt == Running ==> Occupancy(t) <= Occupancy(s) + 1
  {
    hide Tables, HaltOk, ChannelOf, Coverage, Flush, FlushEach, NewRead, AddToBuffer, Attached, Coalesced, Occupancy, ReadEntered;
    if s.halt == Running {
      var page := cfg.PageOf(r.addr);
      var t := s.(pushed := s.pushed + [r]);
      History.PushedTables(cfg, s, r);
      RunningInv(cfg, t);
      PushedOccupancy(s, r);
      if ChannelOf(cfg, page).Some? {
        if r.isWrite {
          if Coverage(cfg, page, r).Some? {
            var bytes := Coverage(cfg, page, r).value;
            CoverageInPage(cfg, page, r);
            AddToBufferInv(cfg, t, r, page, bytes);
            AddedOccupancy(t, r, page, bytes);
            var u := AddToBuffer(t, r, page, bytes);
            RunningInv(cfg, u);
            FlushOccupancy(cfg, u, page, false);
            FlushEachOccupancy(cfg, u, SortedKeys(u.buffer.Keys));
          }
        } else {
          var u := if page in t.buffer then Flush(cfg, t, page, true) else t;
          FlushOccupancy(cfg, t, page, true);
          if page in u.mshr {
            AttachedOccupancy(u, page, Attached(u.mshr[page], r));
            AttachedOccupancy(u, page, Coalesced(cfg, u.mshr[page], r));
          } else {
            var ch := ChannelOf(cfg, page).value;
            NewReadOutcome(cfg, u, r, page, ch);
            if ReadEntered(cfg, u, NewRead(cfg, u, r, page, ch), r, page, ch) { EnteredOccupancy(cfg, u, NewRead(cfg, u, r, page, ch), r, page, ch); }
          }
        }
      }
    }
  }

  lemma PushedOccupancy(s: State, r: Request)
    ensures Occupancy(s.(pushed := s.pushed + [r])) == Occupancy(s)
  {
  }

  /** The caller asks `full` before every push. */
  ghost predicate RespectsFull(cfg: Config, s: State, calls: seq<Call>)
    requires cfg.pageSize > 0
    decreases |calls|
  {
    calls == [] || ((calls[0].CallPush? ==> !Full(cfg, s)) && RespectsFull(cfg, Apply(cfg, s, calls[0]), calls[1..]))
  }

  lemma PopOccupancy(s: State)
    ensures Occupancy(Pop(s)) == Occupancy(s)
  {
  }

  lemma {:induction false} OccupancyBound(cfg: Config, s: State, calls: seq<Call>)
    requires cfg.Valid() && Inv(cfg, s) && RespectsFull(cfg, s, calls)
        && (s.halt == Running && cfg.maxOutstanding > 0 ==> Occupancy(s) <= cfg.maxOutstanding)
    ensures var t := Run(cfg, s, calls); t.halt == Running && cfg.maxOutstanding > 0 ==> Occupancy(t) <= cfg.maxOutstanding
    decreases |calls|
  {
    hide Inv, Push, Cycle, Pop;
    if calls != [] {
      var t := Apply(cfg, s, calls[0]);
      ApplyInv(cfg, s, calls[0]);
      if s.halt != Running {
        HaltedRun(cfg, s, calls);
      } else {
        match calls[0] {
          case CallPush(r) => PushOccupancy(cfg, s, r);
          case CallCycle => CycleOccupancy(cfg, s);
          case CallPop => PopOccupancy(s);
        }
        OccupancyBound(cfg, t, calls[1..]);
      }
    }
  }
}
