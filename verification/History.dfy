/** Request conservation over every run: nothing is lost, duplicated or reordered within a page. */
module History {
  import opened Basics
  import opened Geometry
  import opened Controller
  import opened ControllerTables
  import opened ControllerInvariant
  import ControllerFtl
  import Ftl
  import Lru
  import Nand

  /** The requests of one page and kind, in order. */
  function Select(cfg: Config, page: nat, write: bool, rs: seq<Request>): seq<Request> {
    if rs == [] then []
    else (if cfg.PageOf(rs[0].addr) == page && rs[0].isWrite == write then [rs[0]] else []) + Select(cfg, page, write, rs[1..])
  }

  lemma {:induction false} SelectAppend(cfg: Config, page: nat, write: bool, a: seq<Request>, b: seq<Request>)
    ensures Select(cfg, page, write, a + b) == Select(cfg, page, write, a) + Select(cfg, page, write, b)
  {
    if a == [] {
      assert a + b == b;
    } else {
      assert (a + b)[1..] == a[1..] + b;
      SelectAppend(cfg, page, write, a[1..], b);
    }
  }

  lemma {:induction false} SelectOther(cfg: Config, page: nat, write: bool, rs: seq<Request>, p: nat)
    requires AllOnPage(cfg, p, rs) && p != page
    ensures Select(cfg, page, write, rs) == []
  {
    if rs != [] { SelectOther(cfg, page, write, rs[1..], p); }
  }

  lemma {:induction false} SelectCount(cfg: Config, rs: seq<Request>, x: Request)
    ensures multiset(rs)[x] == multiset(Select(cfg, cfg.PageOf(x.addr), x.isWrite, rs))[x]
  {
    if rs != [] {
      SelectCount(cfg, rs[1..], x);
      assert rs == [rs[0]] + rs[1..];
      var rest := Select(cfg, cfg.PageOf(x.addr), x.isWrite, rs[1..]);
      assert multiset([rs[0]] + rest)[x] == multiset([rs[0]])[x] + multiset(rest)[x];
      assert multiset([rs[0]] + rs[1..])[x] == multiset([rs[0]])[x] + multiset(rs[1..])[x];
    }
  }

  function PendingAt(mshr: Mshr, page: nat): seq<Request> { if page in mshr then mshr[page].pending else [] }

  function WaitingAt(buffer: map<nat, Buffered>, page: nat): seq<Request> { if page in buffer then buffer[page].requests else [] }

  /** What came in of one page and kind has come out, is pending on its entry, or waits in its buffer,
      in that order. */
  predicate AccountedAt(cfg: Config, s: State, page: nat, write: bool) {
    Select(cfg, page, write, s.pushed)
      == Select(cfg, page, write, s.completed) + Select(cfg, page, write, PendingAt(s.mshr, page)) + Select(cfg, page,
          write, WaitingAt(s.buffer, page))
  }

  ghost predicate Accounted(cfg: Config, s: State) {
    && (forall page, write :: AccountedAt(cfg, s, page, write))
    && s.completed == s.popped + s.returnq
  }

  ghost predicate HistoryOk(cfg: Config, s: State) { s.halt == Running ==> Accounted(cfg, s) }

  lemma InitAccounted(cfg: Config)
    ensures Accounted(cfg, Init(cfg))
  {
  }

  /** A step that moves no request. */
  predicate SameRequests(s: State, t: State) {
    && t.pushed == s.pushed && t.completed == s.completed && t.popped == s.popped && t.returnq == s.returnq
        && t.buffer == s.buffer
    && t.mshr.Keys == s.mshr.Keys && forall k :: k in s.mshr ==> t.mshr[k].pending == s.mshr[k].pending
  }

  lemma SameAccounted(cfg: Config, s: State, t: State)
    requires Accounted(cfg, s) && SameRequests(s, t)
    ensures Accounted(cfg, t)
  {
    hide Select;
    forall page, write ensures AccountedAt(cfg, t, page, write) {
      assert AccountedAt(cfg, s, page, write);
      assert PendingAt(t.mshr, page) == PendingAt(s.mshr, page);
    }
  }

  // ----- push ---------------------------------------------------------------------------------------

  /** The newest request joins the end of its page's entry, or of its page's buffer. */
  lemma PushAccounted(cfg: Config, s: State, t: State, r: Request)
    requires Accounted(cfg, s)
    requires t.pushed == s.pushed + [r] && t.completed == s.completed && t.popped == s.popped && t.returnq == s.returnq
    requires var page := cfg.PageOf(r.addr);
      && (forall p :: p != page ==> PendingAt(t.mshr, p) == PendingAt(s.mshr, p) && WaitingAt(t.buffer, p) == WaitingAt(s.buffer, p))
      && (if r.isWrite then
            PendingAt(t.mshr, page) == PendingAt(s.mshr, page) && WaitingAt(t.buffer, page) == WaitingAt(s.buffer, page) + [r]
          else
            && PendingAt(t.mshr, page) == PendingAt(s.mshr, page) + [r] && WaitingAt(t.buffer, page) == WaitingAt(s.buffer, page)
            && AllOfKind(true, WaitingAt(s.buffer, page)))
    ensures Accounted(cfg, t)
  {
    hide Select, PendingAt, WaitingAt;
    var page := cfg.PageOf(r.addr);
    forall p, w ensures AccountedAt(cfg, t, p, w) {
      assert AccountedAt(cfg, s, p, w);
      SelectAppend(cfg, p, w, s.pushed, [r]);
      SelectAppend(cfg, p, w, PendingAt(s.mshr, p), [r]);
      SelectAppend(cfg, p, w, WaitingAt(s.buffer, p), [r]);
      SelectOne(cfg, p, w, r);
      if p == page && !w && !r.isWrite { SelectKind(cfg, p, w, WaitingAt(s.buffer, p)); }
    }
  }

  lemma SelectOne(cfg: Config, page: nat, write: bool, r: Request)
    ensures Select(cfg, page, write, [r]) == if cfg.PageOf(r.addr) == page && r.isWrite == write then [r] else []
  {
  }

  lemma {:induction false} SelectKind(cfg: Config, page: nat, write: bool, rs: seq<Request>)
    requires AllOfKind(!write, rs)
    ensures Select(cfg, page, write, rs) == []
  {
    if rs != [] { SelectKind(cfg, page, write, rs[1..]); }
  }

  lemma SelectNothing(cfg: Config)
    ensures forall p, w :: Select(cfg, p, w, []) == []
  {
  }

  /** A flushed page's requests become its entry's; the page had no entry. */
  lemma MovedAccounted(cfg: Config, s: State, t: State, page: nat)
    requires Accounted(cfg, s) && Flushed(s, t, page)
    ensures Accounted(cfg, t)
  {
    hide Select, RequestedBytes;
    SelectNothing(cfg);
    forall p, w ensures AccountedAt(cfg, t, p, w) { assert AccountedAt(cfg, s, p, w); }
  }

  lemma FlushAccounted(cfg: Config, s: State, page: nat, force: bool)
    requires cfg.Valid() && Inv(cfg, s) && HistoryOk(cfg, s)
    ensures HistoryOk(cfg, Flush(cfg, s, page, force))
  {
    hide Accounted, Tables, Config.Valid, Flush, Flushed, HaltOk;
    FlushOutcome(cfg, s, page, force);
    if s.halt == Running && Flushed(s, Flush(cfg, s, page, force), page) { MovedAccounted(cfg, s, Flush(cfg, s, page, force), page); }
  }

  lemma {:induction false} FlushEachAccounted(cfg: Config, s: State, pages: seq<nat>)
    requires cfg.Valid() && Inv(cfg, s) && HistoryOk(cfg, s)
    ensures HistoryOk(cfg, FlushEach(cfg, s, pages))
    decreases |pages|
  {
    hide Inv, HistoryOk, Flush, Config.Valid;
    if pages != [] {
      FlushInv(cfg, s, pages[0], false);
      FlushAccounted(cfg, s, pages[0], false);
      FlushEachAccounted(cfg, Flush(cfg, s, pages[0], false), pages[1..]);
    }
  }

  lemma {:induction false} FlushOverdueAccounted(cfg: Config, s: State, pages: seq<nat>)
    requires cfg.Valid() && Inv(cfg, s) && HistoryOk(cfg, s)
    ensures HistoryOk(cfg, FlushOverdue(cfg, s, pages))
    decreases |pages|
  {
    hide Inv, HistoryOk, Flush, Overdue, Config.Valid;
    if pages != [] {
      FlushInv(cfg, s, pages[0], false);
      FlushAccounted(cfg, s, pages[0], false);
      FlushOverdueAccounted(cfg, if Overdue(cfg, s, pages[0]) then Flush(cfg, s, pages[0], false) else s, pages[1..]);
    }
  }

  lemma BufferedAccounted(cfg: Config, s: State, r: Request, page: nat, bytes: set<nat>)
    requires Accounted(cfg, s) && r.isWrite && page == cfg.PageOf(r.addr)
    ensures Accounted(cfg, AddToBuffer(s.(pushed := s.pushed + [r]), r, page, bytes))
  {
    hide Accounted;
    var t := AddToBuffer(s.(pushed := s.pushed + [r]), r, page, bytes);
    assert WaitingAt(t.buffer, page) == WaitingAt(s.buffer, page) + [r] by { assert [] + [r] == [r]; }
    PushAccounted(cfg, s, t, r);
  }

  lemma PushWriteAccounted(cfg: Config, s: State, r: Request, page: nat)
    requires cfg.Valid() && Tables(cfg, s) && s.halt == Running && Accounted(cfg, s) && r.isWrite
    requires page == cfg.PageOf(r.addr) && ChannelOf(cfg, page).Some?
    ensures HistoryOk(cfg, PushWrite(cfg, s.(pushed := s.pushed + [r]), r, page))
  {
    hide Tables, Coverage, ChannelOf, Flush, FlushEach, AddToBuffer, Accounted, Config.Valid;
    PositivePage(cfg);
    var s' := s.(pushed := s.pushed + [r]);
    PushedTables(cfg, s, r);
    if Coverage(cfg, page, r).Some? {
      var bytes := Coverage(cfg, page, r).value;
      CoverageInPage(cfg, page, r);
      AddToBufferInv(cfg, s', r, page, bytes);
      var t := AddToBuffer(s', r, page, bytes);
      BufferedAccounted(cfg, s, r, page, bytes);
      FlushAccounted(cfg, t, page, false);
      FlushEachAccounted(cfg, t, SortedKeys(t.buffer.Keys));
    }
  }

  lemma PositivePage(cfg: Config)
    requires cfg.Valid()
    ensures cfg.pageSize > 0
  {
  }

  lemma PushedTables(cfg: Config, s: State, r: Request)
    requires Tables(cfg, s)
    ensures Tables(cfg, s.(pushed := s.pushed + [r]))
  {
    hide Tables;
    TablesReturnq(cfg, s);
    TablesReturn(cfg, s, s.(pushed := s.pushed + [r]));
  }

  lemma AttachedAccounted(cfg: Config, s: State, r: Request, page: nat, e: Entry)
    requires Accounted(cfg, s) && page in s.mshr && !r.isWrite && page == cfg.PageOf(r.addr)
    requires e.pending == s.mshr[page].pending + [r] && AllOfKind(true, WaitingAt(s.buffer, page))
    ensures Accounted(cfg, s.(pushed := s.pushed + [r], mshr := s.mshr[page := e]))
  {
    hide Accounted;
    PushAccounted(cfg, s, s.(pushed := s.pushed + [r], mshr := s.mshr[page := e]), r);
  }

  lemma NewReadAccounted(cfg: Config, s: State, r: Request, page: nat, ch: nat)
    requires Accounted(cfg, s) && page !in s.mshr && !r.isWrite && page == cfg.PageOf(r.addr)
        && AllOfKind(true, WaitingAt(s.buffer, page))
    ensures HistoryOk(cfg, NewRead(cfg, s.(pushed := s.pushed + [r]), r, page, ch))
  {
    hide Accounted, NewRead;
    var s' := s.(pushed := s.pushed + [r]);
    NewReadOutcome(cfg, s', r, page, ch);
    var t := NewRead(cfg, s', r, page, ch);
    if t.halt == Running { PushAccounted(cfg, s, t, r); }
  }

  lemma BufferHoldsWrites(cfg: Config, s: State, page: nat)
    requires Tables(cfg, s)
    ensures AllOfKind(true, WaitingAt(s.buffer, page))
  {
    hide EntriesOk, QueueOk, ActiveOk, CreditOk, WritesOk, ChannelOf;
    if page in s.buffer { assert BufferedOk(cfg, s.tick, page, s.buffer[page]); }
  }

  lemma PushReadAccounted(cfg: Config, s: State, r: Request, page: nat, ch: nat)
    requires cfg.Valid() && Inv(cfg, s) && s.halt == Running && Accounted(cfg, s) && !r.isWrite && page == cfg.PageOf(r.addr)
    ensures HistoryOk(cfg, PushRead(cfg, s.(pushed := s.pushed + [r]), r, page, ch))
  {
    hide Tables, Flush, NewRead, Accounted, Config.Valid, HaltOk, Flushed, Attached, Coalesced, PendingAt, WaitingAt;
    var s' := s.(pushed := s.pushed + [r]);
    PushedTables(cfg, s, r);
    RunningInv(cfg, s');
    FlushInv(cfg, s', page, true);
    FlushOutcome(cfg, s', page, true);
    var u := if page in s'.buffer then Flush(cfg, s', page, true) else s';
    if u.halt == Running {
      var before := u.(pushed := s.pushed);
      BeforePush(cfg, s, u, r, page);
      BufferHoldsWrites(cfg, u, page);
      assert before.(pushed := before.pushed + [r]) == u;
      if page in u.mshr {
        AttachPending(cfg, u.mshr[page], r);
        AttachedAccounted(cfg, before, r, page, Attached(u.mshr[page], r));
        AttachedAccounted(cfg, before, r, page, Coalesced(cfg, u.mshr[page], r));
      } else {
        NewReadAccounted(cfg, before, r, page, ch);
      }
    }
  }

  lemma BeforePush(cfg: Config, s: State, u: State, r: Request, page: nat)
    requires Accounted(cfg, s) && (u == s.(pushed := s.pushed + [r]) || Flushed(s.(pushed := s.pushed + [r]), u, page))
    ensures Accounted(cfg, u.(pushed := s.pushed)) && u.pushed == s.pushed + [r]
  {
    hide Accounted;
    if u != s.(pushed := s.pushed + [r]) { MovedAccounted(cfg, s, u.(pushed := s.pushed), page); }
  }

  lemma AttachPending(cfg: Config, e: Entry, r: Request)
    ensures Attached(e, r).pending == e.pending + [r] && Coalesced(cfg, e, r).pending == e.pending + [r]
  {
  }

  lemma PushHistory(cfg: Config, s: State, r: Request)
    requires cfg.Valid() && Inv(cfg, s) && HistoryOk(cfg, s)
    ensures HistoryOk(cfg, Push(cfg, s, r))
  {
    hide Tables, PushWrite, PushRead, ChannelOf, Accounted, HaltOk;
    if s.halt == Running {
      var page := cfg.PageOf(r.addr);
      if ChannelOf(cfg, page).Some? {
        if r.isWrite { PushWriteAccounted(cfg, s, r, page); } else { PushReadAccounted(cfg, s, r, page, ChannelOf(cfg, page).value); }
      }
    }
  }

  // ----- cycle --------------------------------------------------------------------------------------

  lemma SameTrans(s: State, t: State, u: State)
    requires SameRequests(s, t) && SameRequests(t, u)
    ensures SameRequests(s, u)
  {
  }

  lemma BeginTickSame(cfg: Config, s: State)
    ensures SameRequests(s, BeginTick(cfg, s))
  {
  }

  lemma ReadyHitsSame(s: State)
    ensures SameRequests(s, ReadyHits(s))
  {
  }

  lemma DrainWindowSame(cfg: Config, s: State)
    ensures SameRequests(s, DrainWindow(cfg, s))
  {
    hide UpdateDrain, CountWrites;
  }

  lemma FinishSame(cfg: Config, s: State, k: nat)
    requires k in s.mshr
    ensures SameRequests(s, Finish(cfg, s, k))
  {
    hide Ftl.MarkErased;
  }

  /** The parts of the state the request histories do not name. */
  lemma SameFrame(s: State, t: State)
    requires t == s.(subs := t.subs, active := t.active, queue := t.queue, readDue := t.readDue, cache := t.cache)
    ensures SameRequests(s, t)
  {
  }

  lemma AdvanceOneSame(cfg: Config, s: State, sa: nat)
    ensures SameRequests(s, AdvanceOne(cfg, s, sa))
  {
    hide Serves, Nand.Advance, Finish, SameRequests;
    if sa < |s.subs| {
      var sub := Nand.Advance(s.subs[sa]);
      SameFrame(s, s.(subs := s.subs[sa := sub]));
      var u := s.(subs := s.subs[sa := sub], active := s.active - {sa});
      SameFrame(s, u);
      if Serving(s.mshr, sa) != {} {
        var k := MinOf(Serving(s.mshr, sa));
        FinishSame(cfg, u, k);
        SameTrans(s, u, Finish(cfg, u, k));
      }
    } else {
      SameFrame(s, s);
    }
  }

  lemma {:induction false} AdvanceEachSame(cfg: Config, s: State, sas: seq<nat>)
    ensures SameRequests(s, AdvanceEach(cfg, s, sas))
    decreases |sas|
  {
    hide AdvanceOne;
    if sas != [] {
      var t := AdvanceOne(cfg, s, sas[0]);
      AdvanceOneSame(cfg, s, sas[0]);
      AdvanceEachSame(cfg, t, sas[1..]);
      SameTrans(s, t, AdvanceEach(cfg, t, sas[1..]));
    }
  }

  lemma HaltSame(s: State)
    ensures SameRequests(s, s.(halt := Assertion))
  {
  }

  lemma StartReadSame(cfg: Config, s: State, k: nat)
    requires Candidate(s, k)
    ensures SameRequests(s, StartRead(cfg, s, k))
  {
    hide Nand.StartRead, Nand.Served, Lru.Without;
  }

  lemma StartEraseSame(cfg: Config, s: State, k: nat)
    requires Candidate(s, k)
    ensures SameRequests(s, StartErase(cfg, s, k))
  {
    hide Nand.StartErase, Ftl.MarkErasing, Stored;
  }

  lemma StartProgramSame(cfg: Config, s: State, k: nat)
    requires Candidate(s, k)
    ensures SameRequests(s, StartProgram(cfg, s, k))
  {
    hide Nand.StartProgram, Padding;
  }

  lemma StartSame(cfg: Config, s: State, i: nat)
    requires i < |s.queue|
    ensures SameRequests(s, Start(cfg, s, i))
  {
    hide StartRead, StartErase, StartProgram, Ftl.IsErased, Lru.Without, IsRead, SameRequests;
    var k := s.queue[i];
    if Candidate(s, k) {
      var t := s.(queue := s.queue[..i] + s.queue[i + 1..], readDue := s.readDue && !(cfg.Scheduler() == 2 && IsRead(s, k)));
      SameFrame(s, t);
      if IsRead(s, k) {
        StartReadSame(cfg, t, k);
        SameTrans(s, t, StartRead(cfg, t, k));
      } else {
        var u := t.(cache := Lru.Without(t.cache, t.mshr[k].page), active := t.active + {t.mshr[k].sa});
        SameFrame(s, u);
        StartEraseSame(cfg, u, k);
        StartProgramSame(cfg, u, k);
        SameTrans(s, u, StartErase(cfg, u, k));
        SameTrans(s, u, StartProgram(cfg, u, k));
      }
    } else {
      HaltSame(s);
    }
  }

  lemma {:induction false} ScheduleUpToSame(cfg: Config, s: State, budget: nat)
    ensures SameRequests(s, ScheduleUpTo(cfg, s, budget))
    decreases budget
  {
    hide Start, Pick, Misplaced, PrefersReads;
    if budget != 0 && |s.active| < cfg.MaxActive() && !(exists k :: k in s.queue && Misplaced(cfg, s, k)) {
      var i := Pick(s, PrefersReads(cfg, s), cfg.Scheduler() != 0);
      if i < |s.queue| {
        var t := Start(cfg, s, i);
        StartSame(cfg, s, i);
        ScheduleUpToSame(cfg, t, budget - 1);
        SameTrans(s, t, ScheduleUpTo(cfg, t, budget - 1));
      }
    }
  }

  /** Delivery takes a prefix of one entry's requests, in order, to the return queue. */
  predicate Delivered(s: State, t: State, k: nat, n: nat) {
    && k in s.mshr && n <= |s.mshr[k].pending|
    && t.returnq == s.returnq + s.mshr[k].pending[..n] && t.completed == s.completed + s.mshr[k].pending[..n]
    && t.pushed == s.pushed && t.popped == s.popped && t.buffer == s.buffer
    && PendingAt(t.mshr, k) == s.mshr[k].pending[n..] && t.mshr - {k} == s.mshr - {k}
  }

  lemma DeliverOutcome(cfg: Config, s: State, k: nat) returns (n: nat)
    ensures DeliverOne(cfg, s, k) == s || Delivered(s, DeliverOne(cfg, s, k), k, n)
  {
    hide Affordable, CacheInsert, LinkBytes;
    n := 0;
    if !(k !in s.mshr || !s.mshr[k].delivering || |s.returnq| >= cfg.returnCapacity || s.mshr[k].channel >= |s.channels|) {
      var e := s.mshr[k];
      n := Affordable(e.pending, Min(|e.pending|, cfg.returnCapacity - |s.returnq|), s.channels[e.channel].credit).0;
      assert DeliverOne(cfg, s, k).mshr - {k} == s.mshr - {k};
    }
  }

  lemma DeliveredAccounted(cfg: Config, s: State, t: State, k: nat, n: nat)
    requires EntriesOk(cfg, s.mshr) && Accounted(cfg, s) && Delivered(s, t, k, n)
    ensures Accounted(cfg, t)
  {
    hide Select, EntriesOk;
    var out, rest := s.mshr[k].pending[..n], s.mshr[k].pending[n..];
    assert s.mshr[k].pending == out + rest;
    PendingOnPage(cfg, s.mshr, k);
    assert t.popped + (s.returnq + out) == (s.popped + s.returnq) + out;
    forall p, w ensures AccountedAt(cfg, t, p, w) {
      assert AccountedAt(cfg, s, p, w);
      SelectAppend(cfg, p, w, s.completed, out);
      if p == k {
        SelectAppend(cfg, p, w, out, rest);
      } else {
        SelectOther(cfg, p, w, out, k);
        SamePending(s.mshr, t.mshr, k, p);
      }
    }
  }

  lemma SamePending(m: Mshr, m': Mshr, k: nat, p: nat)
    requires m - {k} == m' - {k} && p != k
    ensures PendingAt(m', p) == PendingAt(m, p)
  {
    assert p in m <==> p in m - {k};
    assert p in m' <==> p in m' - {k};
    if p in m { assert (m - {k})[p] == m[p] && (m' - {k})[p] == m'[p]; }
  }

  lemma DeliverOneAccounted(cfg: Config, s: State, k: nat)
    requires EntriesOk(cfg, s.mshr) && Accounted(cfg, s)
    ensures Accounted(cfg, DeliverOne(cfg, s, k))
  {
    hide DeliverOne, Delivered, Accounted, EntriesOk;
    var n := DeliverOutcome(cfg, s, k);
    if DeliverOne(cfg, s, k) != s { DeliveredAccounted(cfg, s, DeliverOne(cfg, s, k), k, n); }
  }

  lemma PendingOnPage(cfg: Config, mshr: Mshr, k: nat)
    requires EntriesOk(cfg, mshr) && k in mshr
    ensures AllOnPage(cfg, k, mshr[k].pending)
  {
    hide InChannel, ChannelOf, PhaseOk;
    assert EntryOk(cfg, k, mshr[k]);
  }

  lemma {:induction false} DeliverEachAccounted(cfg: Config, s: State, keys: seq<nat>)
    requires Tables(cfg, s) && Accounted(cfg, s)
    ensures Accounted(cfg, DeliverEach(cfg, s, keys))
    decreases |keys|
  {
    hide Accounted, DeliverOne, EntriesOk, QueueOk, ActiveOk, BufferOk, CreditOk, WritesOk;
    if keys != [] {
      DeliverOneInv(cfg, s, keys[0]);
      DeliverOneAccounted(cfg, s, keys[0]);
      DeliverEachAccounted(cfg, DeliverOne(cfg, s, keys[0]), keys[1..]);
    }
  }

  lemma MediaHalfAccounted(cfg: Config, s: State)
    requires cfg.Valid() && Tables(cfg, s) && s.halt == Running && Accounted(cfg, s)
    ensures Accounted(cfg, MediaHalf(cfg, s))
  {
    hide Tables, Accounted, AdvanceEach, DeliverEach, BeginTick, ReadyHits, DrainWindow, Config.Valid, SameRequests;
    var s1 := BeginTick(cfg, s);
    BeginTickInv(cfg, s);
    BeginTickKeeps(cfg, s);
    BeginTickSame(cfg, s);
    SameAccounted(cfg, s, s1);
    var s2 := AdvanceEach(cfg, s1, SortedKeys(s1.active));
    AdvanceEachInv(cfg, s1, SortedKeys(s1.active));
    AdvanceEachSame(cfg, s1, SortedKeys(s1.active));
    SameAccounted(cfg, s1, s2);
    var s3 := ReadyHits(s2);
    ReadyHitsInv(cfg, s2);
    ReadyHitsSame(s2);
    SameAccounted(cfg, s2, s3);
    DeliverEachAccounted(cfg, s3, SortedKeys(s3.mshr.Keys));
    var s4 := DeliverEach(cfg, s3, SortedKeys(s3.mshr.Keys));
    DrainWindowSame(cfg, s4);
    SameAccounted(cfg, s4, DrainWindow(cfg, s4));
  }

  lemma ScheduleHistory(cfg: Config, s: State)
    requires HistoryOk(cfg, s)
    ensures HistoryOk(cfg, Schedule(cfg, s))
  {
    hide Accounted, ScheduleUpTo, SameRequests;
    if s.halt == Running {
      ScheduleUpToSame(cfg, s, cfg.MaxActive());
      SameAccounted(cfg, s, Schedule(cfg, s));
    }
  }

  lemma IdleDrainHistory(cfg: Config, s: State)
    requires cfg.Valid() && Inv(cfg, s) && HistoryOk(cfg, s)
    ensures HistoryOk(cfg, IdleDrain(cfg, s))
  {
    hide Inv, HistoryOk, FlushEach, LastArrival, Config.Valid;
    FlushEachAccounted(cfg, s, SortedKeys(s.buffer.Keys));
  }

  lemma CycleHistory(cfg: Config, s: State)
    requires cfg.Valid() && Inv(cfg, s) && HistoryOk(cfg, s)
    ensures HistoryOk(cfg, Cycle(cfg, s))
  {
    hide Tables, Accounted, MediaHalf, FlushOverdue, Schedule, IdleDrain, Config.Valid, HaltOk;
    if s.halt == Running {
      var s5 := MediaHalf(cfg, s);
      MediaHalfInv(cfg, s);
      MediaHalfAccounted(cfg, s);
      var pages := SortedKeys(s5.buffer.Keys);
      RunningInv(cfg, s5);
      FlushOverdueInv(cfg, s5, pages);
      FlushOverdueAccounted(cfg, s5, pages);
      var s6 := FlushOverdue(cfg, s5, pages);
      ScheduleInv(cfg, s6);
      ScheduleHistory(cfg, s6);
      IdleDrainHistory(cfg, Schedule(cfg, s6));
    }
  }

  lemma PopHistory(cfg: Config, s: State)
    requires HistoryOk(cfg, s)
    ensures HistoryOk(cfg, Pop(s))
  {
    hide Select;
    if s.halt == Running && s.returnq != [] {
      var t := Pop(s);
      assert s.popped + s.returnq == (s.popped + [s.returnq[0]]) + s.returnq[1..];
      forall p, w ensures AccountedAt(cfg, t, p, w) { assert AccountedAt(cfg, s, p, w); }
    }
  }

  lemma ApplyHistory(cfg: Config, s: State, c: Call)
    requires cfg.Valid() && Inv(cfg, s) && HistoryOk(cfg, s)
    ensures HistoryOk(cfg, Apply(cfg, s, c))
  {
    hide Inv, HistoryOk, Push, Cycle, Pop;
    match c
    case CallPush(r) => PushHistory(cfg, s, r);
    case CallCycle => CycleHistory(cfg, s);
    case CallPop => PopHistory(cfg, s);
  }

  /** Over every run from the empty device. */
  lemma ReachableHistory(cfg: Config, calls: seq<Call>)
    requires cfg.Valid()
    ensures HistoryOk(cfg, Run(cfg, Init(cfg), calls))
  {
    hide Inv, Accounted, Run, Config.Valid;
    InitInv(cfg);
    InitAccounted(cfg);
    RunHistory(cfg, Init(cfg), calls);
  }

  lemma {:induction false} RunHistory(cfg: Config, s: State, calls: seq<Call>)
    requires cfg.Valid() && Inv(cfg, s) && HistoryOk(cfg, s)
    ensures HistoryOk(cfg, Run(cfg, s, calls))
    decreases |calls|
  {
    hide Inv, HistoryOk, Apply;
    if calls != [] {
      ApplyInv(cfg, s, calls[0]);
      ApplyHistory(cfg, s, calls[0]);
      RunHistory(cfg, Apply(cfg, s, calls[0]), calls[1..]);
    }
  }

  // ----- consequences ---------------------------------------------------------------------------------

  /** Every request is, as often as it was pushed, popped, in the return queue, pending on its page's
      entry or waiting in its page's buffer. */
  lemma Conserved(cfg: Config, s: State, x: Request)
    requires Accounted(cfg, s) && EntriesOk(cfg, s.mshr)
    ensures var page := cfg.PageOf(x.addr);
      multiset(s.pushed)[x] == multiset(s.popped)[x] + multiset(s.returnq)[x] + multiset(PendingAt(s.mshr,
          page))[x] + multiset(WaitingAt(s.buffer, page))[x]
  {
    hide Select, EntriesOk, PendingAt, WaitingAt;
    var page := cfg.PageOf(x.addr);
    assert AccountedAt(cfg, s, page, x.isWrite);
    SelectCount(cfg, s.pushed, x);
    SelectCount(cfg, s.completed, x);
    SelectCount(cfg, PendingAt(s.mshr, page), x);
    SelectCount(cfg, WaitingAt(s.buffer, page), x);
  }

  /** A drained device returned every request exactly once, and per page and kind in arrival order. */
  lemma DrainedReturnsAll(cfg: Config, calls: seq<Call>)
    requires cfg.Valid()
    ensures var s := Run(cfg, Init(cfg), calls);
      s.halt == Running && !HasWork(s) ==>
        && multiset(s.pushed) == multiset(s.popped)
        && forall page, write :: Select(cfg, page, write, s.pushed) == Select(cfg, page, write, s.popped)
  {
    hide Select, Tables, HaltOk, Run;
    ReachableHistory(cfg, calls);
    var s := Run(cfg, Init(cfg), calls);
    if s.halt == Running && !HasWork(s) {
      assert s.popped + [] == s.popped;
      SelectNothing(cfg);
      forall page, write ensures Select(cfg, page, write, s.pushed) == Select(cfg, page, write, s.popped) {
        assert AccountedAt(cfg, s, page, write);
      }
      forall x ensures multiset(s.pushed)[x] == multiset(s.popped)[x] {
        SelectCount(cfg, s.pushed, x);
        SelectCount(cfg, s.popped, x);
      }
    }
  }

  /** What the device holds when it reports work: an entry, a buffered page or a completion. */
  lemma WorkIsInside(cfg: Config, s: State)
    requires Tables(cfg, s) && HasWork(s)
    ensures s.mshr != map[] || s.buffer != map[] || s.returnq != []
  {
    hide EntriesOk, BufferOk, CreditOk, WritesOk, ControllerFtl.FtlOk, ControllerFtl.PinsOk, BusyOk;
    if s.queue != [] { assert s.queue[0] in s.mshr; }
    if s.active != {} { var i :| i in s.active; }
  }

  /** Something inside is a request that was pushed and not popped. */
  lemma InsideIsOutstanding(cfg: Config, s: State) returns (x: Request)
    requires cfg.Valid() && Tables(cfg, s) && Accounted(cfg, s) && HasWork(s)
    ensures multiset(s.pushed)[x] > multiset(s.popped)[x]
  {
    hide QueueOk, ActiveOk, CreditOk, WritesOk, ControllerFtl.FtlOk, ControllerFtl.PinsOk, Accounted, EntriesOk, BufferOk, Config.Valid, HasWork;
    WorkIsInside(cfg, s);
    if s.returnq != [] {
      x := s.returnq[0];
      assert multiset(s.returnq)[x] > 0;
    } else if s.mshr != map[] {
      var k :| k in s.mshr;
      x := PendingRequest(cfg, s.mshr, k);
    } else {
      var p :| p in s.buffer;
      x := WaitingRequest(cfg, s.tick, s.buffer, p);
    }
    Conserved(cfg, s, x);
  }

  lemma PendingRequest(cfg: Config, mshr: Mshr, k: nat) returns (x: Request)
    requires EntriesOk(cfg, mshr) && k in mshr
    ensures cfg.PageOf(x.addr) == k && multiset(PendingAt(mshr, k))[x] > 0
  {
    hide InChannel, ChannelOf, PhaseOk;
    assert EntryOk(cfg, k, mshr[k]);
    x := mshr[k].pending[0];
    assert x in multiset(mshr[k].pending);
  }

  lemma WaitingRequest(cfg: Config, tick: nat, buffer: map<nat, Buffered>, p: nat) returns (x: Request)
    requires BufferOk(cfg, tick, buffer) && p in buffer
    ensures cfg.PageOf(x.addr) == p && multiset(WaitingAt(buffer, p))[x] > 0
  {
    hide ChannelOf;
    assert BufferedOk(cfg, tick, p, buffer[p]);
    x := buffer[p].requests[0];
    assert x in multiset(buffer[p].requests);
  }

  /** After any run the device reports work exactly while some request has not been handed back. */
  lemma WorkExactly(cfg: Config, calls: seq<Call>)
    requires cfg.Valid() && Run(cfg, Init(cfg), calls).halt == Running
    ensures var s := Run(cfg, Init(cfg), calls); HasWork(s) <==> multiset(s.pushed) != multiset(s.popped)
  {
    hide Tables, HaltOk, Run, Accounted, HasWork, Select;
    ReachableInv(cfg, calls);
    ReachableHistory(cfg, calls);
    var s := Run(cfg, Init(cfg), calls);
    if HasWork(s) { var x := InsideIsOutstanding(cfg, s); } else { DrainedReturnsAll(cfg, calls); }
  }
}
