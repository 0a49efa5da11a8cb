/** Every call of the controller keeps its tables consistent, and the aborts it can reach are only the
    documented ones. */
module ControllerInvariant {
  import opened Basics
  import opened Geometry
  import opened Controller
  import opened ControllerTables
  import opened ControllerFtl
  import Ftl
  import FtlInvariant
  import FtlExact
  import Lru
  import Nand

  ghost predicate Tables(cfg: Config, s: State) {
    && EntriesOk(cfg, s.mshr) && QueueOk(s.mshr, s.queue) && ActiveOk(cfg, s.mshr, s.subs, s.active)
    && BufferOk(cfg, s.tick, s.buffer) && CreditOk(cfg, s.channels) && WritesOk(s.mshr, s.channels)
    && FtlOk(cfg, s.ftl) && PinsOk(cfg, s.mshr, s.ftl.mapping, s.ftl.blocks) && |s.returnq| <= cfg.returnCapacity
  }

  predicate BeyondBuffered(cfg: Config, buffer: map<nat, Buffered>)
    requires cfg.pagesPerBlock > 0
  {
    exists p :: p in buffer && Beyond(cfg, p)
  }

  /** A buffered page for which there is no block to be had. */
  ghost predicate StuckBuffered(cfg: Config, f: Ftl.State, buffer: map<nat, Buffered>) { exists p :: p in buffer && OutOfBlocks(cfg, f, p) }

  /** Which aborts can be reached, and when. The affinity aborts and every assertion are missing. */
  ghost predicate HaltOk(cfg: Config, s: State)
    requires cfg.Valid()
  {
    match s.halt
    case Running => true
    case Unplaced => s.pushed != [] && ChannelOf(cfg, cfg.PageOf(Last(s.pushed).addr)) == None
    case CoverageCrossesPage =>
      s.pushed != [] && Last(s.pushed).isWrite && Coverage(cfg, cfg.PageOf(Last(s.pushed).addr), Last(s.pushed)) == None
    case IncompletePage => cfg.strictWrites
    case NamespaceExceeded =>
      !cfg.ftlEnabled && (BeyondBuffered(cfg, s.buffer) || (s.pushed != [] && Beyond(cfg, cfg.PageOf(Last(s.pushed).addr))))
    case CapacityExhausted => cfg.ftlEnabled && StuckBuffered(cfg, s.ftl, s.buffer)
    case ReadMapping => cfg.ftlEnabled && s.pushed != []
        && cfg.PageOf(Last(s.pushed).addr) / cfg.pagesPerBlock >= PSEUDO_BLOCK_BIT - 1
    case _ => false
  }

  function Last(rs: seq<Request>): Request requires rs != [] { rs[|rs| - 1] }

  ghost predicate Inv(cfg: Config, s: State)
    requires cfg.Valid()
  {
    HaltOk(cfg, s) && (s.halt == Running ==> Tables(cfg, s))
  }

  lemma RunningInv(cfg: Config, s: State)
    requires cfg.Valid() && Tables(cfg, s) && s.halt == Running
    ensures Inv(cfg, s)
  {
    hide Tables;
  }

  lemma InitInv(cfg: Config)
    requires cfg.Valid()
    ensures Inv(cfg, Init(cfg))
  {
    FtlInvariant.EmptyWf(cfg);
    FtlExact.EmptyExact();
    hide FtlInvariant.Wf, FtlExact.Exact;
    var s := Init(cfg);
    forall c | 0 <= c < |s.channels| ensures s.channels[c].outstandingWrites == |WritesOn(s.mshr, c)| { assert WritesOn(s.mshr, c) == {}; }
  }

  // ----- entering entries -------------------------------------------------------------------------

  /** A fresh, queued entry for a page without one. */
  lemma EnterTables(cfg: Config, s: State, k: nat, e: Entry)
    requires EntriesOk(cfg, s.mshr) && QueueOk(s.mshr, s.queue) && ActiveOk(cfg, s.mshr, s.subs, s.active)
    requires k !in s.mshr && EntryOk(cfg, k, e) && Queued(e)
    ensures var t := Enter(s, k, e); EntriesOk(cfg, t.mshr) && QueueOk(t.mshr, t.queue) && ActiveOk(cfg, t.mshr, t.subs, t.active)
  {
    QueueAdd(s.mshr, s.queue, k, e);
    FlightSame(s.mshr, s.subs, s.active, k, e);
    hide QueueOk, FlightOk, EntryOk;
  }

  lemma EnterReadInv(cfg: Config, s: State, r: Request, page: nat, ch: nat, phys: Phys)
    requires Tables(cfg, s) && !r.isWrite && page !in s.mshr
    requires page == cfg.PageOf(r.addr) && ChannelOf(cfg, page) == Some(ch) && InChannel(cfg, ch, phys.sa)
    requires cfg.ftlEnabled ==> if page in s.ftl.mapping then phys == s.ftl.mapping[page]
        else PseudoAddress(cfg, page) == Some(phys)
    ensures Tables(cfg, Enter(s, page, ReadEntry(cfg, s, r, page, ch, phys)))
  {
    hide FtlOk, InChannel, ChannelOf, PseudoAddress, EntriesOk, QueueOk, ActiveOk, BufferOk, CreditOk, WritesOk, PinsOk;
    var e := ReadEntry(cfg, s, r, page, ch, phys);
    assert EntryOk(cfg, page, e);
    EnterTables(cfg, s, page, e);
    WritesEnter(s.mshr, s.channels, page, e);
    PinsEnter(cfg, s.mshr, page, e, s.ftl.mapping, s.ftl.blocks);
  }

  lemma TablesFtl(cfg: Config, s: State)
    requires Tables(cfg, s)
    ensures FtlOk(cfg, s.ftl)
  {
  }

  lemma NewMappedReadInv(cfg: Config, s: State, r: Request, page: nat, ch: nat)
    requires cfg.Valid() && Tables(cfg, s) && s.halt == Running && !r.isWrite && page !in s.mshr && cfg.ftlEnabled
    requires page == cfg.PageOf(r.addr) && ChannelOf(cfg, page) == Some(ch) && s.pushed != [] && Last(s.pushed) == r
    ensures Inv(cfg, NewMappedRead(cfg, s, r, page, ch))
  {
    TablesFtl(cfg, s);
    ReadAddress(cfg, s.ftl, page);
    var phys := Ftl.TranslateRead(cfg, s.ftl, page).1;
    hide Config.Valid, Tables, Ftl.TranslateRead, FtlOk, InChannel, ChannelOf, Coverage, PseudoAddress;
    if phys.Some? {
      assert s.(ftl := s.ftl) == s;
      EnterReadInv(cfg, s, r, page, ch, phys.value);
      hide ReadEntry;
    }
  }

  lemma NewReadInv(cfg: Config, s: State, r: Request, page: nat, ch: nat)
    requires cfg.Valid() && Tables(cfg, s) && s.halt == Running && !r.isWrite && page !in s.mshr
    requires page == cfg.PageOf(r.addr) && ChannelOf(cfg, page) == Some(ch) && s.pushed != [] && Last(s.pushed) == r
    ensures Inv(cfg, NewRead(cfg, s, r, page, ch))
  {
    hide Tables, Coverage, ChannelOf;
    if cfg.ftlEnabled {
      NewMappedReadInv(cfg, s, r, page, ch);
      hide Inv, NewMappedRead;
    } else {
      DirectInChannel(cfg, page);
      var phys := DirectAddress(cfg, page, ch);
      hide Config.Valid, DirectAddress, InChannel;
      if phys.Some? {
        EnterReadInv(cfg, s, r, page, ch, phys.value);
        hide ReadEntry;
      }
    }
  }

  // ----- flushing ---------------------------------------------------------------------------------

  lemma IssueInv(cfg: Config, s: State, page: nat, ch: nat, phys: Phys)
    requires Tables(cfg, s) && page in s.buffer && page !in s.mshr
    requires ChannelOf(cfg, page) == Some(ch) && InChannel(cfg, ch, phys.sa)
    requires cfg.ftlEnabled ==> Pinned(cfg, page, WriteEntry(s.buffer[page], page, ch, phys), s.ftl.mapping, s.ftl.blocks)
    ensures Tables(cfg, Issue(s, page, ch, phys))
  {
    hide FtlOk, InChannel, ChannelOf, EntriesOk, QueueOk, ActiveOk, WritesOk, PinsOk, Pinned;
    var e := WriteEntry(s.buffer[page], page, ch, phys);
    assert EntryOk(cfg, page, e) by { assert BufferedOk(cfg, s.tick, page, s.buffer[page]); }
    EnterTables(cfg, s, page, e);
    WritesEnter(s.mshr, s.channels, page, e);
    PinsEnter(cfg, s.mshr, page, e, s.ftl.mapping, s.ftl.blocks);
  }

  lemma TablesWithFtl(cfg: Config, s: State, f: Ftl.State)
    requires Tables(cfg, s) && FtlOk(cfg, f) && PinsOk(cfg, s.mshr, f.mapping, f.blocks)
    ensures Tables(cfg, s.(ftl := f))
    ensures !f.mappingError
  {
    hide EntriesOk, QueueOk, ActiveOk, BufferOk, CreditOk, WritesOk, PinsOk;
  }

  lemma TablesPins(cfg: Config, s: State)
    requires Tables(cfg, s)
    ensures PinsOk(cfg, s.mshr, s.ftl.mapping, s.ftl.blocks)
  {
  }

  lemma FlushMappedInv(cfg: Config, s: State, page: nat, ch: nat)
    requires cfg.Valid() && Tables(cfg, s) && s.halt == Running && page in s.buffer && page !in s.mshr
    requires ChannelOf(cfg, page) == Some(ch) && cfg.ftlEnabled
    ensures Inv(cfg, FlushMapped(cfg, s, page, ch))
    ensures FlushMapped(cfg, s, page, ch).tick == s.tick && FlushMapped(cfg, s, page, ch).pushed == s.pushed
  {
    hide Tables, Config.Valid, Ftl.TranslateWrite, FtlOk, InChannel, ChannelOf, Coverage, AddWrite, Pinned, PinsOk;
    TablesFtl(cfg, s);
    TablesPins(cfg, s);
    FlushFtl(cfg, s.ftl, page);
    PinsWrite(cfg, s.mshr, s.ftl, page);
    var (f, phys) := Ftl.TranslateWrite(cfg, s.ftl, page);
    TablesWithFtl(cfg, s, f);
    if phys.Some? {
      WrittenIsPinned(cfg, s.ftl, page, WriteEntry(s.buffer[page], page, ch, phys.value));
      IssueInv(cfg, s.(ftl := f), page, ch, phys.value);
    }
  }

  lemma FlushInv(cfg: Config, s: State, page: nat, force: bool)
    requires cfg.Valid() && Inv(cfg, s)
    ensures Inv(cfg, Flush(cfg, s, page, force))
    ensures Flush(cfg, s, page, force).tick == s.tick && Flush(cfg, s, page, force).pushed == s.pushed
  {
    hide Tables, Coverage, DirectAddress, InChannel, Config.Valid, WriteEntry, AddWrite, ChannelOf, FlushMapped;
    if s.halt == Running && page in s.buffer {
      BufferedPage(cfg, s, page);
      var ch := ChannelOf(cfg, page).value;
      if page !in s.mshr {
        if cfg.ftlEnabled {
          FlushMappedInv(cfg, s, page, ch);
        } else {
          DirectInChannel(cfg, page);
          var phys := DirectAddress(cfg, page, ch);
          if phys.Some? { IssueInv(cfg, s, page, ch, phys.value); }
        }
      }
    }
  }

  lemma BufferedPage(cfg: Config, s: State, page: nat)
    requires Tables(cfg, s) && page in s.buffer
    ensures ChannelOf(cfg, page).Some? && s.buffer[page].requests != []
  {
    assert BufferedOk(cfg, s.tick, page, s.buffer[page]);
  }

  /** The one way a flush changes anything but the halt state: the buffered page becomes a queued write
      entry. */
  predicate Flushed(s: State, t: State, page: nat) {
    && page in s.buffer && page !in s.mshr && page in t.mshr
    && t.mshr[page] == WriteEntry(s.buffer[page], page, t.mshr[page].channel, PhysOf(t.mshr[page]))
    && t == s.(ftl := t.ftl, channels := t.channels, buffer := s.buffer - {page}, mshr := s.mshr[page := t.mshr[page]],
        queue := s.queue + [page])
  }

  lemma IssueOutcome(s: State, page: nat, ch: nat, phys: Phys, f: Ftl.State)
    requires page in s.buffer && page !in s.mshr
    ensures Flushed(s, Issue(s.(ftl := f), page, ch, phys), page)
  {
    hide RequestedBytes, AddWrite;
  }

  lemma FlushMappedOutcome(cfg: Config, s: State, page: nat, ch: nat)
    requires page in s.buffer && page !in s.mshr
    ensures var t := FlushMapped(cfg, s, page, ch); t.halt != Running || Flushed(s, t, page)
  {
    hide Ftl.TranslateWrite, InChannel, Issue, Flushed;
    var (f, phys) := Ftl.TranslateWrite(cfg, s.ftl, page);
    if phys.Some? { IssueOutcome(s, page, ch, phys.value, f); }
  }

  lemma FlushOutcome(cfg: Config, s: State, page: nat, force: bool)
    requires cfg.Valid() && Inv(cfg, s)
    ensures var t := Flush(cfg, s, page, force); if s.halt != Running then t == s else t.halt != Running || t == s || Flushed(s, t, page)
  {
    hide Tables, HaltOk, Config.Valid, FlushMapped, DirectAddress, ChannelOf, Issue, Flushed;
    if s.halt == Running && page in s.buffer {
      BufferedPage(cfg, s, page);
      var ch := ChannelOf(cfg, page).value;
      if page !in s.mshr {
        FlushMappedOutcome(cfg, s, page, ch);
        var phys := DirectAddress(cfg, page, ch);
        if phys.Some? {
          assert s.(ftl := s.ftl) == s;
          IssueOutcome(s, page, ch, phys.value, s.ftl);
        }
      }
    }
  }

  /** A new read either halts or becomes a queued read entry. */
  predicate ReadEntered(cfg: Config, s: State, t: State, r: Request, page: nat, ch: nat) {
    && page in t.mshr && t.mshr[page] == ReadEntry(cfg, s, r, page, ch, PhysOf(t.mshr[page]))
    && t == s.(ftl := t.ftl, mshr := s.mshr[page := t.mshr[page]], queue := s.queue + [page])
  }

  lemma EnterOutcome(cfg: Config, s: State, f: Ftl.State, r: Request, page: nat, ch: nat, phys: Phys)
    ensures ReadEntered(cfg, s, Enter(s.(ftl := f), page, ReadEntry(cfg, s, r, page, ch, phys)), r, page, ch)
  {
  }

  lemma NewReadOutcome(cfg: Config, s: State, r: Request, page: nat, ch: nat)
    ensures var t := NewRead(cfg, s, r, page, ch); t.halt != Running || ReadEntered(cfg, s, t, r, page, ch)
  {
    hide Ftl.TranslateRead, InChannel, DirectAddress, ReadEntry, ReadEntered;
    if cfg.ftlEnabled {
      var (f, phys) := Ftl.TranslateRead(cfg, s.ftl, page);
      if phys.Some? { EnterOutcome(cfg, s, f, r, page, ch, phys.value); }
    } else {
      var phys := DirectAddress(cfg, page, ch);
      assert s.(ftl := s.ftl) == s;
      if phys.Some? { EnterOutcome(cfg, s, s.ftl, r, page, ch, phys.value); }
    }
  }

  lemma {:induction false} FlushEachInv(cfg: Config, s: State, pages: seq<nat>)
    requires cfg.Valid() && Inv(cfg, s)
    ensures Inv(cfg, FlushEach(cfg, s, pages))
    decreases |pages|
  {
    if pages != [] {
      FlushInv(cfg, s, pages[0], false);
      hide Inv, Flush;
      FlushEachInv(cfg, Flush(cfg, s, pages[0], false), pages[1..]);
    }
  }

  lemma {:induction false} FlushOverdueInv(cfg: Config, s: State, pages: seq<nat>)
    requires cfg.Valid() && Inv(cfg, s)
    ensures Inv(cfg, FlushOverdue(cfg, s, pages)) && FlushOverdue(cfg, s, pages).tick == s.tick
    decreases |pages|
  {
    if pages != [] {
      FlushInv(cfg, s, pages[0], false);
      hide Inv, Flush;
      FlushOverdueInv(cfg, if Overdue(cfg, s, pages[0]) then Flush(cfg, s, pages[0], false) else s, pages[1..]);
    }
  }

  // ----- push -------------------------------------------------------------------------------------

  lemma CoverageInPage(cfg: Config, page: nat, r: Request)
    requires cfg.pageSize > 0 && Coverage(cfg, page, r).Some?
    ensures forall i :: i in Coverage(cfg, page, r).value ==> i < cfg.pageSize
  {
  }

  lemma BufferedMore(cfg: Config, s: State, r: Request, page: nat, bytes: set<nat>)
    requires r.isWrite && page == cfg.PageOf(r.addr) && cfg.pageSize > 0 && ChannelOf(cfg, page).Some?
        && forall i :: i in bytes ==> i < cfg.pageSize
    requires page in s.buffer ==> BufferedOk(cfg, s.tick, page, s.buffer[page])
    ensures BufferedOk(cfg, s.tick, page, Buffer(s, r, page, bytes))
  {
    hide ChannelOf;
  }

  lemma AddToBufferInv(cfg: Config, s: State, r: Request, page: nat, bytes: set<nat>)
    requires cfg.Valid() && Tables(cfg, s) && r.isWrite && page == cfg.PageOf(r.addr) && ChannelOf(cfg, page).Some?
    requires forall i :: i in bytes ==> i < cfg.pageSize
    ensures var t := AddToBuffer(s, r, page, bytes);
      Tables(cfg, t) && t.halt == s.halt && t.pushed == s.pushed && page in t.buffer
  {
    hide EntriesOk, QueueOk, ActiveOk, CreditOk, WritesOk, FtlOk, PinsOk, ChannelOf, BufferedOk, Buffer;
    var t := AddToBuffer(s, r, page, bytes);
    if page in s.buffer { assert BufferedOk(cfg, s.tick, page, s.buffer[page]); }
    BufferedMore(cfg, s, r, page, bytes);
  }

  lemma PushWriteInv(cfg: Config, s: State, r: Request, page: nat)
    requires cfg.Valid() && Tables(cfg, s) && s.halt == Running && r.isWrite && page == cfg.PageOf(r.addr)
    requires ChannelOf(cfg, page).Some? && s.pushed != [] && Last(s.pushed) == r
    ensures Inv(cfg, PushWrite(cfg, s, r, page))
  {
    hide Coverage, Tables, AddToBuffer, ChannelOf, Flush, FlushEach;
    if Coverage(cfg, page, r).Some? {
      CoverageInPage(cfg, page, r);
      var bytes := Coverage(cfg, page, r).value;
      AddToBufferInv(cfg, s, r, page, bytes);
      var t := AddToBuffer(s, r, page, bytes);
      FlushInv(cfg, t, page, false);
      FlushEachInv(cfg, t, SortedKeys(t.buffer.Keys));
    }
  }

  lemma AttachEntry(cfg: Config, k: nat, e: Entry, r: Request, g: Entry)
    requires EntryOk(cfg, k, e) && !r.isWrite && k == cfg.PageOf(r.addr)
    requires g == Attached(e, r) || g == Coalesced(cfg, e, r)
    ensures EntryOk(cfg, k, g) && Queued(g) == Queued(e) && SameFlight(e, g) && SamePin(e, g) && g.channel == e.channel
        && g.isWriteOp == e.isWriteOp
  {
    hide InChannel, ChannelOf;
  }

  lemma AttachInv(cfg: Config, s: State, r: Request, k: nat, e: Entry)
    requires Tables(cfg, s) && k in s.mshr && !r.isWrite && k == cfg.PageOf(r.addr)
    requires e == Attached(s.mshr[k], r) || e == Coalesced(cfg, s.mshr[k], r)
    ensures Tables(cfg, s.(mshr := s.mshr[k := e]))
  {
    hide QueueOk, FlightOk, BufferOk, CreditOk, WritesOk, FtlOk, EntryOk, BusyOk, PinsOk, SamePin, SameFlight, Queued,
        Attached, Coalesced;
    AttachEntry(cfg, k, s.mshr[k], r, e);
    QueueSame(s.mshr, s.queue, k, e);
    FlightSame(s.mshr, s.subs, s.active, k, e);
    WritesMap(s.mshr, s.mshr[k := e], s.channels, s.channels);
    PinsMapOne(cfg, s.mshr, k, e, s.ftl.mapping, s.ftl.blocks);
  }

  lemma PushReadInv(cfg: Config, s: State, r: Request, page: nat, ch: nat)
    requires cfg.Valid() && Tables(cfg, s) && s.halt == Running && !r.isWrite && page == cfg.PageOf(r.addr)
    requires ChannelOf(cfg, page) == Some(ch) && s.pushed != [] && Last(s.pushed) == r
    ensures Inv(cfg, PushRead(cfg, s, r, page, ch))
  {
    hide Tables, Flush, ChannelOf, Attached, Coalesced, NewRead, Config.Valid, Coverage;
    FlushInv(cfg, s, page, true);
    var t := if page in s.buffer then Flush(cfg, s, page, true) else s;
    if t.halt == Running {
      if page in t.mshr {
        var e := t.mshr[page];
        AttachInv(cfg, t, r, page, Attached(e, r));
        AttachInv(cfg, t, r, page, Coalesced(cfg, e, r));
      } else {
        NewReadInv(cfg, t, r, page, ch);
      }
    }
  }

  lemma PushedTables(cfg: Config, s: State, r: Request)
    requires Tables(cfg, s)
    ensures Tables(cfg, s.(pushed := s.pushed + [r]))
  {
    hide EntriesOk, QueueOk, ActiveOk, BufferOk, CreditOk, WritesOk, FtlOk, PinsOk;
  }

  lemma PushInv(cfg: Config, s: State, r: Request)
    requires cfg.Valid() && Inv(cfg, s)
    ensures Inv(cfg, Push(cfg, s, r))
  {
    if s.halt == Running {
      var page := cfg.PageOf(r.addr);
      var t := s.(pushed := s.pushed + [r]);
      PushedTables(cfg, s, r);
      assert Last(t.pushed) == r;
      if ChannelOf(cfg, page).Some? {
        if r.isWrite { PushWriteInv(cfg, t, r, page); } else { PushReadInv(cfg, t, r, page, ChannelOf(cfg, page).value); }
      }
    }
    hide Tables, PushWrite, PushRead, ChannelOf, Config.Valid, Coverage;
  }

  // ----- cycle ------------------------------------------------------------------------------------

  lemma ReleasedEntry(cfg: Config, k: nat, tick: nat, e: Entry)
    requires EntryOk(cfg, k, e)
    ensures var g := Released(cfg, tick, e);
      EntryOk(cfg, k, g) && Queued(g) == Queued(e) && SameFlight(e, g) && SamePin(e, g) && g.channel == e.channel
          && g.isWriteOp == e.isWriteOp
  {
    hide InChannel, ChannelOf;
  }

  lemma BufferLater(cfg: Config, tick: nat, buffer: map<nat, Buffered>)
    requires BufferOk(cfg, tick, buffer)
    ensures BufferOk(cfg, tick + 1, buffer)
  {
    hide ChannelOf;
    forall p | p in buffer ensures BufferedOk(cfg, tick + 1, p, buffer[p]) { assert BufferedOk(cfg, tick, p, buffer[p]); }
  }

  lemma BeginTickInv(cfg: Config, s: State)
    requires cfg.Valid() && Tables(cfg, s)
    ensures Tables(cfg, BeginTick(cfg, s))
  {
    hide QueueOk, FlightOk, BufferOk, WritesOk, FtlOk, EntryOk, BusyOk, PinsOk, SamePin, SameFlight, Queued, Released;
    var t := BeginTick(cfg, s);
    forall k | k in s.mshr { ReleasedEntry(cfg, k, t.tick, s.mshr[k]); }
    QueueMap(s.mshr, t.mshr, s.queue);
    FlightMap(s.mshr, t.mshr, s.subs, s.active);
    WritesMap(s.mshr, t.mshr, s.channels, t.channels);
    PinsMap(cfg, s.mshr, t.mshr, s.ftl.mapping, s.ftl.blocks, s.ftl.blocks);
    BufferLater(cfg, s.tick, s.buffer);
  }

  // Step 1: media completions.

  lemma FinishedEntry(cfg: Config, k: nat, e: Entry)
    requires EntryOk(cfg, k, e) && InFlight(e)
    ensures var g := Finished(e); EntryOk(cfg, k, g) && !InFlight(g) && SamePin(e, g) && g.channel == e.channel && g.isWriteOp == e.isWriteOp
    ensures Queued(Finished(e)) <==> e.op == Erasing
    ensures e.op == Erasing ==> e.isWriteOp
  {
    hide InChannel, ChannelOf;
  }

  lemma FinishQueue(mshr: Mshr, queue: seq<nat>, k: nat, e: Entry)
    requires QueueOk(mshr, queue) && k in mshr && !Queued(mshr[k])
    ensures QueueOk(mshr[k := e], if Queued(e) then queue + [k] else queue)
  {
    hide QueueOk, Queued;
    if Queued(e) { QueueAdd(mshr, queue, k, e); } else { QueueSame(mshr, queue, k, e); }
  }

  lemma FinishFtl(cfg: Config, mshr: Mshr, f: Ftl.State, k: nat)
    requires FtlOk(cfg, f) && !f.aborted && PinsOk(cfg, mshr, f.mapping, f.blocks) && k in mshr
        && (mshr[k].op == Erasing ==> mshr[k].isWriteOp)
    ensures var e := mshr[k];
      var g := if e.op == Erasing && cfg.ftlEnabled then Ftl.MarkErased(f, Ftl.BlockOf(PhysOf(e))) else f;
      FtlOk(cfg, g) && !g.aborted && g.mapping == f.mapping && g.blocks.Keys == f.blocks.Keys
  {
    hide FtlOk, PinsOk;
    if mshr[k].op == Erasing && cfg.ftlEnabled { MarkErasingOk(cfg, mshr, f, k); }
  }

  lemma FtlNotAborted(cfg: Config, f: Ftl.State)
    requires FtlOk(cfg, f)
    ensures !f.aborted
  {
    hide FtlInvariant.BlocksWf, FtlInvariant.PoolsWf, FtlInvariant.MapWf, FtlInvariant.CountWf, FtlInvariant.Covers,
        FtlExact.Exact;
  }

  lemma FinishInv(cfg: Config, s: State, sa: nat, sub: Nand.Sub, k: nat)
    requires Tables(cfg, s) && s.halt == Running && sa < |s.subs| && sub.phase == Nand.Idle && k in s.mshr
        && Serves(s.mshr[k], sa)
    ensures Tables(cfg, Finish(cfg, s.(subs := s.subs[sa := sub], active := s.active - {sa}), k))
    ensures Finish(cfg, s.(subs := s.subs[sa := sub], active := s.active - {sa}), k).halt == Running
  {
    hide QueueOk, FlightOk, BufferOk, CreditOk, WritesOk, FtlOk, EntryOk, BusyOk, PinsOk, SamePin, Finished, Queued;
    var e := s.mshr[k];
    FinishedEntry(cfg, k, e);
    assert !Queued(e) by { NotQueued(e); }
    FinishQueue(s.mshr, s.queue, k, Finished(e));
    FlightFinish(s.mshr, s.subs, s.active, sa, sub, k, Finished(e));
    WritesMap(s.mshr, s.mshr[k := Finished(e)], s.channels, s.channels);
    FtlNotAborted(cfg, s.ftl);
    FinishFtl(cfg, s.mshr, s.ftl, k);
    var f := if e.op == Erasing && cfg.ftlEnabled then Ftl.MarkErased(s.ftl, Ftl.BlockOf(PhysOf(e))) else s.ftl;
    PinsMapOne(cfg, s.mshr, k, Finished(e), s.ftl.mapping, s.ftl.blocks);
    PinsMap(cfg, s.mshr[k := Finished(e)], s.mshr[k := Finished(e)], s.ftl.mapping, s.ftl.blocks, f.blocks) by { SamePinRefl(s.mshr[k := Finished(e)]); }
    assert |s.active - {sa}| <= |s.active|;
    hide Ftl.MarkErased;
  }

  lemma SamePinRefl(mshr: Mshr)
    ensures forall k :: k in mshr ==> SamePin(mshr[k], mshr[k])
  {
  }

  lemma NotQueued(e: Entry)
    requires InFlight(e)
    ensures !Queued(e)
  {
  }

  lemma AdvanceOneInv(cfg: Config, s: State, sa: nat)
    requires Tables(cfg, s) && s.halt == Running
    ensures Tables(cfg, AdvanceOne(cfg, s, sa)) && AdvanceOne(cfg, s, sa).halt == Running
  {
    hide EntriesOk, QueueOk, BufferOk, CreditOk, WritesOk, FtlOk, FlightOk, PinsOk, Finish;
    if sa < |s.subs| {
      var sub := Nand.Advance(s.subs[sa]);
      if sub.phase != Nand.Idle {
        FlightTick(s.mshr, s.subs, s.active, sa, sub);
      } else if sa in s.active {
        ServingIsUnique(s.mshr, s.subs, s.active, sa);
        FinishInv(cfg, s, sa, sub, MinOf(Serving(s.mshr, sa)));
      } else {
        IdleServesNothing(s.mshr, s.subs, s.active, sa);
        assert s.subs[sa := sub] == s.subs && s.active - {sa} == s.active;
      }
    }
  }

  lemma IdleServesNothing(mshr: Mshr, subs: seq<Nand.Sub>, active: set<nat>, sa: nat)
    requires FlightOk(mshr, subs, active) && sa !in active
    ensures Serving(mshr, sa) == {}
  {
  }

  lemma {:induction false} AdvanceEachInv(cfg: Config, s: State, sas: seq<nat>)
    requires Tables(cfg, s) && s.halt == Running
    ensures Tables(cfg, AdvanceEach(cfg, s, sas)) && AdvanceEach(cfg, s, sas).halt == Running
    decreases |sas|
  {
    hide Tables, AdvanceOne;
    if sas != [] {
      AdvanceOneInv(cfg, s, sas[0]);
      AdvanceEachInv(cfg, AdvanceOne(cfg, s, sas[0]), sas[1..]);
    }
  }

  // Step 1b: matured cache hits.

  lemma MaturedEntry(cfg: Config, k: nat, tick: nat, e: Entry)
    requires EntryOk(cfg, k, e)
    ensures var g := Matured(tick, e);
      EntryOk(cfg, k, g) && Queued(g) == Queued(e) && SameFlight(e, g) && SamePin(e, g) && g.channel == e.channel
          && g.isWriteOp == e.isWriteOp
  {
    hide InChannel, ChannelOf;
  }

  lemma ReadyHitsInv(cfg: Config, s: State)
    requires Tables(cfg, s)
    ensures Tables(cfg, ReadyHits(s))
  {
    hide QueueOk, FlightOk, BufferOk, CreditOk, WritesOk, FtlOk, EntryOk, BusyOk, PinsOk, SamePin, SameFlight, Queued, Matured;
    var t := ReadyHits(s);
    forall k | k in s.mshr { MaturedEntry(cfg, k, s.tick, s.mshr[k]); }
    QueueMap(s.mshr, t.mshr, s.queue);
    FlightMap(s.mshr, t.mshr, s.subs, s.active);
    WritesMap(s.mshr, t.mshr, s.channels, s.channels);
    PinsMap(cfg, s.mshr, t.mshr, s.ftl.mapping, s.ftl.blocks, s.ftl.blocks);
  }

  // Step 2: delivery.

  lemma {:induction false} AffordableLeft(pending: seq<Request>, limit: nat, credit: real)
    requires 0.0 <= credit
    ensures 0.0 <= Affordable(pending, limit, credit).1 <= credit
    decreases limit
  {
    if limit != 0 && pending != [] {
      var cost := if pending[0].isWrite then 0 else pending[0].size;
      if !(cost > 0 && cost as real > credit) {
        AffordableLeft(pending[1..], limit - 1, if cost > 0 then credit - cost as real else credit);
      }
    }
  }

  lemma SuffixEntry(cfg: Config, k: nat, e: Entry, n: nat, fill: bool)
    requires EntryOk(cfg, k, e) && e.delivering && n < |e.pending| && (fill ==> e.fillCache)
    ensures var g := e.(pending := e.pending[n..], fillCache := fill);
      EntryOk(cfg, k, g) && !Queued(g) && SameFlight(e, g) && SamePin(e, g)
  {
    hide InChannel, ChannelOf;
  }

  lemma DeliverCredit(cfg: Config, channels: seq<Channel>, ch: nat, c: Channel)
    requires CreditOk(cfg, channels) && ch < |channels| && 0.0 <= c.credit <= channels[ch].credit
    ensures CreditOk(cfg, channels[ch := c])
  {
  }

  lemma DeliverDropInv(cfg: Config, s: State, k: nat, c: Channel)
    requires Tables(cfg, s) && k in s.mshr && s.mshr[k].delivering && s.mshr[k].channel < |s.channels|
    requires var was := s.channels[s.mshr[k].channel];
      && 0.0 <= c.credit <= was.credit
      && c.outstandingWrites == if s.mshr[k].isWriteOp && was.outstandingWrites > 0 then was.outstandingWrites - 1
          else was.outstandingWrites
    ensures Tables(cfg, s.(mshr := s.mshr - {k}, channels := s.channels[s.mshr[k].channel := c]))
  {
    hide QueueOk, FlightOk, BufferOk, CreditOk, WritesOk, FtlOk, EntryOk, BusyOk, PinsOk;
    QueueDrop(s.mshr, s.queue, k);
    FlightDrop(s.mshr, s.subs, s.active, k);
    WritesDrop(s.mshr, s.channels, k, c);
    DeliverCredit(cfg, s.channels, s.mshr[k].channel, c);
    PinsMap(cfg, s.mshr, s.mshr - {k}, s.ftl.mapping, s.ftl.blocks, s.ftl.blocks);
  }

  lemma DeliverKeepInv(cfg: Config, s: State, k: nat, c: Channel, n: nat, fill: bool)
    requires Tables(cfg, s) && k in s.mshr && s.mshr[k].delivering && s.mshr[k].channel < |s.channels|
    requires n < |s.mshr[k].pending| && (fill ==> s.mshr[k].fillCache)
    requires var was := s.channels[s.mshr[k].channel]; 0.0 <= c.credit <= was.credit && c.outstandingWrites == was.outstandingWrites
    ensures Tables(cfg, s.(mshr := s.mshr[k := s.mshr[k].(pending := s.mshr[k].pending[n..], fillCache := fill)],
                           channels := s.channels[s.mshr[k].channel := c]))
  {
    hide QueueOk, FlightOk, BufferOk, CreditOk, WritesOk, FtlOk, EntryOk, BusyOk, PinsOk, SamePin, SameFlight;
    var e := s.mshr[k];
    var g := e.(pending := e.pending[n..], fillCache := fill);
    SuffixEntry(cfg, k, e, n, fill);
    QueueSame(s.mshr, s.queue, k, g);
    FlightSame(s.mshr, s.subs, s.active, k, g);
    WritesMap(s.mshr, s.mshr[k := g], s.channels, s.channels[e.channel := c]);
    DeliverCredit(cfg, s.channels, e.channel, c);
    PinsMapOne(cfg, s.mshr, k, g, s.ftl.mapping, s.ftl.blocks);
  }

  lemma TablesCredit(cfg: Config, s: State, ch: nat)
    requires Tables(cfg, s) && ch < |s.channels|
    ensures 0.0 <= s.channels[ch].credit
  {
    hide EntriesOk, QueueOk, ActiveOk, BufferOk, WritesOk, FtlOk, PinsOk;
  }

  /** The tables do not mention the cache, the histories or the return queue's contents. */
  lemma TablesReturn(cfg: Config, s: State, t: State)
    requires Tables(cfg, s) && |t.returnq| <= cfg.returnCapacity
    requires t.mshr == s.mshr && t.queue == s.queue && t.subs == s.subs && t.active == s.active && t.tick == s.tick
    requires t.buffer == s.buffer && t.channels == s.channels && t.ftl == s.ftl
    ensures Tables(cfg, t)
  {
    hide EntriesOk, QueueOk, ActiveOk, BufferOk, CreditOk, WritesOk, FtlOk, PinsOk;
  }

  lemma DeliverOneInv(cfg: Config, s: State, k: nat)
    requires Tables(cfg, s)
    ensures Tables(cfg, DeliverOne(cfg, s, k))
  {
    hide Tables, CacheInsert, Affordable;
    if !(k !in s.mshr || !s.mshr[k].delivering || |s.returnq| >= cfg.returnCapacity || s.mshr[k].channel >= |s.channels|) {
      var e := s.mshr[k];
      var c := s.channels[e.channel];
      TablesCredit(cfg, s, e.channel);
      AffordableLeft(e.pending, Min(|e.pending|, cfg.returnCapacity - |s.returnq|), c.credit);
      var (n, left) := Affordable(e.pending, Min(|e.pending|, cfg.returnCapacity - |s.returnq|), c.credit);
      var rest := e.pending[n..];
      var freed := rest == [] && e.isWriteOp && c.outstandingWrites > 0;
      var c' := Channel(left, if freed then c.outstandingWrites - 1
          else c.outstandingWrites, c.transferred + LinkBytes(e.pending[..n]));
      var t := DeliverOne(cfg, s, k);
      if rest == [] {
        DeliverDropInv(cfg, s, k, c');
        TablesReturn(cfg, s.(mshr := s.mshr - {k}, channels := s.channels[e.channel := c']), t);
      } else {
        var fill := t.mshr[k].fillCache;
        DeliverKeepInv(cfg, s, k, c', n, fill);
        TablesReturn(cfg, s.(mshr := s.mshr[k := e.(pending := rest, fillCache := fill)],
            channels := s.channels[e.channel := c']), t);
      }
    }
  }

  lemma {:induction false} DeliverEachInv(cfg: Config, s: State, keys: seq<nat>)
    requires Tables(cfg, s)
    ensures Tables(cfg, DeliverEach(cfg, s, keys)) && DeliverEach(cfg, s, keys).halt == s.halt
    decreases |keys|
  {
    hide Tables;
    if keys != [] {
      DeliverOneInv(cfg, s, keys[0]);
      DeliverEachInv(cfg, DeliverOne(cfg, s, keys[0]), keys[1..]);
    }
  }

  lemma DrainWindowInv(cfg: Config, s: State)
    requires Tables(cfg, s)
    ensures Tables(cfg, DrainWindow(cfg, s)) && DrainWindow(cfg, s).halt == s.halt
  {
    hide Tables, UpdateDrain, CountWrites;
    TablesReturnq(cfg, s);
    TablesReturn(cfg, s, DrainWindow(cfg, s));
  }

  // Step 4: scheduling.

  lemma {:induction false} FirstCandidateIs(s: State, queue: seq<nat>, wanted: Option<bool>)
    ensures var i := FirstCandidate(s, queue, wanted); i < |queue| ==> Candidate(s, queue[i])
  {
    if queue != [] { FirstCandidateIs(s, queue[1..], wanted); }
  }

  lemma PickIsCandidate(s: State, preferReads: bool, typed: bool)
    ensures var i := Pick(s, preferReads, typed); i < |s.queue| ==> Candidate(s, s.queue[i])
  {
    hide FirstCandidate, Candidate;
    FirstCandidateIs(s, s.queue, if typed then Some(preferReads) else None);
    FirstCandidateIs(s, s.queue, None);
  }

  /** What scheduling an entry can turn it into. */
  predicate Issued(e: Entry, g: Entry) {
    && g == e.(op := g.op, hitReady := g.hitReady, data := g.data)
    && (if g.op == Waiting then !e.isWriteOp && g.hitReady > 0 else g.hitReady == e.hitReady && (e.isWriteOp <==> g.op != Reading))
  }

  lemma IssuedEntry(cfg: Config, k: nat, e: Entry, g: Entry)
    requires EntryOk(cfg, k, e) && Queued(e) && !e.aggregating && Issued(e, g)
    ensures EntryOk(cfg, k, g) && !Queued(g) && SamePin(e, g) && g.channel == e.channel && g.isWriteOp == e.isWriteOp
    ensures InFlight(g) <==> g.op != Waiting
  {
    hide InChannel, ChannelOf;
  }

  lemma KindOfCandidate(cfg: Config, s: State, k: nat)
    requires EntriesOk(cfg, s.mshr) && Candidate(s, k) && Queued(s.mshr[k])
    ensures IsRead(s, k) <==> !s.mshr[k].isWriteOp
  {
    hide InChannel, ChannelOf;
    assert EntryOk(cfg, k, s.mshr[k]);
    assert s.mshr[k].pending[0] in s.mshr[k].pending;
  }

  /** A queue position leaves the queue as a timed cache hit. */
  lemma StartHitInv(cfg: Config, s: State, i: nat, g: Entry)
    requires Tables(cfg, s) && i < |s.queue| && Candidate(s, s.queue[i]) && Issued(s.mshr[s.queue[i]], g) && g.op == Waiting
    ensures Tables(cfg, s.(queue := s.queue[..i] + s.queue[i + 1..], mshr := s.mshr[s.queue[i] := g]))
  {
    hide QueueOk, FlightOk, BufferOk, CreditOk, WritesOk, FtlOk, EntryOk, BusyOk, PinsOk, SamePin, SameFlight, Issued,
        Queued, InFlight;
    var k := s.queue[i];
    InQueue(s.mshr, s.queue, i);
    IssuedEntry(cfg, k, s.mshr[k], g);
    QueueTake(s.mshr, s.queue, i, g);
    OutOfFlight(s.mshr[k], g);
    FlightSame(s.mshr, s.subs, s.active, k, g);
    WritesMap(s.mshr, s.mshr[k := g], s.channels, s.channels);
    PinsMapOne(cfg, s.mshr, k, g, s.ftl.mapping, s.ftl.blocks);
  }

  lemma InQueue(mshr: Mshr, queue: seq<nat>, i: nat)
    requires QueueOk(mshr, queue) && i < |queue|
    ensures queue[i] in mshr && Queued(mshr[queue[i]])
  {
  }

  lemma OutOfFlight(e: Entry, g: Entry)
    requires Queued(e)
    ensures !InFlight(e) && (!InFlight(g) ==> SameFlight(e, g))
  {
  }

  /** A queue position leaves the queue with a media operation on its idle sub-array. */
  lemma StartMediaInv(cfg: Config, s: State, i: nat, g: Entry, sub: Nand.Sub, f: Ftl.State)
    requires Tables(cfg, s) && i < |s.queue| && Candidate(s, s.queue[i]) && Issued(s.mshr[s.queue[i]], g) && g.op != Waiting
    requires ControllerTables.Matches(sub, g) && |s.active| < cfg.MaxActive()
    requires FtlOk(cfg, f) && f.mapping == s.ftl.mapping && f.blocks.Keys == s.ftl.blocks.Keys
    ensures Tables(cfg, s.(queue := s.queue[..i] + s.queue[i + 1..], mshr := s.mshr[s.queue[i] := g], subs := s.subs[g.sa := sub],
                           active := s.active + {g.sa}, ftl := f))
  {
    hide QueueOk, FlightOk, BufferOk, CreditOk, WritesOk, FtlOk, EntryOk, BusyOk, PinsOk, SamePin, Issued, Queued,
        InFlight, ControllerTables.Matches;
    var k := s.queue[i];
    InQueue(s.mshr, s.queue, i);
    IssuedEntry(cfg, k, s.mshr[k], g);
    IssuedWhere(s.mshr[k], g);
    OutOfFlight(s.mshr[k], g);
    QueueTake(s.mshr, s.queue, i, g);
    FlightStart(s.mshr, s.subs, s.active, k, g, sub);
    WritesMap(s.mshr, s.mshr[k := g], s.channels, s.channels);
    PinsMapOne(cfg, s.mshr, k, g, s.ftl.mapping, s.ftl.blocks);
    SamePinRefl(s.mshr[k := g]);
    PinsMap(cfg, s.mshr[k := g], s.mshr[k := g], s.ftl.mapping, s.ftl.blocks, f.blocks);
  }

  lemma IssuedWhere(e: Entry, g: Entry)
    requires Issued(e, g)
    ensures g.sa == e.sa && g.block == e.block && g.offset == e.offset && g.page == e.page
  {
  }

  lemma StartReadInv(cfg: Config, s: State, i: nat)
    requires Tables(cfg, s) && s.tick > 0 && i < |s.queue| && Candidate(s, s.queue[i]) && IsRead(s, s.queue[i])
        && |s.active| < cfg.MaxActive()
    ensures Tables(cfg, Start(cfg, s, i)) && Start(cfg, s, i).halt == s.halt && Start(cfg, s, i).tick == s.tick
  {
    hide Tables, Nand.StartRead, Nand.Served, Lru.Without, FtlOk;
    var k := s.queue[i];
    var e := s.mshr[k];
    CandidateKind(cfg, s, i);
    TablesFtl(cfg, s);
    TablesReturnq(cfg, s);
    var t := Start(cfg, s, i);
    if cfg.cacheEntries > 0 && e.page in s.cache {
      StartHitInv(cfg, s, i, t.mshr[k]);
      TablesReturn(cfg, s.(queue := t.queue, mshr := t.mshr), t);
    } else {
      StartReadMatches(cfg, s.subs[e.sa], t.mshr[k]);
      StartMediaInv(cfg, s, i, t.mshr[k], t.subs[e.sa], s.ftl);
      TablesReturn(cfg, s.(queue := t.queue, mshr := t.mshr, subs := t.subs, active := t.active, ftl := s.ftl), t);
    }
  }

  lemma TablesReturnq(cfg: Config, s: State)
    requires Tables(cfg, s)
    ensures |s.returnq| <= cfg.returnCapacity && !s.ftl.aborted
  {
    FtlNotAborted(cfg, s.ftl);
    hide EntriesOk, QueueOk, ActiveOk, BufferOk, CreditOk, WritesOk, FtlOk, PinsOk;
  }

  lemma CandidateKind(cfg: Config, s: State, i: nat)
    requires Tables(cfg, s) && i < |s.queue| && Candidate(s, s.queue[i])
    ensures IsRead(s, s.queue[i]) <==> !s.mshr[s.queue[i]].isWriteOp
    ensures Queued(s.mshr[s.queue[i]])
  {
    hide ActiveOk, BufferOk, CreditOk, WritesOk, FtlOk, PinsOk;
    InQueue(s.mshr, s.queue, i);
    KindOfCandidate(cfg, s, s.queue[i]);
  }

  lemma StartReadMatches(cfg: Config, sub: Nand.Sub, g: Entry)
    requires g.op == Reading
    ensures ControllerTables.Matches(Nand.StartRead(cfg, sub, g.block, g.offset), g)
  {
  }

  lemma StartProgramMatches(cfg: Config, sub: Nand.Sub, g: Entry, cell: Nand.Cell)
    requires g.op == Programming
    ensures ControllerTables.Matches(Nand.StartProgram(cfg, sub, g.block, g.offset, cell), g)
  {
  }

  lemma StartEraseMatches(cfg: Config, sub: Nand.Sub, g: Entry)
    requires g.op == Erasing
    ensures ControllerTables.Matches(Nand.StartErase(cfg, sub, g.block), g)
  {
  }

  lemma StartWriteInv(cfg: Config, s: State, i: nat)
    requires Tables(cfg, s) && i < |s.queue| && Candidate(s, s.queue[i]) && !IsRead(s, s.queue[i]) && |s.active| < cfg.MaxActive()
    ensures Tables(cfg, Start(cfg, s, i)) && Start(cfg, s, i).halt == s.halt && Start(cfg, s, i).tick == s.tick
  {
    hide Tables, Nand.StartErase, Nand.StartProgram, Lru.Without, FtlOk, PinsOk, Stored, Ftl.MarkErasing, Ftl.IsErased,
        Padding, Issued;
    var k := s.queue[i];
    var e := s.mshr[k];
    CandidateKind(cfg, s, i);
    TablesFtl(cfg, s);
    TablesPins(cfg, s);
    TablesReturnq(cfg, s);
    var t := Start(cfg, s, i);
    if cfg.ftlEnabled { MarkErasingOk(cfg, s.mshr, s.ftl, k); }
    WriteIssued(e);
    if cfg.ftlEnabled && !Ftl.IsErased(s.ftl, Ftl.BlockOf(PhysOf(e))) {
      var g, sub := e.(op := Erasing), Nand.StartErase(cfg, s.subs[e.sa], e.block);
      StartEraseMatches(cfg, s.subs[e.sa], g);
      StartMediaInv(cfg, s, i, g, sub, t.ftl);
      TablesReturn(cfg, s.(queue := t.queue, mshr := s.mshr[k := g], subs := s.subs[e.sa := sub],
          active := s.active + {e.sa}, ftl := t.ftl), t);
    } else {
      var cell := Nand.Cell(e.page, s.programs + 1);
      var g, sub := e.(op := Programming), Nand.StartProgram(cfg, s.subs[e.sa], e.block, e.offset, cell);
      StartProgramMatches(cfg, s.subs[e.sa], g, cell);
      StartMediaInv(cfg, s, i, g, sub, s.ftl);
      TablesReturn(cfg, s.(queue := t.queue, mshr := s.mshr[k := g], subs := s.subs[e.sa := sub],
          active := s.active + {e.sa}, ftl := s.ftl), t);
    }
  }

  lemma WriteIssued(e: Entry)
    requires e.isWriteOp
    ensures Issued(e, e.(op := Erasing)) && Issued(e, e.(op := Programming))
  {
  }

  lemma StartInv(cfg: Config, s: State, i: nat)
    requires Tables(cfg, s) && s.halt == Running && s.tick > 0 && i < |s.queue| && Candidate(s, s.queue[i])
        && |s.active| < cfg.MaxActive()
    ensures Tables(cfg, Start(cfg, s, i)) && Start(cfg, s, i).halt == Running && Start(cfg, s, i).tick == s.tick
  {
    hide Tables, Start, Candidate;
    if IsRead(s, s.queue[i]) { StartReadInv(cfg, s, i); } else { StartWriteInv(cfg, s, i); }
  }

  lemma NothingMisplaced(cfg: Config, s: State)
    requires Tables(cfg, s)
    ensures !(exists k :: k in s.queue && Misplaced(cfg, s, k))
  {
    hide QueueOk, ActiveOk, BufferOk, CreditOk, WritesOk, FtlOk, PinsOk, InChannel;
    forall k | k in s.queue ensures !Misplaced(cfg, s, k) { if k in s.mshr { assert EntryOk(cfg, k, s.mshr[k]); } }
  }

  lemma {:induction false} ScheduleUpToInv(cfg: Config, s: State, budget: nat)
    requires Tables(cfg, s) && s.halt == Running && s.tick > 0
    ensures Tables(cfg, ScheduleUpTo(cfg, s, budget)) && ScheduleUpTo(cfg, s, budget).halt == Running
    decreases budget
  {
    hide Tables, Start, Pick, Misplaced, Candidate, PrefersReads;
    NothingMisplaced(cfg, s);
    if budget != 0 && |s.active| < cfg.MaxActive() {
      PickIsCandidate(s, PrefersReads(cfg, s), cfg.Scheduler() != 0);
      var i := Pick(s, PrefersReads(cfg, s), cfg.Scheduler() != 0);
      if i < |s.queue| {
        StartInv(cfg, s, i);
        ScheduleUpToInv(cfg, Start(cfg, s, i), budget - 1);
      }
    }
  }

  // ----- the whole cycle --------------------------------------------------------------------------

  /** Steps 0 to 3a keep the tables and cannot abort. */
  lemma MediaHalfInv(cfg: Config, s: State)
    requires cfg.Valid() && Tables(cfg, s) && s.halt == Running
    ensures var t := MediaHalf(cfg, s); Tables(cfg, t) && t.halt == Running && t.pushed == s.pushed && t.tick == s.tick + 1
  {
    hide Tables, Config.Valid, AdvanceEach, DeliverEach, BeginTick, ReadyHits, DrainWindow;
    var s1 := BeginTick(cfg, s);
    BeginTickInv(cfg, s);
    BeginTickKeeps(cfg, s);
    var s2 := AdvanceEach(cfg, s1, SortedKeys(s1.active));
    AdvanceEachInv(cfg, s1, SortedKeys(s1.active));
    AdvanceEachKeeps(cfg, s1, SortedKeys(s1.active));
    var s3 := ReadyHits(s2);
    ReadyHitsInv(cfg, s2);
    ReadyHitsKeeps(s2);
    var s4 := DeliverEach(cfg, s3, SortedKeys(s3.mshr.Keys));
    DeliverEachInv(cfg, s3, SortedKeys(s3.mshr.Keys));
    DeliverEachKeeps(cfg, s3, SortedKeys(s3.mshr.Keys));
    DrainWindowInv(cfg, s4);
    DrainWindowKeeps(cfg, s4);
  }

  lemma BeginTickKeeps(cfg: Config, s: State)
    ensures var t := BeginTick(cfg, s); t.halt == s.halt && t.pushed == s.pushed && t.tick == s.tick + 1
  {
  }

  lemma ReadyHitsKeeps(s: State)
    ensures var t := ReadyHits(s); t.halt == s.halt && t.pushed == s.pushed && t.tick == s.tick
  {
  }

  lemma DrainWindowKeeps(cfg: Config, s: State)
    ensures var t := DrainWindow(cfg, s); t.pushed == s.pushed && t.tick == s.tick
  {
    hide UpdateDrain, CountWrites;
  }

  lemma FinishKeeps(cfg: Config, s: State, k: nat)
    requires k in s.mshr
    ensures var t := Finish(cfg, s, k); t.pushed == s.pushed && t.tick == s.tick
  {
    hide Ftl.MarkErased, Finished;
  }

  lemma AdvanceOneKeeps(cfg: Config, s: State, sa: nat)
    ensures var t := AdvanceOne(cfg, s, sa); t.pushed == s.pushed && t.tick == s.tick
  {
    hide Serves, Finish, Nand.Advance;
    if sa < |s.subs| {
      var u := s.(subs := s.subs[sa := Nand.Advance(s.subs[sa])], active := s.active - {sa});
      if Serving(s.mshr, sa) != {} { FinishKeeps(cfg, u, MinOf(Serving(s.mshr, sa))); }
    }
  }

  lemma {:induction false} AdvanceEachKeeps(cfg: Config, s: State, sas: seq<nat>)
    ensures var t := AdvanceEach(cfg, s, sas); t.pushed == s.pushed && t.tick == s.tick
    decreases |sas|
  {
    hide AdvanceOne;
    if sas != [] {
      AdvanceOneKeeps(cfg, s, sas[0]);
      AdvanceEachKeeps(cfg, AdvanceOne(cfg, s, sas[0]), sas[1..]);
    }
  }

  lemma {:induction false} DeliverEachKeeps(cfg: Config, s: State, keys: seq<nat>)
    ensures var t := DeliverEach(cfg, s, keys); t.pushed == s.pushed && t.tick == s.tick
    decreases |keys|
  {
    hide Affordable, CacheInsert;
    if keys != [] { DeliverEachKeeps(cfg, DeliverOne(cfg, s, keys[0]), keys[1..]); }
  }

  lemma CycleInv(cfg: Config, s: State)
    requires cfg.Valid() && Inv(cfg, s)
    ensures Inv(cfg, Cycle(cfg, s))
  {
    hide Tables, Config.Valid, MediaHalf, FlushOverdue, Schedule, IdleDrain;
    if s.halt == Running {
      var s5 := MediaHalf(cfg, s);
      MediaHalfInv(cfg, s);
      assert Inv(cfg, s5);
      FlushOverdueInv(cfg, s5, SortedKeys(s5.buffer.Keys));
      var s6 := FlushOverdue(cfg, s5, SortedKeys(s5.buffer.Keys));
      ScheduleInv(cfg, s6);
      IdleDrainInv(cfg, Schedule(cfg, s6));
    }
  }

  lemma ScheduleInv(cfg: Config, s: State)
    requires cfg.Valid() && Inv(cfg, s) && s.tick > 0
    ensures Inv(cfg, Schedule(cfg, s))
  {
    hide Tables, Config.Valid, ScheduleUpTo;
    if s.halt == Running { ScheduleUpToInv(cfg, s, cfg.MaxActive()); }
  }

  lemma IdleDrainInv(cfg: Config, s: State)
    requires cfg.Valid() && Inv(cfg, s)
    ensures Inv(cfg, IdleDrain(cfg, s))
  {
    hide Inv, Config.Valid, FlushEach, LastArrival;
    FlushEachInv(cfg, s, SortedKeys(s.buffer.Keys));
  }

  lemma PopInv(cfg: Config, s: State)
    requires cfg.Valid() && Inv(cfg, s)
    ensures Inv(cfg, Pop(s))
  {
    hide Tables, Config.Valid, Coverage, ChannelOf;
    if s.halt == Running && s.returnq != [] {
      TablesReturnq(cfg, s);
      TablesReturn(cfg, s, Pop(s));
    }
  }

  lemma ApplyInv(cfg: Config, s: State, c: Call)
    requires cfg.Valid() && Inv(cfg, s)
    ensures Inv(cfg, Apply(cfg, s, c))
  {
    hide Inv, Push, Cycle, Pop;
    match c
    case CallPush(r) => PushInv(cfg, s, r);
    case CallCycle => CycleInv(cfg, s);
    case CallPop => PopInv(cfg, s);
  }

  /** Over every run from the empty device. */
  lemma ReachableInv(cfg: Config, calls: seq<Call>)
    requires cfg.Valid()
    ensures Inv(cfg, Run(cfg, Init(cfg), calls))
  {
    hide Inv, Run, Config.Valid;
    InitInv(cfg);
    RunInv(cfg, Init(cfg), calls);
  }

  /** Over every run: the tables agree, and the run is still going or ended in
      one of the documented aborts. */
  lemma {:induction false} RunInv(cfg: Config, s: State, calls: seq<Call>)
    requires cfg.Valid() && Inv(cfg, s)
    ensures Inv(cfg, Run(cfg, s, calls))
    decreases |calls|
  {
    hide Inv, Apply;
    if calls != [] {
      ApplyInv(cfg, s, calls[0]);
      RunInv(cfg, Apply(cfg, s, calls[0]), calls[1..]);
    }
  }
}
