/** Write-byte conservation: every distinct byte accepted is buffered, waiting for its PROGRAM, or
    programmed once; the media wrote those bytes plus the padding, and nothing else. */
module Bytes {
  import opened Basics
  import opened Geometry
  import opened Controller
  import opened ControllerTables
  import opened ControllerInvariant
  import Ftl
  import Lru
  import Nand

  // ----- which bytes a write covers --------------------------------------------------------------------

  /** Without a mask, a write is taken exactly if it ends inside its page, and covers its own addresses. */
  lemma PlainCoverage(cfg: Config, r: Request)
    requires cfg.pageSize > 0 && r.mask == {}
    ensures var page, first := cfg.PageOf(r.addr), cfg.Relative(r.addr); var bytes := Coverage(cfg, page, r);
      && (bytes.Some? <==> first + r.size <= page * cfg.pageSize + cfg.pageSize)
      && (bytes.Some? ==> forall x: nat :: x in bytes.value <==> first <= page * cfg.pageSize + x < first + r.size)
  {
    OffsetIn(cfg.Relative(r.addr), cfg.pageSize);
  }

  /** The mask, laid over addresses from the base on, marks this one. */
  predicate Marks(mask: set<nat>, base: nat, at: nat) { exists i :: i in mask && at == base + i }

  /** A mask marks bytes of the 128-byte window around the address, and is refused if one of them lies
      outside the page. */
  lemma MaskedCoverage(cfg: Config, r: Request)
    requires cfg.pageSize > 0 && r.mask != {}
    ensures var page, first := cfg.PageOf(r.addr), cfg.Relative(r.addr);
      var bytes, base, start := Coverage(cfg, page, r), first - first % 128, page * cfg.pageSize;
      && (bytes.Some? <==> start <= base && forall i :: i in r.mask ==> base + i < start + cfg.pageSize)
      && (bytes.Some? ==> forall x: nat :: x in bytes.value <==> Marks(r.mask, base, start + x))
  {
    hide Coverage, Marks, Config.Relative;
    var page, first := cfg.PageOf(r.addr), cfg.Relative(r.addr);
    var base, start := first - first % WINDOW, page * cfg.pageSize;
    MaskedBytes(cfg, page, r, base, base % cfg.pageSize);
    WindowPlace(first, base, cfg.pageSize);
    MaskedAt(Coverage(cfg, page, r), r.mask, base, base % cfg.pageSize, start, cfg.pageSize, base / cfg.pageSize == page);
  }

  function Shift(mask: set<nat>, offset: nat): set<nat> { set i | i in mask :: offset + i }

  predicate Fits(mask: set<nat>, offset: nat, n: nat) { forall i :: i in mask ==> offset + i < n }

  /** In terms of addresses instead of offsets. */
  lemma MaskedAt(bytes: Option<set<nat>>, mask: set<nat>, base: nat, offset: nat, start: nat, n: nat, here: bool)
    requires bytes == if here && Fits(mask, offset, n) then Some(Shift(mask, offset)) else None
    requires (here <==> start <= base) && (here ==> base == start + offset)
    ensures bytes.Some? <==> start <= base && forall i :: i in mask ==> base + i < start + n
    ensures bytes.Some? ==> forall x: nat :: x in bytes.value <==> Marks(mask, base, start + x)
  {
    if here {
      forall x: nat ensures x in Shift(mask, offset) <==> Marks(mask, base, start + x) {
        if Marks(mask, base, start + x) {
          var i :| i in mask && start + x == base + i;
          assert offset + i == x;
        }
      }
    }
  }

  /** The page the window starts in, and where. */
  lemma WindowPlace(first: nat, base: nat, n: nat)
    requires n > 0 && base <= first
    ensures (base / n == first / n <==> (first / n) * n <= base) && (base / n == first / n ==> base == (first / n) * n + base % n)
  {
    OffsetIn(base, n);
    OffsetIn(first, n);
    if base / n < first / n { MulLess(base / n, first / n, n); }
    if base / n > first / n { MulLess(first / n, base / n, n); }
  }

  lemma MaskedBytes(cfg: Config, page: nat, r: Request, base: nat, offset: nat)
    requires cfg.pageSize > 0 && r.mask != {} && base == cfg.Relative(r.addr) - cfg.Relative(r.addr) % WINDOW && offset == base % cfg.pageSize
    ensures Coverage(cfg, page, r) == if base / cfg.pageSize == page && Fits(r.mask, offset, cfg.pageSize) then Some(Shift(r.mask, offset)) else None
  {
  }

  lemma OffsetIn(x: nat, n: nat)
    requires n > 0
    ensures x == (x / n) * n + x % n
  {
  }

  // ----- cardinalities ------------------------------------------------------------------------------

  lemma {:induction false} BoundedSet(s: set<nat>, n: nat)
    requires forall i :: i in s ==> i < n
    ensures |s| <= n
  {
    if n == 0 {
      assert s == {};
    } else {
      BoundedSet(s - {n - 1}, n - 1);
    }
  }

  lemma UnionSize(a: set<nat>, b: set<nat>)
    ensures |a + b| == |a| + |b - a|
  {
    assert a + b == a + (b - a);
  }

  lemma SumSame<K, T>(m: map<K, T>, n: map<K, T>, f: T -> nat)
    requires m.Keys == n.Keys && forall k :: k in m ==> f(m[k]) == f(n[k])
    ensures Sum(m, f) == Sum(n, f)
  {
    SumMonotone(m, n, f, f);
    SumMonotone(n, m, f, f);
  }

  lemma SumEmpty<K, T>(m: map<K, T>, f: T -> nat)
    requires m == map[]
    ensures Sum(m, f) == 0
  {
  }

  // ----- the invariant ------------------------------------------------------------------------------

  function CoveredOf(b: Buffered): nat { |b.covered| }

  /** Distinct bytes an entry still has to program. */
  function AwaitingBytes(e: Entry): nat { if Unprogrammed(e) then e.covered else 0 }

  /** Distinct bytes programmed so far. */
  function Programmed(log: seq<MediaEvent>): nat {
    if log == [] then 0
    else
      var e := log[|log| - 1];
      (if e.ProgramIssued? then e.covered else 0) + Programmed(log[..|log| - 1])
  }

  function Programs(log: seq<MediaEvent>): nat {
    if log == [] then 0 else (if log[|log| - 1].ProgramIssued? then 1 else 0) + Programs(log[..|log| - 1])
  }

  /** The bytes of a page that a list of writes covers. */
  function UnionOf(cfg: Config, page: nat, rs: seq<Request>): set<nat>
    requires cfg.pageSize > 0
  {
    if rs == [] then {}
    else
      var last := Coverage(cfg, page, rs[|rs| - 1]);
      UnionOf(cfg, page, rs[..|rs| - 1]) + (if last.Some? then last.value else {})
  }

  predicate CoverageOk(cfg: Config, buffer: map<nat, Buffered>)
    requires cfg.pageSize > 0
  {
    forall p :: p in buffer ==> buffer[p].covered == UnionOf(cfg, p, buffer[p].requests)
  }

  predicate WithinPage(cfg: Config, mshr: Mshr) { forall k :: k in mshr ==> mshr[k].covered <= cfg.pageSize }

  predicate WholeWrites(cfg: Config, mshr: Mshr) { forall k :: k in mshr && mshr[k].isWriteOp ==> mshr[k].covered >= cfg.pageSize }

  /** In strict mode only whole pages go to the media. */
  predicate StrictOk(cfg: Config, mshr: Mshr, padding: nat) {
    cfg.strictWrites ==> padding == 0 && WholeWrites(cfg, mshr)
  }

  ghost predicate Balanced(cfg: Config, s: State)
    requires cfg.pageSize > 0
  {
    && s.bytes.unique == Sum(s.buffer, CoveredOf) + Sum(s.mshr, AwaitingBytes) + Programmed(s.media)
    && s.bytes.programmed == s.bytes.padding + Programmed(s.media)
    && s.bytes.programmed == Programs(s.media) * cfg.pageSize
    && WithinPage(cfg, s.mshr) && CoverageOk(cfg, s.buffer) && StrictOk(cfg, s.mshr, s.bytes.padding)
  }

  ghost predicate BytesOk(cfg: Config, s: State)
    requires cfg.pageSize > 0
  {
    s.halt == Running ==> Balanced(cfg, s)
  }

  lemma InitBalanced(cfg: Config)
    requires cfg.pageSize > 0
    ensures Balanced(cfg, Init(cfg))
  {
  }

  predicate SameWrite(e: Entry, g: Entry) { g.covered == e.covered && g.isWriteOp == e.isWriteOp }

  predicate SameBytes(s: State, t: State) {
    && t.bytes == s.bytes && t.buffer == s.buffer && t.media == s.media && t.mshr.Keys == s.mshr.Keys
    && (forall k :: k in s.mshr ==> SameWrite(s.mshr[k], t.mshr[k]) && AwaitingBytes(t.mshr[k]) == AwaitingBytes(s.mshr[k]))
  }

  lemma SameBalanced(cfg: Config, s: State, t: State)
    requires cfg.pageSize > 0 && Balanced(cfg, s) && SameBytes(s, t)
    ensures Balanced(cfg, t)
  {
    hide Programmed, Programs, AwaitingBytes, CoverageOk;
    SumSame(s.mshr, t.mshr, AwaitingBytes);
  }

  lemma SameBytesTrans(s: State, t: State, u: State)
    requires SameBytes(s, t) && SameBytes(t, u)
    ensures SameBytes(s, u)
  {
    hide AwaitingBytes;
  }

  // ----- push and flush -------------------------------------------------------------------------------

  lemma UnionAppend(cfg: Config, page: nat, rs: seq<Request>, r: Request)
    requires cfg.pageSize > 0 && Coverage(cfg, page, r).Some?
    ensures UnionOf(cfg, page, rs + [r]) == UnionOf(cfg, page, rs) + Coverage(cfg, page, r).value
  {
    hide Coverage;
    assert (rs + [r])[..|rs + [r]| - 1] == rs;
  }

  lemma AddToBufferBalanced(cfg: Config, s: State, r: Request, page: nat, bytes: set<nat>)
    requires cfg.pageSize > 0 && Balanced(cfg, s) && Coverage(cfg, page, r) == Some(bytes)
    ensures Balanced(cfg, AddToBuffer(s, r, page, bytes))
  {
    hide Programmed, Programs, AwaitingBytes, Coverage, WithinPage, CoverageOk, StrictOk, Buffer;
    var t := AddToBuffer(s, r, page, bytes);
    SumUpdate(s.buffer, page, t.buffer[page], CoveredOf);
    UnionSize(if page in s.buffer then s.buffer[page].covered else {}, bytes);
    assert {} + bytes == bytes && bytes - {} == bytes;
    BufferCovers(cfg, s, r, page, bytes);
    CoverageUpdate(cfg, s.buffer, page, t.buffer[page]);
  }

  lemma BufferCovers(cfg: Config, s: State, r: Request, page: nat, bytes: set<nat>)
    requires cfg.pageSize > 0 && CoverageOk(cfg, s.buffer) && Coverage(cfg, page, r) == Some(bytes)
    ensures var b := Buffer(s, r, page, bytes);
      b.covered == UnionOf(cfg, page, b.requests) && b.covered == (if page in s.buffer then s.buffer[page].covered else {}) + bytes
  {
    hide Coverage, UnionOf;
    UnionAppend(cfg, page, if page in s.buffer then s.buffer[page].requests else [], r);
    UnionNone(cfg, page);
    assert [] + [r] == [r];
    assert {} + bytes == bytes;
  }

  lemma UnionNone(cfg: Config, page: nat)
    requires cfg.pageSize > 0
    ensures UnionOf(cfg, page, []) == {}
  {
  }

  lemma CoverageUpdate(cfg: Config, buffer: map<nat, Buffered>, page: nat, b: Buffered)
    requires cfg.pageSize > 0 && CoverageOk(cfg, buffer) && b.covered == UnionOf(cfg, page, b.requests)
    ensures CoverageOk(cfg, buffer[page := b])
  {
    hide UnionOf;
  }

  lemma FlushedBalanced(cfg: Config, s: State, t: State, page: nat)
    requires cfg.pageSize > 0 && Balanced(cfg, s) && Flushed(s, t, page) && |s.buffer[page].covered| <= cfg.pageSize
    requires cfg.strictWrites ==> |s.buffer[page].covered| >= cfg.pageSize
    ensures Balanced(cfg, t)
  {
    hide Programmed, Programs, RequestedBytes, UnionOf;
    SumRemove(s.buffer, page, CoveredOf);
    SumUpdate(s.mshr, page, t.mshr[page], AwaitingBytes);
  }

  lemma CoveredInPage(cfg: Config, s: State, page: nat)
    requires Tables(cfg, s) && page in s.buffer
    ensures |s.buffer[page].covered| <= cfg.pageSize
  {
    hide EntriesOk, QueueOk, ActiveOk, CreditOk, WritesOk, ChannelOf;
    assert BufferedOk(cfg, s.tick, page, s.buffer[page]);
    BoundedSet(s.buffer[page].covered, cfg.pageSize);
  }

  lemma FlushBytes(cfg: Config, s: State, page: nat, force: bool)
    requires cfg.Valid() && Inv(cfg, s) && BytesOk(cfg, s)
    ensures BytesOk(cfg, Flush(cfg, s, page, force))
  {
    hide Balanced, Tables, Flush, Flushed, HaltOk;
    FlushOutcome(cfg, s, page, force);
    var t := Flush(cfg, s, page, force);
    if s.halt == Running && t.halt == Running && Flushed(s, t, page) {
      FlushedPage(s, t, page);
      CoveredInPage(cfg, s, page);
      FlushedWhole(cfg, s, page, force);
      FlushedBalanced(cfg, s, t, page);
    }
  }

  /** Strict mode stops at a page with bytes missing. */
  lemma FlushedWhole(cfg: Config, s: State, page: nat, force: bool)
    requires Flushed(s, Flush(cfg, s, page, force), page)
    ensures page in s.buffer && (Flush(cfg, s, page, force).halt == Running && cfg.strictWrites ==> |s.buffer[page].covered| >= cfg.pageSize)
  {
    hide FlushMapped, DirectAddress, ChannelOf, Issue;
  }

  lemma FlushedPage(s: State, t: State, page: nat)
    requires Flushed(s, t, page)
    ensures page in s.buffer
  {
  }

  lemma {:induction false} FlushEachBytes(cfg: Config, s: State, pages: seq<nat>)
    requires cfg.Valid() && Inv(cfg, s) && BytesOk(cfg, s)
    ensures BytesOk(cfg, FlushEach(cfg, s, pages))
    decreases |pages|
  {
    hide Inv, BytesOk, Flush;
    if pages != [] {
      FlushInv(cfg, s, pages[0], false);
      FlushBytes(cfg, s, pages[0], false);
      FlushEachBytes(cfg, Flush(cfg, s, pages[0], false), pages[1..]);
    }
  }

  lemma {:induction false} FlushOverdueBytes(cfg: Config, s: State, pages: seq<nat>)
    requires cfg.Valid() && Inv(cfg, s) && BytesOk(cfg, s)
    ensures BytesOk(cfg, FlushOverdue(cfg, s, pages))
    decreases |pages|
  {
    hide Inv, BytesOk, Flush, Overdue;
    if pages != [] {
      FlushInv(cfg, s, pages[0], false);
      FlushBytes(cfg, s, pages[0], false);
      FlushOverdueBytes(cfg, if Overdue(cfg, s, pages[0]) then Flush(cfg, s, pages[0], false) else s, pages[1..]);
    }
  }

  lemma PushWriteBytes(cfg: Config, s: State, r: Request, page: nat)
    requires cfg.Valid() && Tables(cfg, s) && s.halt == Running && Balanced(cfg, s) && r.isWrite
    requires page == cfg.PageOf(r.addr) && ChannelOf(cfg, page).Some?
    ensures BytesOk(cfg, PushWrite(cfg, s, r, page))
  {
    hide Tables, Coverage, ChannelOf, Flush, FlushEach, AddToBuffer, Balanced, HaltOk;
    if Coverage(cfg, page, r).Some? {
      var bytes := Coverage(cfg, page, r).value;
      CoverageInPage(cfg, page, r);
      AddToBufferInv(cfg, s, r, page, bytes);
      var t := AddToBuffer(s, r, page, bytes);
      AddToBufferBalanced(cfg, s, r, page, bytes);
      RunningInv(cfg, t);
      FlushBytes(cfg, t, page, false);
      FlushEachBytes(cfg, t, SortedKeys(t.buffer.Keys));
    }
  }

  lemma EntryBalanced(cfg: Config, s: State, k: nat, e: Entry)
    requires cfg.pageSize > 0 && Balanced(cfg, s)
        && AwaitingBytes(e) == (if k in s.mshr then AwaitingBytes(s.mshr[k]) else 0) && e.covered <= cfg.pageSize
        && (if k in s.mshr then SameWrite(s.mshr[k], e) else !e.isWriteOp)
    ensures Balanced(cfg, s.(mshr := s.mshr[k := e]))
  {
    hide Programmed, Programs, AwaitingBytes, CoverageOk;
    SumUpdate(s.mshr, k, e, AwaitingBytes);
  }

  lemma EntryWithin(cfg: Config, s: State, k: nat)
    requires cfg.pageSize > 0 && Balanced(cfg, s) && k in s.mshr
    ensures s.mshr[k].covered <= cfg.pageSize
  {
    hide Programmed, Programs, AwaitingBytes, CoverageOk;
  }

  /** The balance names only the byte counters, the two tables and the trace. */
  lemma BalanceFrame(cfg: Config, s: State, t: State)
    requires cfg.pageSize > 0 && Balanced(cfg, s) && t.bytes == s.bytes && t.buffer == s.buffer && t.mshr == s.mshr
        && t.media == s.media
    ensures Balanced(cfg, t)
  {
    hide Programmed, Programs, AwaitingBytes, CoverageOk, WithinPage;
  }

  lemma PushReadBytes(cfg: Config, s: State, r: Request, page: nat, ch: nat)
    requires cfg.Valid() && Inv(cfg, s) && s.halt == Running && Balanced(cfg, s)
    ensures BytesOk(cfg, PushRead(cfg, s, r, page, ch))
  {
    hide Tables, Flush, NewRead, Balanced, HaltOk, ReadEntered;
    FlushBytes(cfg, s, page, true);
    var u := if page in s.buffer then Flush(cfg, s, page, true) else s;
    if u.halt == Running {
      if page in u.mshr {
        EntryWithin(cfg, u, page);
        EntryBalanced(cfg, u, page, Attached(u.mshr[page], r));
        EntryBalanced(cfg, u, page, Coalesced(cfg, u.mshr[page], r));
      } else {
        NewReadOutcome(cfg, u, r, page, ch);
        var t := NewRead(cfg, u, r, page, ch);
        if t.halt == Running { ReadEnteredBalanced(cfg, u, t, r, page, ch); }
      }
    }
  }

  lemma ReadEnteredBalanced(cfg: Config, s: State, t: State, r: Request, page: nat, ch: nat)
    requires cfg.pageSize > 0 && Balanced(cfg, s) && page !in s.mshr && ReadEntered(cfg, s, t, r, page, ch)
    ensures Balanced(cfg, t)
  {
    hide Balanced;
    EntryBalanced(cfg, s, page, t.mshr[page]);
    BalanceFrame(cfg, s.(mshr := s.mshr[page := t.mshr[page]]), t);
  }

  lemma PushBytes(cfg: Config, s: State, r: Request)
    requires cfg.Valid() && Inv(cfg, s) && BytesOk(cfg, s)
    ensures BytesOk(cfg, Push(cfg, s, r))
  {
    hide Tables, PushWrite, PushRead, ChannelOf, Balanced, HaltOk;
    if s.halt == Running {
      var page := cfg.PageOf(r.addr);
      var t := s.(pushed := s.pushed + [r]);
      BalanceFrame(cfg, s, t);
      TablesReturnq(cfg, s);
      TablesReturn(cfg, s, t);
      RunningInv(cfg, t);
      if ChannelOf(cfg, page).Some? {
        if r.isWrite { PushWriteBytes(cfg, t, r, page); } else { PushReadBytes(cfg, t, r, page, ChannelOf(cfg, page).value); }
      }
    }
  }

  // ----- cycle --------------------------------------------------------------------------------------

  lemma BeginTickBytes(cfg: Config, s: State)
    ensures SameBytes(s, BeginTick(cfg, s))
  {
  }

  lemma ReadyHitsBytes(s: State)
    ensures SameBytes(s, ReadyHits(s))
  {
  }

  lemma FinishBytes(cfg: Config, s: State, k: nat)
    requires k in s.mshr && InFlight(s.mshr[k])
    ensures SameBytes(s, Finish(cfg, s, k))
  {
    hide Ftl.MarkErased;
  }

  /** The parts of the state the balance does not name. */
  lemma BytesFrame(s: State, t: State)
    requires t == s.(subs := t.subs, active := t.active, queue := t.queue, readDue := t.readDue,
        drainUntil := t.drainUntil, cache := t.cache)
    ensures SameBytes(s, t)
  {
  }

  lemma AdvanceOneBytes(cfg: Config, s: State, sa: nat)
    ensures SameBytes(s, AdvanceOne(cfg, s, sa))
  {
    hide Nand.Advance, Finish, SameBytes, InFlight;
    if sa < |s.subs| {
      var sub := Nand.Advance(s.subs[sa]);
      BytesFrame(s, s.(subs := s.subs[sa := sub]));
      var u := s.(subs := s.subs[sa := sub], active := s.active - {sa});
      BytesFrame(s, u);
      if Serving(s.mshr, sa) != {} {
        var k := MinOf(Serving(s.mshr, sa));
        FinishBytes(cfg, u, k);
        SameBytesTrans(s, u, Finish(cfg, u, k));
      }
    } else {
      BytesFrame(s, s);
    }
  }

  lemma {:induction false} AdvanceEachBytes(cfg: Config, s: State, sas: seq<nat>)
    ensures SameBytes(s, AdvanceEach(cfg, s, sas))
    decreases |sas|
  {
    hide AdvanceOne, SameBytes;
    if sas != [] {
      var t := AdvanceOne(cfg, s, sas[0]);
      AdvanceOneBytes(cfg, s, sas[0]);
      AdvanceEachBytes(cfg, t, sas[1..]);
      SameBytesTrans(s, t, AdvanceEach(cfg, t, sas[1..]));
    } else {
      BytesFrame(s, s);
    }
  }

  lemma DropBalanced(cfg: Config, s: State, k: nat)
    requires cfg.pageSize > 0 && Balanced(cfg, s) && k in s.mshr && AwaitingBytes(s.mshr[k]) == 0
    ensures Balanced(cfg, s.(mshr := s.mshr - {k}))
  {
    hide Programmed, Programs, AwaitingBytes, CoverageOk;
    SumRemove(s.mshr, k, AwaitingBytes);
  }

  /** A delivering entry has been programmed or was never a write. */
  lemma DeliveringAwaitsNothing(cfg: Config, mshr: Mshr, k: nat)
    requires EntriesOk(cfg, mshr) && k in mshr && mshr[k].delivering
    ensures AwaitingBytes(mshr[k]) == 0
  {
    hide InChannel, ChannelOf;
    assert EntryOk(cfg, k, mshr[k]);
  }

  lemma DeliverOneBytes(cfg: Config, s: State, k: nat)
    requires cfg.pageSize > 0 && EntriesOk(cfg, s.mshr) && Balanced(cfg, s)
    ensures Balanced(cfg, DeliverOne(cfg, s, k))
  {
    hide EntriesOk, Balanced, Affordable, CacheInsert, LinkBytes;
    var t := DeliverOne(cfg, s, k);
    if !(k !in s.mshr || !s.mshr[k].delivering || |s.returnq| >= cfg.returnCapacity || s.mshr[k].channel >= |s.channels|) {
      DeliveringAwaitsNothing(cfg, s.mshr, k);
      EntryWithin(cfg, s, k);
      if k in t.mshr {
        EntryBalanced(cfg, s, k, t.mshr[k]);
      } else {
        DropBalanced(cfg, s, k);
      }
      BalanceFrame(cfg, s.(mshr := t.mshr), t);
    }
  }

  lemma {:induction false} DeliverEachBytes(cfg: Config, s: State, keys: seq<nat>)
    requires cfg.pageSize > 0 && Tables(cfg, s) && Balanced(cfg, s)
    ensures Balanced(cfg, DeliverEach(cfg, s, keys))
    decreases |keys|
  {
    hide Balanced, DeliverOne, EntriesOk, QueueOk, ActiveOk, BufferOk, CreditOk, WritesOk;
    if keys != [] {
      DeliverOneInv(cfg, s, keys[0]);
      DeliverOneBytes(cfg, s, keys[0]);
      DeliverEachBytes(cfg, DeliverOne(cfg, s, keys[0]), keys[1..]);
    }
  }

  lemma MediaHalfBytes(cfg: Config, s: State)
    requires cfg.Valid() && Tables(cfg, s) && s.halt == Running && Balanced(cfg, s)
    ensures Balanced(cfg, MediaHalf(cfg, s))
  {
    hide Tables, Balanced, AdvanceEach, DeliverEach, BeginTick, ReadyHits, DrainWindow, SameBytes;
    var s1 := BeginTick(cfg, s);
    BeginTickInv(cfg, s);
    BeginTickKeeps(cfg, s);
    BeginTickBytes(cfg, s);
    SameBalanced(cfg, s, s1);
    var s2 := AdvanceEach(cfg, s1, SortedKeys(s1.active));
    AdvanceEachInv(cfg, s1, SortedKeys(s1.active));
    AdvanceEachBytes(cfg, s1, SortedKeys(s1.active));
    SameBalanced(cfg, s1, s2);
    var s3 := ReadyHits(s2);
    ReadyHitsInv(cfg, s2);
    ReadyHitsBytes(s2);
    SameBalanced(cfg, s2, s3);
    DeliverEachBytes(cfg, s3, SortedKeys(s3.mshr.Keys));
    var s4 := DeliverEach(cfg, s3, SortedKeys(s3.mshr.Keys));
    DrainWindowBytes(cfg, s4);
    BalanceFrame(cfg, s4, DrainWindow(cfg, s4));
  }

  lemma DrainWindowBytes(cfg: Config, s: State)
    ensures var t := DrainWindow(cfg, s); t.bytes == s.bytes && t.buffer == s.buffer && t.mshr == s.mshr && t.media == s.media
  {
    hide UpdateDrain, CountWrites;
  }

  // Scheduling: a PROGRAM moves its entry's bytes to the media, once.

  lemma LogBytes(log: seq<MediaEvent>, e: MediaEvent)
    ensures Programmed(log + [e]) == Programmed(log) + (if e.ProgramIssued? then e.covered else 0)
    ensures Programs(log + [e]) == Programs(log) + (if e.ProgramIssued? then 1 else 0)
  {
    assert (log + [e])[..|log + [e]| - 1] == log;
  }

  lemma EventBalanced(cfg: Config, s: State, e: MediaEvent)
    requires cfg.pageSize > 0 && Balanced(cfg, s) && !e.ProgramIssued?
    ensures Balanced(cfg, s.(media := s.media + [e]))
  {
    hide Programmed, Programs, AwaitingBytes, CoverageOk, StrictOk, WithinPage;
    LogBytes(s.media, e);
  }

  lemma ReadAwaitsNothing(e: Entry)
    requires !e.isWriteOp
    ensures AwaitingBytes(e) == 0
  {
  }

  lemma StartReadBytes(cfg: Config, s: State, k: nat)
    requires cfg.pageSize > 0 && Balanced(cfg, s) && Candidate(s, k) && !s.mshr[k].isWriteOp
    ensures Balanced(cfg, StartRead(cfg, s, k))
  {
    hide Balanced, Nand.StartRead, Nand.Served, Lru.Without, AwaitingBytes;
    var t := StartRead(cfg, s, k);
    EntryWithin(cfg, s, k);
    ReadAwaitsNothing(s.mshr[k]);
    ReadAwaitsNothing(t.mshr[k]);
    EntryBalanced(cfg, s, k, t.mshr[k]);
    EventBalanced(cfg, s.(mshr := t.mshr), t.media[|t.media| - 1]);
    BalanceFrame(cfg, s.(mshr := t.mshr, media := t.media), t);
  }

  lemma StartEraseBytes(cfg: Config, s: State, k: nat)
    requires cfg.pageSize > 0 && Balanced(cfg, s) && Candidate(s, k)
    ensures Balanced(cfg, StartErase(cfg, s, k))
  {
    hide Balanced, Nand.StartErase, Ftl.MarkErasing, Stored;
    var t := StartErase(cfg, s, k);
    EntryWithin(cfg, s, k);
    EntryBalanced(cfg, s, k, t.mshr[k]);
    EventBalanced(cfg, s.(mshr := t.mshr), t.media[|t.media| - 1]);
    BalanceFrame(cfg, s.(mshr := t.mshr, media := t.media), t);
  }

  lemma OneMore(programs: nat, size: nat)
    ensures (programs + 1) * size == programs * size + size
  {
  }

  lemma PaddingFills(cfg: Config, covered: nat)
    requires covered <= cfg.pageSize
    ensures Padding(cfg, covered) + covered == cfg.pageSize
  {
  }

  lemma ProgramBalanced(cfg: Config, s: State, k: nat, e: Entry, ev: MediaEvent, bytes: Controller.Bytes)
    requires cfg.pageSize > 0 && Balanced(cfg, s) && k in s.mshr && ev.ProgramIssued? && ev.covered == e.covered <= cfg.pageSize
    requires AwaitingBytes(s.mshr[k]) == e.covered && AwaitingBytes(e) == 0 && SameWrite(s.mshr[k], e) && e.isWriteOp
    requires bytes.unique == s.bytes.unique && bytes.programmed == s.bytes.programmed + cfg.pageSize
    requires bytes.padding + e.covered == s.bytes.padding + cfg.pageSize
    ensures Balanced(cfg, s.(mshr := s.mshr[k := e], media := s.media + [ev], bytes := bytes))
  {
    hide Programmed, Programs, CoverageOk, AwaitingBytes;
    LogBytes(s.media, ev);
    SumUpdate(s.mshr, k, e, AwaitingBytes);
    OneMore(Programs(s.media), cfg.pageSize);
  }

  lemma StartProgramBytes(cfg: Config, s: State, k: nat)
    requires cfg.pageSize > 0 && Balanced(cfg, s) && Candidate(s, k) && Unprogrammed(s.mshr[k])
    ensures Balanced(cfg, StartProgram(cfg, s, k))
  {
    hide Nand.StartProgram, Balanced, Padding;
    var t := StartProgram(cfg, s, k);
    EntryWithin(cfg, s, k);
    PaddingFills(cfg, s.mshr[k].covered);
    ProgramBalanced(cfg, s, k, t.mshr[k], t.media[|t.media| - 1], t.bytes);
    BalanceFrame(cfg, s.(mshr := t.mshr, media := t.media, bytes := t.bytes), t);
  }

  lemma StartBytes(cfg: Config, s: State, i: nat)
    requires cfg.pageSize > 0 && Tables(cfg, s) && Balanced(cfg, s) && i < |s.queue| && Candidate(s, s.queue[i])
    ensures Balanced(cfg, Start(cfg, s, i))
  {
    hide StartRead, StartErase, StartProgram, Ftl.IsErased, Lru.Without, IsRead, Balanced, Tables;
    var k := s.queue[i];
    CandidateKind(cfg, s, i);
    var t := s.(queue := s.queue[..i] + s.queue[i + 1..], readDue := s.readDue && !(cfg.Scheduler() == 2 && IsRead(s, k)));
    BalanceFrame(cfg, s, t);
    if IsRead(s, k) {
      StartReadBytes(cfg, t, k);
    } else {
      var u := t.(cache := Lru.Without(t.cache, t.mshr[k].page), active := t.active + {t.mshr[k].sa});
      BalanceFrame(cfg, s, u);
      StartEraseBytes(cfg, u, k);
      StartProgramBytes(cfg, u, k);
    }
  }

  lemma {:induction false} ScheduleUpToBytes(cfg: Config, s: State, budget: nat)
    requires cfg.pageSize > 0 && Tables(cfg, s) && s.halt == Running && s.tick > 0 && Balanced(cfg, s)
    ensures Balanced(cfg, ScheduleUpTo(cfg, s, budget))
    decreases budget
  {
    hide Tables, Balanced, Start, Pick, Misplaced, Candidate, PrefersReads;
    NothingMisplaced(cfg, s);
    if budget != 0 && |s.active| < cfg.MaxActive() {
      PickIsCandidate(s, PrefersReads(cfg, s), cfg.Scheduler() != 0);
      var i := Pick(s, PrefersReads(cfg, s), cfg.Scheduler() != 0);
      if i < |s.queue| {
        StartInv(cfg, s, i);
        StartBytes(cfg, s, i);
        ScheduleUpToBytes(cfg, Start(cfg, s, i), budget - 1);
      }
    }
  }

  lemma ScheduleBytes(cfg: Config, s: State)
    requires cfg.Valid() && Inv(cfg, s) && s.tick > 0 && BytesOk(cfg, s)
    ensures BytesOk(cfg, Schedule(cfg, s))
  {
    hide Tables, Balanced, ScheduleUpTo, HaltOk;
    if s.halt == Running { ScheduleUpToBytes(cfg, s, cfg.MaxActive()); }
  }

  lemma IdleDrainBytes(cfg: Config, s: State)
    requires cfg.Valid() && Inv(cfg, s) && BytesOk(cfg, s)
    ensures BytesOk(cfg, IdleDrain(cfg, s))
  {
    hide Inv, BytesOk, FlushEach, LastArrival;
    FlushEachBytes(cfg, s, SortedKeys(s.buffer.Keys));
  }

  lemma CycleBytes(cfg: Config, s: State)
    requires cfg.Valid() && Inv(cfg, s) && BytesOk(cfg, s)
    ensures BytesOk(cfg, Cycle(cfg, s))
  {
    hide Tables, Balanced, MediaHalf, FlushOverdue, Schedule, IdleDrain, HaltOk;
    if s.halt == Running {
      var s5 := MediaHalf(cfg, s);
      MediaHalfInv(cfg, s);
      MediaHalfBytes(cfg, s);
      var pages := SortedKeys(s5.buffer.Keys);
      RunningInv(cfg, s5);
      FlushOverdueInv(cfg, s5, pages);
      FlushOverdueBytes(cfg, s5, pages);
      var s6 := FlushOverdue(cfg, s5, pages);
      ScheduleInv(cfg, s6);
      ScheduleBytes(cfg, s6);
      IdleDrainBytes(cfg, Schedule(cfg, s6));
    }
  }

  lemma PopBytes(cfg: Config, s: State)
    requires cfg.Valid() && BytesOk(cfg, s)
    ensures BytesOk(cfg, Pop(s))
  {
    hide Balanced;
    if s.halt == Running { BalanceFrame(cfg, s, Pop(s)); }
  }

  lemma ApplyBytes(cfg: Config, s: State, c: Call)
    requires cfg.Valid() && Inv(cfg, s) && BytesOk(cfg, s)
    ensures BytesOk(cfg, Apply(cfg, s, c))
  {
    hide Inv, BytesOk, Push, Cycle, Pop;
    match c
    case CallPush(r) => PushBytes(cfg, s, r);
    case CallCycle => CycleBytes(cfg, s);
    case CallPop => PopBytes(cfg, s);
  }

  lemma {:induction false} RunBytes(cfg: Config, s: State, calls: seq<Call>)
    requires cfg.Valid() && Inv(cfg, s) && BytesOk(cfg, s)
    ensures BytesOk(cfg, Run(cfg, s, calls))
    decreases |calls|
  {
    hide Inv, BytesOk, Apply;
    if calls != [] {
      ApplyInv(cfg, s, calls[0]);
      ApplyBytes(cfg, s, calls[0]);
      RunBytes(cfg, Apply(cfg, s, calls[0]), calls[1..]);
    }
  }

  /** Over every run from the empty device. */
  lemma ReachableBytes(cfg: Config, calls: seq<Call>)
    requires cfg.Valid()
    ensures BytesOk(cfg, Run(cfg, Init(cfg), calls))
  {
    hide Inv, Balanced, Run;
    InitInv(cfg);
    InitBalanced(cfg);
    RunBytes(cfg, Init(cfg), calls);
  }

  /** A drained device programmed exactly the distinct bytes it accepted, plus padding. */
  lemma DrainedBytes(cfg: Config, calls: seq<Call>)
    requires cfg.Valid()
    ensures var s := Run(cfg, Init(cfg), calls);
      s.halt == Running && !HasWork(s) ==>
        s.bytes.programmed == s.bytes.unique + s.bytes.padding && s.bytes.unique == Programmed(s.media)
  {
    hide Tables, HaltOk, Run, Programmed, Programs;
    ReachableBytes(cfg, calls);
    var s := Run(cfg, Init(cfg), calls);
    if s.halt == Running && !HasWork(s) {
      SumEmpty(s.buffer, CoveredOf);
      SumEmpty(s.mshr, AwaitingBytes);
    }
  }

  /** In strict mode, over any run, every PROGRAM writes a whole page: nothing is padded. */
  lemma StrictProgramsWhole(cfg: Config, calls: seq<Call>)
    requires cfg.Valid() && cfg.strictWrites && Run(cfg, Init(cfg), calls).halt == Running
    ensures var s := Run(cfg, Init(cfg), calls); s.bytes.padding == 0 && Programmed(s.media) == Programs(s.media) * cfg.pageSize
  {
    hide Tables, HaltOk, Run, Programmed, Programs, WholeWrites, CoverageOk, WithinPage;
    ReachableBytes(cfg, calls);
  }
}
