/** The HBF controller as a clocked state machine: `push`, `cycle` and `return_queue_pop` over the
    MSHR table, the write buffer, the sub-arrays, the channels, the FTL and the page cache. */
module Controller {
  import opened Basics
  import opened Geometry
  import Ftl
  import Lru
  import Nand

  datatype Request = Request(id: nat, isWrite: bool, addr: nat, size: nat, mask: set<nat>, source: nat)

  datatype Op = Waiting | Reading | Erasing | Programming

  /** `mshr_entry_t`. `data` is what a media read or a cache hit brought for the page. */
  datatype Entry = Entry(
    page: nat, channel: nat, sa: int, block: nat, offset: nat, op: Op,
    delivering: bool, fillCache: bool, aggregating: bool, isWriteOp: bool,
    hitReady: nat, firstTick: nat, requestedBytes: nat, covered: nat,
    pending: seq<Request>, data: Option<Nand.Cell>)

  /** `write_buffer_entry_t`; the coverage bitmap is the set of its set bytes. */
  datatype Buffered = Buffered(requests: seq<Request>, firstTick: nat, lastTick: nat, covered: set<nat>)

  datatype Channel = Channel(credit: real, outstandingWrites: nat, transferred: nat)

  /** Last PROGRAM of a logical page. */
  datatype Home = Home(phys: Phys, version: nat)

  /** The media operations of the trace, with the contents they served or destroyed. */
  datatype MediaEvent =
    | EraseIssued(page: nat, target: Ftl.Block, lost: set<nat>)
    | ProgramIssued(page: nat, phys: Phys, covered: nat, version: nat, clean: bool)
    | ReadIssued(page: nat, phys: Phys, served: Option<Nand.Cell>)
    | CacheServed(page: nat, served: Option<Nand.Cell>)

  datatype Bytes = Bytes(unique: nat, programmed: nat, padding: nat)

  datatype Halt =
    | Running | Unplaced | CoverageCrossesPage | IncompletePage | NamespaceExceeded | CapacityExhausted
    | ReadMapping | WriteUnplaced | WriteAffinity | QueueAffinity | Assertion

  datatype State = State(
    tick: nat,
    mshr: map<nat, Entry>,
    queue: seq<nat>,
    buffer: map<nat, Buffered>,
    subs: seq<Nand.Sub>,
    active: set<nat>,
    channels: seq<Channel>,
    ftl: Ftl.State,
    cache: seq<nat>,
    cached: map<nat, Option<Nand.Cell>>,
    returnq: seq<Request>,
    drainUntil: nat,
    readDue: bool,
    bytes: Bytes,
    programs: nat,
    homes: map<nat, Home>,
    media: seq<MediaEvent>,
    pushed: seq<Request>,
    completed: seq<Request>,
    popped: seq<Request>,
    halt: Halt)

  function Init(cfg: Config): State {
    State(0, map[], [], map[], seq(cfg.Subarrays(), i => Nand.NewSub(cfg)), {}, seq(cfg.Channels(), i => Channel(0.0, 0, 0)),
          Ftl.Empty, [], map[], [], 0, false, Bytes(0, 0, 0), 0, map[], [], [], [], [], Running)
  }

  function PhysOf(e: Entry): Phys { Phys(e.sa, e.block, e.offset) }

  // The four phases of an entry.

  predicate Queued(e: Entry) { e.op == Waiting && !e.delivering && e.hitReady == 0 }

  predicate InFlight(e: Entry) { e.op != Waiting && !e.delivering }

  predicate TimingHit(e: Entry) { e.op == Waiting && !e.delivering && e.hitReady > 0 }

  /** A write whose PROGRAM has not been issued yet. */
  predicate Unprogrammed(e: Entry) { e.isWriteOp && e.op != Programming }

  // ----- write byte coverage --------------------------------------------------------------------

  /** Bytes of the page a write covers; None when it is not wholly contained in the page. */
  function Coverage(cfg: Config, page: nat, r: Request): Option<set<nat>>
    requires cfg.pageSize > 0
  {
    var relative := cfg.Relative(r.addr);
    if r.mask != {} then
      var base := relative - relative % WINDOW;
      var offset := base % cfg.pageSize;
      if base / cfg.pageSize != page || exists i :: i in r.mask && offset + i >= cfg.pageSize then None
      else Some(set i | i in r.mask :: offset + i)
    else
      var offset := relative % cfg.pageSize;
      if r.size > cfg.pageSize - offset then None else Some(Span(offset, r.size))
  }

  function Padding(cfg: Config, covered: nat): nat { if covered < cfg.pageSize then cfg.pageSize - covered else 0 }

  // ----- push -----------------------------------------------------------------------------------

  ghost function Push(cfg: Config, s: State, r: Request): State
    requires cfg.pageSize > 0
  {
    if s.halt != Running then s
    else
      var page := cfg.PageOf(r.addr);
      var t := s.(pushed := s.pushed + [r]);
      match ChannelOf(cfg, page)
      case None => t.(halt := Unplaced)
      case Some(ch) => if r.isWrite then PushWrite(cfg, t, r, page) else PushRead(cfg, t, r, page, ch)
  }

  function Buffer(s: State, r: Request, page: nat, bytes: set<nat>): Buffered {
    if page in s.buffer then
      var b := s.buffer[page];
      b.(requests := b.requests + [r], lastTick := s.tick, covered := b.covered + bytes)
    else Buffered([r], s.tick, s.tick, bytes)
  }

  function AddToBuffer(s: State, r: Request, page: nat, bytes: set<nat>): State {
    var b := Buffer(s, r, page, bytes);
    s.(buffer := s.buffer[page := b],
       bytes := s.bytes.(unique := s.bytes.unique + |bytes - (if page in s.buffer then s.buffer[page].covered else {})|))
  }

  /** A complete page leaves at once; a new page may overflow the buffer. */
  ghost function PushWrite(cfg: Config, s: State, r: Request, page: nat): State
    requires cfg.pageSize > 0
  {
    match Coverage(cfg, page, r)
    case None => s.(halt := CoverageCrossesPage)
    case Some(bytes) =>
      var t := AddToBuffer(s, r, page, bytes);
      if |t.buffer[page].covered| == cfg.pageSize then Flush(cfg, t, page, false)
      else if page !in s.buffer && |t.buffer| >= cfg.WriteBufferMax() then FlushEach(cfg, t, SortedKeys(t.buffer.Keys))
      else t
  }

  function Attached(e: Entry, r: Request): Entry {
    e.(pending := e.pending + [r], requestedBytes := e.requestedBytes + r.size)
  }

  /** A read coalescing onto an entry may complete its aggregation threshold. */
  function Coalesced(cfg: Config, e: Entry, r: Request): Entry {
    var g := Attached(e, r);
    g.(aggregating := g.aggregating && !(cfg.readAggregation && g.requestedBytes >= cfg.ReadThreshold()))
  }

  /** The forced flush of a buffered write may be deferred by an entry already in flight; the read
      then joins that entry, whatever it is. */
  ghost function PushRead(cfg: Config, s: State, r: Request, page: nat, ch: nat): State {
    var t := if page in s.buffer then Flush(cfg, s, page, true) else s;
    if t.halt != Running then t
    else if page in t.mshr then
      var e := t.mshr[page];
      var joins := page in t.buffer && e.pending != [] && e.pending[0].isWrite;
      t.(mshr := t.mshr[page := if joins then Attached(e, r) else Coalesced(cfg, e, r)])
    else NewRead(cfg, t, r, page, ch)
  }

  function ReadEntry(cfg: Config, s: State, r: Request, page: nat, ch: nat, phys: Phys): Entry {
    Entry(page, ch, phys.sa, phys.block, phys.page, Waiting, false, false,
          cfg.readAggregation && r.size < cfg.ReadThreshold(), false, 0, s.tick, r.size, 0, [r], None)
  }

  predicate InChannel(cfg: Config, ch: nat, sa: int) { 0 <= sa < cfg.Subarrays() && ch < cfg.Channels() && Owns(cfg, ch, sa) }

  /** `direct_physical_address`, used when the FTL is off. */
  function DirectAddress(cfg: Config, page: nat, ch: nat): Option<Phys> {
    match HighBlock(cfg, page)
    case None => None
    case Some((block, offset)) => if ch < cfg.Channels() then Some(Phys(SubarrayOf(cfg, page, ch), block, offset)) else None
  }

  function NewRead(cfg: Config, s: State, r: Request, page: nat, ch: nat): State {
    if cfg.ftlEnabled then NewMappedRead(cfg, s, r, page, ch)
    else
      match DirectAddress(cfg, page, ch)
      case None => s.(halt := NamespaceExceeded)
      case Some(phys) => Enter(s, page, ReadEntry(cfg, s, r, page, ch, phys))
  }

  function NewMappedRead(cfg: Config, s: State, r: Request, page: nat, ch: nat): State {
    var (f, phys) := Ftl.TranslateRead(cfg, s.ftl, page);
    if phys.None? || !InChannel(cfg, ch, phys.value.sa) then s.(ftl := f, halt := ReadMapping)
    else Enter(s.(ftl := f), page, ReadEntry(cfg, s, r, page, ch, phys.value))
  }

  function Enter(s: State, page: nat, e: Entry): State {
    s.(mshr := s.mshr[page := e], queue := s.queue + [page])
  }

  // ----- flushing the write buffer ----------------------------------------------------------------

  function RequestedBytes(rs: seq<Request>): nat {
    if rs == [] then 0 else rs[0].size + RequestedBytes(rs[1..])
  }

  function WriteEntry(b: Buffered, page: nat, ch: nat, phys: Phys): Entry {
    Entry(page, ch, phys.sa, phys.block, phys.page, Waiting, false, false, false, true, 0, b.firstTick,
          RequestedBytes(b.requests), |b.covered|, b.requests, None)
  }

  /** Reasons `flush_write_buffer_entry` keeps the page buffered. */
  predicate Deferred(cfg: Config, s: State, page: nat, ch: nat, force: bool) {
    || (!force && ch < |s.channels| && !(s.channels[ch].outstandingWrites < cfg.maxOutstandingWrites))
    || page in s.mshr
  }

  ghost function Flush(cfg: Config, s: State, page: nat, force: bool): State {
    if s.halt != Running || page !in s.buffer then s
    else if s.buffer[page].requests == [] then s.(buffer := s.buffer - {page})
    else
      match ChannelOf(cfg, page)
      case None => s.(halt := Unplaced)
      case Some(ch) =>
        if Deferred(cfg, s, page, ch, force) then s
        else if |s.buffer[page].covered| < cfg.pageSize && cfg.strictWrites then s.(halt := IncompletePage)
        else if cfg.ftlEnabled then FlushMapped(cfg, s, page, ch)
        else
          match DirectAddress(cfg, page, ch)
          case None => s.(halt := NamespaceExceeded)
          case Some(phys) => Issue(s, page, ch, phys)
  }

  ghost function FlushMapped(cfg: Config, s: State, page: nat, ch: nat): State
    requires page in s.buffer
  {
    var (f, phys) := Ftl.TranslateWrite(cfg, s.ftl, page);
    var t := s.(ftl := f);
    if f.aborted then t.(halt := Assertion)
    else if phys.None? then t.(halt := if f.mappingError then WriteUnplaced else CapacityExhausted)
    else if !InChannel(cfg, ch, phys.value.sa) then t.(halt := WriteAffinity)
    else Issue(t, page, ch, phys.value)
  }

  /** The buffered requests become one write entry. */
  function Issue(s: State, page: nat, ch: nat, phys: Phys): State
    requires page in s.buffer
  {
    Enter(s.(buffer := s.buffer - {page}, channels := AddWrite(s.channels, ch)), page, WriteEntry(s.buffer[page], page, ch, phys))
  }

  function AddWrite(channels: seq<Channel>, ch: nat): seq<Channel> {
    if ch < |channels| then channels[ch := channels[ch].(outstandingWrites := channels[ch].outstandingWrites + 1)] else channels
  }

  ghost function FlushEach(cfg: Config, s: State, pages: seq<nat>): State
    decreases |pages|
  {
    if pages == [] then s else FlushEach(cfg, Flush(cfg, s, pages[0], false), pages[1..])
  }

  // ----- cycle ------------------------------------------------------------------------------------

  ghost function Cycle(cfg: Config, s: State): State {
    if s.halt != Running then s
    else
      var t := MediaHalf(cfg, s);
      IdleDrain(cfg, Schedule(cfg, FlushOverdue(cfg, t, SortedKeys(t.buffer.Keys))))
  }

  /** Steps 0 to 3a: the clock, completions, deliveries and the drain window. */
  function MediaHalf(cfg: Config, s: State): State {
    var s1 := BeginTick(cfg, s);
    var s2 := AdvanceEach(cfg, s1, SortedKeys(s1.active));
    var s3 := ReadyHits(s2);
    var s4 := DeliverEach(cfg, s3, SortedKeys(s3.mshr.Keys));
    DrainWindow(cfg, s4)
  }

  // Step 0: the clock, read-aggregation windows and link credit.

  function Released(cfg: Config, tick: nat, e: Entry): Entry {
    if cfg.readAggregation && e.aggregating && e.pending != [] && !e.pending[0].isWrite
       && (e.requestedBytes >= cfg.ReadThreshold() || cfg.readAggWindow == 0 || tick - e.firstTick >= cfg.readAggWindow)
    then e.(aggregating := false) else e
  }

  function Replenished(cfg: Config, c: Channel): Channel {
    var full := c.credit + cfg.bandwidth;
    c.(credit := if full > cfg.MaxCredit() then cfg.MaxCredit() else full)
  }

  function BeginTick(cfg: Config, s: State): State {
    s.(tick := s.tick + 1,
       mshr := map k | k in s.mshr :: Released(cfg, s.tick + 1, s.mshr[k]),
       channels := seq(|s.channels|, i requires 0 <= i < |s.channels| => Replenished(cfg, s.channels[i])))
  }

  // Step 1: advance the active sub-arrays and collect completions.

  predicate Serves(e: Entry, sa: int) { InFlight(e) && e.sa == sa }

  function Serving(mshr: map<nat, Entry>, sa: int): set<nat> { set k | k in mshr && Serves(mshr[k], sa) }

  function AdvanceEach(cfg: Config, s: State, sas: seq<nat>): State
    decreases |sas|
  {
    if sas == [] then s else AdvanceEach(cfg, AdvanceOne(cfg, s, sas[0]), sas[1..])
  }

  function AdvanceOne(cfg: Config, s: State, sa: nat): State {
    if sa >= |s.subs| then s
    else
      var sub := Nand.Advance(s.subs[sa]);
      var t := s.(subs := s.subs[sa := sub]);
      if sub.phase != Nand.Idle then t
      else
        var done := Serving(s.mshr, sa);
        var u := t.(active := s.active - {sa});
        if done == {} then u else Finish(cfg, u, MinOf(done))
  }

  /** An ERASE re-queues its entry for the PROGRAM; a READ or PROGRAM starts delivery. */
  function Finish(cfg: Config, s: State, k: nat): State
    requires k in s.mshr
  {
    var e := s.mshr[k];
    var f := if e.op == Erasing && cfg.ftlEnabled then Ftl.MarkErased(s.ftl, Ftl.BlockOf(PhysOf(e))) else s.ftl;
    s.(mshr := s.mshr[k := Finished(e)],
       queue := if e.op == Erasing then s.queue + [k] else s.queue,
       ftl := f,
       halt := if f.aborted then Assertion else s.halt)
  }

  function Finished(e: Entry): Entry {
    if e.op == Erasing then e.(op := Waiting) else e.(fillCache := e.op == Reading, delivering := true)
  }

  // Step 1b: cache hits whose latency elapsed.

  function Matured(tick: nat, e: Entry): Entry {
    if !e.delivering && e.hitReady != 0 && tick >= e.hitReady then e.(delivering := true) else e
  }

  function ReadyHits(s: State): State { s.(mshr := map k | k in s.mshr :: Matured(s.tick, s.mshr[k])) }

  // Step 2: deliver completed requests.

  /** How many leading requests the link credit lets through, and the credit left. */
  function Affordable(pending: seq<Request>, limit: nat, credit: real): (r: (nat, real))
    ensures r.0 <= limit && r.0 <= |pending|
    decreases limit
  {
    if limit == 0 || pending == [] then (0, credit)
    else
      var cost := if pending[0].isWrite then 0 else pending[0].size;
      if cost > 0 && cost as real > credit then (0, credit)
      else
        var (n, left) := Affordable(pending[1..], limit - 1, if cost > 0 then credit - cost as real else credit);
        (n + 1, left)
  }

  function LinkBytes(rs: seq<Request>): nat {
    if rs == [] then 0 else (if rs[0].isWrite then 0 else rs[0].size) + LinkBytes(rs[1..])
  }

  function Min(a: nat, b: nat): nat { if a < b then a else b }

  function DeliverEach(cfg: Config, s: State, keys: seq<nat>): State
    decreases |keys|
  {
    if keys == [] then s else DeliverEach(cfg, DeliverOne(cfg, s, keys[0]), keys[1..])
  }

  function CacheInsert(cfg: Config, cache: seq<nat>, page: nat): seq<nat> { Lru.Insert(cfg.cacheEntries, cache, page) }

  function DeliverOne(cfg: Config, s: State, k: nat): State {
    if k !in s.mshr || !s.mshr[k].delivering || |s.returnq| >= cfg.returnCapacity || s.mshr[k].channel >= |s.channels| then s
    else
      var e := s.mshr[k];
      var fills := e.fillCache && cfg.cacheEntries > 0;
      var c := s.channels[e.channel];
      var (n, left) := Affordable(e.pending, Min(|e.pending|, cfg.returnCapacity - |s.returnq|), c.credit);
      var out, rest := e.pending[..n], e.pending[n..];
      var freed := rest == [] && e.isWriteOp && c.outstandingWrites > 0;
      s.(cache := if fills then CacheInsert(cfg, s.cache, e.page) else s.cache,
         cached := if fills then s.cached[e.page := e.data] else s.cached,
         returnq := s.returnq + out,
         completed := s.completed + out,
         channels := s.channels[e.channel := Channel(left, if freed then c.outstandingWrites - 1 else c.outstandingWrites,
                                                     c.transferred + LinkBytes(out))],
         mshr := if rest == [] then s.mshr - {k} else s.mshr[k := e.(pending := rest, fillCache := e.fillCache && !fills)])
  }

  // Step 3a: the write-drain window (write-drain scheduler only).

  predicate PendingWrite(mshr: map<nat, Entry>, k: nat) {
    k in mshr && mshr[k].op == Waiting && mshr[k].pending != [] && mshr[k].pending[0].isWrite
  }

  function CountWrites(mshr: map<nat, Entry>, queue: seq<nat>): nat {
    if queue == [] then 0 else (if PendingWrite(mshr, queue[0]) then 1 else 0) + CountWrites(mshr, queue[1..])
  }

  /** `hbf_update_write_drain`: new deadline and whether a read is owed. */
  function UpdateDrain(pendingWrites: nat, high: nat, tick: nat, maxwait: nat, until: nat, readDue: bool): (nat, bool) {
    var mark := if high == 0 then 1 else high;
    if pendingWrites < mark then (0, false)
    else if until != 0 then (if tick >= until then (0, true) else (until, readDue))
    else if readDue then (until, readDue)
    else (Min(tick + maxwait, 0xFFFF_FFFF_FFFF_FFFF), readDue)
  }

  function DrainWindow(cfg: Config, s: State): State {
    if cfg.Scheduler() != 2 then s
    else
      var (until, due) :=
        UpdateDrain(|s.buffer| + CountWrites(s.mshr, s.queue), cfg.DrainHigh(), s.tick, cfg.drainMaxwait, s.drainUntil,
            s.readDue);
      s.(drainUntil := until, readDue := due)
  }

  // Step 3b: flush pages that waited past the aggregation deadline.

  predicate Overdue(cfg: Config, s: State, page: nat) {
    page in s.buffer && s.tick - s.buffer[page].firstTick > cfg.writeAggTimeout
  }

  ghost function FlushOverdue(cfg: Config, s: State, pages: seq<nat>): State
    decreases |pages|
  {
    if pages == [] then s
    else FlushOverdue(cfg, if Overdue(cfg, s, pages[0]) then Flush(cfg, s, pages[0], false) else s, pages[1..])
  }

  // Step 4: issue operations to idle sub-arrays.

  predicate Candidate(s: State, k: nat) {
    && k in s.mshr && s.mshr[k].op == Waiting && s.mshr[k].pending != []
    && !s.mshr[k].aggregating
    && 0 <= s.mshr[k].sa < |s.subs| && s.subs[s.mshr[k].sa].phase == Nand.Idle
  }

  predicate IsRead(s: State, k: nat) { k in s.mshr && s.mshr[k].pending != [] && !s.mshr[k].pending[0].isWrite }

  /** First position in the queue holding a candidate (of the wanted kind, when one is wanted). */
  function FirstCandidate(s: State, queue: seq<nat>, wanted: Option<bool>): (i: nat)
    ensures i <= |queue|
  {
    if queue == [] then 0
    else if Candidate(s, queue[0]) && (wanted == None || wanted == Some(IsRead(s, queue[0]))) then 0
    else 1 + FirstCandidate(s, queue[1..], wanted)
  }

  /** `hbf_pick_schedule_candidate`: the preferred kind first, then any. */
  function Pick(s: State, preferReads: bool, typed: bool): (i: nat)
    ensures i <= |s.queue|
  {
    var first := FirstCandidate(s, s.queue, if typed then Some(preferReads) else None);
    if typed && first == |s.queue| then FirstCandidate(s, s.queue, None) else first
  }

  predicate Misplaced(cfg: Config, s: State, k: nat) {
    k in s.mshr && s.mshr[k].op == Waiting && s.mshr[k].pending != [] && !InChannel(cfg, s.mshr[k].channel, s.mshr[k].sa)
  }

  function PrefersReads(cfg: Config, s: State): bool {
    cfg.Scheduler() == 1 || (cfg.Scheduler() == 2 && s.drainUntil == 0)
  }

  function Schedule(cfg: Config, s: State): State {
    if s.halt != Running then s else ScheduleUpTo(cfg, s, cfg.MaxActive())
  }

  function ScheduleUpTo(cfg: Config, s: State, budget: nat): State
    decreases budget
  {
    if budget == 0 || |s.active| >= cfg.MaxActive() then s
    else if exists k :: k in s.queue && Misplaced(cfg, s, k) then s.(halt := QueueAffinity)
    else
      var i := Pick(s, PrefersReads(cfg, s), cfg.Scheduler() != 0);
      if i == |s.queue| then s else
        var t := Start(cfg, s, i);
        if t.halt != Running then t else ScheduleUpTo(cfg, t, budget - 1)
  }

  /** Issue the entry at one queue position. */
  function Start(cfg: Config, s: State, i: nat): State
    requires i < |s.queue|
  {
    var k := s.queue[i];
    if !Candidate(s, k) then s.(halt := Assertion)
    else
      var t := s.(queue := s.queue[..i] + s.queue[i + 1..],
                  readDue := s.readDue && !(cfg.Scheduler() == 2 && IsRead(s, k)));
      if IsRead(s, k) then StartRead(cfg, t, k) else StartWrite(cfg, t, k)
  }

  /** Erase before write: the block's state is queried at issue time. */
  function StartWrite(cfg: Config, s: State, k: nat): State
    requires Candidate(s, k)
  {
    var e := s.mshr[k];
    var block := Ftl.BlockOf(PhysOf(e));
    var t := s.(cache := Lru.Without(s.cache, e.page), active := s.active + {e.sa});
    if cfg.ftlEnabled && !Ftl.IsErased(s.ftl, block) then StartErase(cfg, t, k) else StartProgram(cfg, t, k)
  }

  /** Pages whose latest PROGRAM and current mapping both lie in the block. */
  function Stored(s: State, block: Ftl.Block): set<nat> {
    set p | p in s.ftl.mapping && p in s.homes && s.homes[p].phys == s.ftl.mapping[p] && Ftl.BlockOf(s.ftl.mapping[p]) == block
  }

  function StartErase(cfg: Config, s: State, k: nat): State
    requires Candidate(s, k)
  {
    var e := s.mshr[k];
    var block := Ftl.BlockOf(PhysOf(e));
    var f := Ftl.MarkErasing(s.ftl, block);
    s.(ftl := f,
       halt := if f.aborted then Assertion else s.halt,
       subs := s.subs[e.sa := Nand.StartErase(cfg, s.subs[e.sa], e.block)],
       mshr := s.mshr[k := e.(op := Erasing)],
       media := s.media + [EraseIssued(e.page, block, Stored(s, block))])
  }

  function StartProgram(cfg: Config, s: State, k: nat): State
    requires Candidate(s, k)
  {
    var e := s.mshr[k];
    var version := s.programs + 1;
    var clean := Nand.Address(e.block, e.offset) !in s.subs[e.sa].cells;
    s.(subs := s.subs[e.sa := Nand.StartProgram(cfg, s.subs[e.sa], e.block, e.offset, Nand.Cell(e.page, version))],
       mshr := s.mshr[k := e.(op := Programming)],
       programs := version,
       homes := s.homes[e.page := Home(PhysOf(e), version)],
       bytes := s.bytes.(programmed := s.bytes.programmed + cfg.pageSize, padding := s.bytes.padding + Padding(cfg, e.covered)),
       media := s.media + [ProgramIssued(e.page, PhysOf(e), e.covered, version, clean)])
  }

  function StartRead(cfg: Config, s: State, k: nat): State
    requires Candidate(s, k)
  {
    var e := s.mshr[k];
    if cfg.cacheEntries > 0 && e.page in s.cache then
      var served := if e.page in s.cached then s.cached[e.page] else None;
      s.(cache := [e.page] + Lru.Without(s.cache, e.page),
         mshr := s.mshr[k := e.(hitReady := s.tick + cfg.cacheHitLatency, data := served)],
         media := s.media + [CacheServed(e.page, served)])
    else
      var served := Nand.Served(cfg, s.subs[e.sa], e.block, e.offset);
      s.(subs := s.subs[e.sa := Nand.StartRead(cfg, s.subs[e.sa], e.block, e.offset)],
         active := s.active + {e.sa},
         mshr := s.mshr[k := e.(op := Reading, data := served)],
         media := s.media + [ReadIssued(e.page, PhysOf(e), served)])
  }

  // Step 5: with nothing in flight, flush pages that stayed quiet.

  function LastArrival(buffer: map<nat, Buffered>, pages: seq<nat>): nat {
    if pages == [] then 0
    else
      var rest := LastArrival(buffer, pages[1..]);
      if pages[0] in buffer && buffer[pages[0]].lastTick > rest then buffer[pages[0]].lastTick else rest
  }

  ghost function IdleDrain(cfg: Config, s: State): State {
    var pages := SortedKeys(s.buffer.Keys);
    if s.halt == Running && s.buffer != map[] && s.mshr == map[] && s.queue == [] && s.tick - LastArrival(s.buffer, pages) > 100
    then FlushEach(cfg, s, pages) else s
  }

  // ----- the return queue -------------------------------------------------------------------------

  function Pop(s: State): State {
    if s.halt != Running || s.returnq == [] then s
    else s.(returnq := s.returnq[1..], popped := s.popped + [s.returnq[0]])
  }

  predicate Full(cfg: Config, s: State) { cfg.maxOutstanding != 0 && |s.mshr| + |s.buffer| >= cfg.maxOutstanding }

  predicate HasWork(s: State) {
    s.mshr != map[] || s.queue != [] || s.buffer != map[] || s.active != {} || s.returnq != []
  }

  // ----- runs -------------------------------------------------------------------------------------

  datatype Call = CallPush(request: Request) | CallCycle | CallPop

  ghost function Apply(cfg: Config, s: State, c: Call): State
    requires cfg.pageSize > 0
  {
    match c
    case CallPush(r) => Push(cfg, s, r)
    case CallCycle => Cycle(cfg, s)
    case CallPop => Pop(s)
  }

  ghost function Run(cfg: Config, s: State, calls: seq<Call>): State
    requires cfg.pageSize > 0
    decreases |calls|
  {
    if calls == [] then s else Run(cfg, Apply(cfg, s, calls[0]), calls[1..])
  }
}
