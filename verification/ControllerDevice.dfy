/** The controller as the mutable object it is, over the FTL object: every method and loop computes the
    transition of Controller it is named after. */
module ControllerDevice {
  import opened Basics
  import opened Geometry
  import opened Controller
  import Ftl
  import FtlDevice
  import Devices
  import Lru
  import Nand

  class Device {
    const cfg: Config
    const ftl: FtlDevice.Device
    const cache: Lru.PageCache
    var tick: nat
    var mshr: map<nat, Entry>
    var queue: seq<nat>
    var buffer: map<nat, Buffered>
    var subs: seq<Nand.Sub>
    var active: set<nat>
    var channels: seq<Channel>
    var cached: map<nat, Option<Nand.Cell>>
    var returnq: seq<Request>
    var drainUntil: nat
    var readDue: bool
    var bytes: Bytes
    var programs: nat
    ghost var homes: map<nat, Home>
    ghost var media: seq<MediaEvent>
    ghost var pushed: seq<Request>
    ghost var completed: seq<Request>
    ghost var popped: seq<Request>
    var halt: Halt

    ghost function Contents(): State
      reads this, ftl, cache
    {
      State(tick, mshr, queue, buffer, subs, active, channels, ftl.Contents(), cache.Pages(), cached, returnq, drainUntil,
          readDue, bytes, programs, homes, media, pushed, completed, popped, halt)
    }

    ghost predicate Valid()
      reads this, cache
    {
      ftl.cfg == cfg && cfg.pageSize > 0 && cache.maxEntries == cfg.cacheEntries && cache.Valid()
    }

    constructor (config: Config)
      requires config.pageSize > 0
      ensures Valid() && cfg == config && Contents() == Init(config) && fresh(ftl) && fresh(cache)
    {
      cfg := config;
      ftl := new FtlDevice.Device(config);
      cache := new Lru.PageCache(config.cacheEntries);
      tick, mshr, queue, buffer := 0, map[], [], map[];
      subs := seq(config.Subarrays(), i => Nand.NewSub(config));
      active := {};
      channels := seq(config.Channels(), i => Channel(0.0, 0, 0));
      cached, returnq, drainUntil, readDue := map[], [], 0, false;
      bytes, programs, homes, media := Bytes(0, 0, 0), 0, map[], [];
      pushed, completed, popped, halt := [], [], [], Running;
    }

    // ----- push and flush -----------------------------------------------------------------------------

    /** `flush_write_buffer_entry`. */
    method FlushEntry(page: nat, force: bool)
      requires Valid()
      modifies this, ftl
      ensures Valid() && Contents() == Flush(cfg, old(Contents()), page, force)
    {
      hide Ftl.TranslateWrite, InChannel, DirectAddress, ChannelOf, WriteEntry;
      if halt != Running || page !in buffer { return; }
      if buffer[page].requests == [] {
        buffer := buffer - {page};
        return;
      }
      match ChannelOf(cfg, page)
      case None => halt := Unplaced;
      case Some(ch) =>
        if !force && ch < |channels| && !(channels[ch].outstandingWrites < cfg.maxOutstandingWrites) { return; }
        if page in mshr { return; }
        if |buffer[page].covered| < cfg.pageSize && cfg.strictWrites {
          halt := IncompletePage;
          return;
        }
        if cfg.ftlEnabled {
          FlushThroughFtl(page, ch);
        } else {
          match DirectAddress(cfg, page, ch) {
            case None => halt := NamespaceExceeded;
            case Some(phys) => IssueWrite(page, ch, phys);
          }
        }
    }

    method FlushThroughFtl(page: nat, ch: nat)
      requires Valid() && page in buffer
      modifies this, ftl
      ensures Valid() && Contents() == FlushMapped(cfg, old(Contents()), page, ch)
    {
      hide Ftl.TranslateWrite, InChannel, Issue;
      var phys := ftl.Translate(page, true);
      if ftl.aborted { halt := Assertion; return; }
      if phys.None? {
        halt := if ftl.mappingError then WriteUnplaced else CapacityExhausted;
        return;
      }
      if !InChannel(cfg, ch, phys.value.sa) { halt := WriteAffinity; return; }
      IssueWrite(page, ch, phys.value);
    }

    method IssueWrite(page: nat, ch: nat, phys: Phys)
      requires page in buffer
      modifies this
      ensures Contents() == Issue(old(Contents()), page, ch, phys)
    {
      hide WriteEntry;
      if ch < |channels| { channels := channels[ch := channels[ch].(outstandingWrites := channels[ch].outstandingWrites + 1)]; }
      mshr := mshr[page := WriteEntry(buffer[page], page, ch, phys)];
      queue := queue + [page];
      buffer := buffer - {page};
    }

    /** `flush_write_buffer`. */
    method FlushAll()
      requires Valid()
      modifies this, ftl
      ensures Valid() && Contents() == FlushEach(cfg, old(Contents()), SortedKeys(old(buffer).Keys))
    {
      hide Flush;
      var keys := SortedKeys(buffer.Keys);
      var i := 0;
      assert keys[0..] == keys;
      while i < |keys|
        invariant i <= |keys| && Valid() && FlushEach(cfg, Contents(), keys[i..]) == FlushEach(cfg, old(Contents()), keys)
      {
        assert keys[i..][0] == keys[i] && keys[i..][1..] == keys[i + 1..];
        FlushEntry(keys[i], false);
        i := i + 1;
      }
    }

    /** Coalesce into the page's buffer entry, or open one. */
    method AddWrite(r: Request, page: nat, covered: set<nat>)
      modifies this`bytes, this`buffer
      ensures Contents() == AddToBuffer(old(Contents()), r, page, covered)
    {
      if page in buffer {
        var b := buffer[page];
        bytes := bytes.(unique := bytes.unique + |covered - b.covered|);
        buffer := buffer[page := b.(requests := b.requests + [r], lastTick := tick, covered := b.covered + covered)];
      } else {
        assert covered - {} == covered;
        bytes := bytes.(unique := bytes.unique + |covered|);
        buffer := buffer[page := Buffered([r], tick, tick, covered)];
      }
    }

    method BufferWrite(r: Request, page: nat)
      requires Valid()
      modifies this, ftl
      ensures Valid() && Contents() == PushWrite(cfg, old(Contents()), r, page)
    {
      hide Coverage, Flush, FlushEach, AddToBuffer;
      match Coverage(cfg, page, r)
      case None => halt := CoverageCrossesPage;
      case Some(covered) =>
        var isNew := page !in buffer;
        AddedHere(Contents(), r, page, covered);
        AddWrite(r, page, covered);
        if |buffer[page].covered| == cfg.pageSize {
          FlushEntry(page, false);
        } else if isNew && |buffer| >= cfg.WriteBufferMax() {
          FlushAll();
        }
    }

    method EnterRead(r: Request, page: nat, ch: nat, phys: Phys)
      modifies this`mshr, this`queue
      ensures mshr == old(mshr)[page := ReadEntry(cfg, old(Contents()), r, page, ch, phys)] && queue == old(queue) + [page]
    {
      mshr := mshr[page := Entry(page, ch, phys.sa, phys.block, phys.page, Waiting, false, false,
                                 cfg.readAggregation && r.size < cfg.ReadThreshold(), false, 0, tick, r.size, 0, [r], None)];
      queue := queue + [page];
    }

    method AdmitMapped(r: Request, page: nat, ch: nat)
      requires Valid()
      modifies this, ftl
      ensures Valid() && Contents() == NewMappedRead(cfg, old(Contents()), r, page, ch)
    {
      hide Ftl.TranslateRead, InChannel;
      var phys := ftl.Translate(page, false);
      if phys.None? || !InChannel(cfg, ch, phys.value.sa) { halt := ReadMapping; } else { EnterRead(r, page, ch, phys.value); }
    }

    method AdmitRead(r: Request, page: nat, ch: nat)
      requires Valid()
      modifies this, ftl
      ensures Valid() && Contents() == NewRead(cfg, old(Contents()), r, page, ch)
    {
      hide NewMappedRead, DirectAddress, ReadEntry;
      if cfg.ftlEnabled {
        AdmitMapped(r, page, ch);
      } else {
        match DirectAddress(cfg, page, ch)
        case None => halt := NamespaceExceeded;
        case Some(phys) => EnterRead(r, page, ch, phys);
      }
    }

    method JoinEntry(r: Request, page: nat)
      requires page in mshr
      modifies this`mshr
      ensures var e := old(mshr)[page]; var joins := page in buffer && e.pending != [] && e.pending[0].isWrite;
        mshr == old(mshr)[page := if joins then Attached(e, r) else Coalesced(cfg, e, r)]
    {
      var e := mshr[page];
      var g := e.(pending := e.pending + [r], requestedBytes := e.requestedBytes + r.size);
      if !(page in buffer && e.pending != [] && e.pending[0].isWrite) {
        if cfg.readAggregation && g.aggregating && g.requestedBytes >= cfg.ReadThreshold() { g := g.(aggregating := false); }
      }
      mshr := mshr[page := g];
    }

    method AttachRead(r: Request, page: nat, ch: nat)
      requires Valid()
      modifies this, ftl
      ensures Valid() && Contents() == PushRead(cfg, old(Contents()), r, page, ch)
    {
      hide Flush, NewRead, Attached, Coalesced;
      if page in buffer { FlushEntry(page, true); }
      if halt != Running { return; }
      if page in mshr { JoinEntry(r, page); } else { AdmitRead(r, page, ch); }
    }

    method Push(r: Request)
      requires Valid()
      modifies this, ftl
      ensures Valid() && Contents() == Controller.Push(cfg, old(Contents()), r)
    {
      hide ChannelOf, PushWrite, PushRead;
      if halt != Running { return; }
      var page := cfg.PageOf(r.addr);
      pushed := pushed + [r];
      match ChannelOf(cfg, page)
      case None => halt := Unplaced;
      case Some(ch) => if r.isWrite { BufferWrite(r, page); } else { AttachRead(r, page, ch); }
    }

    // ----- cycle --------------------------------------------------------------------------------------

    /** The clock, the aggregation windows and the link credit. */
    method StartTick()
      requires Valid()
      modifies this
      ensures Valid() && Contents() == BeginTick(cfg, old(Contents()))
    {
      hide Released, Replenished;
      tick := tick + 1;
      ReleaseReads();
      ReplenishAll();
    }

    method ReleaseReads()
      modifies this`mshr
      ensures mshr == map k | k in old(mshr) :: Released(cfg, tick, old(mshr)[k])
    {
      hide Released, Swept, Ascending;
      ghost var was := mshr;
      ghost var after := map k | k in was :: Released(cfg, tick, was[k]);
      var keys := SortedKeys(mshr.Keys);
      SweepNone(was, after, keys);
      var i := 0;
      while i < |keys|
        invariant i <= |keys| && Swept(was, mshr, after, keys, i)
      {
        SweepOne(was, mshr, after, keys, i);
        mshr := mshr[keys[i] := Released(cfg, tick, mshr[keys[i]])];
        i := i + 1;
      }
      SweptAll(was, mshr, after, keys);
    }

    method ReplenishAll()
      modifies this`channels
      ensures channels == seq(|old(channels)|, i requires 0 <= i < |old(channels)| => Replenished(cfg, old(channels)[i]))
    {
      hide Replenished;
      ghost var was := channels;
      var c := 0;
      while c < |channels|
        invariant c <= |channels| == |was|
        invariant forall j :: 0 <= j < c ==> channels[j] == Replenished(cfg, was[j])
        invariant forall j :: c <= j < |was| ==> channels[j] == was[j]
      {
        channels := channels[c := Replenished(cfg, channels[c])];
        c := c + 1;
      }
    }

    /** The entry a sub-array was serving: the first in key order. */
    method FindServed(sa: nat) returns (k: Option<nat>)
      ensures k.None? <==> Serving(mshr, sa) == {}
      ensures k.Some? ==> k.value in mshr && k.value == MinOf(Serving(mshr, sa))
    {
      hide Serves;
      var keys := SortedKeys(mshr.Keys);
      var i := 0;
      while i < |keys|
        invariant i <= |keys| && forall j :: 0 <= j < i ==> !Serves(mshr[keys[j]], sa)
      {
        if Serves(mshr[keys[i]], sa) {
          FirstServed(mshr, sa, keys, i);
          return Some(keys[i]);
        }
        i := i + 1;
      }
      NoneServed(mshr, sa, keys);
      return None;
    }

    /** An ERASE re-queues its entry for the PROGRAM; a READ or PROGRAM starts delivery. */
    method Complete(k: nat)
      requires k in mshr
      modifies this`mshr, this`queue
      ensures var e := old(mshr)[k];
        mshr == old(mshr)[k := Finished(e)] && queue == if e.op == Erasing then old(queue) + [k] else old(queue)
    {
      var e := mshr[k];
      if e.op == Erasing {
        mshr := mshr[k := e.(op := Waiting)];
        queue := queue + [k];
      } else {
        mshr := mshr[k := e.(fillCache := e.op == Reading, delivering := true)];
      }
    }

    method FinishEntry(k: nat)
      requires Valid() && k in mshr
      modifies this, ftl
      ensures Valid() && Contents() == Finish(cfg, old(Contents()), k)
    {
      hide Ftl.MarkErased, Finished, FtlDevice.Device.Contents;
      var e := mshr[k];
      Complete(k);
      if e.op == Erasing && cfg.ftlEnabled { ftl.MarkBlockErased(Ftl.Block(e.sa, e.block)); }
      HaltOnAbort();
    }

    method AdvanceSub(sa: nat)
      requires Valid()
      modifies this, ftl
      ensures Valid() && Contents() == AdvanceOne(cfg, old(Contents()), sa)
    {
      hide Nand.Advance, Serves, Finish;
      if sa >= |subs| { return; }
      subs := subs[sa := Nand.Advance(subs[sa])];
      if subs[sa].phase != Nand.Idle { return; }
      active := active - {sa};
      var served := FindServed(sa);
      if served.Some? { FinishEntry(served.value); }
    }

    method AdvanceActive()
      requires Valid()
      modifies this, ftl
      ensures Valid() && Contents() == AdvanceEach(cfg, old(Contents()), SortedKeys(old(active)))
    {
      hide AdvanceOne;
      var keys := SortedKeys(active);
      var i := 0;
      assert keys[0..] == keys;
      while i < |keys|
        invariant i <= |keys| && Valid() && AdvanceEach(cfg, Contents(), keys[i..]) == AdvanceEach(cfg, old(Contents()), keys)
      {
        assert keys[i..][0] == keys[i] && keys[i..][1..] == keys[i + 1..];
        AdvanceSub(keys[i]);
        i := i + 1;
      }
    }

    method MatureHits()
      requires Valid()
      modifies this`mshr
      ensures Valid() && Contents() == ReadyHits(old(Contents()))
    {
      hide Matured, FtlDevice.Device.Contents;
      MatureEach();
    }

    method MatureEach()
      modifies this`mshr
      ensures mshr == map k | k in old(mshr) :: Matured(tick, old(mshr)[k])
    {
      hide Matured, Swept, Ascending;
      ghost var was := mshr;
      ghost var after := map k | k in was :: Matured(tick, was[k]);
      var keys := SortedKeys(mshr.Keys);
      SweepNone(was, after, keys);
      var i := 0;
      while i < |keys|
        invariant i <= |keys| && Swept(was, mshr, after, keys, i)
      {
        SweepOne(was, mshr, after, keys, i);
        mshr := mshr[keys[i] := Matured(tick, mshr[keys[i]])];
        i := i + 1;
      }
      SweptAll(was, mshr, after, keys);
    }

    method DeliverEntry(k: nat)
      requires Valid()
      modifies this, cache
      ensures Valid() && Contents() == DeliverOne(cfg, old(Contents()), k)
    {
      hide Affordable, CacheInsert, LinkBytes, Lru.PageCache.Pages;
      if k !in mshr || !mshr[k].delivering || |returnq| >= cfg.returnCapacity || mshr[k].channel >= |channels| { return; }
      DeliverReady(k);
    }

    method DeliverReady(k: nat)
      requires Valid() && k in mshr && mshr[k].delivering && |returnq| < cfg.returnCapacity && mshr[k].channel < |channels|
      modifies this`cached, this`returnq, this`completed, this`channels, this`mshr, cache
      ensures Valid() && Contents() == DeliverOne(cfg, old(Contents()), k)
    {
      hide Affordable, CacheInsert, LinkBytes, DeliverOne, FtlDevice.Device.Contents, Lru.PageCache.Pages, Lru.PageCache.Valid;
      ghost var s := Contents();
      Hand(k);
      DeliverOneParts(cfg, s, k, cache.Pages(), cached, returnq, completed, channels, mshr);
    }

    /** Cache fill, then delivery. */
    method Hand(k: nat)
      requires Valid() && k in mshr && mshr[k].channel < |channels| && |returnq| < cfg.returnCapacity
      modifies this`cached, this`returnq, this`completed, this`channels, this`mshr, cache
      ensures Valid()
      ensures var e := old(mshr)[k];
        var fills := e.fillCache && cfg.cacheEntries > 0;
        var c := old(channels)[e.channel];
        var (n, left) := Affordable(e.pending, Min(|e.pending|, cfg.returnCapacity - |old(returnq)|), c.credit);
        var out, rest := e.pending[..n], e.pending[n..];
        var freed := rest == [] && e.isWriteOp && c.outstandingWrites > 0;
        && cache.Pages() == (if fills then CacheInsert(cfg, old(cache.Pages()), e.page) else old(cache.Pages()))
        && cached == (if fills then old(cached)[e.page := e.data] else old(cached))
        && returnq == old(returnq) + out && completed == old(completed) + out
        && channels == old(channels)[e.channel := Channel(left, if freed then c.outstandingWrites - 1
            else c.outstandingWrites, c.transferred + LinkBytes(out))]
        && mshr == if rest == [] then old(mshr) - {k} else old(mshr)[k := e.(pending := rest, fillCache := e.fillCache && !fills)]
    {
      hide Affordable, CacheInsert, LinkBytes, Lru.PageCache.Pages, Lru.PageCache.Valid;
      FillCache(mshr[k]);
      Transfer(k);
    }

    /** A page that was read from the media enters the page cache with its first delivery. */
    method FillCache(e: Entry)
      requires Valid()
      modifies this`cached, cache
      ensures Valid()
      ensures var fills := e.fillCache && cfg.cacheEntries > 0;
        && cache.Pages() == (if fills then CacheInsert(cfg, old(cache.Pages()), e.page) else old(cache.Pages()))
        && cached == (if fills then old(cached)[e.page := e.data] else old(cached))
    {
      hide Lru.Insert, Lru.PageCache.Pages, Lru.PageCache.Valid;
      if e.fillCache && cfg.cacheEntries > 0 {
        cache.Add(e.page);
        cached := cached[e.page := e.data];
      }
    }

    /** The delivery loop: requests leave in order while the link credit lasts. */
    method Send(ch: nat, pending: seq<Request>, limit: nat) returns (n: nat)
      requires ch < |channels| && limit <= |pending|
      modifies this`channels, this`returnq, this`completed
      ensures n <= limit
      ensures var c := old(channels)[ch]; var (m, left) := Affordable(pending, limit, c.credit);
        n == m && channels == old(channels)[ch := Channel(left, c.outstandingWrites, c.transferred + LinkBytes(pending[..n]))]
      ensures returnq == old(returnq) + pending[..n] && completed == old(completed) + pending[..n]
    {
      n := 0;
      ghost var c := channels[ch];
      assert pending[0..] == pending;
      while n < limit
        invariant n <= limit && |channels| == |old(channels)|
        invariant channels == old(channels)[ch := Channel(channels[ch].credit, c.outstandingWrites, c.transferred + LinkBytes(pending[..n]))]
        invariant var rest := Affordable(pending[n..], limit - n, channels[ch].credit);
          (n + rest.0, rest.1) == Affordable(pending, limit, c.credit)
        invariant returnq == old(returnq) + pending[..n] && completed == old(completed) + pending[..n]
      {
        var r := pending[n];
        assert pending[n..][0] == r && pending[n..][1..] == pending[n + 1..];
        var cost := if r.isWrite then 0 else r.size;
        if cost > 0 && cost as real > channels[ch].credit { return; }
        Devices.LinkAppend(pending[..n], r);
        assert pending[..n + 1] == pending[..n] + [r];
        Carry(ch, cost);
        returnq := returnq + [r];
        completed := completed + [r];
        n := n + 1;
      }
    }

    /** `try_consume_credit` and the byte count. */
    method Carry(ch: nat, cost: nat)
      requires ch < |channels|
      modifies this`channels
      ensures var c := old(channels)[ch];
        channels == old(channels)[ch := Channel(if cost > 0 then c.credit - cost as real else c.credit, c.outstandingWrites, c.transferred + cost)]
    {
      var c := channels[ch];
      channels := channels[ch := c.(credit := c.credit - cost as real, transferred := c.transferred + cost)];
    }

    /** The delivery loop and what follows it: an emptied entry leaves the table and frees its write slot. */
    method Transfer(k: nat)
      requires k in mshr && mshr[k].channel < |channels| && |returnq| < cfg.returnCapacity
      modifies this`returnq, this`completed, this`channels, this`mshr
      ensures var e := old(mshr)[k];
        var fills := e.fillCache && cfg.cacheEntries > 0;
        var c := old(channels)[e.channel];
        var (n, left) := Affordable(e.pending, Min(|e.pending|, cfg.returnCapacity - |old(returnq)|), c.credit);
        var out, rest := e.pending[..n], e.pending[n..];
        var freed := rest == [] && e.isWriteOp && c.outstandingWrites > 0;
        && returnq == old(returnq) + out && completed == old(completed) + out
        && channels == old(channels)[e.channel := Channel(left, if freed then c.outstandingWrites - 1
            else c.outstandingWrites, c.transferred + LinkBytes(out))]
        && mshr == if rest == [] then old(mshr) - {k} else old(mshr)[k := e.(pending := rest, fillCache := e.fillCache && !fills)]
    {
      hide Affordable, LinkBytes;
      var e := mshr[k];
      var n := Send(e.channel, e.pending, Min(|e.pending|, cfg.returnCapacity - |returnq|));
      var rest := e.pending[n..];
      if rest == [] {
        var c := channels[e.channel];
        if e.isWriteOp && c.outstandingWrites > 0 {
          channels := channels[e.channel := c.(outstandingWrites := c.outstandingWrites - 1)];
        }
        mshr := mshr - {k};
      } else {
        mshr := mshr[k := e.(pending := rest, fillCache := e.fillCache && !(cfg.cacheEntries > 0))];
      }
    }

    method DeliverAll()
      requires Valid()
      modifies this, cache
      ensures Valid() && Contents() == DeliverEach(cfg, old(Contents()), SortedKeys(old(mshr).Keys))
    {
      hide DeliverOne;
      var keys := SortedKeys(mshr.Keys);
      var i := 0;
      assert keys[0..] == keys;
      while i < |keys|
        invariant i <= |keys| && Valid() && DeliverEach(cfg, Contents(), keys[i..]) == DeliverEach(cfg, old(Contents()), keys)
      {
        assert keys[i..][0] == keys[i] && keys[i..][1..] == keys[i + 1..];
        DeliverEntry(keys[i]);
        i := i + 1;
      }
    }

    /** The drain window: counting pending writes, then `hbf_update_write_drain` on the two fields. */
    method UpdateWindow()
      requires Valid()
      modifies this`drainUntil, this`readDue
      ensures Valid() && Contents() == DrainWindow(cfg, old(Contents()))
    {
      hide PendingWrite;
      if cfg.Scheduler() != 2 { return; }
      var pending := |buffer|;
      var i := 0;
      assert queue[0..] == queue;
      while i < |queue|
        invariant i <= |queue| && pending + CountWrites(mshr, queue[i..]) == |buffer| + CountWrites(mshr, queue)
      {
        assert queue[i..][0] == queue[i] && queue[i..][1..] == queue[i + 1..];
        if PendingWrite(mshr, queue[i]) { pending := pending + 1; }
        i := i + 1;
      }
      UpdateDrainFields(pending);
    }

    method UpdateDrainFields(pendingWrites: nat)
      modifies this`drainUntil, this`readDue
      ensures (drainUntil, readDue) == UpdateDrain(pendingWrites, cfg.DrainHigh(), tick, cfg.drainMaxwait,
          old(drainUntil), old(readDue))
    {
      if pendingWrites < cfg.DrainHigh() {
        drainUntil, readDue := 0, false;
      } else if drainUntil != 0 {
        if tick >= drainUntil { drainUntil, readDue := 0, true; }
      } else if !readDue {
        drainUntil := Min(tick + cfg.drainMaxwait, 0xFFFF_FFFF_FFFF_FFFF);
      }
    }

    predicate IsOverdue(page: nat)
      reads this, ftl, cache
      ensures IsOverdue(page) == Overdue(cfg, Contents(), page)
    {
      page in buffer && tick - buffer[page].firstTick > cfg.writeAggTimeout
    }

    method FlushLate()
      requires Valid()
      modifies this, ftl
      ensures Valid() && Contents() == FlushOverdue(cfg, old(Contents()), SortedKeys(old(buffer).Keys))
    {
      hide Flush, Overdue;
      var keys := SortedKeys(buffer.Keys);
      var i := 0;
      assert keys[0..] == keys;
      while i < |keys|
        invariant i <= |keys| && Valid() && FlushOverdue(cfg, Contents(), keys[i..]) == FlushOverdue(cfg, old(Contents()), keys)
      {
        assert keys[i..][0] == keys[i] && keys[i..][1..] == keys[i + 1..];
        if IsOverdue(keys[i]) { FlushEntry(keys[i], false); }
        i := i + 1;
      }
    }

    // ----- scheduling ---------------------------------------------------------------------------------

    predicate IsCandidate(k: nat)
      reads this, ftl, cache
      ensures IsCandidate(k) == Candidate(Contents(), k)
    {
      && k in mshr && mshr[k].op == Waiting && mshr[k].pending != [] && !mshr[k].aggregating
      && 0 <= mshr[k].sa < |subs| && subs[mshr[k].sa].phase == Nand.Idle
    }

    predicate IsReadKey(k: nat)
      reads this, ftl, cache
      ensures IsReadKey(k) == IsRead(Contents(), k)
    {
      k in mshr && mshr[k].pending != [] && !mshr[k].pending[0].isWrite
    }

    /** One pass of `hbf_pick_schedule_candidate`. */
    method FindCandidate(wanted: Option<bool>) returns (i: nat)
      ensures i == FirstCandidate(Contents(), queue, wanted)
    {
      hide Candidate, IsRead;
      i := 0;
      assert queue[0..] == queue;
      while i < |queue|
        invariant i <= |queue| && i + FirstCandidate(Contents(), queue[i..], wanted) == FirstCandidate(Contents(), queue, wanted)
      {
        assert queue[i..][0] == queue[i] && queue[i..][1..] == queue[i + 1..];
        if IsCandidate(queue[i]) && (wanted == None || wanted == Some(IsReadKey(queue[i]))) { return; }
        i := i + 1;
      }
    }

    method PickCandidate(preferReads: bool, typed: bool) returns (i: nat)
      ensures i == Pick(Contents(), preferReads, typed)
    {
      hide FirstCandidate;
      i := FindCandidate(if typed then Some(preferReads) else None);
      if typed && i == |queue| { i := FindCandidate(None); }
    }

    /** The affinity check made while candidates are collected. */
    method FindMisplaced() returns (found: bool)
      ensures found <==> exists k :: k in queue && Misplaced(cfg, Contents(), k)
    {
      hide InChannel;
      var i := 0;
      while i < |queue|
        invariant i <= |queue| && forall j :: 0 <= j < i ==> !Misplaced(cfg, Contents(), queue[j])
      {
        var k := queue[i];
        if k in mshr && mshr[k].op == Waiting && mshr[k].pending != [] && !InChannel(cfg, mshr[k].channel, mshr[k].sa) {
          assert Misplaced(cfg, Contents(), queue[i]);
          return true;
        }
        i := i + 1;
      }
      return false;
    }

    /** A cache hit only waits for its latency. */
    method ServeHit(k: nat)
      requires k in mshr
      modifies this`mshr, this`media
      ensures var e := old(mshr)[k]; var served := if e.page in cached then cached[e.page] else None;
        && mshr == old(mshr)[k := e.(hitReady := tick + cfg.cacheHitLatency, data := served)]
        && media == old(media) + [CacheServed(e.page, served)]
    {
      var e := mshr[k];
      var served := if e.page in cached then cached[e.page] else None;
      mshr := mshr[k := e.(hitReady := tick + cfg.cacheHitLatency, data := served)];
      media := media + [CacheServed(e.page, served)];
    }

    method ReadPage(k: nat)
      requires Valid() && Candidate(Contents(), k) && !(cfg.cacheEntries > 0 && mshr[k].page in cache.Pages())
      modifies this
      ensures Valid() && Contents() == StartRead(cfg, old(Contents()), k)
    {
      hide Nand.StartRead, Nand.Served;
      var e := mshr[k];
      var served := Nand.Served(cfg, subs[e.sa], e.block, e.offset);
      subs := subs[e.sa := Nand.StartRead(cfg, subs[e.sa], e.block, e.offset)];
      active := active + {e.sa};
      mshr := mshr[k := e.(op := Reading, data := served)];
      media := media + [ReadIssued(e.page, PhysOf(e), served)];
    }

    method EraseBlock(k: nat)
      requires Valid() && Candidate(Contents(), k)
      modifies this, ftl
      ensures Valid() && Contents() == StartErase(cfg, old(Contents()), k)
    {
      hide Nand.StartErase, Ftl.MarkErasing, Stored, FtlDevice.Device.Contents;
      var e := mshr[k];
      var block := Ftl.Block(e.sa, e.block);
      media := media + [EraseIssued(e.page, block, Stored(old(Contents()), block))];
      subs := subs[e.sa := Nand.StartErase(cfg, subs[e.sa], e.block)];
      mshr := mshr[k := e.(op := Erasing)];
      ftl.MarkBlockErasing(block);
      HaltOnAbort();
    }

    method HaltOnAbort()
      modifies this`halt
      ensures halt == if ftl.Contents().aborted then Assertion else old(halt)
    {
      if ftl.aborted { halt := Assertion; }
    }

    method Program(k: nat, e: Entry)
      requires 0 <= e.sa < |subs|
      modifies this`programs, this`media, this`subs, this`mshr, this`homes, this`bytes
      ensures programs == old(programs) + 1
      ensures media == old(media) + [ProgramIssued(e.page, PhysOf(e), e.covered, programs,
          Nand.Address(e.block, e.offset) !in old(subs)[e.sa].cells)]
      ensures subs == old(subs)[e.sa := Nand.StartProgram(cfg, old(subs)[e.sa], e.block, e.offset, Nand.Cell(e.page, programs))]
      ensures mshr == old(mshr)[k := e.(op := Programming)]
      ensures homes == old(homes)[e.page := Home(PhysOf(e), programs)]
      ensures bytes == old(bytes).(programmed := old(bytes).programmed + cfg.pageSize,
          padding := old(bytes).padding + Padding(cfg, e.covered))
    {
      hide Nand.StartProgram, Padding;
      programs := programs + 1;
      media := media + [ProgramIssued(e.page, PhysOf(e), e.covered, programs,
          Nand.Address(e.block, e.offset) !in subs[e.sa].cells)];
      subs := subs[e.sa := Nand.StartProgram(cfg, subs[e.sa], e.block, e.offset, Nand.Cell(e.page, programs))];
      mshr := mshr[k := e.(op := Programming)];
      homes := homes[e.page := Home(PhysOf(e), programs)];
      bytes := bytes.(programmed := bytes.programmed + cfg.pageSize, padding := bytes.padding + Padding(cfg, e.covered));
    }

    method ProgramPage(k: nat)
      requires Valid() && Candidate(Contents(), k)
      modifies this
      ensures Valid() && Contents() == StartProgram(cfg, old(Contents()), k)
    {
      hide Nand.StartProgram, Padding, FtlDevice.Device.Contents;
      Program(k, mshr[k]);
    }

    method BeginRead(k: nat)
      requires Valid() && Candidate(Contents(), k)
      modifies this, cache
      ensures Valid() && Contents() == StartRead(cfg, old(Contents()), k)
    {
      hide StartRead, Candidate, FtlDevice.Device.Contents, Lru.PageCache.Pages, Lru.PageCache.Valid, Lru.Insert;
      CandidateKnown(Contents(), k);
      StartReadParts(cfg, Contents(), k);
      var e := mshr[k];
      PageIsCached(cache, e.page);
      var hit := cache.Lookup(e.page);
      if hit { ServeHit(k); } else { ReadPage(k); }
    }

    /** Erase before write: the block's state is queried at issue time. */
    method BeginWrite(k: nat)
      requires Valid() && Candidate(Contents(), k)
      modifies this, ftl, cache
      ensures Valid() && Contents() == StartWrite(cfg, old(Contents()), k)
    {
      hide StartErase, StartProgram, Candidate, Ftl.IsErased, FtlDevice.Device.Contents, Lru.PageCache.Pages, Lru.PageCache.Valid;
      CandidateKnown(Contents(), k);
      var e := mshr[k];
      cache.Drop(e.page);
      active := active + {e.sa};
      CandidateFrame(old(Contents()), Contents(), k);
      var erased := ftl.IsBlockErased(Ftl.Block(e.sa, e.block));
      if cfg.ftlEnabled && !erased { EraseBlock(k); } else { ProgramPage(k); }
    }

    method StartEntry(i: nat)
      requires Valid() && i < |queue|
      modifies this, ftl, cache
      ensures Valid() && Contents() == Start(cfg, old(Contents()), i)
    {
      hide StartRead, StartWrite, Candidate, IsRead, FtlDevice.Device.Contents;
      var k := queue[i];
      var isRead := IsReadKey(k);
      if !IsCandidate(k) {
        halt := Assertion;
      } else {
        if cfg.Scheduler() == 2 && readDue && isRead { readDue := false; }
        queue := queue[..i] + queue[i + 1..];
        CandidateFrame(old(Contents()), Contents(), k);
        if isRead { BeginRead(k); } else { BeginWrite(k); }
      }
    }

    /** `schedule_operations`. */
    method ScheduleOperations()
      requires Valid()
      modifies this, ftl, cache
      ensures Valid() && Contents() == Schedule(cfg, old(Contents()))
    {
      hide Start, Pick, Misplaced;
      if halt != Running { return; }
      var budget := cfg.MaxActive();
      while budget > 0
        invariant Valid() && ScheduleUpTo(cfg, Contents(), budget) == ScheduleUpTo(cfg, old(Contents()), cfg.MaxActive())
      {
        if |active| >= cfg.MaxActive() { return; }
        var misplaced := FindMisplaced();
        if misplaced { halt := QueueAffinity; return; }
        var drain := cfg.Scheduler() == 2 && drainUntil > 0;
        var i := PickCandidate(cfg.Scheduler() == 1 || (cfg.Scheduler() == 2 && !drain), cfg.Scheduler() != 0);
        if i == |queue| { return; }
        StartEntry(i);
        if halt != Running { return; }
        budget := budget - 1;
      }
    }

    /** The idle drain at the end of a tick. */
    method DrainIdle()
      requires Valid()
      modifies this, ftl
      ensures Valid() && Contents() == IdleDrain(cfg, old(Contents()))
    {
      hide FlushEach;
      if halt != Running || buffer == map[] || mshr != map[] || queue != [] { return; }
      var last := FindLastArrival();
      if tick - last > 100 { FlushAll(); }
    }

    method FindLastArrival() returns (last: nat)
      ensures last == LastArrival(buffer, SortedKeys(buffer.Keys))
    {
      var pages := SortedKeys(buffer.Keys);
      last := 0;
      var i := |pages|;
      assert pages[i..] == [];
      while i > 0
        invariant i <= |pages| && last == LastArrival(buffer, pages[i..])
      {
        i := i - 1;
        assert pages[i..][0] == pages[i] && pages[i..][1..] == pages[i + 1..];
        if pages[i] in buffer && buffer[pages[i]].lastTick > last { last := buffer[pages[i]].lastTick; }
      }
      assert pages[0..] == pages;
    }

    /** `cycle`, step by step. */
    method Cycle()
      requires Valid()
      modifies this, ftl, cache
      ensures Valid() && Contents() == Controller.Cycle(cfg, old(Contents()))
    {
      hide BeginTick, AdvanceEach, ReadyHits, DeliverEach, DrainWindow, FlushOverdue, Schedule, IdleDrain;
      if halt != Running { return; }
      StartTick();
      AdvanceActive();
      MatureHits();
      DeliverAll();
      UpdateWindow();
      FlushLate();
      ScheduleOperations();
      DrainIdle();
    }

    /** `return_queue_top` and `return_queue_pop`. */
    method PopReturn() returns (r: Option<Request>)
      requires Valid()
      modifies this`returnq, this`popped
      ensures Valid() && Contents() == Pop(old(Contents()))
      ensures r == if halt != Running || old(returnq) == [] then None else Some(old(returnq)[0])
    {
      if halt != Running || returnq == [] { return None; }
      r := Some(returnq[0]);
      popped := popped + [returnq[0]];
      returnq := returnq[1..];
    }

    predicate IsFull()
      reads this, ftl, cache
      ensures IsFull() == Full(cfg, Contents())
    {
      cfg.maxOutstanding != 0 && |mshr| + |buffer| >= cfg.maxOutstanding
    }

    predicate Busy()
      reads this, ftl, cache
      ensures Busy() == HasWork(Contents())
    {
      mshr != map[] || queue != [] || buffer != map[] || active != {} || returnq != []
    }
  }

  /** Entries up to a key position rewritten, the rest untouched. */
  ghost predicate Swept(was: map<nat, Entry>, now: map<nat, Entry>, after: map<nat, Entry>, keys: seq<nat>, i: nat)
    requires i <= |keys|
  {
    && Ascending(keys) && (forall k :: k in keys <==> k in was) && now.Keys == was.Keys == after.Keys
    && (forall j :: 0 <= j < i ==> now[keys[j]] == after[keys[j]])
    && (forall j :: i <= j < |keys| ==> now[keys[j]] == was[keys[j]])
  }

  lemma SweepNone(was: map<nat, Entry>, after: map<nat, Entry>, keys: seq<nat>)
    requires Ascending(keys) && (forall k :: k in keys <==> k in was) && was.Keys == after.Keys
    ensures Swept(was, was, after, keys, 0)
  {
  }

  lemma SweepOne(was: map<nat, Entry>, now: map<nat, Entry>, after: map<nat, Entry>, keys: seq<nat>, i: nat)
    requires i < |keys| && Swept(was, now, after, keys, i)
    ensures keys[i] in was && keys[i] in now && keys[i] in after && now[keys[i]] == was[keys[i]]
    ensures Swept(was, now[keys[i] := after[keys[i]]], after, keys, i + 1)
  {
    assert keys[i] in keys;
  }

  lemma SweptAll(was: map<nat, Entry>, now: map<nat, Entry>, after: map<nat, Entry>, keys: seq<nat>)
    requires Swept(was, now, after, keys, |keys|)
    ensures now == after
  {
    forall k | k in was ensures now[k] == after[k] { assert k in keys; }
  }

  lemma AddedHere(s: State, r: Request, page: nat, covered: set<nat>)
    ensures page in AddToBuffer(s, r, page, covered).buffer
  {
  }

  lemma FirstServed(mshr: map<nat, Entry>, sa: nat, keys: seq<nat>, i: nat)
    requires i < |keys| && Ascending(keys) && (forall k :: k in keys <==> k in mshr) && Serves(mshr[keys[i]], sa)
    requires forall j :: 0 <= j < i ==> !Serves(mshr[keys[j]], sa)
    ensures Serving(mshr, sa) != {} && MinOf(Serving(mshr, sa)) == keys[i]
  {
    hide Serves;
    assert keys[i] in Serving(mshr, sa);
    forall x | x in Serving(mshr, sa) ensures keys[i] <= x {
      var j :| 0 <= j < |keys| && keys[j] == x;
      assert j >= i;
    }
  }

  lemma NoneServed(mshr: map<nat, Entry>, sa: nat, keys: seq<nat>)
    requires (forall k :: k in keys <==> k in mshr) && forall j :: 0 <= j < |keys| ==> !Serves(mshr[keys[j]], sa)
    ensures Serving(mshr, sa) == {}
  {
    hide Serves;
    forall k | k in mshr ensures !Serves(mshr[k], sa) { assert k in keys; }
  }

  /** A delivery, from the fields it changes. */
  lemma DeliverOneParts(cfg: Config, s: State, k: nat, cache: seq<nat>, cached: map<nat, Option<Nand.Cell>>,
                        returnq: seq<Request>, completed: seq<Request>, channels: seq<Channel>, mshr: map<nat, Entry>)
    requires k in s.mshr && s.mshr[k].delivering && |s.returnq| < cfg.returnCapacity && s.mshr[k].channel < |s.channels|
    requires var e := s.mshr[k];
      var fills := e.fillCache && cfg.cacheEntries > 0;
      var c := s.channels[e.channel];
      var (n, left) := Affordable(e.pending, Min(|e.pending|, cfg.returnCapacity - |s.returnq|), c.credit);
      var out, rest := e.pending[..n], e.pending[n..];
      var freed := rest == [] && e.isWriteOp && c.outstandingWrites > 0;
      && cache == (if fills then CacheInsert(cfg, s.cache, e.page) else s.cache)
      && cached == (if fills then s.cached[e.page := e.data] else s.cached)
      && returnq == s.returnq + out && completed == s.completed + out
      && channels == s.channels[e.channel := Channel(left, if freed then c.outstandingWrites - 1
          else c.outstandingWrites, c.transferred + LinkBytes(out))]
      && mshr == if rest == [] then s.mshr - {k} else s.mshr[k := e.(pending := rest, fillCache := e.fillCache && !fills)]
    ensures DeliverOne(cfg, s, k)
      == s.(cache := cache, cached := cached, returnq := returnq, completed := completed, channels := channels, mshr := mshr)
  {
    hide Affordable, CacheInsert, LinkBytes;
  }

  lemma CandidateKnown(s: State, k: nat)
    requires Candidate(s, k)
    ensures k in s.mshr && 0 <= s.mshr[k].sa < |s.subs|
  {
  }

  lemma CandidateFrame(s: State, t: State, k: nat)
    requires t.mshr == s.mshr && t.subs == s.subs
    ensures Candidate(t, k) == Candidate(s, k)
  {
  }

  /** The fields a read changes when it is issued. */
  lemma StartReadParts(cfg: Config, s: State, k: nat)
    requires Candidate(s, k)
    ensures var e := s.mshr[k]; var served := if e.page in s.cached then s.cached[e.page] else None;
      cfg.cacheEntries > 0 && e.page in s.cache ==>
        StartRead(cfg, s, k) == s.(cache := Lru.Insert(cfg.cacheEntries, s.cache, e.page),
          mshr := s.mshr[k := e.(hitReady := s.tick + cfg.cacheHitLatency, data := served)], media := s.media + [CacheServed(e.page, served)])
  {
    hide Nand.StartRead, Nand.Served, Lru.Without;
  }

  /** Only a cache with room for entries lists a page. */
  lemma PageIsCached(cache: Lru.PageCache, page: nat)
    requires cache.Valid()
    ensures page in cache.Pages() ==> cache.maxEntries > 0
  {
  }
}
