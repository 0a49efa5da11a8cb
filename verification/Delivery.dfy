/** Deliveries keep nothing back: what stays undelivered waits for the return queue or for link credit, and
    a page read from the media is in the page cache from its first delivery on. */
module Delivery {
  import opened Basics
  import opened Geometry
  import opened Controller
  import opened ControllerTables
  import opened ControllerFtl
  import opened ControllerInvariant
  import Ftl
  import Lru
  import Nand

  // ----- as much as the credit allows --------------------------------------------------------------------

  /** The first request left is a read larger than the credit left. */
  predicate Short(pending: seq<Request>, credit: real) { pending != [] && !pending[0].isWrite && pending[0].size as real > credit }

  lemma {:induction false} AffordableStops(pending: seq<Request>, limit: nat, credit: real)
    ensures var (n, left) := Affordable(pending, limit, credit); left <= credit && (n < limit && n < |pending| ==> Short(pending[n..], left))
    decreases limit
  {
    var n := Affordable(pending, limit, credit).0;
    if n > 0 {
      var cost := if pending[0].isWrite then 0 else pending[0].size;
      AffordableStops(pending[1..], limit - 1, if cost > 0 then credit - cost as real else credit);
      assert pending[n..] == pending[1..][n - 1..];
    }
  }

  /** Why an entry keeps requests to deliver. */
  predicate HeldBack(cfg: Config, s: State, k: nat) {
    && k in s.mshr && s.mshr[k].delivering && s.mshr[k].channel < |s.channels|
    && (|s.returnq| >= cfg.returnCapacity || Short(s.mshr[k].pending, s.channels[s.mshr[k].channel].credit))
  }

  predicate Deliverable(s: State, k: nat) { k in s.mshr && s.mshr[k].delivering && s.mshr[k].channel < |s.channels| }

  lemma DeliverOneStops(cfg: Config, s: State, k: nat)
    requires Deliverable(s, k)
    ensures var t := DeliverOne(cfg, s, k); k in t.mshr ==> HeldBack(cfg, t, k)
  {
    hide CacheInsert, LinkBytes, Affordable;
    var e := s.mshr[k];
    if |s.returnq| < cfg.returnCapacity { AffordableStops(e.pending, Min(|e.pending|, cfg.returnCapacity - |s.returnq|), s.channels[e.channel].credit); }
  }

  lemma DeliverOtherStays(cfg: Config, s: State, j: nat, k: nat)
    requires j != k
    ensures var t := DeliverOne(cfg, s, j); (HeldBack(cfg, s, k) ==> HeldBack(cfg, t, k)) && (Deliverable(s, k) ==> Deliverable(t, k))
    ensures var t := DeliverOne(cfg, s, j); k !in s.mshr ==> k !in t.mshr
  {
    hide CacheInsert, LinkBytes, Affordable;
    if j in s.mshr && s.mshr[j].delivering && s.mshr[j].channel < |s.channels| && |s.returnq| < cfg.returnCapacity {
      var e := s.mshr[j];
      AffordableStops(e.pending, Min(|e.pending|, cfg.returnCapacity - |s.returnq|), s.channels[e.channel].credit);
    }
  }

  /** Once its turn has come, the entry is gone or held back. */
  lemma {:induction false} DeliverEachStops(cfg: Config, s: State, keys: seq<nat>, k: nat)
    requires Distinct(keys)
    requires if k in keys then Deliverable(s, k) else k !in s.mshr || HeldBack(cfg, s, k)
    ensures var t := DeliverEach(cfg, s, keys); k in t.mshr ==> HeldBack(cfg, t, k)
    decreases |keys|
  {
    hide DeliverOne, HeldBack, Deliverable;
    if keys != [] {
      assert keys == [keys[0]] + keys[1..];
      if keys[0] == k { DeliverOneStops(cfg, s, k); } else { DeliverOtherStays(cfg, s, keys[0], k); }
      DeliverEachStops(cfg, DeliverOne(cfg, s, keys[0]), keys[1..], k);
    }
  }

  /** After the deliveries of a cycle, an entry still to deliver waits for room in the return queue, or its
      next request is a read larger than the credit of its channel. */
  lemma DeliversAllItCan(cfg: Config, s: State, k: nat)
    requires Tables(cfg, s) && k in s.mshr && s.mshr[k].delivering
    ensures var t := DeliverEach(cfg, s, SortedKeys(s.mshr.Keys)); k in t.mshr ==> HeldBack(cfg, t, k)
  {
    hide QueueOk, ActiveOk, BufferOk, WritesOk, FtlOk, PinsOk, DeliverEach, SortedKeys, HeldBack;
    assert EntryOk(cfg, k, s.mshr[k]);
    var keys := SortedKeys(s.mshr.Keys);
    assert k in keys;
    DeliverEachStops(cfg, s, keys, k);
  }

  // ----- the page cache -------------------------------------------------------------------------------------

  /** The first delivery of a media read puts the page, with what was read, in front of the cache. */
  lemma DeliveryFillsCache(cfg: Config, s: State, k: nat)
    requires Deliverable(s, k) && s.mshr[k].fillCache && cfg.cacheEntries > 0 && |s.returnq| < cfg.returnCapacity
    ensures var t, page := DeliverOne(cfg, s, k), s.mshr[k].page;
      && t.cache != [] && t.cache[0] == page && page in t.cached && t.cached[page] == s.mshr[k].data
      && (forall q :: q in t.cache && q != page ==> q in s.cache)
      && (k in t.mshr ==> !t.mshr[k].fillCache)
  {
    hide LinkBytes, Affordable, Lru.Insert;
    InsertedFirst(cfg.cacheEntries, s.cache, s.mshr[k].page);
  }

  lemma InsertedFirst(capacity: nat, cache: seq<nat>, page: nat)
    requires capacity > 0
    ensures var t := Lru.Insert(capacity, cache, page); t != [] && t[0] == page && forall q :: q in t && q != page ==> q in cache
  {
    forall q | q in Lru.Insert(capacity, cache, page) && q != page ensures q in cache { Lru.WithoutOthers(cache, page, q); }
  }

  /** The accesses the page cache sees, issue by issue and delivery by delivery: a read of a cached page and
      the first delivery of a media read touch the page, a write drops it, a read of any other page leaves
      the cache alone. */
  lemma CacheAccesses(cfg: Config, s: State, k: nat)
    ensures Candidate(s, k) ==> StartWrite(cfg, s, k).cache == Lru.Step(cfg.cacheEntries, s.cache, Lru.Invalidate(s.mshr[k].page))
    ensures Candidate(s, k) && cfg.cacheEntries > 0 && s.mshr[k].page in s.cache
        ==> StartRead(cfg, s, k).cache == Lru.Step(cfg.cacheEntries, s.cache, Lru.Touch(s.mshr[k].page))
    ensures Candidate(s, k) && !(cfg.cacheEntries > 0 && s.mshr[k].page in s.cache) ==> StartRead(cfg, s, k).cache == s.cache
    ensures DeliverOne(cfg, s, k).cache ==
      if Deliverable(s, k) && s.mshr[k].fillCache && cfg.cacheEntries > 0 && |s.returnq| < cfg.returnCapacity
      then Lru.Step(cfg.cacheEntries, s.cache, Lru.Touch(s.mshr[k].page)) else s.cache
  {
    hide LinkBytes, Affordable, Lru.Without, Nand.StartRead, Nand.StartProgram, Nand.StartErase, Nand.Served, Ftl.MarkErasing, Ftl.IsErased,
        Padding, Stored;
  }
}
