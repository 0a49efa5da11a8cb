/** How long operations take: a sub-array is busy for exactly its NAND time, and an entry of the
    controller is not delivered before that many ticks have passed since it was issued. */
module Timing {
  import opened Basics
  import opened Geometry
  import opened Controller
  import opened ControllerTables
  import opened ControllerFtl
  import opened ControllerInvariant
  import Ftl
  import Limits
  import Lru
  import Nand
  import Stacks
  import WriteDrain

  // ----- one sub-array ----------------------------------------------------------------------------------

  function AdvanceTimes(sub: Nand.Sub, n: nat): Nand.Sub
    decreases n
  {
    if n == 0 then sub else AdvanceTimes(Nand.Advance(sub), n - 1)
  }

  function AtLeastOne(ticks: nat): nat { if ticks > 1 then ticks else 1 }

  /** A register holds the page. */
  predicate Held(cfg: Config, sub: Nand.Sub, block: nat, page: nat) {
    cfg.bufferEnabled && exists i :: 0 <= i < |sub.slots| && sub.slots[i].valid && sub.slots[i].block == block && sub.slots[i].page == page
  }

  /** An operation with a given timer is busy for exactly that many ticks, and never for less than one. */
  lemma {:induction false} BusyFor(sub: Nand.Sub, n: nat)
    requires sub.phase != Nand.Idle
    ensures AdvanceTimes(sub, n).phase != Nand.Idle <==> n < AtLeastOne(sub.timer)
    decreases n
  {
    if n > 0 {
      if Nand.Advance(sub).phase == Nand.Idle { StaysIdle(Nand.Advance(sub), n - 1); } else { BusyFor(Nand.Advance(sub), n - 1); }
    }
  }

  lemma {:induction false} StaysIdle(sub: Nand.Sub, n: nat)
    requires sub.phase == Nand.Idle
    ensures AdvanceTimes(sub, n) == sub
    decreases n
  {
    if n > 0 { StaysIdle(sub, n - 1); }
  }

  /** A read takes tBUFF if a register held the page, tR otherwise. */
  lemma ReadTakes(cfg: Config, sub: Nand.Sub, block: nat, page: nat, n: nat)
    ensures var t := Nand.StartRead(cfg, sub, block, page);
      t.phase == Nand.Reading
      && (AdvanceTimes(t, n).phase != Nand.Idle <==> n < AtLeastOne(if Held(cfg, sub, block, page) then cfg.tBUFF else cfg.tR))
  {
    hide AdvanceTimes, Nand.Load, AtLeastOne;
    ReadTimer(cfg, sub, block, page);
    BusyFor(Nand.StartRead(cfg, sub, block, page), n);
  }

  lemma ReadTimer(cfg: Config, sub: Nand.Sub, block: nat, page: nat)
    ensures var t := Nand.StartRead(cfg, sub, block, page);
      t.phase == Nand.Reading && t.timer == if Held(cfg, sub, block, page) then cfg.tBUFF else cfg.tR
  {
    if Held(cfg, sub, block, page) {
      var i :| 0 <= i < |sub.slots| && sub.slots[i].valid && sub.slots[i].block == block && sub.slots[i].page == page;
      assert Nand.Matches(sub.slots[i], block, page);
    }
  }

  /** A PROGRAM takes tPROG. */
  lemma ProgramTakes(cfg: Config, sub: Nand.Sub, block: nat, page: nat, cell: Nand.Cell, n: nat)
    ensures var t := Nand.StartProgram(cfg, sub, block, page, cell);
      t.phase == Nand.Programming && (AdvanceTimes(t, n).phase != Nand.Idle <==> n < AtLeastOne(cfg.tPROG))
  {
    hide AdvanceTimes, AtLeastOne;
    BusyFor(Nand.StartProgram(cfg, sub, block, page, cell), n);
  }

  /** An ERASE takes tBERS. */
  lemma EraseTakes(cfg: Config, sub: Nand.Sub, block: nat, n: nat)
    ensures var t := Nand.StartErase(cfg, sub, block);
      t.phase == Nand.Erasing && (AdvanceTimes(t, n).phase != Nand.Idle <==> n < AtLeastOne(cfg.tBERS))
  {
    hide AdvanceTimes, AtLeastOne;
    BusyFor(Nand.StartErase(cfg, sub, block), n);
  }

  // ----- the page registers ---------------------------------------------------------------------------------

  function LoadAll(cfg: Config, sub: Nand.Sub, items: seq<Nand.Address>, content: Option<Nand.Cell>): Nand.Sub {
    if items == [] then sub
    else
      var last := items[|items| - 1];
      Nand.Load(cfg, LoadAll(cfg, sub, items[..|items| - 1], content), last.block, last.page, content)
  }

  /** Ring position of the k-th load. */
  function Ring(first: nat, k: nat, n: nat): nat requires n > 0 { (first + k) % n }

  lemma RingApart(first: nat, j: nat, k: nat, n: nat)
    requires n > 0 && j < k < j + n
    ensures Ring(first, j, n) != Ring(first, k, n)
  {
    RemaindersApart(first + j, first + k, n);
  }

  lemma RingNext(first: nat, k: nat, n: nat)
    requires n > 0
    ensures (Ring(first, k, n) + 1) % n == Ring(first, k + 1, n)
  {
    var a := first + k;
    assert a == (a / n) * n + a % n;
    if a % n + 1 < n {
      Stacks.DivUnique(a / n, n, a % n + 1);
    } else {
      Stacks.DivUnique(a / n + 1, n, 0);
      assert a + 1 == (a / n + 1) * n;
    }
  }

  /** The registers hold the most recent loads, as many as there are registers, oldest replaced first. */
  lemma {:induction false} Registers(cfg: Config, sub: Nand.Sub, items: seq<Nand.Address>, content: Option<Nand.Cell>)
    requires cfg.bufferEnabled && |sub.slots| > 0 && sub.nextSlot < |sub.slots|
    ensures var t := LoadAll(cfg, sub, items, content); var n := |sub.slots|;
      && |t.slots| == n && t.nextSlot == Ring(sub.nextSlot, |items|, n)
      && (forall j :: 0 <= j < |items| && |items| <= j + n ==>
           t.slots[Ring(sub.nextSlot, j, n)] == Nand.Slot(true, items[j].block, items[j].page, content))
    decreases |items|
  {
    hide Ring;
    var n := |sub.slots|;
    if items == [] {
      RingFirst(sub.nextSlot, n);
    } else {
      var before, last := items[..|items| - 1], |items| - 1;
      Registers(cfg, sub, before, content);
      RingBound(sub.nextSlot, last, n);
      RingNext(sub.nextSlot, last, n);
      forall j | 0 <= j < last && |items| <= j + n ensures Ring(sub.nextSlot, j, n) != Ring(sub.nextSlot, last, n) { RingApart(sub.nextSlot, j, last, n); }
      forall j | 0 <= j < last ensures before[j] == items[j] && 0 <= Ring(sub.nextSlot, j, n) < n { RingBound(sub.nextSlot, j, n); }
    }
  }

  lemma RingFirst(first: nat, n: nat)
    requires first < n
    ensures Ring(first, 0, n) == first
  {
  }

  lemma RingBound(first: nat, k: nat, n: nat)
    requires n > 0
    ensures Ring(first, k, n) < n
  {
  }

  /** A sub-array starts with as many empty registers as configured, two by default, and keeps that many. */
  lemma RegisterCount(cfg: Config, sub: Nand.Sub, block: nat, page: nat, cell: Nand.Cell)
    ensures var first := Nand.NewSub(cfg);
      |first.slots| == (if cfg.pageBuffersKnob > 0 then cfg.pageBuffersKnob else 2) && first.nextSlot == 0
      && forall i :: 0 <= i < |first.slots| ==> !first.slots[i].valid
    ensures |Nand.StartRead(cfg, sub, block, page).slots| == |Nand.StartProgram(cfg, sub, block, page, cell).slots|
        == |Nand.StartErase(cfg, sub, block).slots| == |Nand.Advance(sub).slots| == |sub.slots|
  {
  }

  // ----- what an ERASE leaves in the registers ---------------------------------------------------------------

  /** An ERASE empties the registers of its block, and no other. */
  lemma EraseRegisters(cfg: Config, sub: Nand.Sub, block: nat, b: nat, page: nat)
    requires cfg.bufferEnabled
    ensures Held(cfg, Nand.StartErase(cfg, sub, block), b, page) <==> b != block && Held(cfg, sub, b, page)
  {
    var t := Nand.StartErase(cfg, sub, block);
    if b != block && Held(cfg, sub, b, page) {
      var i :| 0 <= i < |sub.slots| && sub.slots[i].valid && sub.slots[i].block == b && sub.slots[i].page == page;
      assert t.slots[i] == sub.slots[i];
    }
  }

  // ----- one entry of the controller --------------------------------------------------------------------

  /** What an entry in service waits for. */
  datatype Wait = Wait(op: Op, sa: int, block: nat, offset: nat, hitReady: nat)

  function WaitOf(e: Entry): Wait { Wait(e.op, e.sa, e.block, e.offset, e.hitReady) }

  /** The entry has been issued and its delivery has not begun. */
  predicate InService(s: State, k: nat, w: Wait) {
    k in s.mshr && k !in s.queue && !s.mshr[k].delivering && WaitOf(s.mshr[k]) == w
  }

  /** A busy sub-array and its timer. */
  predicate TimerAt(subs: seq<Nand.Sub>, sa: int, left: nat) {
    0 <= sa < |subs| && subs[sa].phase != Nand.Idle && subs[sa].timer == left
  }

  /** Another entry changes. */
  predicate Elsewhere(s: State, t: State, k: nat) {
    (k in s.mshr ==> k in t.mshr && WaitOf(t.mshr[k]) == WaitOf(s.mshr[k]) && t.mshr[k].delivering == s.mshr[k].delivering)
    && (k in s.mshr && k in t.queue ==> k in s.queue)
  }

  lemma IssueElsewhere(s: State, page: nat, ch: nat, phys: Phys, f: Ftl.State, k: nat)
    requires page in s.buffer && page !in s.mshr
    ensures var t := Issue(s.(ftl := f), page, ch, phys); Elsewhere(s, t, k) && t.subs == s.subs
  {
    hide WriteEntry, AddWrite;
  }

  lemma FlushMappedElsewhere(cfg: Config, s: State, page: nat, ch: nat, k: nat)
    requires page in s.buffer && page !in s.mshr
    ensures var t := FlushMapped(cfg, s, page, ch); Elsewhere(s, t, k) && t.subs == s.subs
  {
    hide Ftl.TranslateWrite, InChannel, Issue;
    var (f, phys) := Ftl.TranslateWrite(cfg, s.ftl, page);
    if phys.Some? { IssueElsewhere(s, page, ch, phys.value, f, k); }
  }

  lemma FlushElsewhere(cfg: Config, s: State, page: nat, force: bool, k: nat)
    ensures var t := Flush(cfg, s, page, force); Elsewhere(s, t, k) && t.subs == s.subs
  {
    hide FlushMapped, DirectAddress, ChannelOf, Issue;
    if s.halt == Running && page in s.buffer && page !in s.mshr && ChannelOf(cfg, page).Some? {
      var ch := ChannelOf(cfg, page).value;
      FlushMappedElsewhere(cfg, s, page, ch, k);
      assert s.(ftl := s.ftl) == s;
      if DirectAddress(cfg, page, ch).Some? { IssueElsewhere(s, page, ch, DirectAddress(cfg, page, ch).value, s.ftl, k); }
    }
  }

  lemma {:induction false} FlushEachElsewhere(cfg: Config, s: State, pages: seq<nat>, k: nat)
    ensures var t := FlushEach(cfg, s, pages); Elsewhere(s, t, k) && t.subs == s.subs
    ensures var t := FlushOverdue(cfg, s, pages); Elsewhere(s, t, k) && t.subs == s.subs
    decreases |pages|
  {
    hide Flush, Overdue;
    if pages != [] {
      FlushElsewhere(cfg, s, pages[0], false, k);
      FlushEachElsewhere(cfg, Flush(cfg, s, pages[0], false), pages[1..], k);
      FlushEachElsewhere(cfg, s, pages[1..], k);
    }
  }

  lemma PushElsewhere(cfg: Config, s: State, r: Request, k: nat)
    requires cfg.pageSize > 0
    ensures var t := Push(cfg, s, r); Elsewhere(s, t, k) && t.subs == s.subs
  {
    hide ChannelOf, PushWrite, PushRead;
    var page := cfg.PageOf(r.addr);
    var t := s.(pushed := s.pushed + [r]);
    PushWriteElsewhere(cfg, t, r, page, k);
    if ChannelOf(cfg, page).Some? { PushReadElsewhere(cfg, t, r, page, ChannelOf(cfg, page).value, k); }
  }

  lemma PushWriteElsewhere(cfg: Config, s: State, r: Request, page: nat, k: nat)
    requires cfg.pageSize > 0
    ensures var t := PushWrite(cfg, s, r, page); Elsewhere(s, t, k) && t.subs == s.subs
  {
    hide Coverage, Flush, FlushEach, AddToBuffer;
    if Coverage(cfg, page, r).Some? {
      var u := AddToBuffer(s, r, page, Coverage(cfg, page, r).value);
      AddKeeps(s, r, page, Coverage(cfg, page, r).value);
      FlushElsewhere(cfg, u, page, false, k);
      FlushEachElsewhere(cfg, u, SortedKeys(u.buffer.Keys), k);
    }
  }

  lemma AddKeeps(s: State, r: Request, page: nat, bytes: set<nat>)
    ensures var t := AddToBuffer(s, r, page, bytes); t.mshr == s.mshr && t.queue == s.queue && t.subs == s.subs
  {
    hide Buffer;
  }

  lemma AttachedWait(cfg: Config, e: Entry, r: Request)
    ensures WaitOf(Attached(e, r)) == WaitOf(e) && WaitOf(Coalesced(cfg, e, r)) == WaitOf(e)
    ensures Attached(e, r).delivering == e.delivering && Coalesced(cfg, e, r).delivering == e.delivering
  {
  }

  lemma PushReadElsewhere(cfg: Config, s: State, r: Request, page: nat, ch: nat, k: nat)
    ensures var t := PushRead(cfg, s, r, page, ch); Elsewhere(s, t, k) && t.subs == s.subs
  {
    hide Flush, NewRead, Attached, Coalesced;
    FlushElsewhere(cfg, s, page, true, k);
    var u := if page in s.buffer then Flush(cfg, s, page, true) else s;
    if page in u.mshr { AttachedWait(cfg, u.mshr[page], r); } else { NewReadElsewhere(cfg, u, r, page, ch, k); }
  }

  lemma NewReadElsewhere(cfg: Config, s: State, r: Request, page: nat, ch: nat, k: nat)
    requires page !in s.mshr
    ensures var t := NewRead(cfg, s, r, page, ch); Elsewhere(s, t, k) && t.subs == s.subs
  {
    hide Ftl.TranslateRead, InChannel, DirectAddress, ReadEntry;
  }

  // ----- the media half of a cycle ----------------------------------------------------------------------

  lemma BeginTickElsewhere(cfg: Config, s: State, k: nat)
    ensures var t := BeginTick(cfg, s); Elsewhere(s, t, k) && t.subs == s.subs && t.active == s.active && t.tick == s.tick + 1
  {
    hide Config.ReadThreshold, Replenished;
  }

  /** The sub-array of the entry, if it waits for one, does not finish. */
  predicate NotYet(s: State, w: Wait) { w.op != Waiting ==> 0 <= w.sa < |s.subs| && Nand.Advance(s.subs[w.sa]).phase != Nand.Idle }

  lemma FinishElsewhere(cfg: Config, s: State, j: nat, k: nat)
    requires j in s.mshr && j != k
    ensures var t := Finish(cfg, s, j); Elsewhere(s, t, k) && t.subs == s.subs
  {
    hide Ftl.MarkErased, Finished;
  }

  lemma AdvanceOneSubs(cfg: Config, s: State, sa: nat)
    requires sa < |s.subs|
    ensures AdvanceOne(cfg, s, sa).subs == s.subs[sa := Nand.Advance(s.subs[sa])]
  {
    hide Serves, Nand.Advance, Ftl.MarkErased, Finished;
  }

  lemma AdvanceOneWaits(cfg: Config, s: State, sa: nat, k: nat, w: Wait)
    requires InService(s, k, w) && sa < |s.subs| && (sa == w.sa ==> NotYet(s, w))
    ensures InService(AdvanceOne(cfg, s, sa), k, w)
  {
    hide Nand.Advance, Finish;
    var u := s.(subs := s.subs[sa := Nand.Advance(s.subs[sa])], active := s.active - {sa});
    var done := Serving(s.mshr, sa);
    if Nand.Advance(s.subs[sa]).phase == Nand.Idle && done != {} {
      var j := MinOf(done);
      assert j != k;
      FinishElsewhere(cfg, u, j, k);
    }
  }

  predicate InRange(sas: seq<nat>, n: nat) { forall j :: 0 <= j < |sas| ==> sas[j] < n }

  lemma {:induction false} AdvanceEachWaits(cfg: Config, s: State, sas: seq<nat>, k: nat, w: Wait)
    requires InService(s, k, w) && Distinct(sas) && NotYet(s, w) && InRange(sas, |s.subs|)
    ensures InService(AdvanceEach(cfg, s, sas), k, w)
    decreases |sas|
  {
    hide AdvanceOne, Nand.Advance, InService;
    if sas != [] {
      AdvanceOneWaits(cfg, s, sas[0], k, w);
      AdvanceOneSubs(cfg, s, sas[0]);
      var t := AdvanceOne(cfg, s, sas[0]);
      if w.op != Waiting && w.sa in sas[1..] {
        assert w.sa != sas[0];
        AdvanceEachWaits(cfg, t, sas[1..], k, w);
      } else {
        AdvanceEachIdle(cfg, t, sas[1..], k, w);
      }
    }
  }

  /** The sub-array of the entry is not among those advanced. */
  lemma {:induction false} AdvanceEachIdle(cfg: Config, s: State, sas: seq<nat>, k: nat, w: Wait)
    requires InService(s, k, w) && InRange(sas, |s.subs|) && (w.op == Waiting || w.sa !in sas)
    ensures InService(AdvanceEach(cfg, s, sas), k, w)
    decreases |sas|
  {
    hide AdvanceOne, Nand.Advance, InService;
    if sas != [] {
      AdvanceOneWaits(cfg, s, sas[0], k, w);
      AdvanceOneSubs(cfg, s, sas[0]);
      AdvanceEachIdle(cfg, AdvanceOne(cfg, s, sas[0]), sas[1..], k, w);
    }
  }

  /** Every sub-array in the list is advanced once. */
  lemma {:induction false} AdvanceEachSubs(cfg: Config, s: State, sas: seq<nat>, sa: nat)
    requires Distinct(sas) && InRange(sas, |s.subs|) && sa < |s.subs|
    ensures var t := AdvanceEach(cfg, s, sas);
      |t.subs| == |s.subs| && t.subs[sa] == if sa in sas then Nand.Advance(s.subs[sa]) else s.subs[sa]
    decreases |sas|
  {
    hide AdvanceOne, Nand.Advance;
    if sas != [] {
      AdvanceOneSubs(cfg, s, sas[0]);
      AdvanceEachSubs(cfg, AdvanceOne(cfg, s, sas[0]), sas[1..], sa);
    }
  }

  lemma ReadyHitsWaits(s: State, k: nat, w: Wait)
    requires InService(s, k, w) && (w.hitReady == 0 || s.tick < w.hitReady)
    ensures InService(ReadyHits(s), k, w) && ReadyHits(s).subs == s.subs
  {
  }

  lemma DeliverOneWaits(cfg: Config, s: State, j: nat, k: nat, w: Wait)
    requires InService(s, k, w)
    ensures InService(DeliverOne(cfg, s, j), k, w) && DeliverOne(cfg, s, j).subs == s.subs
  {
    hide Affordable, CacheInsert, LinkBytes;
  }

  lemma {:induction false} DeliverEachWaits(cfg: Config, s: State, keys: seq<nat>, k: nat, w: Wait)
    requires InService(s, k, w)
    ensures InService(DeliverEach(cfg, s, keys), k, w) && DeliverEach(cfg, s, keys).subs == s.subs
    decreases |keys|
  {
    hide DeliverOne, InService;
    if keys != [] {
      DeliverOneWaits(cfg, s, keys[0], k, w);
      DeliverEachWaits(cfg, DeliverOne(cfg, s, keys[0]), keys[1..], k, w);
    }
  }

  // ----- issuing other entries --------------------------------------------------------------------------

  /** Sub-arrays that are busy stay as they are. */
  predicate BusyKept(subs: seq<Nand.Sub>, after: seq<Nand.Sub>) {
    |after| == |subs| && forall i :: 0 <= i < |subs| && subs[i].phase != Nand.Idle ==> after[i] == subs[i]
  }

  /** Issuing one entry leaves the others and the busy sub-arrays alone. */
  predicate OnlyIssues(s: State, t: State, j: nat) {
    && (forall k :: k in s.mshr && k != j ==> k in t.mshr && t.mshr[k] == s.mshr[k])
    && BusyKept(s.subs, t.subs)
  }

  lemma StartReadElsewhere(cfg: Config, s: State, j: nat)
    requires Candidate(s, j)
    ensures OnlyIssues(s, StartRead(cfg, s, j), j)
  {
    hide Nand.StartRead, Nand.Served, Lru.Without;
  }

  lemma StartWriteElsewhere(cfg: Config, s: State, j: nat)
    requires Candidate(s, j)
    ensures OnlyIssues(s, StartWrite(cfg, s, j), j)
  {
    hide Nand.StartProgram, Nand.StartErase, Lru.Without, Ftl.MarkErasing, Ftl.IsErased, Padding, Stored;
  }

  lemma StartElsewhere(cfg: Config, s: State, i: nat, k: nat)
    requires i < |s.queue| && Candidate(s, s.queue[i]) && k != s.queue[i]
    ensures var t := Start(cfg, s, i); Elsewhere(s, t, k) && BusyKept(s.subs, t.subs) && (k in s.mshr ==> t.mshr[k] == s.mshr[k])
  {
    hide StartRead, StartWrite, IsRead, BusyKept;
    var j := s.queue[i];
    var t := s.(queue := s.queue[..i] + s.queue[i + 1..], readDue := s.readDue && !(cfg.Scheduler() == 2 && IsRead(s, j)));
    assert Candidate(t, j);
    Limits.StartFrame(cfg, s, i);
    StartReadElsewhere(cfg, t, j);
    StartWriteElsewhere(cfg, t, j);
  }

  /** An entry that cannot issue in this cycle is left alone: it is not queued or its sub-array is busy. */
  predicate Blocked(s: State, k: nat) {
    k in s.mshr && (k !in s.queue || (0 <= s.mshr[k].sa < |s.subs| && s.subs[s.mshr[k].sa].phase != Nand.Idle))
  }

  lemma BlockedStays(cfg: Config, s: State, i: nat, k: nat)
    requires i < |s.queue| && Candidate(s, s.queue[i]) && Blocked(s, k)
    ensures k != s.queue[i] && Blocked(Start(cfg, s, i), k) && Unmoved(s, Start(cfg, s, i), k)
  {
    hide Start;
    StartElsewhere(cfg, s, i, k);
  }

  lemma {:induction false} ScheduleElsewhere(cfg: Config, s: State, budget: nat, k: nat)
    requires Blocked(s, k)
    ensures k in s.mshr && Unmoved(s, ScheduleUpTo(cfg, s, budget), k)
    decreases budget
  {
    hide Start, Pick, Misplaced, Candidate, PrefersReads, Blocked, Unmoved;
    SameElsewhere(s, k);
    if budget != 0 && |s.active| < cfg.MaxActive() {
      PickIsCandidate(s, PrefersReads(cfg, s), cfg.Scheduler() != 0);
      var i := Pick(s, PrefersReads(cfg, s), cfg.Scheduler() != 0);
      if i < |s.queue| {
        BlockedStays(cfg, s, i, k);
        ScheduleElsewhere(cfg, Start(cfg, s, i), budget - 1, k);
        if Start(cfg, s, i).halt == Running { UnmovedTwice(s, Start(cfg, s, i), ScheduleUpTo(cfg, Start(cfg, s, i), budget - 1), k); }
      }
    }
  }

  lemma SameElsewhere(s: State, k: nat)
    requires Blocked(s, k)
    ensures k in s.mshr && Unmoved(s, s, k) && Unmoved(s, s.(halt := QueueAffinity), k)
  {
  }

  /** Nothing changes for the entry, and busy sub-arrays stay busy. */
  predicate Unmoved(s: State, t: State, k: nat)
    requires k in s.mshr
  {
    Elsewhere(s, t, k) && BusyKept(s.subs, t.subs) && t.mshr[k] == s.mshr[k]
  }

  lemma UnmovedTwice(s: State, t: State, u: State, k: nat)
    requires k in s.mshr && Unmoved(s, t, k) && Unmoved(t, u, k)
    ensures Unmoved(s, u, k)
  {
  }

  // ----- issuing one entry --------------------------------------------------------------------------------

  /** What an issued entry does: a write erases a dirty block first, a read of a cached page stays off the
      media. */
  function Chosen(cfg: Config, s: State, e: Entry): Op {
    if e.isWriteOp then (if cfg.ftlEnabled && !Ftl.IsErased(s.ftl, Ftl.BlockOf(PhysOf(e))) then Erasing else Programming)
    else if cfg.cacheEntries > 0 && e.page in s.cache then Waiting else Reading
  }

  /** How long that takes, with the registers of its sub-array as they were. */
  function Takes(cfg: Config, sub: Nand.Sub, e: Entry): nat {
    match e.op
    case Waiting => cfg.cacheHitLatency
    case Reading => if Held(cfg, sub, e.block, e.offset) then cfg.tBUFF else cfg.tR
    case Programming => cfg.tPROG
    case Erasing => cfg.tBERS
  }

  /** The entry was issued between the two states. */
  predicate IssuedAs(cfg: Config, s: State, t: State, k: nat) {
    && k in s.mshr && k in t.mshr && 0 <= s.mshr[k].sa < |s.subs|
    && var e := t.mshr[k];
       && e == s.mshr[k].(op := e.op, hitReady := e.hitReady, data := e.data) && e.op == Chosen(cfg, s, s.mshr[k])
       && !e.delivering
       && (if e.op == Waiting then e.hitReady == s.tick + cfg.cacheHitLatency
           else e.hitReady == 0 && TimerAt(t.subs, e.sa, Takes(cfg, s.subs[e.sa], e)))
  }

  lemma StartReadIssues(cfg: Config, s: State, k: nat)
    requires Candidate(s, k) && !s.mshr[k].isWriteOp && Queued(s.mshr[k])
    ensures IssuedAs(cfg, s, StartRead(cfg, s, k), k)
  {
    hide Nand.StartRead, Nand.Served, Lru.Without, Held;
    ReadTimer(cfg, s.subs[s.mshr[k].sa], s.mshr[k].block, s.mshr[k].offset);
  }

  lemma StartWriteIssues(cfg: Config, s: State, k: nat)
    requires Candidate(s, k) && s.mshr[k].isWriteOp && Queued(s.mshr[k])
    ensures IssuedAs(cfg, s, StartWrite(cfg, s, k), k)
  {
    hide Nand.Dropped, Nand.Erased, Ftl.MarkErasing, Ftl.IsErased, Lru.Without, Padding, Stored;
  }

  lemma StartIssues(cfg: Config, s: State, i: nat)
    requires Tables(cfg, s) && i < |s.queue| && Candidate(s, s.queue[i])
    ensures IssuedAs(cfg, s, Start(cfg, s, i), s.queue[i])
  {
    hide Tables, StartRead, StartWrite, Held, Ftl.IsErased, IsRead;
    var k := s.queue[i];
    CandidateKind(cfg, s, i);
    var t := s.(queue := s.queue[..i] + s.queue[i + 1..], readDue := s.readDue && !(cfg.Scheduler() == 2 && IsRead(s, k)));
    if s.mshr[k].isWriteOp { StartWriteIssues(cfg, t, k); } else { StartReadIssues(cfg, t, k); }
  }

  /** Issuing another entry does not change what an entry will do, unless it takes the sub-array. */
  predicate LeavesChoice(cfg: Config, s: State, t: State, e: Entry) {
    && |t.subs| == |s.subs| && t.tick == s.tick
    && (0 <= e.sa < |s.subs| ==>
          t.subs[e.sa].phase != Nand.Idle || (t.subs[e.sa] == s.subs[e.sa] && Chosen(cfg, t, e) == Chosen(cfg, s, e)))
  }

  lemma StartReadLeaves(cfg: Config, s: State, j: nat, e: Entry)
    requires Candidate(s, j) && e.page != s.mshr[j].page
    ensures LeavesChoice(cfg, s, StartRead(cfg, s, j), e)
  {
    hide Nand.Load, Nand.Served, Lru.Without, Ftl.IsErased;
    Lru.WithoutOthers(s.cache, s.mshr[j].page, e.page);
    ReadTimer(cfg, s.subs[s.mshr[j].sa], s.mshr[j].block, s.mshr[j].offset);
  }

  lemma StartWriteLeaves(cfg: Config, s: State, j: nat, e: Entry)
    requires Candidate(s, j) && e.page != s.mshr[j].page
    ensures LeavesChoice(cfg, s, StartWrite(cfg, s, j), e)
  {
    hide Nand.Dropped, Nand.Erased, Lru.Without, Padding, Stored;
    Lru.WithoutOthers(s.cache, s.mshr[j].page, e.page);
  }

  lemma StartLeaves(cfg: Config, s: State, i: nat, k: nat)
    requires Tables(cfg, s) && i < |s.queue| && Candidate(s, s.queue[i]) && k in s.queue && k != s.queue[i]
    ensures var t := Start(cfg, s, i);
      k in s.mshr && k in t.mshr && t.mshr[k] == s.mshr[k] && k in t.queue && 0 <= s.mshr[k].sa < |s.subs| && LeavesChoice(cfg, s, t, s.mshr[k])
  {
    hide Tables, StartRead, StartWrite, IsRead, LeavesChoice;
    var j := s.queue[i];
    QueuedPlaces(cfg, s, k);
    QueuedPlaces(cfg, s, j);
    StartElsewhere(cfg, s, i, k);
    StillIn(s.queue, i, k);
    var t := s.(queue := s.queue[..i] + s.queue[i + 1..], readDue := s.readDue && !(cfg.Scheduler() == 2 && IsRead(s, j)));
    Limits.StartFrame(cfg, s, i);
    SameChoice(cfg, s, t, Start(cfg, s, i), s.mshr[k]);
    if IsRead(s, j) { StartReadLeaves(cfg, t, j, s.mshr[k]); } else { StartWriteLeaves(cfg, t, j, s.mshr[k]); }
  }

  lemma SameChoice(cfg: Config, s: State, t: State, u: State, e: Entry)
    requires t.subs == s.subs && t.tick == s.tick && t.cache == s.cache && t.ftl == s.ftl
    ensures LeavesChoice(cfg, s, u, e) == LeavesChoice(cfg, t, u, e)
  {
    hide Ftl.IsErased;
  }

  lemma QueuedPlaces(cfg: Config, s: State, k: nat)
    requires Tables(cfg, s) && k in s.queue
    ensures k in s.mshr && s.mshr[k].page == k && 0 <= s.mshr[k].sa < |s.subs| && Queued(s.mshr[k])
  {
    hide BufferOk, CreditOk, WritesOk, FtlOk, PinsOk, FlightOk, BusyOk, ChannelOf;
    assert EntryOk(cfg, k, s.mshr[k]);
  }

  lemma StillIn(queue: seq<nat>, i: nat, k: nat)
    requires i < |queue| && k in queue && k != queue[i]
    ensures k in queue[..i] + queue[i + 1..]
  {
    var j :| 0 <= j < |queue| && queue[j] == k;
    assert (queue[..i] + queue[i + 1..])[if j < i then j else j - 1] == k;
  }

  lemma NotInQueue(cfg: Config, s: State, k: nat)
    requires Tables(cfg, s) && k in s.mshr
    ensures k in s.queue <==> Queued(s.mshr[k])
  {
    hide EntriesOk, ActiveOk, BufferOk, CreditOk, WritesOk, FtlOk, PinsOk;
  }

  lemma IssuedStays(cfg: Config, s: State, t: State, u: State, k: nat)
    requires IssuedAs(cfg, s, t, k) && Unmoved(t, u, k)
    ensures IssuedAs(cfg, s, u, k)
  {
    hide Takes, Chosen;
  }

  lemma IssuedEarlier(cfg: Config, s: State, t: State, u: State, k: nat)
    requires IssuedAs(cfg, t, u, k) && k in s.mshr && s.mshr[k] == t.mshr[k] && s.tick == t.tick && 0 <= s.mshr[k].sa < |s.subs| == |t.subs|
    requires t.subs[s.mshr[k].sa] == s.subs[s.mshr[k].sa] && Chosen(cfg, t, s.mshr[k]) == Chosen(cfg, s, s.mshr[k])
    ensures IssuedAs(cfg, s, u, k)
  {
    hide Takes, Chosen;
  }

  lemma IssuedIsBlocked(cfg: Config, s: State, t: State, k: nat)
    requires Tables(cfg, t) && t.tick > 0 && IssuedAs(cfg, s, t, k) && s.tick > 0
    ensures Blocked(t, k)
  {
    hide Tables, Takes, Chosen;
    NotInQueue(cfg, t, k);
  }

  lemma {:induction false} ScheduleIssues(cfg: Config, s: State, budget: nat, k: nat)
    requires Tables(cfg, s) && s.halt == Running && s.tick > 0 && k in s.queue
    ensures var t := ScheduleUpTo(cfg, s, budget); k in t.queue || IssuedAs(cfg, s, t, k)
    decreases budget, 0
  {
    hide Tables, Start, Pick, Misplaced, Candidate, PrefersReads, Blocked, Unmoved, IssuedAs, Chosen;
    NothingMisplaced(cfg, s);
    if budget != 0 && |s.active| < cfg.MaxActive() {
      PickIsCandidate(s, PrefersReads(cfg, s), cfg.Scheduler() != 0);
      var i := Pick(s, PrefersReads(cfg, s), cfg.Scheduler() != 0);
      if i < |s.queue| {
        StartInv(cfg, s, i);
        ScheduleIssuesStep(cfg, s, i, budget - 1, k);
      }
    }
  }

  lemma {:induction false} ScheduleIssuesStep(cfg: Config, s: State, i: nat, budget: nat, k: nat)
    requires Tables(cfg, s) && s.halt == Running && s.tick > 0 && k in s.queue
    requires i < |s.queue| && Candidate(s, s.queue[i]) && |s.active| < cfg.MaxActive()
    ensures var t := ScheduleUpTo(cfg, Start(cfg, s, i), budget); k in t.queue || IssuedAs(cfg, s, t, k)
    decreases budget, 1
  {
    hide Tables, Start, ScheduleUpTo, Candidate, Blocked, Unmoved, IssuedAs, Chosen;
    var t := Start(cfg, s, i);
    var u := ScheduleUpTo(cfg, t, budget);
    StartInv(cfg, s, i);
    ScheduleUpToInv(cfg, t, budget);
    if k == s.queue[i] {
      StartIssues(cfg, s, i);
      IssuedIsBlocked(cfg, s, t, k);
      ScheduleElsewhere(cfg, t, budget, k);
      IssuedStays(cfg, s, t, u, k);
    } else {
      StartLeaves(cfg, s, i, k);
      if t.subs[s.mshr[k].sa].phase != Nand.Idle {
        BusyStaysQueued(cfg, t, budget, k);
      } else {
        ScheduleIssues(cfg, t, budget, k);
        if k !in u.queue { IssuedEarlier(cfg, s, t, u, k); }
      }
    }
  }

  lemma BusyStaysQueued(cfg: Config, s: State, budget: nat, k: nat)
    requires Tables(cfg, s) && s.halt == Running && s.tick > 0 && k in s.queue && k in s.mshr
    requires 0 <= s.mshr[k].sa < |s.subs| && s.subs[s.mshr[k].sa].phase != Nand.Idle
    ensures k in ScheduleUpTo(cfg, s, budget).queue
  {
    hide Tables, ScheduleUpTo;
    ScheduleElsewhere(cfg, s, budget, k);
    ScheduleUpToInv(cfg, s, budget);
    NotInQueue(cfg, s, k);
    NotInQueue(cfg, ScheduleUpTo(cfg, s, budget), k);
  }

  // ----- until delivery begins ------------------------------------------------------------------------------

  /** An entry in service with so many ticks to go. */
  ghost predicate Left(s: State, k: nat, w: Wait, n: nat) {
    InService(s, k, w) && (if w.op == Waiting then w.hitReady == s.tick + n else w.hitReady == 0 && TimerAt(s.subs, w.sa, n))
  }

  /** What a cycle has done when deliveries begin. */
  function Completed(cfg: Config, s: State): State {
    var t := BeginTick(cfg, s);
    ReadyHits(AdvanceEach(cfg, t, SortedKeys(t.active)))
  }

  lemma ActiveList(cfg: Config, s: State)
    requires Tables(cfg, s)
    ensures Distinct(SortedKeys(s.active)) && InRange(SortedKeys(s.active), |s.subs|)
    ensures forall i: nat :: i < |s.subs| && s.subs[i].phase != Nand.Idle ==> i in SortedKeys(s.active)
  {
    hide EntriesOk, QueueOk, BufferOk, CreditOk, WritesOk, FtlOk, PinsOk, FlightOk, SortedKeys;
    var keys := SortedKeys(s.active);
    forall j | 0 <= j < |keys| ensures keys[j] < |s.subs| { assert keys[j] in keys; }
  }

  lemma LeftLater(s: State, t: State, k: nat, w: Wait, n: nat)
    requires Left(s, k, w, n) && Elsewhere(s, t, k) && t.tick == s.tick && BusyKept(s.subs, t.subs)
    ensures Left(t, k, w, n)
  {
  }

  lemma LeftBegin(cfg: Config, s: State, k: nat, w: Wait, n: nat)
    requires Left(s, k, w, n)
    ensures var t := BeginTick(cfg, s); InService(t, k, w) && t.subs == s.subs && t.active == s.active && t.tick == s.tick + 1
  {
    hide BeginTick;
    BeginTickElsewhere(cfg, s, k);
  }

  lemma TimerFalls(subs: seq<Nand.Sub>, after: seq<Nand.Sub>, sa: nat, n: nat)
    requires TimerAt(subs, sa, n) && n > 1 && |after| == |subs| && after[sa] == Nand.Advance(subs[sa])
    ensures TimerAt(after, sa, n - 1) && Nand.Advance(subs[sa]).phase != Nand.Idle
  {
  }

  lemma CompletedKeeps(cfg: Config, s: State, k: nat, w: Wait, n: nat)
    requires cfg.Valid() && Tables(cfg, s) && s.halt == Running && Left(s, k, w, n) && n > 1
    ensures Left(Completed(cfg, s), k, w, n - 1)
  {
    hide Tables, Config.Valid, BeginTick, AdvanceEach, ReadyHits, Nand.Advance, InService, TimerAt, SortedKeys;
    var t := BeginTick(cfg, s);
    LeftBegin(cfg, s, k, w, n);
    BeginTickInv(cfg, s);
    ActiveList(cfg, t);
    var keys := SortedKeys(t.active);
    if w.op == Waiting {
      AdvanceEachIdle(cfg, t, keys, k, w);
    } else {
      InTimer(t.subs, w.sa, n);
      AdvanceEachSubs(cfg, t, keys, w.sa);
      TimerFalls(t.subs, AdvanceEach(cfg, t, keys).subs, w.sa, n);
      AdvanceEachWaits(cfg, t, keys, k, w);
    }
    AdvanceEachKeeps(cfg, t, keys);
    ReadyHitsKeeps(AdvanceEach(cfg, t, keys));
    ReadyHitsWaits(AdvanceEach(cfg, t, keys), k, w);
  }

  lemma InTimer(subs: seq<Nand.Sub>, sa: int, n: nat)
    requires TimerAt(subs, sa, n)
    ensures 0 <= sa < |subs| && subs[sa].phase != Nand.Idle
    ensures n > 1 ==> Nand.Advance(subs[sa]).phase != Nand.Idle
  {
  }

  lemma DeliverKeeps(cfg: Config, s: State, k: nat, w: Wait, n: nat)
    requires Left(s, k, w, n)
    ensures Left(DrainWindow(cfg, DeliverEach(cfg, s, SortedKeys(s.mshr.Keys))), k, w, n)
  {
    hide DeliverEach, UpdateDrain, CountWrites, SortedKeys;
    var keys := SortedKeys(s.mshr.Keys);
    DeliverEachWaits(cfg, s, keys, k, w);
    DeliverEachKeeps(cfg, s, keys);
  }

  lemma IssueHalfKeeps(cfg: Config, s: State, k: nat, w: Wait, n: nat)
    requires Left(s, k, w, n)
    ensures Left(IdleDrain(cfg, Schedule(cfg, FlushOverdue(cfg, s, SortedKeys(s.buffer.Keys)))), k, w, n)
  {
    hide FlushOverdue, FlushEach, ScheduleUpTo, LastArrival, Left, SortedKeys, Elsewhere, BusyKept;
    var pages := SortedKeys(s.buffer.Keys);
    var t := FlushOverdue(cfg, s, pages);
    FlushEachElsewhere(cfg, s, pages, k);
    WriteDrain.FlushEachWindow(cfg, s, pages);
    SameBusy(s.subs);
    LeftLater(s, t, k, w, n);
    var u := Schedule(cfg, t);
    if t.halt == Running {
      LeftIsBlocked(t, k, w, n);
      ScheduleElsewhere(cfg, t, cfg.MaxActive(), k);
      ScheduleUpToTick(cfg, t, cfg.MaxActive());
      LeftLater(t, u, k, w, n);
    }
    var rest := SortedKeys(u.buffer.Keys);
    FlushEachElsewhere(cfg, u, rest, k);
    WriteDrain.FlushEachWindow(cfg, u, rest);
    SameBusy(u.subs);
    LeftLater(u, FlushEach(cfg, u, rest), k, w, n);
  }

  lemma SameBusy(subs: seq<Nand.Sub>)
    ensures BusyKept(subs, subs)
  {
  }

  lemma LeftIsBlocked(s: State, k: nat, w: Wait, n: nat)
    requires Left(s, k, w, n)
    ensures Blocked(s, k)
  {
  }

  lemma {:induction false} ScheduleUpToTick(cfg: Config, s: State, budget: nat)
    ensures ScheduleUpTo(cfg, s, budget).tick == s.tick
    decreases budget
  {
    hide Start, Pick, Misplaced, PrefersReads;
    if budget != 0 && |s.active| < cfg.MaxActive() {
      var i := Pick(s, PrefersReads(cfg, s), cfg.Scheduler() != 0);
      if i < |s.queue| {
        Limits.StartFrame(cfg, s, i);
        ScheduleUpToTick(cfg, Start(cfg, s, i), budget - 1);
      }
    }
  }

  lemma CycleKeeps(cfg: Config, s: State, k: nat, w: Wait, n: nat)
    requires cfg.Valid() && Tables(cfg, s) && s.halt == Running && Left(s, k, w, n) && n > 1
    ensures Left(Cycle(cfg, s), k, w, n - 1)
  {
    hide Tables, Config.Valid, BeginTick, AdvanceEach, ReadyHits, DeliverEach, DrainWindow, Left, FlushOverdue, Schedule, IdleDrain;
    CompletedKeeps(cfg, s, k, w, n);
    DeliverKeeps(cfg, Completed(cfg, s), k, w, n - 1);
    IssueHalfKeeps(cfg, MediaHalf(cfg, s), k, w, n - 1);
  }

  lemma OtherCallKeeps(cfg: Config, s: State, call: Call, k: nat, w: Wait, n: nat)
    requires cfg.pageSize > 0 && !call.CallCycle? && Left(s, k, w, n)
    ensures Left(Apply(cfg, s, call), k, w, n)
  {
    hide Push;
    if call.CallPush? { PushElsewhere(cfg, s, call.request, k); }
    WriteDrain.OtherCalls(cfg, s, call);
  }

  /** An entry in service stays so until its time has passed. */
  lemma {:induction false} RunKeeps(cfg: Config, s: State, calls: seq<Call>, k: nat, w: Wait, n: nat)
    requires cfg.Valid() && Inv(cfg, s) && Run(cfg, s, calls).halt == Running
    requires Left(s, k, w, n) && (Limits.Cycles(calls) == 0 || Limits.Cycles(calls) < n)
    ensures Left(Run(cfg, s, calls), k, w, n - Limits.Cycles(calls))
    decreases |calls|
  {
    hide Tables, HaltOk, Push, Cycle, Pop, Config.Valid, Left;
    WriteDrain.PageSizePositive(cfg);
    WriteDrain.WasRunning(cfg, s, calls);
    if calls != [] {
      ApplyInv(cfg, s, calls[0]);
      if calls[0].CallCycle? { CycleKeeps(cfg, s, k, w, n); } else { OtherCallKeeps(cfg, s, calls[0], k, w, n); }
      RunKeeps(cfg, Apply(cfg, s, calls[0]), calls[1..], k, w, if calls[0].CallCycle? then n - 1 else n);
    }
  }

  // ----- when its time has passed -----------------------------------------------------------------------------

  predicate Sole(s: State, k: nat, sa: int) { forall j :: j in s.mshr && Serves(s.mshr[j], sa) ==> j == k }

  /** The entry is through: its delivery begins, filling the cache after a media read, or its PROGRAM is
      queued after the ERASE. */
  predicate Through(s: State, k: nat, w: Wait) {
    k in s.mshr && (if w.op == Erasing then Queued(s.mshr[k]) && k in s.queue
                    else s.mshr[k].delivering && (w.op == Reading ==> s.mshr[k].fillCache))
  }

  lemma AdvanceOneThrough(cfg: Config, s: State, sa: nat, k: nat, w: Wait)
    requires Through(s, k, w) && sa < |s.subs|
    ensures Through(AdvanceOne(cfg, s, sa), k, w)
  {
    hide Nand.Advance, Finished, Ftl.MarkErased;
    var done := Serving(s.mshr, sa);
    if done != {} { assert MinOf(done) != k; }
  }

  lemma {:induction false} AdvanceEachThrough(cfg: Config, s: State, sas: seq<nat>, k: nat, w: Wait)
    requires Through(s, k, w) && InRange(sas, |s.subs|)
    ensures Through(AdvanceEach(cfg, s, sas), k, w)
    decreases |sas|
  {
    hide AdvanceOne, Through, Nand.Advance;
    if sas != [] {
      AdvanceOneThrough(cfg, s, sas[0], k, w);
      AdvanceOneSubs(cfg, s, sas[0]);
      AdvanceEachThrough(cfg, AdvanceOne(cfg, s, sas[0]), sas[1..], k, w);
    }
  }

  lemma AdvanceOneEnds(cfg: Config, s: State, k: nat, w: Wait)
    requires InService(s, k, w) && w.op != Waiting && w.hitReady == 0 && 0 <= w.sa < |s.subs| && Sole(s, k, w.sa)
    requires Nand.Advance(s.subs[w.sa]).phase == Nand.Idle
    ensures Through(AdvanceOne(cfg, s, w.sa), k, w)
  {
    hide Nand.Advance, Ftl.MarkErased;
    assert k in Serving(s.mshr, w.sa);
  }

  lemma AdvanceOneSole(cfg: Config, s: State, sa: nat, k: nat, other: int)
    requires Sole(s, k, other) && sa < |s.subs|
    ensures Sole(AdvanceOne(cfg, s, sa), k, other)
  {
    hide Nand.Advance, Ftl.MarkErased;
  }

  lemma {:induction false} AdvanceEachEnds(cfg: Config, s: State, sas: seq<nat>, k: nat, w: Wait)
    requires InService(s, k, w) && w.op != Waiting && w.hitReady == 0 && 0 <= w.sa < |s.subs| && Sole(s, k, w.sa)
    requires Nand.Advance(s.subs[w.sa]).phase == Nand.Idle && w.sa in sas && InRange(sas, |s.subs|)
    ensures Through(AdvanceEach(cfg, s, sas), k, w)
    decreases |sas|
  {
    hide AdvanceOne, Through, Nand.Advance, InService, Sole;
    AdvanceOneSubs(cfg, s, sas[0]);
    var t := AdvanceOne(cfg, s, sas[0]);
    if sas[0] == w.sa {
      AdvanceOneEnds(cfg, s, k, w);
      AdvanceEachThrough(cfg, t, sas[1..], k, w);
    } else {
      AdvanceOneWaits(cfg, s, sas[0], k, w);
      AdvanceOneSole(cfg, s, sas[0], k, w.sa);
      AdvanceEachEnds(cfg, t, sas[1..], k, w);
    }
  }

  lemma FlightIsSole(cfg: Config, s: State, k: nat, w: Wait)
    requires Tables(cfg, s) && InService(s, k, w) && w.op != Waiting
    ensures Sole(s, k, w.sa)
  {
    hide EntriesOk, QueueOk, BufferOk, CreditOk, WritesOk, FtlOk, PinsOk, BusyOk;
  }

  lemma HitIsTimed(cfg: Config, s: State, k: nat, w: Wait)
    requires Tables(cfg, s) && InService(s, k, w) && w.op == Waiting
    ensures w.hitReady > 0
  {
    hide Tables;
    NotInQueue(cfg, s, k);
  }

  lemma ReadyHitsThrough(s: State, k: nat, w: Wait)
    ensures Through(s, k, w) && w.op != Waiting ==> Through(ReadyHits(s), k, w)
    ensures InService(s, k, w) && w.op == Waiting && 0 < w.hitReady <= s.tick ==> Through(ReadyHits(s), k, w)
  {
  }

  /** Its time passes in this cycle. */
  lemma CompletedEnds(cfg: Config, s: State, k: nat, w: Wait, n: nat)
    requires cfg.Valid() && Tables(cfg, s) && s.halt == Running && Left(s, k, w, n) && n <= 1
    ensures Through(Completed(cfg, s), k, w)
  {
    hide Tables, Config.Valid, BeginTick, AdvanceEach, ReadyHits, Nand.Advance, InService, TimerAt, SortedKeys, Through, Sole;
    var t := BeginTick(cfg, s);
    LeftBegin(cfg, s, k, w, n);
    BeginTickInv(cfg, s);
    ActiveList(cfg, t);
    var keys := SortedKeys(t.active);
    if w.op == Waiting {
      HitIsTimed(cfg, s, k, w);
      AdvanceEachIdle(cfg, t, keys, k, w);
    } else {
      InTimer(t.subs, w.sa, n);
      TimerEnds(t.subs, w.sa, n);
      FlightIsSole(cfg, t, k, w);
      AdvanceEachEnds(cfg, t, keys, k, w);
    }
    AdvanceEachKeeps(cfg, t, keys);
    ReadyHitsThrough(AdvanceEach(cfg, t, keys), k, w);
  }

  lemma TimerEnds(subs: seq<Nand.Sub>, sa: nat, n: nat)
    requires TimerAt(subs, sa, n) && n <= 1
    ensures Nand.Advance(subs[sa]).phase == Nand.Idle
  {
  }

  // ----- service time ---------------------------------------------------------------------------------------

  /** What a cycle has done when it comes to issuing. */
  ghost function BeforeIssue(cfg: Config, s: State): State {
    var t := MediaHalf(cfg, s);
    FlushOverdue(cfg, t, SortedKeys(t.buffer.Keys))
  }

  lemma BeforeIssueInv(cfg: Config, s: State)
    requires cfg.Valid() && Inv(cfg, s) && s.halt == Running
    ensures Inv(cfg, BeforeIssue(cfg, s)) && BeforeIssue(cfg, s).tick == s.tick + 1
  {
    hide Tables, Config.Valid, MediaHalf, FlushOverdue, HaltOk, SortedKeys;
    MediaHalfInv(cfg, s);
    RunningInv(cfg, MediaHalf(cfg, s));
    var pages := SortedKeys(MediaHalf(cfg, s).buffer.Keys);
    FlushOverdueInv(cfg, MediaHalf(cfg, s), pages);
    WriteDrain.FlushEachWindow(cfg, MediaHalf(cfg, s), pages);
  }

  lemma IssuedLeft(cfg: Config, s: State, t: State, k: nat)
    requires IssuedAs(cfg, s, t, k) && s.tick == t.tick && k !in t.queue
    ensures Left(t, k, WaitOf(t.mshr[k]), Takes(cfg, s.subs[t.mshr[k].sa], t.mshr[k]))
  {
    hide Held, Chosen;
  }

  /** An entry issued by a cycle: what it does, and how many ticks it takes. */
  lemma CycleIssues(cfg: Config, s: State, k: nat)
    requires cfg.Valid() && Inv(cfg, s) && Cycle(cfg, s).halt == Running && s.halt == Running
    requires k in BeforeIssue(cfg, s).queue && k !in Cycle(cfg, s).queue
    ensures var m, t := BeforeIssue(cfg, s), Cycle(cfg, s);
      && k in m.mshr && k in t.mshr && 0 <= m.mshr[k].sa < |m.subs|
      && t.mshr[k] == m.mshr[k].(op := t.mshr[k].op, hitReady := t.mshr[k].hitReady, data := t.mshr[k].data)
      && t.mshr[k].op == Chosen(cfg, m, m.mshr[k])
      && Left(t, k, WaitOf(t.mshr[k]), Takes(cfg, m.subs[t.mshr[k].sa], t.mshr[k]))
  {
    hide Tables, Config.Valid, MediaHalf, FlushOverdue, ScheduleUpTo, FlushEach, Left, Chosen, Takes, HaltOk, SortedKeys, LastArrival;
    var m := BeforeIssue(cfg, s);
    BeforeIssueInv(cfg, s);
    WriteDrain.HaltedCycle(cfg, m);
    var u := Schedule(cfg, m);
    ScheduleIssues(cfg, m, cfg.MaxActive(), k);
    ScheduleUpToInv(cfg, m, cfg.MaxActive());
    ScheduleUpToTick(cfg, m, cfg.MaxActive());
    var pages := SortedKeys(u.buffer.Keys);
    if k in u.mshr {
      assert Cycle(cfg, s) == u;
      IssuedLeft(cfg, m, u, k);
    } else {
      NoEntryNoQueue(cfg, m, k);
    }
  }

  lemma NoEntryNoQueue(cfg: Config, s: State, k: nat)
    requires Tables(cfg, s)
    ensures k in s.queue ==> k in s.mshr
  {
    hide EntriesOk, ActiveOk, BufferOk, CreditOk, WritesOk, FtlOk, PinsOk;
  }

  /** An entry issued by a cycle is delivered (or, after an ERASE, queued again) in the cycle that follows
      by its time, tBUFF, tR, tPROG, tBERS or the latency of a cache hit, and never earlier. */
  lemma ServiceTime(cfg: Config, s: State, calls: seq<Call>, k: nat)
    requires cfg.Valid() && Inv(cfg, s) && Run(cfg, Cycle(cfg, s), calls).halt == Running && s.halt == Running
    requires k in BeforeIssue(cfg, s).queue && k !in Cycle(cfg, s).queue
    ensures var m, t, u := BeforeIssue(cfg, s), Cycle(cfg, s), Run(cfg, Cycle(cfg, s), calls);
      && k in m.mshr && k in t.mshr && 0 <= m.mshr[k].sa < |m.subs| && t.mshr[k].op == Chosen(cfg, m, m.mshr[k])
      && var e := t.mshr[k];
         var ticks := AtLeastOne(Takes(cfg, m.subs[m.mshr[k].sa], e));
         && (Limits.Cycles(calls) < ticks ==> InService(u, k, WaitOf(e)))
         && (Limits.Cycles(calls) == ticks - 1 ==> Through(Completed(cfg, u), k, WaitOf(e)))
  {
    hide Inv, Config.Valid, Cycle, BeforeIssue, Run, Limits.Cycles, Takes, Chosen, Through, Completed;
    WriteDrain.PageSizePositive(cfg);
    var m, t, u := BeforeIssue(cfg, s), Cycle(cfg, s), Run(cfg, Cycle(cfg, s), calls);
    WriteDrain.WasRunning(cfg, t, calls);
    CycleIssues(cfg, s, k);
    CycleInv(cfg, s);
    var e := t.mshr[k];
    var n := Takes(cfg, m.subs[e.sa], e);
    if Limits.Cycles(calls) < AtLeastOne(n) {
      RunKeeps(cfg, t, calls, k, WaitOf(e), n);
      RunInv(cfg, t, calls);
      if Limits.Cycles(calls) == AtLeastOne(n) - 1 {
        RunningTables(cfg, u);
        CompletedEnds(cfg, u, k, WaitOf(e), n - Limits.Cycles(calls));
      }
    }
  }

  lemma RunningTables(cfg: Config, s: State)
    requires cfg.Valid() && Inv(cfg, s) && s.halt == Running
    ensures Tables(cfg, s)
  {
    hide Tables;
  }
}
