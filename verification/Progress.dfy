/** Bounded drain: with no further pushes and a consumer emptying the return queue, a lexicographic
    measure falls at every tick until the device has no work, or its capacity is exhausted. */
module Progress {
  import opened Basics
  import opened Geometry
  import opened Controller
  import opened ControllerTables
  import opened ControllerFtl
  import opened ControllerInvariant
  import History
  import Ftl
  import FtlExact
  import FtlInvariant
  import MediaInvariant
  import Lru
  import Nand

  /** Writes may always be accepted eventually and partial pages are programmed; the FTL, when used, is
      in HBF mode. */
  predicate Drainable(cfg: Config) {
    cfg.Valid() && cfg.maxOutstandingWrites > 0 && !cfg.strictWrites && (cfg.ftlEnabled ==> Ftl.HbfMode(cfg))
  }

  // ----- work left ----------------------------------------------------------------------------------

  predicate NeedsErase(cfg: Config, f: Ftl.State, e: Entry) { cfg.ftlEnabled && !Ftl.IsErased(f, Ftl.BlockOf(PhysOf(e))) }

  /** How many stages an entry still has before it. */
  function Stage(cfg: Config, f: Ftl.State, e: Entry): nat {
    if e.delivering then 2
    else if e.op == Waiting then (if e.hitReady > 0 then 3 else if e.isWriteOp && NeedsErase(cfg, f, e) then 6 else 4)
    else if e.op == Erasing then 5
    else 3
  }

  ghost function Weigh(cfg: Config, f: Ftl.State): Entry -> nat { (e: Entry) => Stage(cfg, f, e) + |e.pending| }

  function Heft(b: Buffered): nat { 7 + |b.requests| }

  ghost function Load(cfg: Config, s: State): nat { Sum(s.mshr, Weigh(cfg, s.ftl)) + Sum(s.buffer, Heft) }

  // ----- time left ----------------------------------------------------------------------------------

  function Left(deadline: nat, tick: nat): nat { if deadline > tick then deadline - tick else 0 }

  function EntryWait(cfg: Config, tick: nat, e: Entry): nat {
    (if TimingHit(e) then Left(e.hitReady, tick) else 0) + (if e.aggregating
        then 1 + Left(e.firstTick + cfg.readAggWindow, tick) else 0)
  }

  ghost function EntryTimer(cfg: Config, tick: nat): Entry -> nat { (e: Entry) => EntryWait(cfg, tick, e) }

  ghost function HoldTimer(cfg: Config, tick: nat): Buffered -> nat { (b: Buffered) => Left(b.firstTick + cfg.writeAggTimeout + 1, tick) }

  function TimerSum(subs: seq<Nand.Sub>): nat {
    if subs == [] then 0 else (if subs[0].phase == Nand.Idle then 0 else subs[0].timer) + TimerSum(subs[1..])
  }

  /** Ticks until a channel can carry a request of 128 bytes. */
  function Deficit(cfg: Config, credit: real): int
    requires cfg.bandwidth > 0.0
  {
    if credit >= 128.0 then 0 else ((128.0 - credit) / cfg.bandwidth).Floor + 1
  }

  function DeficitSum(cfg: Config, channels: seq<Channel>): int
    requires cfg.bandwidth > 0.0
  {
    if channels == [] then 0 else Deficit(cfg, channels[0].credit) + DeficitSum(cfg, channels[1..])
  }

  ghost function Wait(cfg: Config, s: State): int
    requires cfg.bandwidth > 0.0
  {
    Sum(s.mshr, EntryTimer(cfg, s.tick)) + Sum(s.buffer, HoldTimer(cfg, s.tick)) + TimerSum(s.subs) + DeficitSum(cfg, s.channels)
  }

  lemma DeficitFalls(cfg: Config, credit: real)
    requires cfg.bandwidth > 0.0
    ensures var full := credit + cfg.bandwidth; var next := if full > cfg.MaxCredit() then cfg.MaxCredit() else full;
      0 <= Deficit(cfg, next) && Deficit(cfg, next) <= Deficit(cfg, credit)
          && (credit < 128.0 ==> Deficit(cfg, next) < Deficit(cfg, credit))
  {
    var full := credit + cfg.bandwidth;
    var next := if full > cfg.MaxCredit() then cfg.MaxCredit() else full;
    Positive(128.0 - credit, cfg.bandwidth);
    Positive(128.0 - next, cfg.bandwidth);
    if credit < 128.0 && next < 128.0 {
      assert next == credit + cfg.bandwidth;
      OneStep(128.0 - credit, cfg.bandwidth);
    }
  }

  lemma Positive(x: real, y: real)
    requires y > 0.0
    ensures x > 0.0 ==> x / y > 0.0
  {
  }

  lemma OneStep(x: real, y: real)
    requires y > 0.0
    ensures ((x - y) / y).Floor == (x / y).Floor - 1
  {
    var q := x / y;
    assert q * y == x;
    assert (q - 1.0) * y == q * y - y;
    Quotient(x - y, q - 1.0, y);
  }

  lemma Quotient(a: real, q: real, y: real)
    requires y > 0.0 && q * y == a
    ensures a / y == q
  {
  }

  lemma {:induction false} DeficitsFall(cfg: Config, a: seq<Channel>, b: seq<Channel>)
    requires cfg.bandwidth > 0.0 && |a| == |b| && forall i :: 0 <= i < |a| ==> b[i].credit == Replenished(cfg, a[i]).credit
    ensures 0 <= DeficitSum(cfg, b) <= DeficitSum(cfg, a)
    ensures forall c :: 0 <= c < |a| && a[c].credit < 128.0 ==> DeficitSum(cfg, b) < DeficitSum(cfg, a)
  {
    hide Deficit;
    if a != [] {
      DeficitFalls(cfg, a[0].credit);
      DeficitsFall(cfg, a[1..], b[1..]);
      forall c | 0 <= c < |a| && a[c].credit < 128.0 ensures DeficitSum(cfg, b) < DeficitSum(cfg, a) {
        if c > 0 { assert a[1..][c - 1] == a[c]; }
      }
    }
  }

  // ----- step 0: the clock ----------------------------------------------------------------------------

  lemma ReleasedWaits(cfg: Config, tick: nat, k: nat, e: Entry)
    requires EntryOk(cfg, k, e)
    ensures var g := Released(cfg, tick + 1, e);
      && EntryWait(cfg, tick + 1, g) <= EntryWait(cfg, tick, e)
      && ((TimingHit(e) && e.hitReady > tick) || e.aggregating ==> EntryWait(cfg, tick + 1, g) < EntryWait(cfg, tick, e))
  {
    hide InChannel, ChannelOf;
    if e.aggregating { assert e.pending[0] in e.pending; }
  }

  lemma ReleasedWeighs(cfg: Config, f: Ftl.State, tick: nat, e: Entry)
    ensures Weigh(cfg, f)(Released(cfg, tick, e)) == Weigh(cfg, f)(e)
  {
  }

  lemma SameSum<T>(m: map<nat, T>, n: map<nat, T>, f: T -> nat)
    requires m.Keys == n.Keys && forall k :: k in m ==> f(m[k]) == f(n[k])
    ensures Sum(m, f) == Sum(n, f)
  {
    SumMonotone(m, n, f, f);
    SumMonotone(n, m, f, f);
  }

  lemma BeginTickLoad(cfg: Config, s: State)
    ensures Load(cfg, BeginTick(cfg, s)) == Load(cfg, s)
  {
    hide Released, Weigh;
    var t := BeginTick(cfg, s);
    forall k | k in s.mshr ensures Weigh(cfg, s.ftl)(t.mshr[k]) == Weigh(cfg, s.ftl)(s.mshr[k]) { ReleasedWeighs(cfg, s.ftl, t.tick, s.mshr[k]); }
    SameSum(s.mshr, t.mshr, Weigh(cfg, s.ftl));
  }

  /** What makes the clock alone bring the device closer to its next action. */
  predicate Ticking(cfg: Config, s: State) {
    || (exists k :: k in s.mshr && ((TimingHit(s.mshr[k]) && s.mshr[k].hitReady > s.tick) || s.mshr[k].aggregating))
    || (exists p :: p in s.buffer && s.buffer[p].firstTick + cfg.writeAggTimeout + 1 > s.tick)
    || (exists c :: 0 <= c < |s.channels| && s.channels[c].credit < 128.0)
  }

  lemma EntriesTick(cfg: Config, s: State)
    requires EntriesOk(cfg, s.mshr)
    ensures var t := BeginTick(cfg, s);
      && Sum(t.mshr, EntryTimer(cfg, t.tick)) <= Sum(s.mshr, EntryTimer(cfg, s.tick))
      && forall k :: k in s.mshr && ((TimingHit(s.mshr[k]) && s.mshr[k].hitReady > s.tick) || s.mshr[k].aggregating) ==>
           Sum(t.mshr, EntryTimer(cfg, t.tick)) < Sum(s.mshr, EntryTimer(cfg, s.tick))
  {
    hide Released, EntryWait, EntryOk, TimingHit;
    var t := BeginTick(cfg, s);
    var f, g := EntryTimer(cfg, t.tick), EntryTimer(cfg, s.tick);
    forall k | k in s.mshr ensures f(t.mshr[k]) <= g(s.mshr[k]) { ReleasedWaits(cfg, s.tick, k, s.mshr[k]); }
    SumMonotone(t.mshr, s.mshr, f, g);
    forall k | k in s.mshr && ((TimingHit(s.mshr[k]) && s.mshr[k].hitReady > s.tick) || s.mshr[k].aggregating)
      ensures Sum(t.mshr, f) < Sum(s.mshr, g)
    {
      ReleasedWaits(cfg, s.tick, k, s.mshr[k]);
      SumStrict(t.mshr, s.mshr, f, g, k);
    }
  }

  lemma BuffersTick(cfg: Config, buffer: map<nat, Buffered>, tick: nat)
    ensures Sum(buffer, HoldTimer(cfg, tick + 1)) <= Sum(buffer, HoldTimer(cfg, tick))
    ensures forall p :: p in buffer && buffer[p].firstTick + cfg.writeAggTimeout + 1 > tick ==>
      Sum(buffer, HoldTimer(cfg, tick + 1)) < Sum(buffer, HoldTimer(cfg, tick))
  {
    var f, g := HoldTimer(cfg, tick + 1), HoldTimer(cfg, tick);
    SumMonotone(buffer, buffer, f, g);
    forall p | p in buffer && buffer[p].firstTick + cfg.writeAggTimeout + 1 > tick ensures Sum(buffer, f) < Sum(buffer, g) {
      SumStrict(buffer, buffer, f, g, p);
    }
  }

  lemma BeginTickWait(cfg: Config, s: State)
    requires cfg.bandwidth > 0.0 && EntriesOk(cfg, s.mshr)
    ensures Wait(cfg, BeginTick(cfg, s)) <= Wait(cfg, s)
    ensures Ticking(cfg, s) ==> Wait(cfg, BeginTick(cfg, s)) < Wait(cfg, s)
  {
    hide EntriesOk, EntryTimer, HoldTimer, DeficitSum, TimingHit;
    EntriesTick(cfg, s);
    BuffersTick(cfg, s.buffer, s.tick);
    DeficitsFall(cfg, s.channels, BeginTick(cfg, s).channels);
  }

  // ----- steps that only consume work -----------------------------------------------------------------

  /** Nothing the later steps look at has changed, except that timers may have run. */
  predicate Still(s: State, t: State) {
    && t.halt == s.halt && t.tick == s.tick && t.queue == s.queue && t.buffer == s.buffer && t.channels == s.channels
    && t.active == s.active && t.returnq == s.returnq && t.ftl == s.ftl
    && t.mshr.Keys == s.mshr.Keys && (forall k :: k in s.mshr ==> t.mshr[k] == s.mshr[k].(fillCache := t.mshr[k].fillCache))
    && |t.subs| == |s.subs| && (forall i :: 0 <= i < |s.subs| ==> t.subs[i].phase == s.subs[i].phase)
    && TimerSum(t.subs) <= TimerSum(s.subs)
  }

  lemma StillTrans(s: State, t: State, u: State)
    requires Still(s, t) && Still(t, u)
    ensures Still(s, u)
  {
    hide TimerSum;
  }

  lemma StillRefl(s: State)
    ensures Still(s, s)
  {
    hide TimerSum;
  }

  lemma StillLoad(cfg: Config, s: State, t: State)
    requires Still(s, t)
    ensures Load(cfg, t) == Load(cfg, s)
  {
    hide TimerSum;
    SameSum(s.mshr, t.mshr, Weigh(cfg, s.ftl));
  }

  lemma StillWait(cfg: Config, s: State, t: State)
    requires cfg.bandwidth > 0.0 && Still(s, t)
    ensures Wait(cfg, t) <= Wait(cfg, s)
    ensures TimerSum(t.subs) < TimerSum(s.subs) ==> Wait(cfg, t) < Wait(cfg, s)
  {
    hide TimerSum, DeficitSum, HoldTimer;
    SameSum(s.mshr, t.mshr, EntryTimer(cfg, s.tick));
  }

  /** Strictly less work, or nothing changed. */
  ghost predicate Consumes(cfg: Config, s: State, t: State) { Load(cfg, t) < Load(cfg, s) || Still(s, t) }

  lemma ConsumesTrans(cfg: Config, s: State, t: State, u: State)
    requires Consumes(cfg, s, t) && Consumes(cfg, t, u)
    ensures Consumes(cfg, s, u)
    ensures Load(cfg, t) < Load(cfg, s) ==> Load(cfg, u) < Load(cfg, s)
    ensures Load(cfg, u) < Load(cfg, t) ==> Load(cfg, u) < Load(cfg, s)
  {
    hide Load, Still;
    if Still(s, t) { StillLoad(cfg, s, t); if Still(t, u) { StillTrans(s, t, u); } }
    if Still(t, u) { StillLoad(cfg, t, u); }
  }

  // ----- step 1: media --------------------------------------------------------------------------------

  lemma {:induction false} TimerUpdate(subs: seq<Nand.Sub>, i: nat, sub: Nand.Sub)
    requires i < |subs|
    ensures TimerSum(subs[i := sub]) + (if subs[i].phase == Nand.Idle then 0 else subs[i].timer)
         == TimerSum(subs) + (if sub.phase == Nand.Idle then 0 else sub.timer)
  {
    if i > 0 {
      TimerUpdate(subs[1..], i - 1, sub);
      assert subs[i := sub][1..] == subs[1..][i - 1 := sub];
    } else {
      assert subs[0 := sub][1..] == subs[1..];
    }
  }

  /** A finished operation takes its entry one stage further; an ERASE may help others too. */
  lemma FinishConsumes(cfg: Config, s: State, k: nat)
    requires k in s.mshr && InFlight(s.mshr[k]) && s.mshr[k].hitReady == 0
    requires cfg.ftlEnabled && s.mshr[k].op == Erasing ==> Ftl.BlockOf(PhysOf(s.mshr[k])) in s.ftl.blocks
    ensures Load(cfg, Finish(cfg, s, k)) < Load(cfg, s)
  {
    var t := Finish(cfg, s, k);
    var f, g := Weigh(cfg, t.ftl), Weigh(cfg, s.ftl);
    SumStrict(t.mshr, s.mshr, f, g, k);
  }

  lemma InFlightNotHit(cfg: Config, mshr: Mshr, k: nat)
    requires EntriesOk(cfg, mshr) && k in mshr && InFlight(mshr[k])
    ensures mshr[k].hitReady == 0 && (mshr[k].op == Erasing ==> mshr[k].isWriteOp)
  {
    hide InChannel, ChannelOf;
    assert EntryOk(cfg, k, mshr[k]);
  }

  lemma EraseBlockKnown(cfg: Config, s: State, k: nat)
    requires Tables(cfg, s) && k in s.mshr && InFlight(s.mshr[k])
    ensures s.mshr[k].hitReady == 0
    ensures cfg.ftlEnabled && s.mshr[k].op == Erasing ==> Ftl.BlockOf(PhysOf(s.mshr[k])) in s.ftl.blocks
  {
    MediaInvariant.TablesParts(cfg, s);
    hide Tables, EntriesOk, FtlOk, PinsOk, ActiveOk, QueueOk;
    InFlightNotHit(cfg, s.mshr, k);
    if cfg.ftlEnabled && s.mshr[k].op == Erasing { WriteBlockInUse(cfg, s.mshr, s.ftl, k); }
  }

  lemma AdvanceOneConsumes(cfg: Config, s: State, sa: nat)
    requires Tables(cfg, s)
    ensures Consumes(cfg, s, AdvanceOne(cfg, s, sa))
    ensures sa in s.active ==>
      Load(cfg, AdvanceOne(cfg, s, sa)) < Load(cfg, s)
          || (Still(s, AdvanceOne(cfg, s, sa)) && TimerSum(AdvanceOne(cfg, s, sa).subs) < TimerSum(s.subs))
  {
    hide Tables, AdvanceOne, Nand.Advance, Load, TimerSum, Still;
    StillRefl(s);
    BusyParts(cfg, s);
    if sa !in s.active {
      AdvanceIdle(cfg, s, sa);
    } else if Nand.Advance(s.subs[sa]).phase == Nand.Idle {
      AdvanceFinishes(cfg, s, sa);
    } else {
      AdvanceRuns(cfg, s, sa);
    }
  }

  lemma BusyParts(cfg: Config, s: State)
    requires Tables(cfg, s)
    ensures BusyOk(s.subs, s.active) && FlightOk(s.mshr, s.subs, s.active)
  {
    hide EntriesOk, QueueOk, BufferOk, CreditOk, WritesOk, FtlOk, FlightOk, PinsOk, BusyOk;
  }

  lemma AdvanceIdle(cfg: Config, s: State, sa: nat)
    requires BusyOk(s.subs, s.active) && FlightOk(s.mshr, s.subs, s.active) && sa !in s.active
    ensures AdvanceOne(cfg, s, sa) == s
  {
    hide FlightOk, Finish, Serving;
    IdleServesNothing(s.mshr, s.subs, s.active, sa);
    if sa < |s.subs| { assert s.subs[sa := s.subs[sa]] == s.subs && s.active - {sa} == s.active; }
  }

  lemma AdvanceFinishes(cfg: Config, s: State, sa: nat)
    requires Tables(cfg, s) && sa in s.active && sa < |s.subs| && Nand.Advance(s.subs[sa]).phase == Nand.Idle
    ensures Load(cfg, AdvanceOne(cfg, s, sa)) < Load(cfg, s)
  {
    hide Tables, Finish, Load, Nand.Advance, FlightOk, BusyOk;
    BusyParts(cfg, s);
    ServingIsUnique(s.mshr, s.subs, s.active, sa);
    var k := MinOf(Serving(s.mshr, sa));
    var u := s.(subs := s.subs[sa := Nand.Advance(s.subs[sa])], active := s.active - {sa});
    EraseBlockKnown(cfg, s, k);
    FinishConsumes(cfg, u, k);
    SameLoad(cfg, s, u);
  }

  lemma AdvanceRuns(cfg: Config, s: State, sa: nat)
    requires sa < |s.subs| && s.subs[sa].phase != Nand.Idle && Nand.Advance(s.subs[sa]).phase != Nand.Idle
    ensures Still(s, AdvanceOne(cfg, s, sa)) && TimerSum(AdvanceOne(cfg, s, sa).subs) < TimerSum(s.subs)
  {
    hide TimerSum, Finish, Serving;
    TimerUpdate(s.subs, sa, Nand.Advance(s.subs[sa]));
  }

  lemma SameLoad(cfg: Config, s: State, t: State)
    requires t.mshr == s.mshr && t.buffer == s.buffer && t.ftl == s.ftl
    ensures Load(cfg, t) == Load(cfg, s)
  {
  }

  lemma {:induction false} AdvanceEachConsumes(cfg: Config, s: State, sas: seq<nat>)
    requires Tables(cfg, s) && s.halt == Running
    ensures Consumes(cfg, s, AdvanceEach(cfg, s, sas))
    ensures sas != [] && sas[0] in s.active ==>
      Load(cfg, AdvanceEach(cfg, s, sas)) < Load(cfg, s)
          || (Still(s, AdvanceEach(cfg, s, sas)) && TimerSum(AdvanceEach(cfg, s, sas).subs) < TimerSum(s.subs))
    decreases |sas|
  {
    hide Tables, AdvanceOne, Load, TimerSum;
    if sas == [] {
      StillRefl(s);
    } else {
      var t := AdvanceOne(cfg, s, sas[0]);
      AdvanceOneInv(cfg, s, sas[0]);
      AdvanceOneConsumes(cfg, s, sas[0]);
      AdvanceEachConsumes(cfg, t, sas[1..]);
      ConsumesTrans(cfg, s, t, AdvanceEach(cfg, t, sas[1..]));
    }
  }

  // ----- step 1b: cache hits ----------------------------------------------------------------------------

  lemma MaturedWeighs(cfg: Config, f: Ftl.State, tick: nat, k: nat, e: Entry)
    requires EntryOk(cfg, k, e)
    ensures Weigh(cfg, f)(Matured(tick, e)) <= Weigh(cfg, f)(e)
    ensures Matured(tick, e) != e ==> Weigh(cfg, f)(Matured(tick, e)) < Weigh(cfg, f)(e)
    ensures TimingHit(e) && e.hitReady <= tick ==> Matured(tick, e) != e
  {
    hide InChannel, ChannelOf;
  }

  lemma ReadyHitsConsumes(cfg: Config, s: State)
    requires EntriesOk(cfg, s.mshr)
    ensures Consumes(cfg, s, ReadyHits(s))
    ensures (exists k :: k in s.mshr && TimingHit(s.mshr[k]) && s.mshr[k].hitReady <= s.tick)
        ==> Load(cfg, ReadyHits(s)) < Load(cfg, s)
  {
    hide EntryOk, Weigh, Matured, TimingHit, Still;
    var t := ReadyHits(s);
    var f := Weigh(cfg, s.ftl);
    forall k | k in s.mshr ensures f(t.mshr[k]) <= f(s.mshr[k]) { MaturedWeighs(cfg, s.ftl, s.tick, k, s.mshr[k]); }
    if k :| k in s.mshr && t.mshr[k] != s.mshr[k] {
      MaturedWeighs(cfg, s.ftl, s.tick, k, s.mshr[k]);
      SumStrict(t.mshr, s.mshr, f, f, k);
    } else {
      assert t.mshr == s.mshr;
      StillRefl(s);
      forall k | k in s.mshr { MaturedWeighs(cfg, s.ftl, s.tick, k, s.mshr[k]); }
    }
  }

  // ----- step 2: delivery -----------------------------------------------------------------------------

  lemma NothingAffordable(pending: seq<Request>, limit: nat, credit: real)
    ensures Affordable(pending, limit, credit).0 == 0 ==> Affordable(pending, limit, credit).1 == credit
    ensures limit > 0 && pending != [] && (pending[0].isWrite || pending[0].size as real <= credit)
        ==> Affordable(pending, limit, credit).0 > 0
  {
  }

  lemma PendingNonempty(cfg: Config, mshr: Mshr, k: nat)
    requires EntriesOk(cfg, mshr) && k in mshr
    ensures mshr[k].pending != [] && mshr[k].channel < cfg.Channels()
  {
    hide ChannelOf;
    assert EntryOk(cfg, k, mshr[k]);
  }

  predicate Deliverable(cfg: Config, s: State, k: nat) {
    && k in s.mshr && s.mshr[k].delivering && |s.returnq| < cfg.returnCapacity && s.mshr[k].channel < |s.channels|
    && s.mshr[k].pending != [] && (s.mshr[k].pending[0].isWrite
        || s.mshr[k].pending[0].size as real <= s.channels[s.mshr[k].channel].credit)
  }

  lemma DeliverOneConsumes(cfg: Config, s: State, k: nat)
    requires EntriesOk(cfg, s.mshr)
    ensures Consumes(cfg, s, DeliverOne(cfg, s, k))
    ensures Deliverable(cfg, s, k) ==> Load(cfg, DeliverOne(cfg, s, k)) < Load(cfg, s)
  {
    hide EntriesOk, Affordable, CacheInsert, LinkBytes, Load, TimerSum;
    StillRefl(s);
    if !(k !in s.mshr || !s.mshr[k].delivering || |s.returnq| >= cfg.returnCapacity || s.mshr[k].channel >= |s.channels|) {
      PendingNonempty(cfg, s.mshr, k);
      var e := s.mshr[k];
      var limit := Min(|e.pending|, cfg.returnCapacity - |s.returnq|);
      NothingAffordable(e.pending, limit, s.channels[e.channel].credit);
      var n := Affordable(e.pending, limit, s.channels[e.channel].credit).0;
      var t := DeliverOne(cfg, s, k);
      if n > 0 {
        DeliveredLoad(cfg, s, t, k);
      } else {
        assert e.pending[0..] == e.pending && e.pending[..0] == [];
        LinkNothing();
        assert t.channels == s.channels;
        assert s.returnq + [] == s.returnq;
      }
    }
  }

  lemma LinkNothing()
    ensures LinkBytes([]) == 0
  {
  }

  lemma DeliveredLoad(cfg: Config, s: State, t: State, k: nat)
    requires k in s.mshr && s.mshr[k].delivering && t.buffer == s.buffer && t.ftl == s.ftl
    requires t.mshr == s.mshr - {k}
        || (exists e: Entry :: t.mshr == s.mshr[k := e] && e.delivering && |e.pending| < |s.mshr[k].pending|)
    ensures Load(cfg, t) < Load(cfg, s)
  {
    SumRemove(s.mshr, k, Weigh(cfg, s.ftl));
    if t.mshr != s.mshr - {k} {
      var e: Entry :| t.mshr == s.mshr[k := e] && e.delivering && |e.pending| < |s.mshr[k].pending|;
      SumUpdate(s.mshr, k, e, Weigh(cfg, s.ftl));
    }
  }

  lemma StillDeliverable(cfg: Config, s: State, t: State, k: nat)
    requires Still(s, t) && Deliverable(cfg, s, k)
    ensures Deliverable(cfg, t, k)
  {
    hide TimerSum;
  }

  lemma {:induction false} DeliverEachConsumes(cfg: Config, s: State, keys: seq<nat>)
    requires Tables(cfg, s)
    ensures Consumes(cfg, s, DeliverEach(cfg, s, keys))
    ensures (exists k :: k in keys && Deliverable(cfg, s, k)) ==> Load(cfg, DeliverEach(cfg, s, keys)) < Load(cfg, s)
    decreases |keys|
  {
    hide Load, Still, DeliverOne, Deliverable, QueueOk, ActiveOk, BufferOk, CreditOk, WritesOk, FtlOk, PinsOk, EntriesOk;
    if keys == [] {
      StillRefl(s);
    } else {
      var t := DeliverOne(cfg, s, keys[0]);
      DeliverOneInv(cfg, s, keys[0]);
      DeliverOneConsumes(cfg, s, keys[0]);
      DeliverEachConsumes(cfg, t, keys[1..]);
      ConsumesTrans(cfg, s, t, DeliverEach(cfg, t, keys[1..]));
      forall k | k in keys && Deliverable(cfg, s, k) ensures Load(cfg, DeliverEach(cfg, s, keys)) < Load(cfg, s) {
        if Still(s, t) && k != keys[0] {
          StillDeliverable(cfg, s, t, k);
          assert k in keys[1..];
          StillLoad(cfg, s, t);
        }
      }
    }
  }

  // ----- flushing -------------------------------------------------------------------------------------

  lemma StillErased(cfg: Config, s: State, page: nat)
    requires Drainable(cfg) && cfg.ftlEnabled && Tables(cfg, s) && page !in s.mshr && Ftl.TranslateWrite(cfg, s.ftl, page).1.Some?
    requires ChannelOf(cfg, page).Some?
    ensures var g := Ftl.TranslateWrite(cfg, s.ftl, page).0;
      forall k :: k in s.mshr && s.mshr[k].isWriteOp ==> (NeedsErase(cfg, g, s.mshr[k]) ==> NeedsErase(cfg, s.ftl, s.mshr[k]))
  {
    hide Tables, EntriesOk, FtlOk, PinsOk, ActiveOk, QueueOk, Ftl.TranslateWrite, FtlExact.WriteEffect,
        FtlInvariant.Unmapped, ChannelOf, InChannel, Config.Valid;
    MediaInvariant.TablesParts(cfg, s);
    FlushFtl(cfg, s.ftl, page);
    MediaInvariant.TranslateFacts(cfg, s.ftl, page);
    PinsWrite(cfg, s.mshr, s.ftl, page);
    var (g, p) := Ftl.TranslateWrite(cfg, s.ftl, page);
    forall k | k in s.mshr && s.mshr[k].isWriteOp ensures NeedsErase(cfg, g, s.mshr[k]) ==> NeedsErase(cfg, s.ftl, s.mshr[k]) {
      MediaInvariant.ErasingInUse(cfg, s.mshr, s.ftl, k);
      MediaInvariant.ErasingInUse(cfg, s.mshr, g, k);
      EffectErased(s.ftl, g, p.value, Ftl.BlockOf(PhysOf(s.mshr[k])));
    }
  }

  lemma EffectErased(f: Ftl.State, g: Ftl.State, p: Phys, b: Ftl.Block)
    requires FtlExact.WriteEffect(f, g, p) && b in f.blocks && b !in f.pool && b in g.blocks && b !in g.pool
    ensures Ftl.IsErased(g, b) == Ftl.IsErased(f, b)
  {
  }

  /** Which FTL state a flush leads to. */
  lemma FlushTranslates(cfg: Config, s: State, page: nat, force: bool)
    requires cfg.Valid() && Inv(cfg, s)
    ensures var t := Flush(cfg, s, page, force);
      t.halt == Running && t != s ==>
        if cfg.ftlEnabled then t.ftl == Ftl.TranslateWrite(cfg, s.ftl, page).0
            && Ftl.TranslateWrite(cfg, s.ftl, page).1.Some? else t.ftl == s.ftl
  {
    hide Tables, HaltOk, Config.Valid, Ftl.TranslateWrite, InChannel, WriteEntry, AddWrite, DirectAddress;
    if s.halt == Running && page in s.buffer { BufferedPage(cfg, s, page); }
  }

  lemma QueuedWeight(cfg: Config, f: Ftl.State, b: Buffered, page: nat, ch: nat, phys: Phys)
    ensures Weigh(cfg, f)(WriteEntry(b, page, ch, phys)) < Heft(b)
  {
    hide RequestedBytes;
  }

  lemma FlushedLoad(cfg: Config, s: State, t: State, page: nat)
    requires Flushed(s, t, page)
    requires forall k :: k in s.mshr && s.mshr[k].isWriteOp ==> (NeedsErase(cfg, t.ftl, s.mshr[k]) ==> NeedsErase(cfg, s.ftl, s.mshr[k]))
    ensures Load(cfg, t) < Load(cfg, s)
  {
    hide NeedsErase, RequestedBytes, WriteEntry, Heft;
    var w := t.mshr[page];
    QueuedWeight(cfg, t.ftl, s.buffer[page], page, w.channel, PhysOf(w));
    SumMonotone(s.mshr, s.mshr, Weigh(cfg, t.ftl), Weigh(cfg, s.ftl));
    SumUpdate(s.mshr, page, w, Weigh(cfg, t.ftl));
    SumRemove(s.buffer, page, Heft);
  }

  lemma FlushConsumes(cfg: Config, s: State, page: nat, force: bool)
    requires Drainable(cfg) && Inv(cfg, s) && s.halt == Running
    ensures var t := Flush(cfg, s, page, force); t.halt != Running || t == s || Load(cfg, t) < Load(cfg, s)
  {
    hide Tables, HaltOk, Config.Valid, Flush, Flushed, Load, NeedsErase, ChannelOf;
    FlushOutcome(cfg, s, page, force);
    FlushTranslates(cfg, s, page, force);
    var t := Flush(cfg, s, page, force);
    if t.halt == Running && t != s {
      FlushedWhere(s, t, page);
      BufferedPage(cfg, s, page);
      if cfg.ftlEnabled { StillErased(cfg, s, page); }
      FlushedLoad(cfg, s, t, page);
    }
  }

  lemma FlushedWhere(s: State, t: State, page: nat)
    requires Flushed(s, t, page)
    ensures page in s.buffer && page !in s.mshr
  {
  }

  lemma {:induction false} FlushEachConsumes(cfg: Config, s: State, pages: seq<nat>)
    requires Drainable(cfg) && Inv(cfg, s) && s.halt == Running
    ensures var t := FlushEach(cfg, s, pages); t.halt != Running || t == s || Load(cfg, t) < Load(cfg, s)
    decreases |pages|
  {
    hide Inv, Flush, Load, Config.Valid;
    if pages != [] {
      var t := Flush(cfg, s, pages[0], false);
      FlushInv(cfg, s, pages[0], false) by { DrainableValid(cfg); }
      FlushConsumes(cfg, s, pages[0], false);
      if t.halt == Running { FlushEachConsumes(cfg, t, pages[1..]); } else { FlushEachHalted(cfg, t, pages[1..]); }
    }
  }

  lemma DrainableValid(cfg: Config)
    requires Drainable(cfg)
    ensures cfg.Valid() && cfg.bandwidth > 0.0 && cfg.returnCapacity > 0 && cfg.pageSize > 0
  {
  }

  lemma {:induction false} FlushEachHalted(cfg: Config, s: State, pages: seq<nat>)
    requires s.halt != Running
    ensures FlushEach(cfg, s, pages) == s && FlushOverdue(cfg, s, pages) == s
    decreases |pages|
  {
    if pages != [] { FlushEachHalted(cfg, s, pages[1..]); }
  }

  /** With an empty MSHR table nothing defers an overdue page. */
  lemma FlushActs(cfg: Config, s: State, page: nat)
    requires Drainable(cfg) && Inv(cfg, s) && s.halt == Running && s.mshr == map[] && page in s.buffer
    ensures var t := Flush(cfg, s, page, false); t.halt != Running || t != s
  {
    hide EntriesOk, QueueOk, ActiveOk, BufferOk, CreditOk, FtlOk, PinsOk, HaltOk, Config.Valid, FlushMapped,
        DirectAddress, ChannelOf, WriteEntry, AddWrite;
    BufferedPage(cfg, s, page);
    var ch := ChannelOf(cfg, page).value;
    if ch < |s.channels| { assert WritesOn(s.mshr, ch) == {}; }
    if cfg.ftlEnabled { FlushMappedActs(cfg, s, page, ch); }
  }

  lemma FlushMappedActs(cfg: Config, s: State, page: nat, ch: nat)
    requires page in s.buffer
    ensures var t := FlushMapped(cfg, s, page, ch); t.halt != Running || page !in t.buffer
  {
    hide Ftl.TranslateWrite, InChannel, WriteEntry, AddWrite;
  }

  lemma {:induction false} FlushOverdueConsumes(cfg: Config, s: State, pages: seq<nat>)
    requires Drainable(cfg) && Inv(cfg, s) && s.halt == Running
    ensures var t := FlushOverdue(cfg, s, pages); t.halt != Running || t == s || Load(cfg, t) < Load(cfg, s)
    ensures pages != [] && s.mshr == map[] && Overdue(cfg, s, pages[0]) ==>
      var t := FlushOverdue(cfg, s, pages); t.halt != Running || Load(cfg, t) < Load(cfg, s)
    decreases |pages|
  {
    hide Inv, Flush, Load, Config.Valid;
    if pages != [] {
      DrainableValid(cfg);
      var t := if Overdue(cfg, s, pages[0]) then Flush(cfg, s, pages[0], false) else s;
      FlushInv(cfg, s, pages[0], false);
      FlushConsumes(cfg, s, pages[0], false);
      if s.mshr == map[] && Overdue(cfg, s, pages[0]) { FlushActs(cfg, s, pages[0]); }
      if t.halt == Running { FlushOverdueConsumes(cfg, t, pages[1..]); } else { FlushEachHalted(cfg, t, pages[1..]); }
    }
  }

  // ----- scheduling -----------------------------------------------------------------------------------

  lemma StartReadLoad(cfg: Config, s: State, k: nat)
    requires Candidate(s, k) && Queued(s.mshr[k]) && !s.mshr[k].isWriteOp && s.tick > 0
    ensures Load(cfg, StartRead(cfg, s, k)) < Load(cfg, s)
  {
    hide Nand.StartRead, Nand.Served, Lru.Without, NeedsErase;
    var t := StartRead(cfg, s, k);
    SumStrict(t.mshr, s.mshr, Weigh(cfg, s.ftl), Weigh(cfg, s.ftl), k);
  }

  lemma StartEraseLoad(cfg: Config, s: State, k: nat)
    requires Candidate(s, k) && Queued(s.mshr[k]) && s.mshr[k].isWriteOp && cfg.ftlEnabled
        && !Ftl.IsErased(s.ftl, Ftl.BlockOf(PhysOf(s.mshr[k])))
    ensures Load(cfg, StartErase(cfg, s, k)) < Load(cfg, s)
  {
    hide Nand.StartErase, Stored;
    var t := StartErase(cfg, s, k);
    SumStrict(t.mshr, s.mshr, Weigh(cfg, t.ftl), Weigh(cfg, s.ftl), k);
  }

  lemma StartProgramLoad(cfg: Config, s: State, k: nat)
    requires Candidate(s, k) && Queued(s.mshr[k])
    ensures Load(cfg, StartProgram(cfg, s, k)) < Load(cfg, s)
  {
    hide Nand.StartProgram, Padding, NeedsErase;
    var t := StartProgram(cfg, s, k);
    SumStrict(t.mshr, s.mshr, Weigh(cfg, s.ftl), Weigh(cfg, s.ftl), k);
  }

  lemma StartLoad(cfg: Config, s: State, i: nat)
    requires Tables(cfg, s) && s.tick > 0 && i < |s.queue| && Candidate(s, s.queue[i])
    ensures Load(cfg, Start(cfg, s, i)) < Load(cfg, s)
  {
    hide StartRead, StartErase, StartProgram, Ftl.IsErased, Lru.Without, IsRead, Load, Tables, Queued;
    var k := s.queue[i];
    CandidateKind(cfg, s, i);
    var t := s.(queue := s.queue[..i] + s.queue[i + 1..], readDue := s.readDue && !(cfg.Scheduler() == 2 && IsRead(s, k)));
    SameLoad(cfg, s, t);
    if IsRead(s, k) {
      StartReadLoad(cfg, t, k);
    } else {
      var u := t.(cache := Lru.Without(t.cache, t.mshr[k].page), active := t.active + {t.mshr[k].sa});
      SameLoad(cfg, s, u);
      if cfg.ftlEnabled && !Ftl.IsErased(s.ftl, Ftl.BlockOf(PhysOf(s.mshr[k]))) { StartEraseLoad(cfg, u, k); } else { StartProgramLoad(cfg, u, k); }
    }
  }

  lemma {:induction false} FirstFinds(s: State, queue: seq<nat>, k: nat)
    requires k in queue && Candidate(s, k)
    ensures FirstCandidate(s, queue, None) < |queue|
  {
    hide Candidate;
    if !Candidate(s, queue[0]) {
      assert k in queue[1..];
      FirstFinds(s, queue[1..], k);
    }
  }

  lemma PickFinds(s: State, preferReads: bool, typed: bool, k: nat)
    requires k in s.queue && Candidate(s, k)
    ensures Pick(s, preferReads, typed) < |s.queue|
  {
    hide Candidate, FirstCandidate;
    FirstFinds(s, s.queue, k);
  }

  lemma {:induction false} ScheduleUpToLoad(cfg: Config, s: State, budget: nat)
    requires Tables(cfg, s) && s.halt == Running && s.tick > 0
    ensures ScheduleUpTo(cfg, s, budget) == s || Load(cfg, ScheduleUpTo(cfg, s, budget)) < Load(cfg, s)
    ensures budget > 0 && |s.active| < cfg.MaxActive() && (exists k :: k in s.queue && Candidate(s, k))
        ==> Load(cfg, ScheduleUpTo(cfg, s, budget)) < Load(cfg, s)
    decreases budget
  {
    hide Tables, Start, Pick, Misplaced, Candidate, PrefersReads, Load;
    NothingMisplaced(cfg, s);
    if budget != 0 && |s.active| < cfg.MaxActive() {
      var typed := cfg.Scheduler() != 0;
      PickIsCandidate(s, PrefersReads(cfg, s), typed);
      forall k | k in s.queue && Candidate(s, k) ensures Pick(s, PrefersReads(cfg, s), typed) < |s.queue| { PickFinds(s, PrefersReads(cfg, s), typed, k); }
      var i := Pick(s, PrefersReads(cfg, s), typed);
      if i < |s.queue| {
        StartInv(cfg, s, i);
        StartLoad(cfg, s, i);
        ScheduleUpToLoad(cfg, Start(cfg, s, i), budget - 1);
      }
    }
  }

  lemma ScheduleLoad(cfg: Config, s: State)
    requires cfg.Valid() && Inv(cfg, s) && s.halt == Running && s.tick > 0
    ensures Schedule(cfg, s) == s || Load(cfg, Schedule(cfg, s)) < Load(cfg, s)
    ensures |s.active| < cfg.MaxActive() && (exists k :: k in s.queue && Candidate(s, k))
        ==> Load(cfg, Schedule(cfg, s)) < Load(cfg, s)
  {
    hide Tables, HaltOk, ScheduleUpTo, Candidate, Load;
    ScheduleUpToLoad(cfg, s, cfg.MaxActive());
  }

  lemma IdleDrainLoad(cfg: Config, s: State)
    requires Drainable(cfg) && Inv(cfg, s) && s.halt == Running
    ensures var t := IdleDrain(cfg, s); t.halt != Running || t == s || Load(cfg, t) < Load(cfg, s)
  {
    hide Inv, FlushEach, LastArrival, Load, Config.Valid;
    FlushEachConsumes(cfg, s, SortedKeys(s.buffer.Keys));
  }

  // ----- one cycle ------------------------------------------------------------------------------------

  /** Every read still inside is at most one 128-byte transaction. */
  predicate Small(mshr: Mshr) { forall k :: k in mshr && mshr[k].pending != [] ==> mshr[k].pending[0].isWrite || mshr[k].pending[0].size <= 128 }

  /** Steps 1 to 3a from the state the clock left. */
  function AfterClock(cfg: Config, s: State): State {
    var s2 := AdvanceEach(cfg, s, SortedKeys(s.active));
    var s3 := ReadyHits(s2);
    DrainWindow(cfg, DeliverEach(cfg, s3, SortedKeys(s3.mshr.Keys)))
  }

  lemma DrainWindowStill(cfg: Config, s: State)
    ensures Still(s, DrainWindow(cfg, s))
  {
    hide UpdateDrain, CountWrites, TimerSum;
  }

  /** An entry with a request the link can carry right now. */
  predicate Affords(s: State, k: nat) {
    && k in s.mshr && s.mshr[k].channel < |s.channels| && s.mshr[k].pending != []
    && (s.mshr[k].pending[0].isWrite || s.mshr[k].pending[0].size as real <= s.channels[s.mshr[k].channel].credit)
  }

  lemma StillAffords(s: State, t: State, k: nat)
    requires Still(s, t) && Affords(s, k)
    ensures Affords(t, k)
  {
    hide TimerSum;
  }

  lemma AdvanceNone(cfg: Config, s: State)
    requires s.active == {}
    ensures AdvanceEach(cfg, s, SortedKeys(s.active)) == s
  {
  }

  /** Steps 1 to 3a consume work whenever an operation runs, a hit matures or a delivery is affordable. */
  lemma AfterClockConsumes(cfg: Config, s: State)
    requires cfg.Valid() && Tables(cfg, s) && s.halt == Running
    ensures var t := AfterClock(cfg, s);
      && Tables(cfg, t) && t.halt == Running && t.pushed == s.pushed && t.tick == s.tick && Consumes(cfg, s, t)
      && (s.active != {} ==> Load(cfg, t) < Load(cfg, s) || (Still(s, t) && TimerSum(t.subs) < TimerSum(s.subs)))
      && (s.active == {} && (exists k :: k in s.mshr && TimingHit(s.mshr[k]) && s.mshr[k].hitReady <= s.tick)
          ==> Load(cfg, t) < Load(cfg, s))
      && (s.active == {} && s.returnq == [] && (exists k :: k in s.mshr && s.mshr[k].delivering && Affords(s, k))
          ==> Load(cfg, t) < Load(cfg, s))
  {
    hide Tables, AdvanceEach, ReadyHits, DeliverEach, DrainWindow, Load, Still, TimerSum, TimingHit, Affords, Deliverable;
    DrainableParts(cfg);
    var sas := SortedKeys(s.active);
    if s.active != {} { assert sas[0] in sas; } else { AdvanceNone(cfg, s); }
    var s2 := AdvanceEach(cfg, s, sas);
    AdvanceEachInv(cfg, s, sas);
    AdvanceEachKeeps(cfg, s, sas);
    AdvanceEachConsumes(cfg, s, sas);
    var s3 := ReadyHits(s2);
    ReadyHitsInv(cfg, s2);
    ReadyHitsKeeps(s2);
    TablesEntries(cfg, s2);
    ReadyHitsConsumes(cfg, s2);
    var keys := SortedKeys(s3.mshr.Keys);
    DeliverEachInv(cfg, s3, keys);
    DeliverEachKeeps(cfg, s3, keys);
    DeliverEachConsumes(cfg, s3, keys);
    var s4 := DeliverEach(cfg, s3, keys);
    DrainWindowInv(cfg, s4);
    DrainWindowKeeps(cfg, s4);
    DrainWindowStill(cfg, s4);
    var t := DrainWindow(cfg, s4);
    ConsumesTrans(cfg, s, s2, s3);
    ConsumesTrans(cfg, s, s3, s4);
    ConsumesTrans(cfg, s, s4, t);
    if s.active != {} && Load(cfg, t) >= Load(cfg, s) {
      ChainTimers(cfg, s, s2, s3, s4, t);
    }
    if s.active == {} && s.returnq == [] {
      forall k | k in s.mshr && s.mshr[k].delivering && Affords(s, k) ensures Load(cfg, t) < Load(cfg, s) {
        if Still(s, s3) {
          StillAffords(s, s3, k);
          StillDelivers(cfg, s, s3, k);
        }
      }
    }
  }

  lemma DrainableParts(cfg: Config)
    requires cfg.Valid()
    ensures cfg.returnCapacity > 0 && cfg.bandwidth > 0.0
  {
  }

  lemma TablesEntries(cfg: Config, s: State)
    requires Tables(cfg, s)
    ensures EntriesOk(cfg, s.mshr) && |s.channels| == cfg.Channels()
  {
    hide EntriesOk, QueueOk, ActiveOk, BufferOk, WritesOk, FtlOk, PinsOk;
  }

  lemma StillDelivers(cfg: Config, s: State, t: State, k: nat)
    requires Still(s, t) && Affords(t, k) && k in s.mshr && s.mshr[k].delivering && s.returnq == [] && cfg.returnCapacity > 0
    ensures Deliverable(cfg, t, k) && k in t.mshr
  {
    hide TimerSum;
  }

  lemma ChainTimers(cfg: Config, s: State, s2: State, s3: State, s4: State, t: State)
    requires Load(cfg, t) >= Load(cfg, s)
    requires Load(cfg, s2) < Load(cfg, s) || (Still(s, s2) && TimerSum(s2.subs) < TimerSum(s.subs))
    requires Consumes(cfg, s, s2) && Consumes(cfg, s2, s3) && Consumes(cfg, s3, s4) && Consumes(cfg, s4, t)
    ensures Still(s, t) && TimerSum(t.subs) < TimerSum(s.subs)
  {
    hide Load, Still, TimerSum;
    ConsumesTrans(cfg, s2, s3, s4);
    ConsumesTrans(cfg, s2, s4, t);
    ConsumesTrans(cfg, s, s2, t);
    StillTimers(s2, t);
    StillTrans(s, s2, t);
  }

  lemma StillTimers(s: State, t: State)
    ensures Still(s, t) ==> TimerSum(t.subs) <= TimerSum(s.subs)
  {
    hide TimerSum;
  }

  lemma CycleParts(cfg: Config, s: State)
    requires s.halt == Running
    ensures var t := AfterClock(cfg, BeginTick(cfg, s));
      MediaHalf(cfg, s) == t && Cycle(cfg, s) == IdleDrain(cfg, Schedule(cfg, FlushOverdue(cfg, t, SortedKeys(t.buffer.Keys))))
  {
    hide AdvanceEach, DeliverEach, BeginTick, ReadyHits, DrainWindow, IdleDrain, Schedule, FlushOverdue;
  }

  /** Steps 3b to 5: they consume work whenever an overdue page meets an empty table, or a queued entry
      meets an idle device. */
  lemma AfterMedia(cfg: Config, s: State)
    requires Drainable(cfg) && Tables(cfg, s) && s.halt == Running && s.tick > 0
    ensures var pages := SortedKeys(s.buffer.Keys); var t := IdleDrain(cfg, Schedule(cfg, FlushOverdue(cfg, s, pages)));
      && Inv(cfg, t) && (t.halt != Running || t == s || Load(cfg, t) < Load(cfg, s))
      && (pages != [] && s.mshr == map[] && Overdue(cfg, s, pages[0]) ==> t.halt != Running || Load(cfg, t) < Load(cfg, s))
      && (s.active == {} && (exists k :: k in s.queue && Candidate(s, k)) ==> t.halt != Running || Load(cfg, t) < Load(cfg, s))
  {
    hide Tables, HaltOk, FlushOverdue, Schedule, IdleDrain, Load, Candidate, Overdue, Config.Valid;
    DrainableValid(cfg);
    RunningInv(cfg, s);
    var pages := SortedKeys(s.buffer.Keys);
    FlushOverdueInv(cfg, s, pages);
    FlushOverdueConsumes(cfg, s, pages);
    var s6 := FlushOverdue(cfg, s, pages);
    ScheduleInv(cfg, s6);
    var s7 := Schedule(cfg, s6);
    IdleDrainInv(cfg, s7);
    if s6.halt == Running {
      ScheduleLoad(cfg, s6);
      ScheduleRuns(cfg, s6);
      IdleDrainLoad(cfg, s7);
    } else {
      HaltedStays(cfg, s6);
    }
  }

  lemma ScheduleRuns(cfg: Config, s: State)
    requires cfg.Valid() && Inv(cfg, s) && s.halt == Running && s.tick > 0
    ensures Schedule(cfg, s).halt == Running
  {
    hide Tables, HaltOk, ScheduleUpTo, Config.Valid;
    ScheduleUpToInv(cfg, s, cfg.MaxActive());
  }

  lemma HaltedStays(cfg: Config, s: State)
    requires s.halt != Running
    ensures Schedule(cfg, s) == s && IdleDrain(cfg, s) == s
  {
    hide FlushEach, LastArrival, ScheduleUpTo;
  }

  /** What the device is waiting for when no operation runs and the clock alone changes nothing. */
  lemma SomethingMoves(cfg: Config, s: State)
    requires Drainable(cfg) && Tables(cfg, s) && s.active == {} && !Ticking(cfg, s) && Small(s.mshr)
    requires s.mshr != map[] || s.buffer != map[]
    ensures var u := BeginTick(cfg, s);
      || (exists k :: k in u.mshr && TimingHit(u.mshr[k]) && u.mshr[k].hitReady <= u.tick)
      || (exists k :: k in u.mshr && u.mshr[k].delivering && Affords(u, k))
      || (exists k :: k in u.queue && k in u.mshr && Queued(u.mshr[k]) && !u.mshr[k].aggregating)
      || (u.mshr == map[] && u.buffer != map[] && forall p :: p in u.buffer ==> Overdue(cfg, u, p))
  {
    hide EntriesOk, BufferOk, CreditOk, WritesOk, FtlOk, PinsOk, FlightOk, BusyOk, Config.Valid;
    var u := BeginTick(cfg, s);
    if s.mshr != map[] {
      var k :| k in s.mshr;
      var e := s.mshr[k];
      TablesEntries(cfg, s);
      PendingNonempty(cfg, s.mshr, k);
      NothingFlies(cfg, s, k);
      assert !e.aggregating && u.mshr[k] == e;
      if TimingHit(e) {
        assert u.mshr[k].hitReady <= u.tick;
      } else if e.delivering {
        assert s.channels[e.channel].credit >= 128.0;
        assert u.channels[e.channel].credit >= 128.0 by { assert cfg.MaxCredit() >= 128.0; DrainableValid(cfg); }
        assert Affords(u, k);
      } else {
        assert Queued(e) && k in s.queue;
      }
    }
  }

  lemma NothingFlies(cfg: Config, s: State, k: nat)
    requires Tables(cfg, s) && s.active == {} && k in s.mshr
    ensures !InFlight(s.mshr[k])
  {
    hide EntriesOk, QueueOk, BufferOk, CreditOk, WritesOk, FtlOk, PinsOk, BusyOk;
  }

  lemma QueuedIsCandidate(cfg: Config, s: State, t: State, k: nat)
    requires Tables(cfg, t) && Still(s, t) && s.active == {} && k in s.queue && k in s.mshr && Queued(s.mshr[k])
        && !s.mshr[k].aggregating
    ensures k in t.queue && Candidate(t, k)
  {
    hide QueueOk, FlightOk, BufferOk, CreditOk, WritesOk, FtlOk, PinsOk, TimerSum, ChannelOf;
    assert EntryOk(cfg, k, t.mshr[k]);
  }

  lemma BeginTickFrame(cfg: Config, s: State)
    ensures var u := BeginTick(cfg, s); u.active == s.active && u.returnq == s.returnq && u.buffer == s.buffer && u.mshr.Keys == s.mshr.Keys
  {
  }

  lemma ConsumesLoad(cfg: Config, s: State, t: State)
    requires Consumes(cfg, s, t)
    ensures Load(cfg, t) <= Load(cfg, s)
  {
    hide Load, Still;
    if Still(s, t) { StillLoad(cfg, s, t); }
  }

  lemma ConsumesActive(cfg: Config, s: State, t: State)
    requires Consumes(cfg, s, t) && Load(cfg, t) == Load(cfg, s)
    ensures t.active == s.active
  {
    hide Load, TimerSum;
  }

  lemma OverdueStays(cfg: Config, u: State, v: State)
    requires Still(u, v) && u.mshr == map[] && u.buffer != map[] && forall p :: p in u.buffer ==> Overdue(cfg, u, p)
    ensures var pages := SortedKeys(v.buffer.Keys); pages != [] && v.mshr == map[] && Overdue(cfg, v, pages[0])
  {
    hide TimerSum;
    var pages := SortedKeys(v.buffer.Keys);
    var p :| p in v.buffer;
    assert p in pages;
    assert pages[0] in pages && pages[0] in v.buffer;
  }

  /** If the cycle changed nothing after the clock, an operation was running or the clock was ticking. */
  lemma StillMoves(cfg: Config, s: State, u: State, v: State)
    requires Drainable(cfg) && Tables(cfg, s) && s.active == {} && !Ticking(cfg, s) && Small(s.mshr)
        && (s.mshr != map[] || s.buffer != map[])
    requires u == BeginTick(cfg, s) && Tables(cfg, v) && Still(u, v)
    ensures
      || (exists k :: k in u.mshr && TimingHit(u.mshr[k]) && u.mshr[k].hitReady <= u.tick)
      || (exists k :: k in u.mshr && u.mshr[k].delivering && Affords(u, k))
      || (exists k :: k in v.queue && Candidate(v, k))
      || (var pages := SortedKeys(v.buffer.Keys); pages != [] && v.mshr == map[] && Overdue(cfg, v, pages[0]))
  {
    hide Tables, BeginTick, Candidate, TimerSum, Still, Ticking, TimingHit, Affords, Small, Queued, Overdue, Config.Valid;
    BeginTickFrame(cfg, s);
    SomethingMoves(cfg, s);
    if k :| k in u.queue && k in u.mshr && Queued(u.mshr[k]) && !u.mshr[k].aggregating {
      QueuedIsCandidate(cfg, u, v, k);
    } else if u.mshr == map[] && u.buffer != map[] && forall p :: p in u.buffer ==> Overdue(cfg, u, p) {
      OverdueStays(cfg, u, v);
    }
  }

  /** One cycle of an unfinished device: it runs out of room, or less work is left, or the same work is closer. */
  lemma CycleFalls(cfg: Config, s: State)
    requires Drainable(cfg) && Tables(cfg, s) && s.halt == Running && s.returnq == [] && Small(s.mshr)
        && (s.mshr != map[] || s.buffer != map[])
    ensures var t := Cycle(cfg, s);
      OutOfRoom(cfg, t) || Load(cfg, t) < Load(cfg, s) || (Load(cfg, t) == Load(cfg, s) && Wait(cfg, t) < Wait(cfg, s))
  {
    hide OutOfRoom, Tables, HaltOk, BeginTick, AfterClock, FlushOverdue, Schedule, IdleDrain, Load, Wait, Consumes, Still, TimerSum,
        Candidate, Ticking, Overdue,
         TimingHit, Affords, Small, Config.Valid, Cycle, MediaHalf;
    DrainableValid(cfg);
    var u := BeginTick(cfg, s);
    BeginTickInv(cfg, s);
    BeginTickKeeps(cfg, s);
    BeginTickLoad(cfg, s);
    BeginTickFrame(cfg, s);
    var v := AfterClock(cfg, u);
    AfterClockConsumes(cfg, u);
    ConsumesLoad(cfg, u, v);
    AfterMedia(cfg, v);
    CycleParts(cfg, s);
    RunningInv(cfg, s);
    CycleHalts(cfg, s);
    var t := Cycle(cfg, s);
    if t.halt == Running && Load(cfg, t) >= Load(cfg, s) {
      assert t == v && Load(cfg, v) == Load(cfg, u);
      ConsumesActive(cfg, u, v);
      WaitFalls(cfg, s, u, v);
    }
  }

  lemma WaitFalls(cfg: Config, s: State, u: State, v: State)
    requires Drainable(cfg) && Tables(cfg, s) && Small(s.mshr) && (s.mshr != map[] || s.buffer != map[])
    requires u == BeginTick(cfg, s) && Tables(cfg, v) && Consumes(cfg, u, v) && Load(cfg, v) == Load(cfg, u)
    requires s.active != {} ==> Load(cfg, v) < Load(cfg, u) || (Still(u, v) && TimerSum(v.subs) < TimerSum(u.subs))
    requires s.active == {} ==> !(exists k :: k in u.mshr && TimingHit(u.mshr[k]) && u.mshr[k].hitReady <= u.tick)
    requires s.active == {} ==> !(exists k :: k in u.mshr && u.mshr[k].delivering && Affords(u, k))
    requires s.active == {} ==> !(exists k :: k in v.queue && Candidate(v, k))
    requires var pages := SortedKeys(v.buffer.Keys); !(pages != [] && v.mshr == map[] && Overdue(cfg, v, pages[0]))
    ensures Wait(cfg, v) < Wait(cfg, s)
  {
    hide Tables, BeginTick, Load, Wait, Still, TimerSum, Candidate, Ticking, Overdue, TimingHit, Affords, Small, Config.Valid;
    DrainableValid(cfg);
    TablesEntries(cfg, s);
    BeginTickWait(cfg, s);
    StillWait(cfg, u, v);
    if s.active == {} && !Ticking(cfg, s) { StillMoves(cfg, s, u, v); }
  }

  // ----- halting --------------------------------------------------------------------------------------

  /** The only ways a drain can end early: some buffered page can get no block, or has no direct address. */
  ghost predicate OutOfRoom(cfg: Config, s: State)
    requires cfg.pagesPerBlock > 0
  {
    || (s.halt == CapacityExhausted && cfg.ftlEnabled && StuckBuffered(cfg, s.ftl, s.buffer))
    || (s.halt == NamespaceExceeded && !cfg.ftlEnabled && BeyondBuffered(cfg, s.buffer))
  }

  lemma FlushMappedHalts(cfg: Config, s: State, page: nat, ch: nat)
    requires cfg.Valid() && FtlOk(cfg, s.ftl) && s.halt == Running && page in s.buffer && ChannelOf(cfg, page) == Some(ch)
    requires cfg.ftlEnabled
    ensures var t := FlushMapped(cfg, s, page, ch); t.halt == Running || OutOfRoom(cfg, t)
  {
    hide FtlOk, Config.Valid, OutOfBlocks, BeyondBuffered, Ftl.TranslateWrite, InChannel, ChannelOf, WriteEntry, AddWrite;
    DrainableBlocks(cfg);
    FlushFtl(cfg, s.ftl, page);
    NoMappingError(cfg, Ftl.TranslateWrite(cfg, s.ftl, page).0);
  }

  lemma DrainableBlocks(cfg: Config)
    requires cfg.Valid()
    ensures cfg.pagesPerBlock > 0
  {
  }

  lemma NoMappingError(cfg: Config, f: Ftl.State)
    requires FtlOk(cfg, f)
    ensures !f.mappingError
  {
    hide FtlInvariant.Wf, FtlExact.Exact;
  }

  lemma FlushHalts(cfg: Config, s: State, page: nat, force: bool)
    requires Drainable(cfg) && Inv(cfg, s) && s.halt == Running
    ensures var t := Flush(cfg, s, page, force); t.halt == Running || OutOfRoom(cfg, t)
  {
    hide Tables, HaltOk, Config.Valid, FlushMapped, DirectAddress, ChannelOf, WriteEntry, AddWrite, FtlOk, StuckBuffered, Beyond;
    if page in s.buffer {
      BufferedPage(cfg, s, page);
      TablesFtl(cfg, s);
      if cfg.ftlEnabled { FlushMappedHalts(cfg, s, page, ChannelOf(cfg, page).value); } else { DirectInChannel(cfg, page); }
    }
  }

  lemma {:induction false} FlushEachHalts(cfg: Config, s: State, pages: seq<nat>)
    requires Drainable(cfg) && Inv(cfg, s) && s.halt == Running
    ensures var t := FlushEach(cfg, s, pages); t.halt == Running || OutOfRoom(cfg, t)
    ensures var t := FlushOverdue(cfg, s, pages); t.halt == Running || OutOfRoom(cfg, t)
    decreases |pages|
  {
    hide Inv, Flush, Config.Valid, OutOfRoom;
    if pages != [] {
      DrainableValid(cfg);
      FlushInv(cfg, s, pages[0], false);
      FlushHalts(cfg, s, pages[0], false);
      var t := Flush(cfg, s, pages[0], false);
      if t.halt == Running { FlushEachHalts(cfg, t, pages[1..]); } else { FlushEachHalted(cfg, t, pages[1..]); }
      FlushEachHalts(cfg, s, pages[1..]);
    }
  }

  lemma CycleHalts(cfg: Config, s: State)
    requires Drainable(cfg) && Inv(cfg, s) && s.halt == Running
    ensures var t := Cycle(cfg, s); (t.halt == Running || OutOfRoom(cfg, t)) && t.pushed == s.pushed
  {
    hide Tables, HaltOk, MediaHalf, FlushOverdue, FlushEach, Schedule, Config.Valid, OutOfRoom, LastArrival;
    DrainableValid(cfg);
    var s5 := MediaHalf(cfg, s);
    MediaHalfInv(cfg, s);
    RunningInv(cfg, s5);
    var pages := SortedKeys(s5.buffer.Keys);
    FlushOverdueInv(cfg, s5, pages);
    FlushEachHalts(cfg, s5, pages);
    FlushEachPushed(cfg, s5, pages);
    var s6 := FlushOverdue(cfg, s5, pages);
    ScheduleInv(cfg, s6);
    SchedulePushed(cfg, s6);
    var s7 := Schedule(cfg, s6);
    if s6.halt == Running { ScheduleRuns(cfg, s6); } else { HaltedStays(cfg, s6); }
    if s7.halt == Running { FlushEachHalts(cfg, s7, SortedKeys(s7.buffer.Keys)); FlushEachPushed(cfg, s7, SortedKeys(s7.buffer.Keys)); }
  }

  lemma SchedulePushed(cfg: Config, s: State)
    ensures Schedule(cfg, s).pushed == s.pushed
  {
    hide ScheduleUpTo;
    History.ScheduleUpToSame(cfg, s, cfg.MaxActive());
  }

  lemma {:induction false} FlushEachPushed(cfg: Config, s: State, pages: seq<nat>)
    requires cfg.Valid() && Inv(cfg, s)
    ensures FlushEach(cfg, s, pages).pushed == s.pushed && FlushOverdue(cfg, s, pages).pushed == s.pushed
    decreases |pages|
  {
    hide Inv, Flush, Config.Valid;
    if pages != [] {
      FlushInv(cfg, s, pages[0], false);
      FlushEachPushed(cfg, Flush(cfg, s, pages[0], false), pages[1..]);
      FlushEachPushed(cfg, s, pages[1..]);
    }
  }

  // ----- the drain ------------------------------------------------------------------------------------

  /** The consumer takes everything from the return queue. */
  function PopAll(s: State): State
    decreases |s.returnq|
  {
    if s.halt != Running || s.returnq == [] then s else PopAll(Pop(s))
  }

  ghost function Ticks(cfg: Config, s: State, n: nat): State
    decreases n
  {
    if n == 0 then s else Ticks(cfg, PopAll(Cycle(cfg, s)), n - 1)
  }

  lemma {:induction false} PopAllKeeps(cfg: Config, s: State)
    requires cfg.Valid() && Inv(cfg, s) && History.HistoryOk(cfg, s)
    ensures var t := PopAll(s);
      && Inv(cfg, t) && History.HistoryOk(cfg, t) && t.halt == s.halt && (s.halt == Running ==> t.returnq == [])
          && t.pushed == s.pushed
      && Load(cfg, t) == Load(cfg, s) && Wait(cfg, t) == Wait(cfg, s)
    decreases |s.returnq|
  {
    hide Inv, History.HistoryOk, TimerSum, DeficitSum, EntryTimer, HoldTimer, Weigh;
    if s.halt == Running && s.returnq != [] {
      PopInv(cfg, s);
      History.PopHistory(cfg, s);
      PopAllKeeps(cfg, Pop(s));
    }
  }

  /** Small reads pushed stay small inside. */
  lemma PushedSmall(cfg: Config, s: State)
    requires History.Accounted(cfg, s) && EntriesOk(cfg, s.mshr) && forall r :: r in s.pushed ==> r.size <= 128
    ensures Small(s.mshr)
  {
    hide History.Accounted, EntriesOk;
    forall k | k in s.mshr && s.mshr[k].pending != [] ensures s.mshr[k].pending[0].size <= 128 {
      var r := s.mshr[k].pending[0];
      History.Conserved(cfg, s, r);
      History.PendingOnPage(cfg, s.mshr, k);
      assert cfg.PageOf(r.addr) == k;
      assert multiset(s.mshr[k].pending)[r] > 0;
      assert r in multiset(s.pushed);
    }
  }

  /** A Running state, in the middle of a drain. */
  ghost predicate Draining(cfg: Config, s: State)
    requires cfg.Valid()
  {
    Inv(cfg, s) && History.HistoryOk(cfg, s) && s.halt == Running && s.returnq == [] && forall r :: r in s.pushed ==> r.size <= 128
  }

  lemma DrainTick(cfg: Config, s: State)
    requires Drainable(cfg) && Draining(cfg, s) && HasWork(s)
    ensures var t := PopAll(Cycle(cfg, s));
      OutOfRoom(cfg, t) ||
      (Draining(cfg, t) && (Load(cfg, t) < Load(cfg, s) || (Load(cfg, t) == Load(cfg, s) && Wait(cfg, t) < Wait(cfg, s))))
  {
    hide HaltOk, History.Accounted, Cycle, Load, Wait, Config.Valid, EntriesOk, QueueOk, ActiveOk, BufferOk, CreditOk,
        WritesOk, FtlOk, PinsOk, Small, OutOfRoom;
    DrainableValid(cfg);
    History.WorkIsInside(cfg, s);
    PushedSmall(cfg, s);
    CycleFalls(cfg, s);
    CycleHalts(cfg, s);
    CycleInv(cfg, s);
    History.CycleHistory(cfg, s);
    PopAllKeeps(cfg, Cycle(cfg, s));
    OutIsHalted(cfg, Cycle(cfg, s));
  }

  lemma OutIsHalted(cfg: Config, s: State)
    requires cfg.pagesPerBlock > 0
    ensures OutOfRoom(cfg, s) ==> s.halt != Running && PopAll(s) == s
  {
    hide StuckBuffered, BeyondBuffered;
  }

  lemma WaitNonnegative(cfg: Config, s: State)
    requires cfg.bandwidth > 0.0
    ensures Wait(cfg, s) >= 0
  {
    hide TimerSum, EntryTimer, HoldTimer;
    DeficitsNonnegative(cfg, s.channels);
  }

  lemma {:induction false} DeficitsNonnegative(cfg: Config, channels: seq<Channel>)
    requires cfg.bandwidth > 0.0
    ensures DeficitSum(cfg, channels) >= 0
  {
    if channels != [] {
      Positive(128.0 - channels[0].credit, cfg.bandwidth);
      DeficitsNonnegative(cfg, channels[1..]);
    }
  }

  /** Bounded drain: some number of ticks empties the device, unless its capacity runs out first. */
  lemma {:induction false} Drains(cfg: Config, s: State) returns (n: nat)
    requires Drainable(cfg) && Draining(cfg, s)
    ensures var t := Ticks(cfg, s, n); (t.halt == Running && !HasWork(t)) || OutOfRoom(cfg, t)
    decreases Load(cfg, s), Wait(cfg, s)
  {
    hide Inv, History.HistoryOk, Cycle, Load, Wait, OutOfRoom, HasWork, PopAll, Draining;
    DrainableValid(cfg);
    DrainingRuns(cfg, s);
    if !HasWork(s) {
      n := 0;
    } else {
      DrainTick(cfg, s);
      WaitNonnegative(cfg, s);
      var t := PopAll(Cycle(cfg, s));
      if OutOfRoom(cfg, t) {
        n := 1;
        assert Ticks(cfg, t, 0) == t;
      } else {
        var m := Drains(cfg, t);
        n := m + 1;
      }
    }
  }

  lemma DrainingRuns(cfg: Config, s: State)
    requires cfg.Valid() && Draining(cfg, s)
    ensures s.halt == Running
  {
    hide Inv, History.HistoryOk;
  }

  /** Any point of a run whose requests are at most 128 bytes can start a drain. */
  lemma RunDraining(cfg: Config, calls: seq<Call>)
    requires cfg.Valid()
    requires var s := Run(cfg, Init(cfg), calls); s.halt == Running && forall r :: r in s.pushed ==> r.size <= 128
    ensures Draining(cfg, PopAll(Run(cfg, Init(cfg), calls)))
  {
    hide Inv, History.HistoryOk, Run, PopAll, Load, Wait;
    DrainableBandwidth(cfg);
    ReachableInv(cfg, calls);
    History.ReachableHistory(cfg, calls);
    PopAllKeeps(cfg, Run(cfg, Init(cfg), calls));
  }

  lemma DrainableBandwidth(cfg: Config)
    requires cfg.Valid()
    ensures cfg.bandwidth > 0.0 && cfg.pageSize > 0
  {
  }

  /** From any point of any run whose requests are at most 128 bytes, the device empties, or a page it still
      buffers cannot be placed. */
  lemma RunSettles(cfg: Config, calls: seq<Call>) returns (n: nat)
    requires Drainable(cfg)
    requires var s := Run(cfg, Init(cfg), calls); s.halt == Running && forall r :: r in s.pushed ==> r.size <= 128
    ensures var t := Ticks(cfg, PopAll(Run(cfg, Init(cfg), calls)), n); (t.halt == Running && !HasWork(t)) || OutOfRoom(cfg, t)
  {
    hide Draining, Run, PopAll, OutOfRoom, HasWork, Ticks;
    DrainableValid(cfg);
    RunDraining(cfg, calls);
    n := Drains(cfg, PopAll(Run(cfg, Init(cfg), calls)));
  }
}
