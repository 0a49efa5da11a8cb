/** The FTL over media contents refines a plain logical-page store whose writes may fail. */
module FtlStore {
  import opened Basics
  import opened Geometry
  import opened Ftl
  import opened FtlInvariant
  import opened FtlDanger
  import FtlCollect
  import FtlExact

  type Contents = map<Phys, int>
  type Store = map<nat, int>

  // ----- media --------------------------------------------------------------------------------------

  function Wiped(media: Contents, b: Block): Contents { map p | p in media && BlockOf(p) != b :: media[p] }

  function Perform(media: Contents, act: MediaAct): Contents {
    match act
    case Copy(from, to) => if from in media then media[to := media[from]] else media - {to}
    case EraseAll(b) => Wiped(media, b)
  }

  function Replay(media: Contents, acts: seq<MediaAct>): Contents
    decreases |acts|
  {
    if acts == [] then media else Replay(Perform(media, acts[0]), acts[1..])
  }

  /** The copies and erases an operation performed by itself. */
  predicate Extends(acts: seq<MediaAct>, acts': seq<MediaAct>) { |acts| <= |acts'| && acts'[..|acts|] == acts }

  function After(media: Contents, f: State, g: State): Contents
    requires Extends(f.acts, g.acts)
  {
    Replay(media, g.acts[|f.acts|..])
  }

  lemma {:induction false} ReplayAppend(media: Contents, a: seq<MediaAct>, b: seq<MediaAct>)
    ensures Replay(media, a + b) == Replay(Replay(media, a), b)
    decreases |a|
  {
    if a == [] {
      assert a + b == b;
    } else {
      assert (a + b)[1..] == a[1..] + b;
      ReplayAppend(Perform(media, a[0]), a[1..], b);
    }
  }

  lemma AfterTrans(media: Contents, f: State, g: State, h: State)
    requires Extends(f.acts, g.acts) && Extends(g.acts, h.acts)
    ensures Extends(f.acts, h.acts) && After(media, f, h) == After(After(media, f, g), g, h)
  {
    ReplayAppend(media, g.acts[|f.acts|..], h.acts[|g.acts|..]);
    assert h.acts[..|f.acts|] == h.acts[..|g.acts|][..|f.acts|];
    assert h.acts[|f.acts|..] == g.acts[|f.acts|..] + h.acts[|g.acts|..] by {
      assert h.acts == h.acts[..|g.acts|] + h.acts[|g.acts|..];
    }
  }

  lemma AfterSame(media: Contents, f: State, g: State)
    requires g.acts == f.acts
    ensures Extends(f.acts, g.acts) && After(media, f, g) == media
  {
    assert g.acts[|f.acts|..] == [];
  }

  lemma AfterOne(media: Contents, f: State, g: State, act: MediaAct)
    requires g.acts == f.acts + [act]
    ensures Extends(f.acts, g.acts) && After(media, f, g) == Perform(media, act)
  {
    assert g.acts[|f.acts|..] == [act];
    assert Replay(media, [act]) == Replay(Perform(media, act), []);
  }

  // ----- refinement relation ------------------------------------------------------------------------

  /** Every mapped page holds what was last written to it, and nothing else is mapped. */
  predicate Stores(m: Mapping, media: Contents, store: Store) {
    m.Keys == store.Keys && forall lp :: lp in m ==> m[lp] in media && media[m[lp]] == store[lp]
  }

  lemma CopyStores(m: Mapping, media: Contents, store: Store, lp: nat, to: Phys)
    requires Stores(m, media, store) && lp in m && Unmapped(m, to)
    ensures Stores(m[lp := to], Perform(media, Copy(m[lp], to)), store)
  {
  }

  lemma WipeStores(m: Mapping, media: Contents, store: Store, b: Block)
    requires Stores(m, media, store) && Live(m, b) == {}
    ensures Stores(m, Wiped(media, b), store)
  {
    forall lp | lp in m ensures BlockOf(m[lp]) != b { assert lp in Live(m, BlockOf(m[lp])); }
  }

  /** The store relation carried along an FTL transition together with what it did to the media. */
  ghost predicate Carries(f: State, g: State, media: Contents, store: Store) {
    Extends(f.acts, g.acts) && Stores(g.mapping, After(media, f, g), store)
  }

  lemma CarriesTrans(f: State, g: State, h: State, media: Contents, store: Store)
    requires Extends(f.acts, g.acts) && Carries(g, h, After(media, f, g), store)
    ensures Carries(f, h, media, store)
  {
    AfterTrans(media, f, g, h);
    hide Stores, After, Extends;
  }

  lemma CarriesSame(f: State, g: State, media: Contents, store: Store)
    requires Stores(f.mapping, media, store) && g.mapping == f.mapping && g.acts == f.acts
    ensures Carries(f, g, media, store)
  {
    AfterSame(media, f, g);
  }

  // ----- garbage collection --------------------------------------------------------------------------

  lemma {:induction false} RelocateCarries(cfg: Config, f: State, victim: Block, pages: seq<nat>, media: Contents, store: Store)
    requires cfg.pagesPerBlock > 0 && IdleVictim(cfg, f, victim) && Stores(f.mapping, media, store)
    ensures Carries(f, Relocate(cfg, f, victim, pages).0, media, store)
    decreases |pages|
  {
    hide IdleVictim, GcAllocate, Stores, Carries, After, Extends, Moved;
    if pages == [] {
      CarriesSame(f, f, media, store);
    } else {
      var lp := pages[0];
      if lp !in f.mapping || BlockOf(f.mapping[lp]) != victim {
        RelocateCarries(cfg, f, victim, pages[1..], media, store);
      } else {
        RelocateStep(cfg, f, victim, lp);
        MovedCarries(cfg, f, victim, lp, media, store);
        var (g, to) := GcAllocate(cfg, f, lp);
        if to.Some? {
          var h := Moved(g, lp, f.mapping[lp], to.value);
          RelocateCarries(cfg, h, victim, pages[1..], After(media, f, h), store);
          CarriesTrans(f, h, Relocate(cfg, h, victim, pages[1..]).0, media, store);
        } else {
          CarriesSame(f, g.(capacityError := true), media, store);
        }
      }
    }
  }

  lemma MovedCarries(cfg: Config, f: State, victim: Block, lp: nat, media: Contents, store: Store)
    requires cfg.pagesPerBlock > 0 && IdleVictim(cfg, f, victim) && Stores(f.mapping, media, store) && lp in f.mapping
    ensures var (g, to) := GcAllocate(cfg, f, lp);
      && g.acts == f.acts
      && (to.Some? ==> var h := Moved(g, lp, f.mapping[lp], to.value); Extends(f.acts, h.acts) && Stores(h.mapping, After(media, f, h), store))
  {
    hide IdleVictim, GcAllocate, Stores, After, Extends, Wf, WfSpare, InUse, Unmapped, Preferred, Perform;
    GcAllocateWf(cfg, f, lp, victim);
    var (g, to) := GcAllocate(cfg, f, lp);
    if to.Some? {
      var h := Moved(g, lp, f.mapping[lp], to.value);
      CopyStores(f.mapping, media, store, lp, to.value);
      AfterOne(media, f, h, Copy(f.mapping[lp], to.value));
    }
  }

  lemma ReclaimCarries(f: State, victim: Block, media: Contents, store: Store)
    requires victim in f.blocks && Stores(f.mapping, media, store) && Live(f.mapping, victim) == {}
    ensures Carries(f, Reclaim(f, victim), media, store)
  {
    hide Stores, After, Extends, Live, Deactivate;
    WipeStores(f.mapping, media, store, victim);
    AfterOne(media, f, Reclaim(f, victim), EraseAll(victim));
  }

  /** Garbage collection, finished or abandoned, moves data without changing what any page reads. */
  lemma GcCarries(cfg: Config, f: State, media: Contents, store: Store)
    requires cfg.pagesPerBlock > 0 && Wf(cfg, f) && Stores(f.mapping, media, store)
    ensures Carries(f, Gc(cfg, f), media, store)
  {
    hide Stores, Carries, After, Extends, Listed, SamePages, NeedsGc, AverageErases, WfSpare, IsVictim;
    CarriesSame(f, f, media, store);
    if NeedsGc(cfg, f) {
      var average := AverageErases(cfg, f);
      RetireWf(cfg, f);
      var g := Retire(f);
      CarriesSame(f, g, media, store);
      AfterSame(media, f, g);
      if Eligible(cfg, g, average) != {} {
        var victim := Victim(cfg, g, average);
        VictimIsIdle(cfg, g, average);
        var pages := if victim in g.reverse then SortedKeys(g.reverse[victim]) else [];
        VictimPages(cfg, g, victim);
        RelocateWf(cfg, g, victim, pages);
        RelocateCarries(cfg, g, victim, pages, media, store);
        var (h, done) := Relocate(cfg, g, victim, pages);
        CarriesTrans(f, g, h, media, store);
        if done && victim in h.blocks {
          CarriesStores(f, h, media, store);
          ReclaimCarries(h, victim, After(media, f, h), store);
          CarriesTrans(f, h, Reclaim(h, victim), media, store);
        }
      }
    }
  }

  lemma CarriesStores(f: State, g: State, media: Contents, store: Store)
    requires Carries(f, g, media, store)
    ensures Extends(f.acts, g.acts) && Stores(g.mapping, After(media, f, g), store)
  {
  }

  lemma VictimPages(cfg: Config, f: State, victim: Block)
    requires Wf(cfg, f)
    ensures Listed(f.mapping, victim, if victim in f.reverse then SortedKeys(f.reverse[victim]) else [])
  {
    hide BlocksWf, PoolsWf, MapWf, CountWf, Listed, SortedKeys;
    VictimListed(f.mapping, f.reverse, victim);
  }

  lemma VictimIsIdle(cfg: Config, f: State, average: real)
    requires Wf(cfg, f) && Eligible(cfg, f, average) != {}
    ensures IdleVictim(cfg, f, Victim(cfg, f, average))
  {
    hide Wf, Cost, CostLimit, NotWorse;
  }

  // ----- the device ----------------------------------------------------------------------------------

  datatype Device = Device(ftl: State, media: Contents)

  datatype Op = Put(page: nat, data: int) | Drop(page: nat) | Get(page: nat)

  datatype Answer = Done | Failed | Found(data: Option<int>)

  /** What the device holds for a page. */
  function Read(d: Device, lp: nat): Option<int> {
    if lp in d.ftl.mapping && d.ftl.mapping[lp] in d.media then Some(d.media[d.ftl.mapping[lp]]) else None
  }

  /** A write as the controller carries it out: translate, erase the block first unless it is erased,
      then program. */
  ghost function Write(cfg: Config, d: Device, lp: nat, data: int): (Device, Answer)
    requires cfg.pagesPerBlock > 0 && Wf(cfg, d.ftl)
  {
    TranslateWriteExtends(cfg, d.ftl, lp);
    var (g, p) := TranslateWrite(cfg, d.ftl, lp);
    var media := After(d.media, d.ftl, g);
    if p.None? then (Device(g, media), Failed)
    else
      var b := BlockOf(p.value);
      if IsErased(g, b) then (Device(g, media[p.value := data]), Done)
      else (Device(MarkErased(MarkErasing(g, b), b), Wiped(media, b)[p.value := data]), Done)
  }

  ghost function Step(cfg: Config, d: Device, op: Op): (Device, Answer)
    requires cfg.pagesPerBlock > 0 && Wf(cfg, d.ftl)
  {
    match op
    case Put(lp, data) => Write(cfg, d, lp, data)
    case Drop(lp) => (Device(Invalidate(cfg, d.ftl, lp), d.media), Done)
    case Get(lp) => (d, Found(Read(d, lp)))
  }

  lemma EnsureActiveCarries(cfg: Config, f: State, sa: int, media: Contents, store: Store)
    requires cfg.pagesPerBlock > 0 && Wf(cfg, f) && Stores(f.mapping, media, store)
    ensures Carries(f, EnsureActive(cfg, f, sa).0, media, store)
  {
    hide Wf, Stores, Carries, After, Extends, NeedsGc, IsPick, AtCapacity, Gc;
    if sa in f.active {
      CarriesSame(f, f, media, store);
    } else {
      GcCarries(cfg, f, media, store);
      CarriesStores(f, Gc(cfg, f), media, store);
      AllocateKeeps(cfg, f, sa);
      var g := EnsureActive(cfg, f, sa).0;
      if Candidates(f, sa) != {} {
        CarriesSame(f, g, media, store);
      } else {
        CarriesSame(Gc(cfg, f), g, After(media, f, Gc(cfg, f)), store);
        CarriesTrans(f, Gc(cfg, f), g, media, store);
      }
    }
  }

  /** Outside garbage collection, opening a block copies nothing and remaps nothing. */
  lemma AllocateKeeps(cfg: Config, f: State, sa: int)
    requires sa !in f.active
    ensures var g := EnsureActive(cfg, f, sa).0; var base := if Candidates(f, sa) != {} then f else Gc(cfg, f);
      g.mapping == base.mapping && g.acts == base.acts
  {
    hide Gc, NeedsGc, IsPick, Candidates, TakeFree, NewBlock;
    var g := Gc(cfg, f);
    FtlCollect.NewBlockFrame(cfg, g, sa);
    if Candidates(f, sa) != {} {
      PickedTables(cfg, f, sa);
      FtlCollect.TakeFreeFrame(f, PickFree(cfg.wearLeveling, f, sa));
    }
    if Candidates(g, sa) != {} {
      PickedTables(cfg, g, sa);
      FtlCollect.TakeFreeFrame(g, PickFree(cfg.wearLeveling, g, sa));
    }
  }

  lemma TranslateWriteExtends(cfg: Config, f: State, lp: nat)
    requires cfg.pagesPerBlock > 0 && Wf(cfg, f)
    ensures Extends(f.acts, TranslateWrite(cfg, f, lp).0.acts)
  {
    var media: Contents := map lp | lp in f.mapping :: f.mapping[lp] := 0;
    var store: Store := map lp | lp in f.mapping :: 0;
    assert Stores(f.mapping, media, store);
    TranslateWriteCarries(cfg, f, lp, media, store);
  }

  /** After translation all other pages still read their data; the written page, if it could not be
      placed, still reads its old data. */
  lemma TranslateWriteCarries(cfg: Config, f: State, lp: nat, media: Contents, store: Store)
    requires cfg.pagesPerBlock > 0 && Wf(cfg, f) && Stores(f.mapping, media, store)
    ensures var (g, p) := TranslateWrite(cfg, f, lp);
      && Extends(f.acts, g.acts)
      && (p.None? ==> Stores(g.mapping, After(media, f, g), store))
      && (p.Some? ==> exists m :: Stores(m, After(media, f, g), store) && Unmapped(m, p.value) && g.mapping == m[lp := p.value])
  {
    hide Wf, Stores, Carries, After, Extends, Preferred, EnsureActive, WriteInto, SamePages, Unmapped;
    if Preferred(cfg, lp).Some? {
      var sa := Preferred(cfg, lp).value;
      EnsureActiveWf(cfg, f, sa);
      EnsureActiveCarries(cfg, f, sa, media, store);
      var (g, b) := EnsureActive(cfg, f, sa);
      CarriesStores(f, g, media, store);
      if b.Some? {
        WriteIntoWf(cfg, g, b.value, lp);
        FtlCollect.WriteIntoActs(cfg, g, b.value, lp);
        var (h, p) := WriteInto(cfg, g, b.value, lp);
        AfterSame(After(media, f, g), g, h);
        AfterTrans(media, f, g, h);
        assert Stores(g.mapping, After(media, f, h), store) && Unmapped(g.mapping, p.value)
            && h.mapping == g.mapping[lp := p.value];
      }
    } else {
      CarriesSame(f, TranslateWrite(cfg, f, lp).0, media, store);
      CarriesStores(f, TranslateWrite(cfg, f, lp).0, media, store);
    }
  }

  lemma ProgramStores(m: Mapping, media: Contents, store: Store, lp: nat, p: Phys, data: int)
    requires Stores(m, media, store) && Unmapped(m, p)
    ensures Stores(m[lp := p], media[p := data], store[lp := data])
  {
  }

  /** With an ERASE before the PROGRAM, the data survives exactly when no other live page shares the
      block. */
  lemma EraseProgramStores(m: Mapping, media: Contents, store: Store, lp: nat, p: Phys, data: int)
    requires Stores(m, media, store) && Unmapped(m, p)
    ensures Stores(m[lp := p], Wiped(media, BlockOf(p))[p := data], store[lp := data])
      <==> Alone(m[lp := p], lp, BlockOf(p))
  {
    var m', media' := m[lp := p], Wiped(media, BlockOf(p))[p := data];
    if !Alone(m', lp, BlockOf(p)) {
      var q :| q in m' && q != lp && BlockOf(m'[q]) == BlockOf(p);
      assert m'[q] != p;
      assert m'[q] !in media';
    }
  }

  lemma MarkedBoth(cfg: Config, g: State, b: Block)
    requires Wf(cfg, g) && b in g.blocks
    ensures Wf(cfg, MarkErased(MarkErasing(g, b), b)) && MarkErased(MarkErasing(g, b), b).mapping == g.mapping
    ensures HbfMode(cfg) && FtlExact.Exact(g) && b !in g.pool ==> FtlExact.Exact(MarkErased(MarkErasing(g, b), b))
  {
    hide Wf, FtlExact.Exact;
    var info := g.blocks[b].(erased := true, erases := g.blocks[b].erases + 1);
    MarkedTwice(g, b);
    MarkedWf(cfg, g, b, info);
    if HbfMode(cfg) && FtlExact.Exact(g) && b !in g.pool { FtlExact.MarkedExact(g, b, info); }
  }

  lemma MarkedTwice(g: State, b: Block)
    requires b in g.blocks
    ensures MarkErased(MarkErasing(g, b),
        b) == g.(blocks := g.blocks[b := g.blocks[b].(erased := true, erases := g.blocks[b].erases + 1)])
  {
    var info := g.blocks[b].(erased := true, erases := g.blocks[b].erases + 1);
    assert g.blocks[b := g.blocks[b].(erased := false)][b := info] == g.blocks[b := info];
  }

  lemma WrittenBlockInUse(cfg: Config, f: State, lp: nat)
    requires cfg.pagesPerBlock > 0 && Wf(cfg, f) && TranslateWrite(cfg, f, lp).1.Some?
    ensures var (g, p) := TranslateWrite(cfg, f, lp); Wf(cfg, g) && BlockOf(p.value) in g.blocks && BlockOf(p.value) !in g.pool
  {
    hide BlocksWf, PoolsWf, Covers, CountWf, TranslateWrite, Preferred, Injective, Local;
    TranslateWriteWf(cfg, f, lp);
    var (g, p) := TranslateWrite(cfg, f, lp);
    assert g.mapping[lp] == p.value;
    assert InUse(g.blocks, g.pool, g.mapping[lp]);
  }

  /** A failed write leaves every page's data in place; a completed one updates exactly its page,
      unless and only unless it was endangered; then another page's data is gone. */
  lemma WriteRefines(cfg: Config, d: Device, lp: nat, data: int, store: Store)
    requires cfg.pagesPerBlock > 0 && Wf(cfg, d.ftl) && Stores(d.ftl.mapping, d.media, store)
    ensures var (e, answer) := Write(cfg, d, lp, data);
      && Wf(cfg, e.ftl)
      && (answer == Failed ==> Stores(e.ftl.mapping, e.media, store))
      && (answer == Done ==> (Stores(e.ftl.mapping, e.media, store[lp := data]) <==> !Endangered(cfg, d.ftl, lp)))
      && (answer == Done || answer == Failed) && (Endangered(cfg, d.ftl, lp) ==> answer == Done)
  {
    hide Wf, Stores, After, Extends, TranslateWrite, MarkErased, MarkErasing, Wiped, Unmapped, Endangered;
    EndangeredExactly(cfg, d.ftl, lp);
    TranslateWriteCarries(cfg, d.ftl, lp, d.media, store);
    var (g, p) := TranslateWrite(cfg, d.ftl, lp);
    WriteKeepsWf(cfg, d.ftl, lp);
    if p.Some? {
      var media := After(d.media, d.ftl, g);
      var m :| Stores(m, media, store) && Unmapped(m, p.value) && g.mapping == m[lp := p.value];
      var b := BlockOf(p.value);
      WrittenBlockInUse(cfg, d.ftl, lp);
      MarkedBoth(cfg, g, b);
      ProgramStores(m, media, store, lp, p.value, data);
      EraseProgramStores(m, media, store, lp, p.value, data);
    }
  }

  lemma WriteKeepsWf(cfg: Config, f: State, lp: nat)
    requires cfg.pagesPerBlock > 0 && Wf(cfg, f)
    ensures Wf(cfg, TranslateWrite(cfg, f, lp).0)
  {
    hide Wf, TranslateWrite, SamePages, WroteOnly, Preferred;
    TranslateWriteWf(cfg, f, lp);
  }

  // ----- runs ----------------------------------------------------------------------------------------

  ghost function Answers(cfg: Config, d: Device, ops: seq<Op>): (r: seq<Answer>)
    requires cfg.pagesPerBlock > 0 && Wf(cfg, d.ftl)
    ensures |r| == |ops|
    decreases |ops|
  {
    if ops == [] then []
    else
      StepWf(cfg, d, ops[0]);
      var (e, answer) := Step(cfg, d, ops[0]);
      [answer] + Answers(cfg, e, ops[1..])
  }

  lemma StepWf(cfg: Config, d: Device, op: Op)
    requires cfg.pagesPerBlock > 0 && Wf(cfg, d.ftl)
    ensures Wf(cfg, Step(cfg, d, op).0.ftl)
  {
    match op
    case Put(lp, data) =>
      WriteKeepsWf(cfg, d.ftl, lp);
      var (g, p) := TranslateWrite(cfg, d.ftl, lp);
      if p.Some? { WrittenBlockInUse(cfg, d.ftl, lp); MarkedBoth(cfg, g, BlockOf(p.value)); }
      hide Wf, TranslateWrite, After, MarkErased, MarkErasing, Wiped, Extends;
    case Drop(lp) =>
      DropWf(cfg, d.ftl, lp);
      hide Wf, Invalidate;
    case Get(lp) =>
      hide Wf;
  }

  lemma DropWf(cfg: Config, f: State, lp: nat)
    requires Wf(cfg, f)
    ensures Wf(cfg, Invalidate(cfg, f, lp)) && Invalidate(cfg, f, lp).mapping == f.mapping - {lp}
  {
    hide WfSpare;
    if lp in f.mapping { InvalidateWf(cfg, f, lp, None); }
  }

  /** The answers a plain logical store gives when its writes may fail. */
  predicate Explains(store: Store, ops: seq<Op>, answers: seq<Answer>)
    decreases |ops|
  {
    |ops| == |answers| &&
    (ops == [] ||
     match ops[0]
     case Put(lp, data) =>
       (answers[0] == Done || answers[0] == Failed)
           && Explains(if answers[0] == Done then store[lp := data] else store, ops[1..], answers[1..])
     case Drop(lp) => answers[0] == Done && Explains(store - {lp}, ops[1..], answers[1..])
     case Get(lp) => answers[0] == Found(if lp in store then Some(store[lp]) else None) && Explains(store, ops[1..], answers[1..]))
  }

  /** No write of the run is endangered in the state it meets. */
  ghost predicate NeverEndangered(cfg: Config, d: Device, ops: seq<Op>)
    requires cfg.pagesPerBlock > 0 && Wf(cfg, d.ftl)
    decreases |ops|
  {
    ops == [] ||
    (StepWf(cfg, d, ops[0]);
     (ops[0].Put? ==> !Endangered(cfg, d.ftl, ops[0].page)) && NeverEndangered(cfg, Step(cfg, d, ops[0]).0, ops[1..]))
  }

  /** The store relation after one operation, for the store that operation leads to. */
  lemma StepRefines(cfg: Config, d: Device, op: Op, store: Store)
    requires cfg.pagesPerBlock > 0 && Wf(cfg, d.ftl) && Stores(d.ftl.mapping, d.media, store)
    requires op.Put? ==> !Endangered(cfg, d.ftl, op.page)
    ensures var (e, answer) := Step(cfg, d, op);
      match op
      case Put(lp, data) => (answer == Done || answer == Failed)
          && Stores(e.ftl.mapping, e.media, if answer == Done then store[lp := data] else store)
      case Drop(lp) => answer == Done && Stores(e.ftl.mapping, e.media, store - {lp})
      case Get(lp) => answer == Found(if lp in store then Some(store[lp]) else None) && Stores(e.ftl.mapping, e.media, store)
  {
    hide Wf, Endangered, Write, Invalidate;
    match op
    case Put(lp, data) => WriteRefines(cfg, d, lp, data, store);
    case Drop(lp) => DropWf(cfg, d.ftl, lp);
    case Get(lp) =>
  }

  /** In both media modes, if no write is endangered, the device answers like a plain logical store. */
  lemma {:induction false} RunRefines(cfg: Config, d: Device, ops: seq<Op>, store: Store)
    requires cfg.pagesPerBlock > 0 && Wf(cfg, d.ftl) && Stores(d.ftl.mapping, d.media, store) && NeverEndangered(cfg, d, ops)
    ensures Explains(store, ops, Answers(cfg, d, ops))
    decreases |ops|
  {
    hide Wf, Stores, Step, Endangered;
    if ops != [] {
      StepWf(cfg, d, ops[0]);
      StepRefines(cfg, d, ops[0], store);
      var (e, answer) := Step(cfg, d, ops[0]);
      RunRefines(cfg, e, ops[1..], Updated(store, ops[0], answer));
    }
  }

  /** Every page reads what the store holds. */
  ghost predicate ReadsAs(d: Device, store: Store) {
    forall q: nat :: Read(d, q) == if q in store then Some(store[q]) else None
  }

  function Updated(store: Store, op: Op, answer: Answer): Store {
    match op
    case Put(lp, data) => if answer == Done then store[lp := data] else store
    case Drop(lp) => store - {lp}
    case Get(lp) => store
  }

  /** Every page reads what was last acknowledged for it, now and after every operation. */
  ghost predicate ReadsThroughout(cfg: Config, d: Device, ops: seq<Op>, store: Store)
    requires cfg.pagesPerBlock > 0 && Wf(cfg, d.ftl)
    decreases |ops|
  {
    ReadsAs(d, store) &&
    (ops == [] ||
     (StepWf(cfg, d, ops[0]);
      var (e, answer) := Step(cfg, d, ops[0]);
      ReadsThroughout(cfg, e, ops[1..], Updated(store, ops[0], answer))))
  }

  lemma StoresReads(d: Device, store: Store)
    requires Stores(d.ftl.mapping, d.media, store)
    ensures ReadsAs(d, store)
  {
  }

  /** A write that destroys another page is seen by reading that page. */
  lemma EndangeredReads(cfg: Config, d: Device, lp: nat, data: int, store: Store)
    requires cfg.pagesPerBlock > 0 && Wf(cfg, d.ftl) && Stores(d.ftl.mapping, d.media, store) && Endangered(cfg, d.ftl, lp)
    ensures var (e, answer) := Write(cfg, d, lp, data); answer == Done && !ReadsAs(e, store[lp := data])
  {
    hide Wf, Stores, After, Extends, TranslateWrite, MarkErased, MarkErasing, Unmapped, Endangered, Wiped;
    EndangeredExactly(cfg, d.ftl, lp);
    TranslateWriteCarries(cfg, d.ftl, lp, d.media, store);
    var (g, p) := TranslateWrite(cfg, d.ftl, lp);
    var media := After(d.media, d.ftl, g);
    var m :| Stores(m, media, store) && Unmapped(m, p.value) && g.mapping == m[lp := p.value];
    var q :| q in g.mapping && q != lp && BlockOf(g.mapping[q]) == BlockOf(p.value);
    WipedAway(m, media, store, lp, p.value, data, q);
    MarksKeepMapping(g, BlockOf(p.value));
    assert Read(Write(cfg, d, lp, data).0, q) == None && q in store[lp := data];
  }

  lemma MarksKeepMapping(g: State, b: Block)
    ensures MarkErased(MarkErasing(g, b), b).mapping == g.mapping
  {
    hide MarkErasing, MarkErased;
    MarkKeepsMapping(g, b);
    MarkKeepsMapping(MarkErasing(g, b), b);
  }

  lemma MarkKeepsMapping(f: State, b: Block)
    ensures MarkErasing(f, b).mapping == f.mapping && MarkErased(f, b).mapping == f.mapping
  {
  }

  lemma WipedAway(m: Mapping, media: Contents, store: Store, lp: nat, p: Phys, data: int, q: nat)
    requires Stores(m, media, store) && Unmapped(m, p) && q in m && q != lp && BlockOf(m[q]) == BlockOf(p)
    ensures m[q] !in Wiped(media, BlockOf(p))[p := data] && q in store
  {
  }

  /** In both media modes, every page keeps reading what was acknowledged for it, throughout a run, if
      and only if no write of the run is endangered in the state it meets. */
  lemma {:induction false} RunExactly(cfg: Config, d: Device, ops: seq<Op>, store: Store)
    requires cfg.pagesPerBlock > 0 && Wf(cfg, d.ftl) && Stores(d.ftl.mapping, d.media, store)
    ensures ReadsThroughout(cfg, d, ops, store) <==> NeverEndangered(cfg, d, ops)
    decreases |ops|
  {
    hide Wf, Stores, Write, Endangered, Invalidate, ReadsAs;
    StoresReads(d, store);
    if ops != [] {
      StepWf(cfg, d, ops[0]);
      var (e, answer) := Step(cfg, d, ops[0]);
      if ops[0].Put? && Endangered(cfg, d.ftl, ops[0].page) {
        EndangeredReads(cfg, d, ops[0].page, ops[0].data, store);
      } else {
        StepRefines(cfg, d, ops[0], store);
        RunExactly(cfg, e, ops[1..], Updated(store, ops[0], answer));
      }
    }
  }

  // ----- HBF mode endangers no page ----------------------------------------------------------------

  /** Every live page lies in an erased block: its own write erased it if needed. */
  predicate Clean(m: Mapping, blocks: Blocks) { forall lp :: lp in m ==> BlockOf(m[lp]) in blocks && blocks[BlockOf(m[lp])].erased }

  ghost predicate HbfOk(cfg: Config, f: State) { Wf(cfg, f) && FtlExact.Exact(f) && Clean(f.mapping, f.blocks) }

  lemma CleanAfterWrite(f: State, g: State, lp: nat, p: Phys)
    requires Clean(f.mapping, f.blocks) && FtlExact.WriteEffect(f, g, p) && g.mapping == f.mapping[lp := p]
    requires forall q :: q in f.mapping ==> InUse(f.blocks, f.pool, f.mapping[q])
    requires forall q :: q in g.mapping ==> InUse(g.blocks, g.pool, g.mapping[q])
    ensures forall q :: q in g.mapping && q != lp ==> BlockOf(g.mapping[q]) in g.blocks && g.blocks[BlockOf(g.mapping[q])].erased
  {
    forall q | q in g.mapping && q != lp ensures BlockOf(g.mapping[q]) in g.blocks && g.blocks[BlockOf(g.mapping[q])].erased {
      assert InUse(f.blocks, f.pool, f.mapping[q]) && InUse(g.blocks, g.pool, g.mapping[q]);
    }
  }

  lemma AllInUse(cfg: Config, f: State)
    requires Wf(cfg, f)
    ensures forall q :: q in f.mapping ==> InUse(f.blocks, f.pool, f.mapping[q])
  {
    hide BlocksWf, PoolsWf, Covers, CountWf;
  }

  lemma HbfWriteSafe(cfg: Config, d: Device, lp: nat, data: int)
    requires HbfMode(cfg) && cfg.pagesPerBlock > 0 && HbfOk(cfg, d.ftl)
    ensures !Endangered(cfg, d.ftl, lp) && HbfOk(cfg, Write(cfg, d, lp, data).0.ftl)
  {
    hide Wf, FtlExact.Exact, TranslateWrite, FtlExact.WriteEffect, Unmapped, InUse, After, Wiped, Extends, Endangered;
    EndangeredExactly(cfg, d.ftl, lp);
    WriteKeepsWf(cfg, d.ftl, lp);
    FtlExact.TranslateWriteExact(cfg, d.ftl, lp);
    FtlExact.TranslateWriteEffect(cfg, d.ftl, lp);
    var (g, p) := TranslateWrite(cfg, d.ftl, lp);
    AllInUse(cfg, d.ftl);
    AllInUse(cfg, g);
    if p.Some? {
      CleanAfterWrite(d.ftl, g, lp, p.value);
      WrittenBlockInUse(cfg, d.ftl, lp);
      MarkedBoth(cfg, g, BlockOf(p.value));
    }
  }

  lemma HbfDropSafe(cfg: Config, f: State, lp: nat)
    requires HbfMode(cfg) && HbfOk(cfg, f)
    ensures HbfOk(cfg, Invalidate(cfg, f, lp))
  {
    hide Wf, WfSpare, FtlExact.Exact, FtlExact.ExactSpare, DropReverse, Deactivate;
    DropWf(cfg, f, lp);
    if lp in f.mapping {
      DropExact(cfg, f, lp);
      AllInUse(cfg, f);
      var g := Invalidate(cfg, f, lp);
      AllInUse(cfg, g);
      forall q | q in g.mapping ensures BlockOf(g.mapping[q]) in g.blocks && g.blocks[BlockOf(g.mapping[q])].erased {
        assert InUse(g.blocks, g.pool, g.mapping[q]);
      }
    }
  }

  lemma DropExact(cfg: Config, f: State, lp: nat)
    requires HbfMode(cfg) && Wf(cfg, f) && FtlExact.Exact(f) && lp in f.mapping
    ensures FtlExact.Exact(Invalidate(cfg, f, lp))
  {
    hide WfSpare, FtlExact.ExactSpare, Invalidate;
    FtlExact.InvalidateExact(cfg, f, lp, None);
  }

  lemma {:induction false} HbfNeverEndangered(cfg: Config, d: Device, ops: seq<Op>)
    requires HbfMode(cfg) && cfg.pagesPerBlock > 0 && HbfOk(cfg, d.ftl)
    ensures NeverEndangered(cfg, d, ops)
    decreases |ops|
  {
    hide Wf, HbfOk, Endangered, Write, Invalidate;
    if ops != [] {
      HbfIsWf(cfg, d.ftl);
      match ops[0] {
        case Put(lp, data) => HbfWriteSafe(cfg, d, lp, data);
        case Drop(lp) => HbfDropSafe(cfg, d.ftl, lp);
        case Get(lp) =>
      }
      StepWf(cfg, d, ops[0]);
      HbfNeverEndangered(cfg, Step(cfg, d, ops[0]).0, ops[1..]);
    } else {
      HbfIsWf(cfg, d.ftl);
    }
  }

  lemma HbfIsWf(cfg: Config, f: State)
    requires HbfOk(cfg, f)
    ensures Wf(cfg, f)
  {
    hide Wf;
  }

  /** In HBF mode, without any condition, the device is a plain logical store whose writes may fail. */
  lemma HbfDeviceIsStore(cfg: Config, ops: seq<Op>)
    requires HbfMode(cfg) && cfg.pagesPerBlock > 0
    ensures Wf(cfg, Empty) && Explains(map[], ops, Answers(cfg, Device(Empty, map[]), ops))
  {
    EmptyWf(cfg);
    FtlExact.EmptyExact();
    hide Wf, FtlExact.Exact;
    var d := Device(Empty, map[]);
    HbfNeverEndangered(cfg, d, ops);
    RunRefines(cfg, d, ops, map[]);
  }

  ghost function Final(cfg: Config, d: Device, ops: seq<Op>): (e: Device)
    requires cfg.pagesPerBlock > 0 && Wf(cfg, d.ftl)
    ensures Wf(cfg, e.ftl)
    decreases |ops|
  {
    if ops == [] then d
    else
      StepWf(cfg, d, ops[0]);
      Final(cfg, Step(cfg, d, ops[0]).0, ops[1..])
  }

  /** After every run from the empty device, in both modes, no two pages translate to one physical page,
      whether they were written or not. */
  lemma ReachableApart(cfg: Config, ops: seq<Op>, p: nat, q: nat)
    requires cfg.Valid() && p != q
    ensures Wf(cfg, Empty)
    ensures var f := Final(cfg, Device(Empty, map[]), ops).ftl;
      var x, y := TranslateRead(cfg, f, p).1, TranslateRead(cfg, f, q).1; x.Some? && y.Some? ==> x != y
  {
    EmptyWf(cfg);
    hide Wf, TranslateRead;
    TranslateReadInjective(cfg, Final(cfg, Device(Empty, map[]), ops).ftl, p, q);
  }

  /** In HBF mode the exact bookkeeping holds after every run from the empty device. */
  lemma HbfReachesExact(cfg: Config, ops: seq<Op>)
    requires HbfMode(cfg) && cfg.pagesPerBlock > 0
    ensures Wf(cfg, Empty) && FtlExact.Exact(Final(cfg, Device(Empty, map[]), ops).ftl)
  {
    EmptyWf(cfg);
    FtlExact.EmptyExact();
    hide Wf, FtlExact.Exact;
    HbfStaysExact(cfg, Device(Empty, map[]), ops);
  }

  /** In HBF mode the exact bookkeeping holds after any operations. */
  lemma {:induction false} HbfStaysExact(cfg: Config, d: Device, ops: seq<Op>)
    requires HbfMode(cfg) && cfg.pagesPerBlock > 0 && Wf(cfg, d.ftl) && HbfOk(cfg, d.ftl)
    ensures HbfOk(cfg, Final(cfg, d, ops).ftl)
    decreases |ops|
  {
    hide Wf, HbfOk, Endangered, Write, Invalidate;
    if ops != [] {
      match ops[0] {
        case Put(lp, data) => HbfWriteSafe(cfg, d, lp, data);
        case Drop(lp) => HbfDropSafe(cfg, d.ftl, lp);
        case Get(lp) =>
      }
      StepWf(cfg, d, ops[0]);
      HbfStaysExact(cfg, Step(cfg, d, ops[0]).0, ops[1..]);
    }
  }

  // ----- configurations without danger ------------------------------------------------------------------

  /** No collection (HBF mode, or no over-provisioning to keep), or no block that two pages could share. */
  predicate Harmless(cfg: Config) { HbfMode(cfg) || cfg.overprovisioning <= 0.0 || cfg.pagesPerBlock == 1 }

  predicate AllErased(blocks: Blocks) { forall b :: b in blocks ==> blocks[b].erased }

  lemma NeverCollects(cfg: Config, f: State)
    requires cfg.overprovisioning <= 0.0
    ensures !NeedsGc(cfg, f)
  {
  }

  /** A block with room of one page holds none. */
  lemma SinglesApart(cfg: Config, f: State, lp: nat)
    requires cfg.pagesPerBlock == 1 && Wf(cfg, f)
    ensures !Endangered(cfg, f, lp)
  {
    hide Collects, HasDead, Preferred, CountWf, Covers, Injective, Local, IsErased;
    if Preferred(cfg, lp).Some? && Preferred(cfg, lp).value in f.active {
      var b := f.active[Preferred(cfg, lp).value];
      assert Installable(f.blocks, f.pool, Preferred(cfg, lp).value, b);
      assert InfoWf(cfg, f.blocks[b]);
      forall q | q in f.mapping ensures BlockOf(f.mapping[q]) != b { assert InUse(f.blocks, f.pool, f.mapping[q]); }
    }
  }

  lemma WriteIntoErased(cfg: Config, f: State, b: Block, lp: nat)
    requires !HbfMode(cfg) && AllErased(f.blocks)
    ensures AllErased(WriteInto(cfg, f, b, lp).0.blocks)
  {
    hide AddReverse, DropReverse, Deactivate;
  }

  lemma EnsureActiveErased(cfg: Config, f: State, sa: int)
    requires cfg.overprovisioning <= 0.0 && AllErased(f.blocks)
    ensures AllErased(EnsureActive(cfg, f, sa).0.blocks)
  {
    hide NeedsGc, IsPick, Gc, Candidates, TakeFree, NewBlock, AllErased;
    NeverCollects(cfg, f);
    NoGc(cfg, f);
    OpenedErased(cfg, f, sa);
  }

  lemma OpenedErased(cfg: Config, f: State, sa: int)
    requires AllErased(f.blocks)
    ensures AllErased(NewBlock(cfg, f, sa).0.blocks)
    ensures forall b :: b in Candidates(f, sa) ==> AllErased(TakeFree(f, b).blocks)
  {
    hide AtCapacity;
  }

  lemma ErasedSafe(cfg: Config, d: Device, lp: nat, data: int)
    requires !HbfMode(cfg) && cfg.pagesPerBlock > 0 && cfg.overprovisioning <= 0.0 && Wf(cfg, d.ftl) && AllErased(d.ftl.blocks)
    ensures !Endangered(cfg, d.ftl, lp) && AllErased(Write(cfg, d, lp, data).0.ftl.blocks)
  {
    hide Preferred, EnsureActive, WriteInto, Alone, LeavesOpen, HasDead, NeedsGc, BlocksWf, MapWf, CountWf, Covers,
        After, Wiped, Extends, MarkErasing, MarkErased;
    NeverCollects(cfg, d.ftl);
    if Preferred(cfg, lp).Some? {
      var sa := Preferred(cfg, lp).value;
      if sa in d.ftl.active { assert Installable(d.ftl.blocks, d.ftl.pool, sa, d.ftl.active[sa]); }
      EnsureActiveErased(cfg, d.ftl, sa);
      var (g, b) := EnsureActive(cfg, d.ftl, sa);
      if b.Some? { WriteIntoErased(cfg, g, b.value, lp); }
    }
    var (g, p) := TranslateWrite(cfg, d.ftl, lp);
    if p.Some? {
      WrittenBlockInUse(cfg, d.ftl, lp);
      MarkedTwice(g, BlockOf(p.value));
    }
  }

  lemma ErasedDrop(cfg: Config, f: State, lp: nat)
    requires !HbfMode(cfg) && AllErased(f.blocks)
    ensures AllErased(Invalidate(cfg, f, lp).blocks)
  {
    hide DropReverse, Deactivate;
  }

  lemma {:induction false} ErasedNeverEndangered(cfg: Config, d: Device, ops: seq<Op>)
    requires !HbfMode(cfg) && cfg.pagesPerBlock > 0 && cfg.overprovisioning <= 0.0 && Wf(cfg, d.ftl) && AllErased(d.ftl.blocks)
    ensures NeverEndangered(cfg, d, ops)
    decreases |ops|
  {
    hide Wf, AllErased, Endangered, Write, Invalidate, HbfMode;
    if ops != [] {
      match ops[0] {
        case Put(lp, data) => ErasedSafe(cfg, d, lp, data);
        case Drop(lp) => ErasedDrop(cfg, d.ftl, lp);
        case Get(lp) =>
      }
      StepWf(cfg, d, ops[0]);
      ErasedNeverEndangered(cfg, Step(cfg, d, ops[0]).0, ops[1..]);
    }
  }

  lemma {:induction false} SinglesNeverEndangered(cfg: Config, d: Device, ops: seq<Op>)
    requires cfg.pagesPerBlock == 1 && Wf(cfg, d.ftl)
    ensures NeverEndangered(cfg, d, ops)
    decreases |ops|
  {
    hide Wf, Endangered, Step;
    if ops != [] {
      if ops[0].Put? { SinglesApart(cfg, d.ftl, ops[0].page); }
      StepWf(cfg, d, ops[0]);
      SinglesNeverEndangered(cfg, Step(cfg, d, ops[0]).0, ops[1..]);
    }
  }

  /** With such a configuration every run, in either mode, reads and answers like a plain logical store. */
  lemma HarmlessIsStore(cfg: Config, ops: seq<Op>)
    requires Harmless(cfg) && cfg.pagesPerBlock > 0
    ensures Wf(cfg, Empty) && ReadsThroughout(cfg, Device(Empty, map[]), ops, map[])
    ensures Explains(map[], ops, Answers(cfg, Device(Empty, map[]), ops))
  {
    EmptyWf(cfg);
    FtlExact.EmptyExact();
    hide Wf, FtlExact.Exact;
    var d := Device(Empty, map[]);
    if HbfMode(cfg) {
      HbfNeverEndangered(cfg, d, ops);
    } else if cfg.pagesPerBlock == 1 {
      SinglesNeverEndangered(cfg, d, ops);
    } else {
      ErasedNeverEndangered(cfg, d, ops);
    }
    RunExactly(cfg, d, ops, map[]);
    RunRefines(cfg, d, ops, map[]);
  }
}
