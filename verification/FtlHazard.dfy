/** A run of host requests in SSD mode that loses data: garbage collection relocates a live page into a
    retired, still dirty block, and the host write that follows erases that block first. */
module FtlHazard {
  import opened Basics
  import opened Geometry
  import opened Ftl
  import opened FtlInvariant
  import opened FtlStore

  /** Two blocks of two pages on one sub-array. */
  const Small: Config := Config(
    4, 1, 2, 0, 1, 1, 1, false, 0, 0, map[], 1, 1, 1, 1, true, 2, true, 1, 0.5, false,
    1, 1, false, 0, 1, false, 0, 1, 0, 1, 1, 0, 1, 1, 1.0)

  const First: Block := Block(0, 0)
  const Second: Block := Block(0, 1)

  function At(block: nat, page: nat): Phys { Phys(0, block, page) }

  function Info(valid: nat, next: nat, erased: bool): BlockInfo
    requires next <= 2
  {
    BlockInfo(2, valid, 2 - next, next, erased, 0)
  }

  // The states after the four writes, and the ones collection passes through.

  const S1: State := State(map[0 := At(0, 0)], map[First := {0}], map[First := Info(1, 1, true)], {}, map[0 := First], 1,
      false, false, false, [])

  const S2: State := State(map[0 := At(0, 1)], map[First := {0}], map[First := Info(1, 2, true)], {}, map[], 1,
      false, false, false, [])

  const Moves3: seq<MediaAct> := [Copy(At(0, 1), At(1, 0)), EraseAll(First)]

  const G3: State := State(map[0 := At(1, 0)], map[Second := {0}],
      map[First := Info(0, 0, true), Second := Info(1, 1, true)], {First}, map[0 := Second], 2, false, false, false, Moves3)

  const S3: State := State(map[0 := At(1, 1)], map[Second := {0}],
      map[First := Info(0, 0, true), Second := Info(1, 2, true)], {}, map[], 2, false, false, false, Moves3)

  const R4: State := S3.(blocks := map[First := Info(0, 0, false), Second := Info(1, 2, true)], pool := {First})

  const Moves4: seq<MediaAct> := Moves3 + [Copy(At(1, 1), At(0, 0)), EraseAll(Second)]

  const G4: State := State(map[0 := At(0, 0)], map[First := {0}],
      map[First := Info(1, 1, false), Second := Info(0, 0, true)], {Second}, map[0 := First], 2, false, false, false, Moves4)

  const S4: State := State(map[0 := At(0, 0), 1 := At(0, 1)], map[First := {0, 1}],
      map[First := Info(2, 2, false), Second := Info(0, 0, true)], {}, map[], 2, false, false, false, Moves4)

  // ----- steps on the small device ----------------------------------------------------------------------

  lemma Placed(lp: nat)
    ensures Preferred(Small, lp) == Some(0)
  {
    assert Small.Channels() == 1 && Small.Subarrays() == 1;
  }

  lemma Opened(f: State, g: State, p: Phys, lp: nat)
    requires EnsureActive(Small, f, 0) == (g, Some(BlockOf(p))) && BlockOf(p) in g.blocks
        && g.blocks[BlockOf(p)].free > 0 && p.page == g.blocks[BlockOf(p)].next
    ensures TranslateWrite(Small, f, lp) == (Commit(Small, TakePage(g, BlockOf(p)).0, lp, p), Some(p))
  {
    Placed(lp);
    hide Preferred, EnsureActive, Commit;
  }

  lemma Committed(f: State, lp: nat, p: Phys, pages: set<nat>)
    requires lp !in f.mapping && pages == (if BlockOf(p) in f.reverse then f.reverse[BlockOf(p)] else {}) + {lp}
    ensures Commit(Small, f, lp, p) == f.(mapping := f.mapping[lp := p], reverse := f.reverse[BlockOf(p) := pages])
  {
  }

  /** Overwriting the only page of a block within the block. */
  lemma Overwritten(f: State, lp: nat, p: Phys, info: BlockInfo)
    requires f.mapping.Keys == {lp} && BlockOf(f.mapping[lp]) == BlockOf(p) && f.reverse == map[BlockOf(p) := {lp}]
    requires BlockOf(p) in f.blocks && f.blocks[BlockOf(p)].valid > 0 && info == f.blocks[BlockOf(p)].(valid := f.blocks[BlockOf(p)].valid - 1)
    ensures Commit(Small, f, lp, p) == f.(mapping := map[lp := p], blocks := f.blocks[BlockOf(p) := info])
  {
    var g := Invalidate(Small, f, lp);
    assert g.mapping == map[];
    assert {lp} - {lp} == {} && {} + {lp} == {lp};
    assert g.reverse == map[];
  }

  lemma Taken(f: State, b: Block, info: BlockInfo)
    requires b in f.blocks && f.blocks[b].free > 0
    requires var was := f.blocks[b]; info == was.(next := was.next + 1, free := was.free - 1, valid := was.valid + 1)
    ensures TakePage(f, b).0 == f.(blocks := f.blocks[b := info], active := if info.free == 0 then f.active - {b.sa}
        else f.active)
  {
  }

  lemma AlreadyActive(f: State)
    requires 0 in f.active
    ensures EnsureActive(Small, f, 0) == (f, Some(f.active[0]))
  {
  }

  lemma OneKey(k: nat)
    ensures SortedKeys({k}) == [k]
  {
    assert {k} - {k} == {};
  }

  lemma GcNeeded(f: State)
    requires f.pool == {} && First in f.blocks
    ensures NeedsGc(Small, f)
  {
    assert |f.blocks| != 0;
  }

  /** One round of garbage collection that moves page 0 out of the victim. */
  lemma GcMovesPage(f: State, g: State, victim: Block, ready: State, to: Phys)
    requires NeedsGc(Small, f) && g == Retire(f) && victim in g.blocks
    requires Eligible(Small, g, AverageErases(Small, f)) == {victim} && victim in g.reverse && g.reverse[victim] == {0}
    requires 0 in g.mapping && BlockOf(g.mapping[0]) == victim && GcBlock(Small, g, 0) == (ready, Some(BlockOf(to)))
    requires BlockOf(to) in ready.blocks && ready.blocks[BlockOf(to)].free > 0 && to.page == ready.blocks[BlockOf(to)].next
    requires ready.mapping == g.mapping && BlockOf(to) != victim && victim in ready.blocks
    ensures Gc(Small, f) == Reclaim(Moved(TakePage(ready, BlockOf(to)).0, 0, g.mapping[0], to), victim)
  {
    hide AverageErases, Retire, GcBlock, NeedsGc, Cost, CostLimit, Preferred, SortedKeys;
    var average := AverageErases(Small, f);
    assert NotWorse(Small, g, average, victim, victim);
    VictimUnique(Small, g, average, victim);
    OneKey(0);
    Placed(0);
    var h := TakePage(ready, BlockOf(to)).0;
    assert GcAllocate(Small, g, 0) == (h, Some(to));
    var m := Moved(h, 0, g.mapping[0], to);
    assert Relocate(Small, m, victim, []) == (m, true);
    assert [0][1..] == [];
    assert Relocate(Small, g, victim, [0]) == (m, true);
  }

  lemma Relocated(f: State, lp: nat, from: Phys, to: Phys, pages: set<nat>)
    requires pages == (if BlockOf(to) in f.reverse then f.reverse[BlockOf(to)] else {}) + {lp}
    ensures Moved(f, lp, from, to) == f.(mapping := f.mapping[lp := to], reverse := f.reverse[BlockOf(to) := pages],
        acts := f.acts + [Copy(from, to)])
  {
  }

  lemma PickOnly(f: State, sa: int, b: Block, wear: bool)
    requires Candidates(f, sa) == {b}
    ensures PickFree(wear, f, sa) == b
  {
    PickUnique(wear, f, sa, b);
  }

  /** Garbage collection installed a block of its own; the one just allocated is dropped. */
  lemma OpenedByGc(f: State, g: State, spare: Block, b: Block)
    requires 0 !in f.active && Candidates(f, 0) == {} && NeedsGc(Small, f) && Gc(Small, f) == g
    requires Candidates(g, 0) == {spare} && 0 in g.active && g.active[0] == b
    ensures EnsureActive(Small, f, 0) == (TakeFree(g, spare), Some(b))
  {
    hide Gc, NeedsGc, Candidates;
    PickOnly(g, 0, spare, false);
  }

  lemma TakenFree(f: State, b: Block)
    requires f.pool == {b} && b in f.blocks && f.blocks[b].free == f.blocks[b].total && f.blocks[b].next == 0
        && f.blocks[b].valid == 0
    ensures TakeFree(f, b) == f.(pool := {})
  {
    assert {b} - {b} == {};
    assert f.blocks[b := f.blocks[b]] == f.blocks;
  }

  // ----- the first two writes fill the first block ------------------------------------------------------

  lemma OpensFirst()
    ensures EnsureActive(Small, Empty,
        0) == (Empty.(blocks := map[First := Info(0, 0, true)], active := map[0 := First], nextId := 1), Some(First))
  {
    hide PickFree, Gc, AtCapacity;
    assert Candidates(Empty, 0) == {};
    NothingToCollect();
    assert FreshInfo(Small) == Info(0, 0, true);
  }

  lemma NothingToCollect()
    ensures !NeedsGc(Small, Empty) && Gc(Small, Empty) == Empty && !AtCapacity(Small, Empty)
  {
    hide Retire, Relocate, Eligible;
  }

  lemma FirstWrite()
    ensures TranslateWrite(Small, Empty, 0) == (S1, Some(At(0, 0)))
  {
    hide EnsureActive, Commit, TakePage, TranslateWrite;
    OpensFirst();
    var g := Empty.(blocks := map[First := Info(0, 0, true)], active := map[0 := First], nextId := 1);
    Opened(Empty, g, At(0, 0), 0);
    Taken(g, First, Info(1, 1, true));
    var h := TakePage(g, First).0;
    assert h.blocks == S1.blocks && h.active == S1.active;
    Committed(h, 0, At(0, 0), {0});
  }

  lemma SecondWrite()
    ensures TranslateWrite(Small, S1, 0) == (S2, Some(At(0, 1)))
  {
    hide EnsureActive, Commit, TakePage, TranslateWrite;
    AlreadyActive(S1);
    Opened(S1, S1, At(0, 1), 0);
    Taken(S1, First, Info(2, 2, true));
    var h := TakePage(S1, First).0;
    Overwritten(h, 0, At(0, 1), Info(1, 2, true));
    assert h.blocks[First := Info(1, 2, true)] == S2.blocks && h.active == S2.active;
  }

  // ----- the third one collects: the drained first block ends outside the pool ----------------------------

  lemma NothingDead(average: real)
    ensures Retire(S2) == S2 && Eligible(Small, S2, average) == {First}
  {
    assert Dead(S2) == {};
    assert Dirtied(S2.blocks, {}) == S2.blocks;
    assert Idle(S2) == {First};
  }

  lemma NewSecond()
    ensures GcBlock(Small, S2, 0) == (S2.(blocks := map[First := Info(1, 2, true), Second := Info(0, 0, true)],
        active := map[0 := Second], nextId := 2), Some(Second))
  {
    assert S2.blocks[Second := Info(0, 0, true)] == map[First := Info(1, 2, true), Second := Info(0, 0, true)];
    assert Candidates(S2, 0) == {};
    assert FreshInfo(Small) == Info(0, 0, true);
    assert |S2.blocks| == 1;
  }

  lemma ThirdGc()
    ensures Gc(Small, S2) == G3
  {
    hide Gc, NeedsGc, Retire, Eligible, GcBlock, TakePage, Moved, AverageErases, Reclaim;
    GcNeeded(S2);
    NothingDead(AverageErases(Small, S2));
    NewSecond();
    var made := S2.(blocks := map[First := Info(1, 2, true), Second := Info(0, 0, true)], active := map[0 := Second],
        nextId := 2);
    GcMovesPage(S2, S2, First, made, At(1, 0));
    Taken(made, Second, Info(1, 1, true));
    var h := TakePage(made, Second).0;
    Relocated(h, 0, At(0, 1), At(1, 0), {0});
    ReclaimFirst(Moved(h, 0, At(0, 1), At(1, 0)));
  }

  lemma ReclaimFirst(m: State)
    requires m == S2.(mapping := S2.mapping[0 := At(1, 0)], reverse := S2.reverse[Second := {0}], active := map[0 := Second],
        nextId := 2, blocks := map[First := Info(1, 2, true), Second := Info(0, 0, true)][Second := Info(1, 1, true)],
        acts := [Copy(At(0, 1), At(1, 0))])
    ensures Reclaim(m, First) == G3
  {
    assert m.blocks[First := Info(0, 0, true)] == G3.blocks && m.mapping == G3.mapping;
    assert m.reverse - {First} == G3.reverse;
    assert [Copy(At(0, 1), At(1, 0))] + [EraseAll(First)] == Moves3;
  }

  lemma ThirdWrite()
    ensures TranslateWrite(Small, S2, 0) == (S3, Some(At(1, 1)))
  {
    hide Gc, NeedsGc, EnsureActive, TakeFree, TakePage, Commit, TranslateWrite;
    ThirdGc();
    GcNeeded(S2);
    assert Candidates(S2, 0) == {} && Candidates(G3, 0) == {First};
    OpenedByGc(S2, G3, First, Second);
    TakenFree(G3, First);
    var h := G3.(pool := {});
    Opened(S2, h, At(1, 1), 0);
    Taken(h, Second, Info(2, 2, true));
    var w := TakePage(h, Second).0;
    Overwritten(w, 0, At(1, 1), Info(1, 2, true));
    assert w.blocks[Second := Info(1, 2, true)] == S3.blocks && w.active == S3.active;
  }

  // ----- the last one retires that block dirty and relocates page 0 into it ---------------------------------

  lemma FirstDies(average: real)
    ensures Retire(S3) == R4 && Eligible(Small, R4, average) == {Second}
  {
    assert Idle(S3) == {First, Second};
    assert Dead(S3) == {First};
    assert Dirtied(S3.blocks, {First}) == R4.blocks;
    assert Idle(R4) == {Second};
  }

  lemma ReusesFirst()
    ensures GcBlock(Small, R4, 0) == (R4.(pool := {}, active := map[0 := First]), Some(First))
  {
    hide TakeFree;
    assert Candidates(R4, 0) == {First};
    PickOnly(R4, 0, First, false);
    TakenFree(R4, First);
  }

  lemma FourthGc()
    ensures Gc(Small, S3) == G4
  {
    hide Gc, NeedsGc, Retire, Eligible, GcBlock, TakePage, Moved, AverageErases, Reclaim;
    GcNeeded(S3);
    FirstDies(AverageErases(Small, S3));
    ReusesFirst();
    var made := R4.(pool := {}, active := map[0 := First]);
    GcMovesPage(S3, R4, Second, made, At(0, 0));
    Taken(made, First, Info(1, 1, false));
    var h := TakePage(made, First).0;
    Relocated(h, 0, At(1, 1), At(0, 0), {0});
    ReclaimSecond(Moved(h, 0, At(1, 1), At(0, 0)));
  }

  lemma ReclaimSecond(m: State)
    requires m == R4.(mapping := R4.mapping[0 := At(0, 0)], reverse := R4.reverse[First := {0}], active := map[0 := First],
        pool := {}, blocks := R4.blocks[First := Info(1, 1, false)], acts := Moves3 + [Copy(At(1, 1), At(0, 0))])
    ensures Reclaim(m, Second) == G4
  {
    assert m.blocks[Second := Info(0, 0, true)] == G4.blocks && m.mapping == G4.mapping;
    assert m.reverse - {Second} == G4.reverse;
    assert Moves3 + [Copy(At(1, 1), At(0, 0))] + [EraseAll(Second)] == G4.acts;
  }

  lemma LastWrite()
    ensures TranslateWrite(Small, S3, 1) == (S4, Some(At(0, 1)))
  {
    hide Gc, NeedsGc, EnsureActive, TakeFree, TakePage, Commit, TranslateWrite;
    FourthGc();
    GcNeeded(S3);
    assert Candidates(S3, 0) == {} && Candidates(G4, 0) == {Second};
    OpenedByGc(S3, G4, Second, First);
    TakenFree(G4, Second);
    var h := G4.(pool := {});
    Opened(S3, h, At(0, 1), 1);
    Taken(h, First, Info(2, 2, false));
    var w := TakePage(h, First).0;
    assert w.blocks == S4.blocks && w.active == S4.active;
    assert {0} + {1} == {0, 1};
    Committed(w, 1, At(0, 1), {0, 1});
    assert w.mapping[1 := At(0, 1)] == S4.mapping && w.reverse[First := {0, 1}] == S4.reverse;
  }

  // ----- the run --------------------------------------------------------------------------------------

  /** Four acknowledged writes and one read, all of them requests a host can make. */
  const Loss: seq<Op> := [Put(0, 10), Put(0, 11), Put(0, 12), Put(1, 13), Get(0)]

  lemma ErasedWrite(d: Device, lp: nat, data: int, g: State, p: Phys)
    requires Wf(Small, d.ftl) && TranslateWrite(Small, d.ftl, lp) == (g, Some(p)) && IsErased(g, BlockOf(p))
    ensures Step(Small, d, Put(lp, data)).0.ftl == g && Step(Small, d, Put(lp, data)).1 == Done
  {
    hide Wf, TranslateWrite, Replay;
  }

  lemma DirtyWrite(d: Device, lp: nat, data: int, g: State, p: Phys, q: Phys)
    requires Wf(Small, d.ftl) && TranslateWrite(Small, d.ftl, lp) == (g, Some(p)) && !IsErased(g, BlockOf(p))
        && BlockOf(q) == BlockOf(p) && q != p
    ensures var (e, answer) := Step(Small, d, Put(lp, data)); e.ftl.mapping == g.mapping && answer == Done && q !in e.media
  {
    hide Wf, TranslateWrite, Replay;
  }

  lemma AnswersCons(d: Device, ops: seq<Op>)
    requires Wf(Small, d.ftl) && ops != []
    ensures var (e, answer) := Step(Small, d, ops[0]); Wf(Small, e.ftl) && Answers(Small, d, ops) == [answer] + Answers(Small, e, ops[1..])
  {
    hide Wf, Step;
    StepWf(Small, d, ops[0]);
  }

  /** The four writes are acknowledged, and then page 0 reads as never written. */
  lemma LostPage()
    ensures Wf(Small, Empty)
    ensures Answers(Small, Device(Empty, map[]), Loss) == [Done, Done, Done, Done, Found(None)]
  {
    hide Wf, Step, Answers, TranslateWrite;
    EmptyWf(Small);
    var d0 := Device(Empty, map[]);
    AnswersCons(d0, Loss);
    FirstWrite();
    ErasedWrite(d0, 0, 10, S1, At(0, 0));
    var d1 := Step(Small, d0, Loss[0]).0;
    AnswersCons(d1, Loss[1..]);
    SecondWrite();
    ErasedWrite(d1, 0, 11, S2, At(0, 1));
    var d2 := Step(Small, d1, Loss[1]).0;
    AnswersCons(d2, Loss[2..]);
    ThirdWrite();
    ErasedWrite(d2, 0, 12, S3, At(1, 1));
    var d3 := Step(Small, d2, Loss[2]).0;
    AnswersCons(d3, Loss[3..]);
    LastWrite();
    DirtyWrite(d3, 1, 13, S4, At(0, 1), At(0, 0));
    var d4 := Step(Small, d3, Loss[3]).0;
    AnswersCons(d4, Loss[4..]);
    Missing(d4, 0);
    NoAnswers(Step(Small, d4, Loss[4]).0);
  }

  lemma Missing(d: Device, lp: nat)
    requires Wf(Small, d.ftl) && (lp in d.ftl.mapping ==> d.ftl.mapping[lp] !in d.media)
    ensures Step(Small, d, Get(lp)).1 == Found(None)
  {
  }

  lemma NoAnswers(d: Device)
    requires Wf(Small, d.ftl)
    ensures Answers(Small, d, []) == []
  {
  }

  /** In SSD mode the guarantee is false: this run is explained by no logical store. */
  lemma SsdLosesData()
    ensures Wf(Small, Empty) && !Explains(map[], Loss, Answers(Small, Device(Empty, map[]), Loss))
  {
    LostPage();
    hide Answers, Wf;
    var answers := Answers(Small, Device(Empty, map[]), Loss);
    assert Explains(map[], Loss, answers) == Explains(map[0 := 10], Loss[1..], answers[1..]);
    assert Explains(map[0 := 10], Loss[1..], answers[1..]) == Explains(map[0 := 11], Loss[2..], answers[2..]) by {
      assert map[0 := 10][0 := 11] == map[0 := 11];
    }
    assert Explains(map[0 := 11], Loss[2..], answers[2..]) == Explains(map[0 := 12], Loss[3..], answers[3..]) by {
      assert map[0 := 11][0 := 12] == map[0 := 12];
    }
    assert Explains(map[0 := 12], Loss[3..], answers[3..]) == Explains(map[0 := 12][1 := 13], Loss[4..], answers[4..]);
  }
}
