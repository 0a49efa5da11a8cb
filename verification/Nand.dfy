/** One NAND sub-array: a single timed operation, its page registers, and the cell contents the
    timing model leaves implicit. */
module Nand {
  import opened Basics
  import opened Geometry

  /** What a programmed page holds: whose data, and which PROGRAM wrote it. */
  datatype Cell = Cell(owner: nat, version: nat)

  datatype Phase = Idle | Reading | Programming | Erasing

  /** A page register; `content` is what it loaded, None for an unprogrammed page. */
  datatype Slot = Slot(valid: bool, block: nat, page: nat, content: Option<Cell>)

  datatype Address = Address(block: nat, page: nat)

  datatype Sub = Sub(phase: Phase, block: nat, page: nat, timer: nat, slots: seq<Slot>, nextSlot: nat, cells: map<Address, Cell>)

  function NewSub(cfg: Config): Sub {
    Sub(Idle, 0, 0, 0, seq(cfg.PageBuffers(), i => Slot(false, 0, 0, None)), 0, map[])
  }

  predicate Matches(s: Slot, block: nat, page: nat) { s.valid && s.block == block && s.page == page }

  predicate Hit(cfg: Config, s: Sub, block: nat, page: nat) {
    cfg.bufferEnabled && exists i :: 0 <= i < |s.slots| && Matches(s.slots[i], block, page)
  }

  function CellAt(s: Sub, block: nat, page: nat): Option<Cell> {
    if Address(block, page) in s.cells then Some(s.cells[Address(block, page)]) else None
  }

  /** First register holding the page. */
  function FirstMatch(slots: seq<Slot>, block: nat, page: nat): (i: nat)
    ensures i <= |slots|
    ensures i < |slots| ==> Matches(slots[i], block, page)
    ensures forall j :: 0 <= j < i ==> !Matches(slots[j], block, page)
  {
    if slots == [] || Matches(slots[0], block, page) then 0 else 1 + FirstMatch(slots[1..], block, page)
  }

  /** What a read of the page is served with. */
  function Served(cfg: Config, s: Sub, block: nat, page: nat): Option<Cell> {
    var i := FirstMatch(s.slots, block, page);
    if cfg.bufferEnabled && i < |s.slots| then s.slots[i].content else CellAt(s, block, page)
  }

  /** Round-robin register replacement. */
  function Load(cfg: Config, s: Sub, block: nat, page: nat, content: Option<Cell>): Sub {
    if cfg.bufferEnabled && s.nextSlot < |s.slots| then
      s.(slots := s.slots[s.nextSlot := Slot(true, block, page, content)], nextSlot := (s.nextSlot + 1) % |s.slots|)
    else s
  }

  function StartRead(cfg: Config, s: Sub, block: nat, page: nat): Sub {
    var g := s.(phase := Reading, block := block, page := page);
    if Hit(cfg, s, block, page) then g.(timer := cfg.tBUFF)
    else Load(cfg, g.(timer := cfg.tR), block, page, CellAt(s, block, page))
  }

  function StartProgram(cfg: Config, s: Sub, block: nat, page: nat, cell: Cell): Sub {
    Load(cfg, s.(phase := Programming, block := block, page := page, timer := cfg.tPROG,
                 cells := s.cells[Address(block, page) := cell]), block, page, Some(cell))
  }

  function Dropped(slots: seq<Slot>, block: nat): (r: seq<Slot>)
    ensures |r| == |slots|
    ensures forall i :: 0 <= i < |r| ==> r[i] == if slots[i].valid && slots[i].block == block
        then slots[i].(valid := false) else slots[i]
  {
    seq(|slots|, i requires 0 <= i < |slots| => if slots[i].valid && slots[i].block == block
        then slots[i].(valid := false) else slots[i])
  }

  function Erased(cells: map<Address, Cell>, block: nat): map<Address, Cell> {
    map a | a in cells && a.block != block :: cells[a]
  }

  function StartErase(cfg: Config, s: Sub, block: nat): Sub {
    s.(phase := Erasing, block := block, timer := cfg.tBERS, slots := Dropped(s.slots, block), cells := Erased(s.cells, block))
  }

  function Advance(s: Sub): Sub {
    if s.phase == Idle then s
    else
      var left := if s.timer > 0 then s.timer - 1 else 0;
      s.(timer := left, phase := if left == 0 then Idle else s.phase)
  }

  // ----- register coherence -----------------------------------------------------------------------

  /** Every valid register agrees with the cells, and holds a programmed page or a pseudo page. */
  ghost predicate Coherent(s: Sub) {
    && |s.slots| > 0 && s.nextSlot < |s.slots|
    && (forall a :: a in s.cells ==> a.block < PSEUDO_BLOCK_BIT)
    && (forall i :: 0 <= i < |s.slots| && s.slots[i].valid ==> SlotOk(s.cells, s.slots[i]))
  }

  ghost predicate SlotOk(cells: map<Address, Cell>, slot: Slot) {
    var a := Address(slot.block, slot.page);
    if a in cells then slot.content == Some(cells[a]) else slot.content == None && slot.block >= PSEUDO_BLOCK_BIT
  }

  lemma NewSubCoherent(cfg: Config)
    ensures Coherent(NewSub(cfg))
  {
  }

  /** A register hit and a cell read serve the same content. */
  lemma ServedIsStored(cfg: Config, s: Sub, block: nat, page: nat)
    requires Coherent(s)
    ensures Served(cfg, s, block, page) == CellAt(s, block, page)
  {
    var i := FirstMatch(s.slots, block, page);
    if i < |s.slots| { assert SlotOk(s.cells, s.slots[i]); }
  }

  lemma ReadCoherent(cfg: Config, s: Sub, block: nat, page: nat)
    requires Coherent(s) && (Address(block, page) in s.cells || block >= PSEUDO_BLOCK_BIT)
    ensures Coherent(StartRead(cfg, s, block, page))
  {
    assert SlotOk(s.cells, Slot(true, block, page, CellAt(s, block, page)));
  }

  /** Programming keeps the registers coherent exactly because the page was not programmed since its
      block's last ERASE: no register can already hold it. */
  lemma ProgramCoherent(cfg: Config, s: Sub, block: nat, page: nat, cell: Cell)
    requires Coherent(s) && Address(block, page) !in s.cells && block < PSEUDO_BLOCK_BIT
    ensures Coherent(StartProgram(cfg, s, block, page, cell))
  {
    var g := StartProgram(cfg, s, block, page, cell);
    forall i | 0 <= i < |g.slots| && g.slots[i].valid ensures SlotOk(g.cells, g.slots[i]) {
      if g.slots[i] == s.slots[i] { assert SlotOk(s.cells, s.slots[i]); }
    }
  }

  lemma EraseCoherent(cfg: Config, s: Sub, block: nat)
    requires Coherent(s) && block < PSEUDO_BLOCK_BIT
    ensures Coherent(StartErase(cfg, s, block))
  {
    var g := StartErase(cfg, s, block);
    forall i | 0 <= i < |g.slots| && g.slots[i].valid ensures SlotOk(g.cells, g.slots[i]) {
      assert SlotOk(s.cells, s.slots[i]);
    }
  }

  lemma AdvanceCoherent(s: Sub)
    requires Coherent(s)
    ensures Coherent(Advance(s))
  {
  }
}
