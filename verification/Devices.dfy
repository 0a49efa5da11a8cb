/** The small stateful parts of the controller as the objects they are. */
module Devices {
  import opened Basics
  import opened Geometry
  import Controller
  import Nand

  // ----- write byte coverage ----------------------------------------------------------------------------

  /** The positions that are set. */
  function BytesOf(map': seq<bool>): (bytes: set<nat>)
    ensures forall i :: i in bytes <==> 0 <= i < |map'| && map'[i]
  {
    set i | 0 <= i < |map'| && map'[i]
  }

  lemma MarkedBytes(map': seq<bool>, i: nat)
    requires i < |map'|
    ensures BytesOf(map'[i := true]) == BytesOf(map') + {i}
  {
  }

  /** `hbf_write_coverage_t`: a byte map with a running count. */
  class WriteCoverage {
    const covered: array<bool>
    var coveredBytes: nat

    ghost function Bytes(): set<nat>
      reads covered
    {
      BytesOf(covered[..])
    }

    /** The count is the number of covered bytes. */
    ghost predicate Valid()
      reads this, covered
    {
      coveredBytes == |Bytes()|
    }

    constructor (pageSize: nat)
      ensures Valid() && covered.Length == pageSize && Bytes() == {} && fresh(covered)
    {
      covered := new bool[pageSize](i => false);
      coveredBytes := 0;
    }

    /** Mark one byte; 1 if it was new. */
    method Mark(i: nat) returns (added: nat)
      requires Valid() && i < covered.Length
      modifies covered, this`coveredBytes
      ensures Valid() && Bytes() == old(Bytes()) + {i}
      ensures added == (if i in old(Bytes()) then 0 else 1) && coveredBytes == old(coveredBytes) + added
    {
      ghost var was := covered[..];
      MarkedBytes(was, i);
      added := 0;
      if !covered[i] {
        covered[i] := true;
        assert covered[..] == was[i := true];
        added := 1;
        coveredBytes := coveredBytes + 1;
      } else {
        assert was[i := true] == was;
      }
    }

    /** `add`: refused unless the range lies in the page; reports only bytes not covered before. */
    method Add(offset: nat, bytes: nat) returns (ok: bool, added: nat)
      requires Valid()
      modifies covered, this`coveredBytes
      ensures Valid() && ok == (offset <= covered.Length && bytes <= covered.Length - offset)
      ensures if ok then Joined(old(Bytes()), Span(offset, bytes), Bytes(), added) else Bytes() == old(Bytes()) && added == 0
    {
      hide BytesOf, Span, Joined;
      ok := offset <= covered.Length && bytes <= covered.Length - offset;
      if ok { added := MarkRange(offset, bytes); } else { added := 0; }
    }

    method MarkRange(offset: nat, bytes: nat) returns (added: nat)
      requires Valid() && offset + bytes <= covered.Length
      modifies covered, this`coveredBytes
      ensures Valid() && Joined(old(Bytes()), Span(offset, bytes), Bytes(), added)
    {
      hide BytesOf, Span, Joined;
      added := 0;
      NothingJoined(Bytes());
      NothingSpanned(offset);
      ghost var was := Bytes();
      var n := 0;
      while n < bytes
        invariant n <= bytes && Valid() && Joined(was, Span(offset, n), Bytes(), added)
      {
        ghost var now := Bytes();
        SpanNext(offset, n);
        var more := Mark(offset + n);
        JoinedOne(was, Span(offset, n), now, added, offset + n, more);
        added := added + more;
        n := n + 1;
      }
    }

    method MaskFits(offset: nat, mask: set<nat>) returns (ok: bool)
      requires forall i :: i in mask ==> i < WINDOW
      ensures ok == (forall i :: i in mask ==> offset + i < covered.Length)
    {
      var i := 0;
      while i < WINDOW
        invariant i <= WINDOW && forall j :: j in mask && j < i ==> offset + j < covered.Length
      {
        if i in mask && offset + i >= covered.Length { return false; }
        i := i + 1;
      }
      return true;
    }

    /** `add_mask`: the mask is checked as a whole before any byte is marked. */
    method AddMask(offset: nat, mask: set<nat>) returns (ok: bool, added: nat)
      requires Valid() && forall i :: i in mask ==> i < WINDOW
      modifies covered, this`coveredBytes
      ensures Valid() && ok == (forall i :: i in mask ==> offset + i < covered.Length)
      ensures if ok then Joined(old(Bytes()), Shifted(mask, offset, WINDOW), Bytes(), added)
          else Bytes() == old(Bytes()) && added == 0
    {
      hide BytesOf, Shifted, Joined;
      added := 0;
      NothingJoined(Bytes());
      ok := MaskFits(offset, mask);
      if !ok { return; }
      ghost var was := Bytes();
      NothingShifted(mask, offset);
      var i := 0;
      while i < WINDOW
        invariant i <= WINDOW && Valid() && Joined(was, Shifted(mask, offset, i), Bytes(), added)
      {
        ghost var now := Bytes();
        ShiftedNext(mask, offset, i);
        if i in mask {
          var more := Mark(offset + i);
          JoinedOne(was, Shifted(mask, offset, i), now, added, offset + i, more);
          added := added + more;
        }
        i := i + 1;
      }
    }

    method Full() returns (full: bool)
      requires Valid()
      ensures full <==> covered.Length > 0 && forall i :: 0 <= i < covered.Length ==> i in Bytes()
    {
      full := covered.Length > 0 && coveredBytes == covered.Length;
      FullCount(Bytes(), covered.Length);
    }
  }

  /** The masked bytes below `count`, at their page offsets. */
  function Shifted(mask: set<nat>, offset: nat, count: nat): set<nat> {
    if count == 0 then {} else Shifted(mask, offset, count - 1) + (if count - 1 in mask then {offset + count - 1} else {})
  }

  lemma {:induction false} ShiftedAt(mask: set<nat>, offset: nat, count: nat, x: nat)
    ensures x in Shifted(mask, offset, count) <==> offset <= x < offset + count && x - offset in mask
  {
    if count > 0 { ShiftedAt(mask, offset, count - 1, x); }
  }

  lemma ShiftedBelow(mask: set<nat>, offset: nat, count: nat)
    ensures forall x: nat :: x in Shifted(mask, offset, count) <==> offset <= x < offset + count && x - offset in mask
  {
    hide Shifted;
    forall x: nat ensures x in Shifted(mask, offset, count) <==> offset <= x < offset + count && x - offset in mask {
      ShiftedAt(mask, offset, count, x);
    }
  }

  lemma ShiftedImage(mask: set<nat>, offset: nat, count: nat)
    requires forall i :: i in mask ==> i < count
    ensures (set i | i in mask :: offset + i) == Shifted(mask, offset, count)
  {
    hide Shifted;
    ShiftedBelow(mask, offset, count);
    var image := set i | i in mask :: offset + i;
    forall x: nat | x in Shifted(mask, offset, count) ensures x in image { assert offset + (x - offset) == x; }
  }

  /** The set became its union with some bytes; `added` of them are new. */
  predicate Joined(was: set<nat>, bytes: set<nat>, now: set<nat>, added: nat) { now == was + bytes && added == |bytes - was| }

  lemma NothingJoined(was: set<nat>)
    ensures Joined(was, {}, was, 0)
  {
    assert {} - was == {};
  }

  lemma NothingSpanned(offset: nat)
    ensures Span(offset, 0) == {}
  {
  }

  lemma SpanNext(offset: nat, n: nat)
    ensures Span(offset, n + 1) == Span(offset, n) + {offset + n} && offset + n !in Span(offset, n)
  {
  }

  lemma NothingShifted(mask: set<nat>, offset: nat)
    ensures Shifted(mask, offset, 0) == {}
  {
  }

  lemma ShiftedNext(mask: set<nat>, offset: nat, i: nat)
    ensures Shifted(mask, offset, i + 1) == (if i in mask then Shifted(mask, offset, i) + {offset + i}
        else Shifted(mask, offset, i))
    ensures offset + i !in Shifted(mask, offset, i)
  {
    ShiftedBelow(mask, offset, i);
    assert Shifted(mask, offset, i) + {} == Shifted(mask, offset, i);
  }

  lemma JoinedOne(was: set<nat>, bytes: set<nat>, now: set<nat>, added: nat, i: nat, more: nat)
    requires Joined(was, bytes, now, added) && i !in bytes && more == if i in now then 0 else 1
    ensures Joined(was, bytes + {i}, now + {i}, added + more)
  {
    if i in was {
      assert (bytes + {i}) - was == bytes - was;
    } else {
      assert (bytes + {i}) - was == (bytes - was) + {i};
    }
  }

  lemma {:induction false} FullCount(s: set<nat>, n: nat)
    requires forall i :: i in s ==> i < n
    ensures |s| <= n && (|s| == n <==> forall i :: 0 <= i < n ==> i in s)
  {
    if n > 0 {
      FullCount(s - {n - 1}, n - 1);
    } else {
      assert s == {};
    }
  }

  /** The class computes the coverage the controller model uses, request by request. */
  lemma MaskCoverage(cfg: Config, page: nat, r: Controller.Request)
    requires cfg.pageSize > 0 && r.mask != {} && forall i :: i in r.mask ==> i < WINDOW
    ensures var relative := cfg.Relative(r.addr); var base := relative - relative % WINDOW;
      Controller.Coverage(cfg, page, r) ==
        if base / cfg.pageSize != page || !(forall i :: i in r.mask ==> base % cfg.pageSize + i < cfg.pageSize) then None
        else Some(Shifted(r.mask, base % cfg.pageSize, WINDOW))
  {
    hide Shifted;
    var relative := cfg.Relative(r.addr);
    ShiftedImage(r.mask, (relative - relative % WINDOW) % cfg.pageSize, WINDOW);
  }

  // ----- one channel ------------------------------------------------------------------------------------

  /** `hbf_channel_t`: the credit bucket and the outstanding-write counter. */
  class Channel {
    const cfg: Config
    const id: nat
    var credit: real
    var outstandingWrites: nat
    var transferred: nat

    ghost function Contents(): Controller.Channel
      reads this
    {
      Controller.Channel(credit, outstandingWrites, transferred)
    }

    ghost predicate Valid()
      reads this
    {
      0.0 <= credit <= cfg.MaxCredit() && cfg.bandwidth > 0.0
    }

    constructor (config: Config, channel: nat)
      requires config.bandwidth > 0.0
      ensures Valid() && cfg == config && id == channel && Contents() == Controller.Channel(0.0, 0, 0)
    {
      cfg, id := config, channel;
      credit, outstandingWrites, transferred := 0.0, 0, 0;
    }

    predicate OwnsSubarray(sa: nat)
      ensures id < cfg.Channels() && sa < cfg.Subarrays() ==> OwnsSubarray(sa) == Controller.InChannel(cfg, id, sa)
    {
      Owns(cfg, id, sa)
    }

    /** Spends the credit of a transfer, or refuses and keeps it. */
    method TryConsumeCredit(bytes: nat) returns (ok: bool)
      requires Valid()
      modifies this`credit
      ensures Valid() && ok == (bytes as real <= old(credit)) && credit == if ok then old(credit) - bytes as real else old(credit)
    {
      if bytes as real > credit { return false; }
      credit := credit - bytes as real;
      return true;
    }

    method ReplenishCredit()
      requires Valid()
      modifies this`credit
      ensures Valid() && Contents() == Controller.Replenished(cfg, old(Contents()))
    {
      credit := credit + cfg.bandwidth;
      if credit > cfg.MaxCredit() { credit := cfg.MaxCredit(); }
    }
  }

  lemma {:induction false} LinkAppend(rs: seq<Controller.Request>, r: Controller.Request)
    ensures Controller.LinkBytes(rs + [r]) == Controller.LinkBytes(rs) + if r.isWrite then 0 else r.size
  {
    if rs == [] {
      assert rs + [r] == [r];
    } else {
      assert (rs + [r])[1..] == rs[1..] + [r];
      LinkAppend(rs[1..], r);
    }
  }

  // ----- one sub-array ----------------------------------------------------------------------------------

  /** `hbf_subarray_t`; `cells` is the storage its timing model leaves implicit. */
  class Subarray {
    const cfg: Config
    var phase: Nand.Phase
    var page: nat
    var block: nat
    var timer: nat
    const buffers: array<Nand.Slot>
    var nextBuffer: nat
    var cells: map<Nand.Address, Nand.Cell>

    ghost function Contents(): Nand.Sub
      reads this, buffers
    {
      Nand.Sub(phase, block, page, timer, buffers[..], nextBuffer, cells)
    }

    constructor (config: Config)
      ensures cfg == config && Contents() == Nand.NewSub(config) && fresh(buffers)
    {
      cfg := config;
      phase, page, block, timer, nextBuffer, cells := Nand.Idle, 0, 0, 0, 0, map[];
      buffers := new Nand.Slot[config.PageBuffers()](i => Nand.Slot(false, 0, 0, None));
      new;
      assert buffers[..] == Nand.NewSub(config).slots;
    }

    method LoadBuffer(p: nat, b: nat, content: Option<Nand.Cell>)
      modifies this`nextBuffer, buffers
      ensures Contents() == Nand.Load(cfg, old(Contents()), b, p, content)
    {
      if cfg.bufferEnabled && nextBuffer < buffers.Length {
        buffers[nextBuffer] := Nand.Slot(true, b, p, content);
        nextBuffer := (nextBuffer + 1) % buffers.Length;
      }
    }

    method StartRead(p: nat, b: nat)
      modifies this, buffers
      ensures Contents() == Nand.StartRead(cfg, old(Contents()), b, p)
    {
      ghost var was := Contents();
      phase, page, block := Nand.Reading, p, b;
      var hit := false;
      if cfg.bufferEnabled {
        var i := 0;
        while i < buffers.Length && !hit
          invariant i <= buffers.Length && hit == exists j :: 0 <= j < i && Nand.Matches(buffers[..][j], b, p)
        {
          hit := Nand.Matches(buffers[i], b, p);
          i := i + 1;
        }
      }
      assert hit == Nand.Hit(cfg, was, b, p);
      if hit {
        timer := cfg.tBUFF;
      } else {
        timer := cfg.tR;
        LoadBuffer(p, b, if Nand.Address(b, p) in cells then Some(cells[Nand.Address(b, p)]) else None);
      }
    }

    method StartProgram(p: nat, b: nat, cell: Nand.Cell)
      modifies this, buffers
      ensures Contents() == Nand.StartProgram(cfg, old(Contents()), b, p, cell)
    {
      phase, page, block, timer := Nand.Programming, p, b, cfg.tPROG;
      cells := cells[Nand.Address(b, p) := cell];
      LoadBuffer(p, b, Some(cell));
    }

    method StartErase(b: nat)
      modifies this, buffers
      ensures Contents() == Nand.StartErase(cfg, old(Contents()), b)
    {
      phase, block, timer := Nand.Erasing, b, cfg.tBERS;
      cells := Nand.Erased(cells, b);
      ghost var was := old(buffers[..]);
      var i := 0;
      while i < buffers.Length
        invariant i <= buffers.Length
        invariant forall j :: 0 <= j < i ==> buffers[j] == Nand.Dropped(was, b)[j]
        invariant forall j :: i <= j < buffers.Length ==> buffers[j] == was[j]
        modifies buffers
      {
        if buffers[i].valid && buffers[i].block == b { buffers[i] := buffers[i].(valid := false); }
        i := i + 1;
      }
      assert buffers[..] == Nand.Dropped(was, b);
    }

    method Cycle()
      modifies this`timer, this`phase
      ensures Contents() == Nand.Advance(old(Contents()))
    {
      if phase == Nand.Idle { return; }
      if timer > 0 { timer := timer - 1; }
      if timer == 0 { phase := Nand.Idle; }
    }
  }
}
