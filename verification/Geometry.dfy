/** Device configuration and the page-to-resource maps. The controller and the FTL each carry their
    own copy of the placement arithmetic; this module states both and proves when they agree. */
module Geometry {
  import opened Basics

  const WORD32: nat := 0x1_0000_0000
  const PSEUDO_BLOCK_BIT: nat := 0x8000_0000
  const WINDOW: nat := 128

  datatype Config = Config(
    size: nat, pageSize: nat, pagesPerBlock: nat, baseAddr: nat,
    subarraysKnob: nat, maxActiveKnob: nat, channelsKnob: nat, allowNonOcp: bool,
    placementMode: int, channelMap: int, table: map<nat, nat>,
    tR: nat, tPROG: nat, tBERS: nat, tBUFF: nat, bufferEnabled: bool, pageBuffersKnob: nat,
    ftlEnabled: bool, mediaMode: int, overprovisioning: real, wearLeveling: bool,
    writeBufferKnob: nat, writeAggTimeout: nat, strictWrites: bool,
    maxOutstanding: nat, maxOutstandingWrites: nat,
    readAggregation: bool, readAggWindow: nat, readThresholdKnob: nat,
    schedulerKnob: int, drainHighKnob: nat, drainMaxwait: nat,
    cacheEntries: nat, cacheHitLatency: nat,
    returnCapacity: nat, bandwidth: real)
  {
    /** What the constructors of the system and of the cube guarantee before any traffic: whole,
        block-aligned capacity, a return buffer of at least one slot, 32-bit knobs. */
    predicate Valid() {
      && size > 0 && pageSize > 0 && pagesPerBlock > 0
      && size % pageSize == 0 && TotalPages() % pagesPerBlock == 0
      && pagesPerBlock < WORD32 && subarraysKnob < WORD32
      && returnCapacity > 0 && bandwidth > 0.0
    }

    function Subarrays(): (n: nat) ensures n > 0 { if subarraysKnob > 0 then subarraysKnob else 1 }

    function MaxActive(): (n: nat) ensures n > 0 { if maxActiveKnob > 0 then maxActiveKnob else 1 }

    /** Both `hbf_controller_t`'s constructor and `hbf_ftl_num_channels` clamp in this order. */
    function Channels(): (n: nat)
      ensures 0 < n <= Subarrays()
      ensures n <= 16 || allowNonOcp
    {
      var asked := if channelsKnob == 0 then 1 else channelsKnob;
      var ocp := if asked > 16 && !allowNonOcp then 16 else asked;
      if ocp > Subarrays() then Subarrays() else ocp
    }

    function TotalPages(): nat { if pageSize > 0 then size / pageSize else 0 }

    predicate Contiguous() { placementMode == 1 || (placementMode == 0 && channelMap == 1) }

    predicate Explicit() { placementMode == 2 }

    function PageBuffers(): (n: nat) ensures n > 0 { if pageBuffersKnob == 0 then 2 else pageBuffersKnob }

    function MaxBlocks(): nat {
      var perBlock := pagesPerBlock * pageSize;
      var whole := if perBlock > 0 then size / perBlock else 0;
      if whole == 0 && size != 0 then 1 else whole
    }

    function WriteBufferMax(): nat { if writeBufferKnob > 0 then writeBufferKnob else 32 }

    function ReadThreshold(): nat { if readThresholdKnob > 0 then readThresholdKnob else pageSize }

    function Scheduler(): int { if schedulerKnob < 0 || schedulerKnob > 2 then 0 else schedulerKnob }

    function DrainHigh(): (n: nat) ensures n > 0 { if drainHighKnob > 0 then drainHighKnob else 1 }

    function MaxCredit(): real { if bandwidth > 128.0 then bandwidth else 128.0 }

    /** `addr_to_page`'s base-relative address. */
    function Relative(addr: nat): nat { if addr >= baseAddr then addr - baseAddr else addr }

    function PageOf(addr: nat): nat { if pageSize == 0 then 0 else Relative(addr) / pageSize }
  }

  /** A cast to `unsigned`. */
  function Trunc32(x: nat): (r: nat)
    ensures r <= x && (x < WORD32 ==> r == x)
  {
    x % WORD32
  }

  function CeilDiv(a: nat, b: nat): nat requires b > 0 { (a + b - 1) / b }

  // ----- channel slices (constructor of the controller) -----------------------------------------

  function SliceFirst(cfg: Config, ch: nat): nat { ch * (cfg.Subarrays() / cfg.Channels()) }

  function SliceCount(cfg: Config, ch: nat): int {
    if ch == cfg.Channels() - 1 then cfg.Subarrays() - SliceFirst(cfg, ch)
    else cfg.Subarrays() / cfg.Channels()
  }

  predicate Owns(cfg: Config, ch: nat, sa: nat) {
    SliceFirst(cfg, ch) <= sa < SliceFirst(cfg, ch) + SliceCount(cfg, ch)
  }

  lemma MulLess(a: nat, b: nat, k: nat)
    requires a < b
    ensures a * k + k <= b * k
  {
    assert b * k == a * k + (b - a) * k;
    assert (b - a) * k >= k by { if k > 0 { MulAtLeast(b - a, k); } }
  }

  lemma MulAtLeast(a: nat, k: nat)
    requires a >= 1
    ensures a * k >= k
  {
  }

  lemma SliceFacts(cfg: Config, ch: nat)
    requires ch < cfg.Channels()
    ensures SliceCount(cfg, ch) > 0
    ensures SliceFirst(cfg, ch) + SliceCount(cfg, ch) <= cfg.Subarrays()
    ensures ch + 1 < cfg.Channels() ==> SliceFirst(cfg, ch) + SliceCount(cfg, ch) == SliceFirst(cfg, ch + 1)
  {
    var n, per := cfg.Channels(), cfg.Subarrays() / cfg.Channels();
    assert per >= 1;
    assert n * per <= cfg.Subarrays();
    MulLess(ch, n, per);
  }

  /** Section 4.5 of the OCP HBF specification: every sub-array belongs to exactly one channel. */
  lemma SlicesPartition(cfg: Config, sa: nat)
    requires sa < cfg.Subarrays()
    ensures exists ch :: 0 <= ch < cfg.Channels() && Owns(cfg, ch, sa)
    ensures forall a, b :: 0 <= a < cfg.Channels() && 0 <= b < cfg.Channels() && Owns(cfg, a, sa) && Owns(cfg, b, sa) ==> a == b
  {
    SliceOfSubarray(cfg, sa, cfg.Channels() - 1);
    forall a, b | 0 <= a < cfg.Channels() && 0 <= b < cfg.Channels() && Owns(cfg, a, sa) && Owns(cfg, b, sa)
      ensures a == b
    {
      if a < b { SlicesDisjoint(cfg, a, b, sa); }
      if b < a { SlicesDisjoint(cfg, b, a, sa); }
    }
  }

  lemma {:induction false} SliceOfSubarray(cfg: Config, sa: nat, last: nat)
    requires last < cfg.Channels()
    requires sa < SliceFirst(cfg, last) + SliceCount(cfg, last)
    ensures exists ch :: 0 <= ch < cfg.Channels() && Owns(cfg, ch, sa)
  {
    if SliceFirst(cfg, last) <= sa {
      assert Owns(cfg, last, sa);
    } else {
      assert last > 0;
      SliceFacts(cfg, last - 1);
      SliceOfSubarray(cfg, sa, last - 1);
    }
  }

  lemma SlicesDisjoint(cfg: Config, a: nat, b: nat, sa: nat)
    requires a < b < cfg.Channels()
    ensures !(Owns(cfg, a, sa) && Owns(cfg, b, sa))
  {
    MulLess(a, b, cfg.Subarrays() / cfg.Channels());
  }

  // ----- counting round ------------------------------------------------------------------------------

  lemma Split(a: nat, n: nat)
    requires n > 0
    ensures a == (a / n) * n + a % n
  {
  }

  lemma BetweenMultiples(d: int, n: nat)
    ensures d * n <= 0 || d * n >= n
  {
    if d > 0 { assert d * n == n + (d - 1) * n; }
  }

  /** Fewer than n consecutive numbers leave different remainders. */
  lemma RemaindersApart(a: nat, b: nat, n: nat)
    requires n > 0 && a < b < a + n
    ensures a % n != b % n
  {
    Split(a, n);
    Split(b, n);
    BetweenMultiples(b / n - a / n, n);
  }

  // ----- the controller's maps ----------------------------------------------------------------

  /** `hbf_page_to_channel`, with its 32-bit truncation of the quotient. */
  function PageToChannel(channels: nat, contiguous: bool, page: nat, pagesPerChannel: nat): nat
    requires channels > 0
  {
    if channels <= 1 then 0
    else if contiguous then
      if pagesPerChannel == 0 then channels - 1 else
        var ch := Trunc32(page / pagesPerChannel);
        if ch < channels then ch else channels - 1
    else page % channels
  }

  /** `channel_of_page`; None is the fail-fast outcome of strict explicit placement. */
  function ChannelOf(cfg: Config, page: nat): Option<nat> {
    if cfg.Explicit() then
      if page in cfg.table && cfg.table[page] < cfg.Channels() then Some(cfg.table[page]) else None
    else if cfg.Channels() <= 1 then Some(0)
    else Some(PageToChannel(cfg.Channels(), cfg.Contiguous(), page, CeilDiv(cfg.TotalPages(), cfg.Channels())))
  }

  /** The channel-local page of `subarray_of_page` (unsigned there; MapsAgree shows it never wraps). */
  function LocalPage(cfg: Config, page: nat, ch: nat): int {
    if cfg.Explicit() then page
    else if cfg.Contiguous() then page - ch * CeilDiv(cfg.TotalPages(), cfg.Channels())
    else page / cfg.Channels()
  }

  function SubarrayOf(cfg: Config, page: nat, ch: nat): int
    requires ch < cfg.Channels()
  {
    SliceFacts(cfg, ch);
    SliceFirst(cfg, ch) + LocalPage(cfg, page, ch) % SliceCount(cfg, ch)
  }

  // ----- the FTL's maps -------------------------------------------------------------------------

  datatype Location = Location(channel: nat, local: int)

  /** `hbf_ftl_page_location`. */
  function FtlLocation(cfg: Config, page: nat): Option<Location> {
    var nch := cfg.Channels();
    if cfg.Explicit() then
      if page in cfg.table && cfg.table[page] < nch then Some(Location(cfg.table[page], page)) else None
    else
      var ceil := CeilDiv(cfg.TotalPages(), nch);
      var perChannel := if ceil == 0 then 1 else ceil;
      if cfg.Contiguous() then
        var quotient := Trunc32(page / perChannel);
        var ch := if quotient >= nch then nch - 1 else quotient;
        Some(Location(ch, page - ch * perChannel))
      else
        Some(Location(if nch <= 1 then 0 else page % nch, page / nch))
  }

  /** `hbf_ftl_preferred_subarray`. */
  function Preferred(cfg: Config, page: nat): Option<int> {
    var nch, nsa := cfg.Channels(), cfg.Subarrays();
    var quotient := nsa / nch;
    var perChannel := if quotient == 0 then 1 else quotient;
    match FtlLocation(cfg, page)
    case None => None
    case Some(Location(ch, local)) =>
      var first := ch * perChannel;
      var rest := if ch == nch - 1 then nsa - first else perChannel;
      var count := if rest == 0 then 1 else rest;
      Some(first + local % count)
  }

  // ----- agreement ------------------------------------------------------------------------------

  lemma ContiguousStaysInPage(page: nat, perChannel: nat, ch: nat)
    requires perChannel > 0 && ch <= page / perChannel
    ensures ch * perChannel <= page
  {
    var q := page / perChannel;
    assert q * perChannel <= page;
    if ch < q { MulLess(ch, q, perChannel); }
  }

  /** The guard under which the two copies of the arithmetic are the same function. */
  predicate MapsComparable(cfg: Config) {
    cfg.Contiguous() && cfg.Channels() > 1 ==> cfg.TotalPages() > 0
  }

  /** One page: with capacity, both copies name the same channel and the same sub-array of it, so a
      freshly translated address can never trip the controller's affinity checks. */
  lemma MapsAgree(cfg: Config, page: nat)
    requires MapsComparable(cfg)
    ensures ChannelOf(cfg, page).None? <==> FtlLocation(cfg, page).None?
    ensures Preferred(cfg, page).None? <==> ChannelOf(cfg, page).None?
    ensures ChannelOf(cfg, page).Some? ==>
      && var ch := ChannelOf(cfg, page).value;
      && ch < cfg.Channels()
      && FtlLocation(cfg, page).value.channel == ch
      && FtlLocation(cfg, page).value.local >= 0
      && Preferred(cfg, page) == Some(SubarrayOf(cfg, page, ch))
      && Owns(cfg, ch, Preferred(cfg, page).value)
      && 0 <= Preferred(cfg, page).value < cfg.Subarrays()
  {
    if ChannelOf(cfg, page).Some? {
      LocationAgrees(cfg, page);
      var ch := ChannelOf(cfg, page).value;
      PreferredInSlice(cfg, page, ch);
    }
  }

  lemma LocationAgrees(cfg: Config, page: nat)
    requires MapsComparable(cfg) && ChannelOf(cfg, page).Some?
    ensures FtlLocation(cfg, page).Some?
    ensures var ch := ChannelOf(cfg, page).value; var at := FtlLocation(cfg, page).value;
      ch < cfg.Channels() && at.channel == ch && at.local == LocalPage(cfg, page, ch) >= 0
  {
    hide CeilDiv, Trunc32, Config.Channels, Config.TotalPages;
    if cfg.Explicit() {
    } else if cfg.Contiguous() {
      ContiguousAgrees(page, cfg.Channels(), CeilDiv(cfg.TotalPages(), cfg.Channels()), cfg.TotalPages());
    } else {
      Interleaved(page, cfg.Channels());
    }
  }

  lemma Interleaved(page: nat, nch: nat)
    requires nch > 0
    ensures page / nch >= 0 && page % nch < nch
  {
  }

  lemma ContiguousAgrees(page: nat, nch: nat, ceil: nat, pages: nat)
    requires nch > 0 && ceil == CeilDiv(pages, nch) && (nch > 1 ==> pages > 0)
    ensures var per := if ceil == 0 then 1 else ceil;
      && var quotient := Trunc32(page / per);
      && var ch := if quotient >= nch then nch - 1 else quotient;
      && ch == PageToChannel(nch, true, page, ceil)
      && page - ch * per == page - ch * ceil >= 0
  {
    CeilPositive(pages, nch);
    hide CeilDiv, Trunc32;
    var per := if ceil == 0 then 1 else ceil;
    var quotient := Trunc32(page / per);
    var ch := if quotient >= nch then nch - 1 else quotient;
    ContiguousStaysInPage(page, per, ch);
    if nch == 1 { assert ch == 0; } else { assert per == ceil; }
  }

  lemma CeilPositive(a: nat, b: nat)
    requires b > 0
    ensures a > 0 <==> CeilDiv(a, b) > 0
  {
    if a > 0 { assert a + b - 1 >= b; } else { assert (b - 1) / b == 0; }
  }

  lemma PreferredInSlice(cfg: Config, page: nat, ch: nat)
    requires FtlLocation(cfg, page).Some? && FtlLocation(cfg, page).value.channel == ch < cfg.Channels()
    ensures Preferred(cfg, page) == Some(SliceFirst(cfg,
        ch) + (SliceFacts(cfg, ch); FtlLocation(cfg, page).value.local % SliceCount(cfg, ch)))
    ensures Owns(cfg, ch, Preferred(cfg, page).value)
    ensures 0 <= Preferred(cfg, page).value < cfg.Subarrays()
  {
    SliceFacts(cfg, ch);
    assert cfg.Subarrays() / cfg.Channels() >= 1;
  }

  /** Agreement on every page is exactly the guard: a zero-page contiguous device with more than one
      channel sends page 0 to the last channel in the controller and to channel 0 in the FTL. */
  lemma MapsAgreeExactly(cfg: Config)
    ensures MapsComparable(cfg) <==>
      forall page: nat :: ChannelOf(cfg, page).Some? == FtlLocation(cfg, page).Some?
        && (ChannelOf(cfg, page).Some? ==> FtlLocation(cfg, page).value.channel == ChannelOf(cfg, page).value)
  {
    if MapsComparable(cfg) {
      forall page: nat
        ensures ChannelOf(cfg, page).Some? == FtlLocation(cfg, page).Some?
        ensures ChannelOf(cfg, page).Some? ==> FtlLocation(cfg, page).value.channel == ChannelOf(cfg, page).value
      {
        MapsAgree(cfg, page);
      }
    } else {
      var page: nat := 0;
      assert ChannelOf(cfg, page) == Some(cfg.Channels() - 1) by {
        assert cfg.Channels() - 1 < cfg.Channels();
        assert (cfg.TotalPages() + cfg.Channels() - 1) / cfg.Channels() == 0;
      }
      assert FtlLocation(cfg, page).value.channel == 0;
    }
  }

  lemma ValidIsComparable(cfg: Config)
    requires cfg.Valid()
    ensures MapsComparable(cfg)
    ensures cfg.TotalPages() > 0 && cfg.MaxBlocks() > 0
  {
    assert cfg.size / cfg.pageSize > 0;
  }

  // ----- direct and pseudo addresses --------------------------------------------------------------

  datatype Phys = Phys(sa: int, block: nat, page: nat)

  /** `hbf_phys_addr_t::valid`: no component is all ones. */
  predicate IsAddress(p: Phys) {
    p.sa != WORD32 - 1 && p.block != WORD32 - 1 && p.page != WORD32 - 1
  }

  /** `hbf_direct_page_identity` and `hbf_ftl_pseudo_address` share this namespace; None past 2^31
      blocks. */
  function HighBlock(cfg: Config, page: nat): Option<(nat, nat)> {
    var ppb := if cfg.pagesPerBlock == 0 then 1 else cfg.pagesPerBlock;
    if page / ppb >= PSEUDO_BLOCK_BIT then None
    else Some((PSEUDO_BLOCK_BIT + page / ppb, page % ppb))
  }

  /** `hbf_ftl_pseudo_address` followed by the caller's `valid()` test. */
  function PseudoAddress(cfg: Config, page: nat): Option<Phys> {
    match (HighBlock(cfg, page), Preferred(cfg, page))
    case (Some((block, off)), Some(sa)) => if IsAddress(Phys(sa, block, off)) then Some(Phys(sa, block, off)) else None
    case _ => None
  }

  /** High blocks are distinct for distinct pages and never collide with an allocated block id. */
  lemma HighBlockInjective(cfg: Config, p: nat, q: nat)
    requires HighBlock(cfg, p).Some? && HighBlock(cfg, q).Some?
    ensures HighBlock(cfg, p) == HighBlock(cfg, q) ==> p == q
    ensures PSEUDO_BLOCK_BIT <= HighBlock(cfg, p).value.0 < WORD32
  {
    var ppb := if cfg.pagesPerBlock == 0 then 1 else cfg.pagesPerBlock;
    assert p == (p / ppb) * ppb + p % ppb;
    assert q == (q / ppb) * ppb + q % ppb;
  }

  /** The page can be read back off its pseudo address, so no two never-written pages share one. */
  lemma PseudoAddressInverse(cfg: Config, page: nat)
    requires cfg.Valid() && PseudoAddress(cfg, page).Some?
    ensures var p := PseudoAddress(cfg, page).value;
      PSEUDO_BLOCK_BIT <= p.block < WORD32 && p.page < cfg.pagesPerBlock
      && page == (p.block - PSEUDO_BLOCK_BIT) * cfg.pagesPerBlock + p.page
  {
    hide Preferred;
    HighBlockInverse(cfg, page);
    hide HighBlock;
  }

  lemma HighBlockInverse(cfg: Config, page: nat)
    requires cfg.pagesPerBlock > 0 && HighBlock(cfg, page).Some?
    ensures var (block, offset) := HighBlock(cfg, page).value;
      PSEUDO_BLOCK_BIT <= block < WORD32 && offset < cfg.pagesPerBlock
      && page == (block - PSEUDO_BLOCK_BIT) * cfg.pagesPerBlock + offset
  {
    assert page == (page / cfg.pagesPerBlock) * cfg.pagesPerBlock + page % cfg.pagesPerBlock;
  }

  lemma PseudoAddressInjective(cfg: Config, p: nat, q: nat)
    requires cfg.Valid() && PseudoAddress(cfg, p).Some? && PseudoAddress(cfg, p) == PseudoAddress(cfg, q)
    ensures p == q
  {
    hide PseudoAddress, Config.Valid;
    PseudoAddressInverse(cfg, p);
    PseudoAddressInverse(cfg, q);
  }

  lemma HighBlockDefined(cfg: Config, page: nat)
    requires cfg.Valid()
    ensures HighBlock(cfg, page).Some? <==> page / cfg.pagesPerBlock < PSEUDO_BLOCK_BIT
    ensures HighBlock(cfg, page).Some? ==>
      HighBlock(cfg, page).value.0 == PSEUDO_BLOCK_BIT + page / cfg.pagesPerBlock
          && HighBlock(cfg, page).value.1 < cfg.pagesPerBlock
  {
    assert page % cfg.pagesPerBlock < cfg.pagesPerBlock;
  }

  lemma PseudoAddressPlaced(cfg: Config, page: nat)
    requires cfg.Valid()
    ensures PseudoAddress(cfg, page).Some? <==> ChannelOf(cfg, page).Some? && page / cfg.pagesPerBlock < PSEUDO_BLOCK_BIT - 1
    ensures PseudoAddress(cfg, page).Some? ==> Owns(cfg, ChannelOf(cfg, page).value, PseudoAddress(cfg, page).value.sa)
  {
    hide ChannelOf, Preferred, Owns, HighBlock, FtlLocation;
    ValidIsComparable(cfg);
    MapsAgree(cfg, page);
    HighBlockDefined(cfg, page);
  }

  /** A never-written page is readable exactly when it is placed and its direct block number stays
      below 2^31 - 1: the last high block is all ones, which `valid()` takes for "no address". The page
      can be read back off the address. */
  lemma PseudoAddressDefined(cfg: Config, page: nat)
    requires cfg.Valid()
    ensures PseudoAddress(cfg, page).Some? <==> ChannelOf(cfg, page).Some? && page / cfg.pagesPerBlock < PSEUDO_BLOCK_BIT - 1
    ensures PseudoAddress(cfg, page).Some? ==>
      var p := PseudoAddress(cfg, page).value;
      Owns(cfg, ChannelOf(cfg, page).value, p.sa) && p.block >= PSEUDO_BLOCK_BIT
          && page == (p.block - PSEUDO_BLOCK_BIT) * cfg.pagesPerBlock + p.page
  {
    hide ChannelOf, Preferred, Owns, PseudoAddress;
    PseudoAddressPlaced(cfg, page);
    if PseudoAddress(cfg, page).Some? { PseudoAddressInverse(cfg, page); }
  }
}
