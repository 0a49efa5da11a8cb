/** How pages are spread: the number of channels, the blocks the capacity holds, and which pages share a
    channel or a sub-array. */
module Placement {
  import opened Basics
  import opened Geometry

  // ----- how many ------------------------------------------------------------------------------------------

  /** As many channels as asked for, but at least one, no more than sub-arrays, and no more than 16 unless
      that is allowed. */
  lemma ChannelsAreMost(cfg: Config, n: nat)
    ensures 0 < n && (n == 1 || n <= cfg.channelsKnob) && (n == 1 || n <= cfg.subarraysKnob) && (n <= 16 || cfg.allowNonOcp) ==> n <= cfg.Channels()
    ensures var c := cfg.Channels();
      0 < c && (c == 1 || c <= cfg.channelsKnob) && (c == 1 || c <= cfg.subarraysKnob) && (c <= 16 || cfg.allowNonOcp)
  {
  }

  /** The blocks hold the capacity, no page more or less. */
  lemma BlocksHoldCapacity(cfg: Config)
    requires cfg.Valid()
    ensures cfg.MaxBlocks() * cfg.pagesPerBlock * cfg.pageSize == cfg.size
  {
    var pages, per := cfg.size / cfg.pageSize, cfg.pagesPerBlock;
    Split(cfg.size, cfg.pageSize);
    Split(pages, per);
    var blocks := pages / per;
    assert blocks * per == pages && pages * cfg.pageSize == cfg.size;
    Whole(blocks, per, cfg.pageSize, cfg.size);
  }

  lemma Whole(blocks: nat, per: nat, pageSize: nat, size: nat)
    requires per > 0 && pageSize > 0 && blocks * per * pageSize == size && size > 0
    ensures per * pageSize > 0 && size / (per * pageSize) == blocks && blocks > 0
  {
    var unit := per * pageSize;
    MulAtLeast(per, pageSize);
    assert blocks * per * pageSize == blocks * unit;
    Split(size, unit);
    var d := size / unit - blocks;
    assert d * unit == (size / unit) * unit - blocks * unit;
    BetweenMultiples(d, unit);
    BetweenMultiples(-d, unit);
    assert (-d) * unit == -(d * unit);
    if d != 0 { NonZero(d, unit); }
  }

  lemma NonZero(d: int, n: nat)
    requires d != 0 && n > 0
    ensures d * n != 0
  {
  }

  // ----- channels ------------------------------------------------------------------------------------------

  /** Interleaved: neighbouring pages lie on different channels, as many as there are. */
  lemma InterleavedSpread(cfg: Config, a: nat, b: nat)
    requires !cfg.Explicit() && !cfg.Contiguous() && a < b < a + cfg.Channels()
    ensures ChannelOf(cfg, a) != ChannelOf(cfg, b)
    ensures ChannelOf(cfg, a) == ChannelOf(cfg, a + cfg.Channels())
  {
    RemaindersApart(a, b, cfg.Channels());
    NextRound(a, cfg.Channels());
  }

  lemma NextRound(a: nat, n: nat)
    requires n > 0
    ensures (a + n) % n == a % n && (a + n) / n == a / n + 1
  {
    Split(a, n);
    Split(a + n, n);
    var d := (a + n) / n - a / n - 1;
    assert d * n == a % n - (a + n) % n;
    BetweenMultiples(d, n);
    BetweenMultiples(-d, n);
    assert (-d) * n == -(d * n);
    if d != 0 { NonZero(d, n); }
  }

  /** Contiguous: a page lies on channel c exactly if it is in the c-th of equal regions. */
  lemma ContiguousRegions(cfg: Config, page: nat, c: nat)
    requires !cfg.Explicit() && cfg.Contiguous() && cfg.Channels() > 1 && page < cfg.TotalPages() && c < cfg.Channels() < WORD32
    ensures var region := (cfg.TotalPages() + cfg.Channels() - 1) / cfg.Channels();
      ChannelOf(cfg, page) == Some(c) <==> c * region <= page < c * region + region
  {
    var n, region := cfg.Channels(), CeilDiv(cfg.TotalPages(), cfg.Channels());
    CeilPositive(cfg.TotalPages(), n);
    RegionsCover(cfg.TotalPages(), n, region);
    hide CeilDiv, Config.TotalPages, Config.Channels;
    Split(page, region);
    QuotientBelow(page, region, n);
    var q := page / region;
    if c < q { MulLess(c, q, region); }
    if q < c { MulLess(q, c, region); }
  }

  lemma RegionsCover(pages: nat, n: nat, region: nat)
    requires n > 0 && region == CeilDiv(pages, n)
    ensures pages <= n * region
  {
    Split(pages + n - 1, n);
    assert n * region == region * n;
  }

  lemma QuotientBelow(page: nat, region: nat, n: nat)
    requires region > 0 && page < n * region
    ensures page / region < n
  {
    Split(page, region);
    NoLess(page / region, n, region);
  }

  lemma NoLess(a: nat, b: nat, k: nat)
    ensures a >= b ==> a * k >= b * k
  {
    if a > b { MulLess(b, a, k); }
  }

  /** Explicit: the table decides, and pages without a channel are refused. */
  lemma ExplicitTable(cfg: Config, page: nat, c: nat)
    requires cfg.placementMode == 2
    ensures ChannelOf(cfg, page) == Some(c) <==> page in cfg.table && cfg.table[page] == c && c < cfg.Channels()
  {
  }

  // ----- sub-arrays ----------------------------------------------------------------------------------------

  /** In a channel, neighbouring local pages lie on different sub-arrays, as many as the channel has. */
  lemma SubarraySpread(cfg: Config, a: nat, b: nat, ch: nat)
    requires ch < cfg.Channels() && 0 <= LocalPage(cfg, a, ch) < LocalPage(cfg, b, ch) < LocalPage(cfg, a, ch) + SliceCount(cfg, ch)
    ensures SubarrayOf(cfg, a, ch) != SubarrayOf(cfg, b, ch)
  {
    hide LocalPage, SliceCount;
    SliceFacts(cfg, ch);
    RemaindersApart(LocalPage(cfg, a, ch), LocalPage(cfg, b, ch), SliceCount(cfg, ch));
  }

  /** The local pages of a channel are numbered one after the other. */
  lemma LocalPages(cfg: Config, page: nat, ch: nat)
    requires !cfg.Explicit() && ch < cfg.Channels()
    ensures cfg.Contiguous() ==> LocalPage(cfg, page + 1, ch) == LocalPage(cfg, page, ch) + 1
    ensures !cfg.Contiguous() ==> LocalPage(cfg, page + cfg.Channels(), ch) == LocalPage(cfg, page, ch) + 1
  {
    hide Config.Channels, CeilDiv;
    NextRound(page, cfg.Channels());
  }

  /** Every channel gets its share of the sub-arrays, the last one also what is left over. */
  lemma EqualSlices(cfg: Config, ch: nat)
    requires ch < cfg.Channels()
    ensures var share := cfg.Subarrays() / cfg.Channels();
      if ch + 1 < cfg.Channels() then SliceCount(cfg, ch) == share
      else share <= SliceCount(cfg, ch) == share + cfg.Subarrays() % cfg.Channels()
  {
    var n, all := cfg.Channels(), cfg.Subarrays();
    Split(all, n);
    assert (n - 1) * (all / n) == n * (all / n) - all / n;
    assert n * (all / n) == (all / n) * n;
  }
}
