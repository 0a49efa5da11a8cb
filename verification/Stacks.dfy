/** The stack map: which cube a logical address goes to, and at which local address. */
module Stacks {
  import opened Geometry

  datatype StackLocation = StackLocation(stack: nat, globalPage: nat, localPage: nat, pageOffset: nat, localOffset: nat)

  /** `logical_address_for_mapping`. */
  function LogicalAddress(address: nat, base: nat, routeAll: bool): nat {
    if routeAll || address < base then address else address - base
  }

  predicate EqualWholeBlocks(capacity: nat, pageSize: nat, pagesPerBlock: nat, stacks: nat) {
    && capacity != 0 && pageSize != 0 && pagesPerBlock != 0 && stacks != 0 && capacity % pageSize == 0
    && (capacity / pageSize) % stacks == 0 && ((capacity / pageSize) / stacks) % pagesPerBlock == 0
  }

  lemma MulQuotient(a: nat, b: nat, k: nat)
    requires b > 0 && k <= a / b
    ensures k * b <= a
  {
    assert (a / b) * b <= a;
    if k < a / b { MulLess(k, a / b, b); }
  }

  function PlaceContiguous(page: nat, perStack: nat, stacks: nat): (nat, nat)
    requires perStack > 0 && stacks > 0
  {
    var quotient := page / perStack;
    var stack := if quotient >= stacks then stacks - 1 else quotient;
    MulQuotient(page, perStack, stack);
    (stack, page - stack * perStack)
  }

  /** Stack and local page of a global page, with `pages` pages in all. */
  function Place(page: nat, pages: nat, stacks: nat, contiguous: bool): (nat, nat)
    requires stacks > 0
  {
    if contiguous && pages / stacks > 0 && page < pages then PlaceContiguous(page, pages / stacks, stacks)
    else (page % stacks, page / stacks)
  }

  /** `map_relative_address`. The subtraction above never goes negative: see PlaceBounds. */
  function MapRelative(relative: nat, capacity: nat, pageSize: nat, stacks: nat, contiguous: bool): StackLocation {
    if pageSize == 0 || stacks == 0 then StackLocation(0, 0, 0, 0, 0)
    else
      PlaceBounds(relative / pageSize, capacity / pageSize, stacks, contiguous);
      var (stack, local) := Place(relative / pageSize, capacity / pageSize, stacks, contiguous);
      StackLocation(stack, relative / pageSize, local, relative % pageSize, local * pageSize + relative % pageSize)
  }

  lemma SmallQuotient(a: nat, b: nat, n: nat)
    requires b > 0 && a < n * b
    ensures a / b < n
  {
    if a / b >= n {
      MulQuotient(a, b, n);
    }
  }

  lemma PlaceBounds(page: nat, pages: nat, stacks: nat, contiguous: bool)
    requires stacks > 0
    ensures var (stack, local) := Place(page, pages, stacks, contiguous); stack < stacks && 0 <= local <= page
  {
    var perStack := pages / stacks;
    if contiguous && perStack > 0 && page < pages {
      var quotient := page / perStack;
      MulQuotient(page, perStack, if quotient >= stacks then stacks - 1 else quotient);
    } else {
      SmallerQuotient(page, stacks);
    }
  }

  lemma SmallerQuotient(a: nat, b: nat)
    requires b > 0
    ensures a / b <= a
  {
    MulQuotient(a, b, a / b);
    if a / b > 0 { MulAtLeast(b, a / b); }
  }

  // ----- the inverse ----------------------------------------------------------------------------------

  /** The global page a stack's local page came from. */
  function Unplace(stack: nat, local: nat, pages: nat, stacks: nat, contiguous: bool): nat
    requires stacks > 0
  {
    var perStack := pages / stacks;
    if contiguous && local < perStack then stack * perStack + local else local * stacks + stack
  }

  lemma DivExact(pages: nat, stacks: nat)
    requires stacks > 0 && pages % stacks == 0
    ensures (pages / stacks) * stacks == pages == stacks * (pages / stacks)
  {
  }

  lemma SameDivision(b: nat, q: nat, r: nat, q': nat, r': nat)
    requires r < b && r' < b && q * b + r == q' * b + r'
    ensures q == q' && r == r'
  {
    if q < q' { MulLess(q, q', b); }
    if q' < q { MulLess(q', q, b); }
  }

  lemma DivUnique(q: nat, b: nat, r: nat)
    requires r < b
    ensures (q * b + r) / b == q && (q * b + r) % b == r
  {
    var x := q * b + r;
    SameDivision(b, q, r, x / b, x % b);
  }

  /** With equal stacks the placement has an explicit inverse, in range and beyond; in-range pages stay
      below the per-stack page count, and the clamp to the last stack is never needed. */
  lemma PlaceInverse(page: nat, pages: nat, stacks: nat, contiguous: bool)
    requires stacks > 0 && pages % stacks == 0
    ensures var (stack, local) := Place(page, pages, stacks, contiguous);
      && stack < stacks && local <= page
      && (page < pages ==> local < pages / stacks)
      && (page >= pages ==> local >= pages / stacks)
      && Unplace(stack, local, pages, stacks, contiguous) == page
  {
    var perStack := pages / stacks;
    DivExact(pages, stacks);
    PlaceBounds(page, pages, stacks, contiguous);
    if page < pages {
      assert perStack > 0;
      SmallQuotient(page, perStack, stacks);
      SmallQuotient(page, stacks, perStack);
    } else {
      LargeQuotient(page, stacks, perStack);
    }
  }

  lemma LargeQuotient(a: nat, b: nat, n: nat)
    requires b > 0 && a >= n * b
    ensures a / b >= n
  {
    if a / b < n {
      MulLess(a / b, n, b);
    }
  }

  ghost predicate Injective(pages: nat, stacks: nat, contiguous: bool)
    requires stacks > 0
  {
    forall p: nat, q: nat :: Place(p, pages, stacks, contiguous) == Place(q, pages, stacks, contiguous) ==> p == q
  }

  /** Injectivity over all pages holds exactly under the constructor's check: otherwise the overfull last
      stack of the contiguous map meets the interleaved fallback. */
  lemma InjectiveExactly(pages: nat, stacks: nat, contiguous: bool)
    requires stacks > 0
    ensures Injective(pages, stacks, contiguous) <==> (!contiguous || pages < stacks || pages % stacks == 0)
  {
    hide Place, Unplace;
    if pages % stacks == 0 {
      forall p: nat, q: nat | Place(p, pages, stacks, contiguous) == Place(q, pages, stacks, contiguous) ensures p == q {
        PlaceInverse(p, pages, stacks, contiguous);
        PlaceInverse(q, pages, stacks, contiguous);
      }
    } else if !contiguous || pages < stacks {
      forall p: nat, q: nat | Place(p, pages, stacks, contiguous) == Place(q, pages, stacks, contiguous) ensures p == q {
        Interleaved(p, pages, stacks, contiguous);
        Interleaved(q, pages, stacks, contiguous);
      }
    } else {
      Collision(pages, stacks);
    }
  }

  lemma Interleaved(page: nat, pages: nat, stacks: nat, contiguous: bool)
    requires stacks > 0 && (!contiguous || pages < stacks)
    ensures var (stack, local) := Place(page, pages, stacks, contiguous); page == local * stacks + stack
  {
    if pages < stacks { assert pages / stacks == 0; }
  }

  lemma Collision(pages: nat, stacks: nat)
    requires stacks > 0 && pages >= stacks && pages % stacks != 0
    ensures !Injective(pages, stacks, true)
  {
    hide Place;
    var perStack, r := pages / stacks, pages % stacks;
    LargeQuotient(pages, stacks, 1);
    InsideClamps(pages, stacks, perStack, r);
    OutsideMeets(pages, stacks, perStack, r);
    var local := perStack + r - 1;
    assert Place(pages - 1, pages, stacks, true) == Place(local * stacks + (stacks - 1), pages, stacks, true);
  }

  lemma InsideClamps(pages: nat, stacks: nat, perStack: nat, r: nat)
    requires stacks > 0 && perStack == pages / stacks > 0 && r == pages % stacks > 0
    ensures Place(pages - 1, pages, stacks, true) == (stacks - 1, perStack + r - 1)
  {
    assert pages == perStack * stacks + r;
    LargeQuotient(pages - 1, perStack, stacks);
    assert (stacks - 1) * perStack == perStack * stacks - perStack;
  }

  lemma OutsideMeets(pages: nat, stacks: nat, perStack: nat, r: nat)
    requires stacks > 0 && perStack == pages / stacks && r == pages % stacks > 0
    ensures var local := perStack + r - 1; var outside := local * stacks + (stacks - 1);
      outside >= pages && Place(outside, pages, stacks, true) == (stacks - 1, local)
  {
    var local := perStack + r - 1;
    assert pages == perStack * stacks + r;
    assert local * stacks == perStack * stacks + (r - 1) * stacks;
    if r > 1 { Widen(stacks, r - 1); }
    DivUnique(local, stacks, stacks - 1);
  }

  lemma Widen(a: nat, b: nat)
    requires a > 0
    ensures b * a >= b
  {
  }

  // ----- addresses ------------------------------------------------------------------------------------

  function Unmap(at: StackLocation, capacity: nat, pageSize: nat, stacks: nat, contiguous: bool): nat
    requires stacks > 0
  {
    Unplace(at.stack, at.localPage, capacity / (if pageSize > 0 then pageSize else 1), stacks,
        contiguous) * pageSize + at.pageOffset
  }

  /** The whole address: an inverse exists, and the stack-local offset never exceeds the input, so it
      cannot overflow where the input did not. */
  lemma MapInverse(relative: nat, capacity: nat, pageSize: nat, pagesPerBlock: nat, stacks: nat, contiguous: bool)
    requires EqualWholeBlocks(capacity, pageSize, pagesPerBlock, stacks)
    ensures var at := MapRelative(relative, capacity, pageSize, stacks, contiguous);
      && at.stack < stacks && at.localOffset <= relative && at.pageOffset < pageSize
      && at.localPage == at.localOffset / pageSize && at.pageOffset == at.localOffset % pageSize
      && (relative < capacity ==> at.localPage < (capacity / pageSize) / stacks && at.localOffset < capacity / stacks)
      && Unmap(at, capacity, pageSize, stacks, contiguous) == relative
  {
    hide Place, Unplace;
    var page, pages := relative / pageSize, capacity / pageSize;
    PlaceInverse(page, pages, stacks, contiguous);
    var (stack, local) := Place(page, pages, stacks, contiguous);
    var off := relative % pageSize;
    assert relative == page * pageSize + off;
    DivUnique(local, pageSize, off);
    if local < page { MulLess(local, page, pageSize); }
    if relative < capacity { InCapacity(relative, capacity, pageSize, stacks, local, off); }
  }

  lemma InCapacity(relative: nat, capacity: nat, pageSize: nat, stacks: nat, local: nat, off: nat)
    requires pageSize > 0 && stacks > 0 && capacity % pageSize == 0 && (capacity / pageSize) % stacks == 0
        && relative < capacity && off < pageSize
    requires relative / pageSize < capacity / pageSize ==> local < (capacity / pageSize) / stacks
    ensures local < (capacity / pageSize) / stacks && local * pageSize + off < capacity / stacks
  {
    var pages := capacity / pageSize;
    DivExact(capacity, pageSize);
    DivExact(pages, stacks);
    SmallQuotient(relative, pageSize, pages);
    var perStack := pages / stacks;
    MulLess(local, perStack, pageSize);
    assert capacity == (perStack * pageSize) * stacks by { assert capacity == (perStack * stacks) * pageSize; Shuffle(perStack, stacks, pageSize); }
    DivUnique(perStack * pageSize, stacks, 0);
  }

  lemma Shuffle(a: nat, b: nat, c: nat)
    ensures (a * b) * c == (a * c) * b
  {
  }

  /** The controller recovers exactly the local page from the address it is given, whether the system
      rewrites it or, with a single stack in range mode, leaves it alone. */
  lemma ControllerSeesLocalPage(cfg: Config, address: nat, capacity: nat, stacks: nat, contiguous: bool, routeAll: bool)
    requires EqualWholeBlocks(capacity, cfg.pageSize, cfg.pagesPerBlock, stacks)
    ensures var at := MapRelative(LogicalAddress(address, cfg.baseAddr, routeAll), capacity, cfg.pageSize, stacks, contiguous);
      && cfg.PageOf(cfg.baseAddr + at.localOffset) == at.localPage
      && (stacks == 1 && !routeAll ==> cfg.PageOf(address) == at.localPage)
  {
    hide Place, Unplace;
    var relative := LogicalAddress(address, cfg.baseAddr, routeAll);
    MapInverse(relative, capacity, cfg.pageSize, cfg.pagesPerBlock, stacks, contiguous);
    if stacks == 1 { OneStack(relative / cfg.pageSize, capacity / cfg.pageSize, contiguous); }
  }

  lemma OneStack(page: nat, pages: nat, contiguous: bool)
    ensures Place(page, pages, 1, contiguous) == (0, page)
  {
  }

  /** The logical identity of an address is unique exactly in route-all mode or with a zero base: in
      range mode an address below the base shares its identity with one above it. */
  lemma LogicalInjectiveExactly(base: nat, routeAll: bool)
    ensures (routeAll || base == 0)
        <==> forall a: nat, b: nat :: LogicalAddress(a, base, routeAll) == LogicalAddress(b, base, routeAll) ==> a == b
  {
    if !routeAll && base > 0 {
      assert LogicalAddress(0, base, routeAll) == LogicalAddress(base, base, routeAll);
    }
  }
}
