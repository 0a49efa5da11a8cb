/** The logic-die page cache: an LRU list with an index of list nodes, and what its size cannot change. */
module Lru {
  import opened Basics

  function Without(cache: seq<nat>, page: nat): seq<nat> {
    if cache == [] then [] else if cache[0] == page then cache[1..] else [cache[0]] + Without(cache[1..], page)
  }

  /** Most recently used first; the last page gives way when the cache is full. */
  function Insert(capacity: nat, cache: seq<nat>, page: nat): seq<nat> {
    if capacity == 0 then cache
    else if page in cache then [page] + Without(cache, page)
    else if |cache| >= capacity then [page] + cache[..|cache| - 1]
    else [page] + cache
  }

  lemma {:induction false} WithoutIs(before: seq<nat>, page: nat, after: seq<nat>)
    requires page !in before
    ensures Without(before + [page] + after, page) == before + after
  {
    var all := before + [page] + after;
    if before == [] {
      assert all == [page] + after && all[1..] == after;
      assert before + after == after;
    } else {
      assert all[0] == before[0] && all[1..] == before[1..] + [page] + after;
      WithoutIs(before[1..], page, after);
      assert before + after == [before[0]] + (before[1..] + after);
    }
  }

  lemma {:induction false} WithoutOthers(cache: seq<nat>, page: nat, other: nat)
    requires other != page
    ensures other in Without(cache, page) <==> other in cache
  {
    if cache != [] { WithoutOthers(cache[1..], page, other); }
  }

  lemma {:induction false} WithoutAbsent(cache: seq<nat>, page: nat)
    requires page !in cache
    ensures Without(cache, page) == cache
  {
    if cache != [] { WithoutAbsent(cache[1..], page); }
  }

  // ----- inclusion ------------------------------------------------------------------------------------

  /** Touch is a lookup followed by an insert on a miss. */
  datatype Access = Touch(page: nat) | Invalidate(page: nat)

  function Step(capacity: nat, cache: seq<nat>, a: Access): seq<nat> {
    match a
    case Touch(p) => Insert(capacity, cache, p)
    case Invalidate(p) => Without(cache, p)
  }

  function Contents(capacity: nat, accesses: seq<Access>): seq<nat> {
    if accesses == [] then [] else Step(capacity, Contents(capacity, accesses[..|accesses| - 1]), accesses[|accesses| - 1])
  }

  function Hits(capacity: nat, accesses: seq<Access>): nat {
    if accesses == [] then 0
    else
      var before, last := accesses[..|accesses| - 1], accesses[|accesses| - 1];
      Hits(capacity, before) + if last.Touch? && last.page in Contents(capacity, before) then 1 else 0
  }

  predicate Bounded(capacity: nat, cache: seq<nat>) { Distinct(cache) && |cache| <= capacity }

  lemma {:induction false} WithoutFacts(cache: seq<nat>, page: nat)
    requires Distinct(cache)
    ensures Distinct(Without(cache, page)) && |Without(cache, page)| == |cache| - (if page in cache then 1 else 0)
    ensures forall p :: p in Without(cache, page) <==> p in cache && p != page
  {
    if cache != [] {
      var rest := cache[1..];
      forall i | 0 <= i < |rest| ensures rest[i] != cache[0] { assert rest[i] == cache[i + 1]; }
      WithoutFacts(rest, page);
      assert cache == [cache[0]] + rest;
      if cache[0] != page { DistinctCons(cache[0], Without(rest, page)); }
    }
  }

  lemma DistinctCons(page: nat, cache: seq<nat>)
    requires Distinct(cache) && page !in cache
    ensures Distinct([page] + cache)
  {
  }

  lemma StepBounded(capacity: nat, cache: seq<nat>, a: Access)
    requires Bounded(capacity, cache)
    ensures Bounded(capacity, Step(capacity, cache, a))
  {
    hide Without, Distinct;
    WithoutFacts(cache, a.page);
    if a.Touch? {
      DistinctCons(a.page, Without(cache, a.page));
      if a.page !in cache {
        DistinctCons(a.page, cache);
        if cache != [] { DistinctCons(a.page, cache[..|cache| - 1]) by { DistinctInit(cache); } }
      }
    }
  }

  lemma DistinctInit(cache: seq<nat>)
    requires Distinct(cache) && cache != []
    ensures Distinct(cache[..|cache| - 1])
  {
  }

  lemma {:induction false} ContentsBounded(capacity: nat, accesses: seq<Access>)
    ensures Bounded(capacity, Contents(capacity, accesses))
  {
    hide Bounded;
    if accesses == [] {
      EmptyBounded(capacity);
    } else {
      ContentsBounded(capacity, accesses[..|accesses| - 1]);
      StepBounded(capacity, Contents(capacity, accesses[..|accesses| - 1]), accesses[|accesses| - 1]);
    }
  }

  lemma EmptyBounded(capacity: nat)
    ensures Bounded(capacity, [])
  {
  }

  lemma {:induction false} WithoutPrefix(small: seq<nat>, large: seq<nat>, page: nat)
    requires small <= large
    ensures Without(small, page) <= Without(large, page)
    ensures page !in small ==> small <= Without(large, page)
  {
    if small != [] && small[0] != page {
      assert small == [small[0]] + small[1..];
      WithoutPrefix(small[1..], large[1..], page);
    }
  }

  lemma StepInclusion(capacity: nat, small: seq<nat>, large: seq<nat>, a: Access)
    requires small <= large && Bounded(capacity, small) && Bounded(capacity + 1, large)
    ensures Step(capacity, small, a) <= Step(capacity + 1, large, a)
  {
    hide Without;
    WithoutPrefix(small, large, a.page);
    if a.Touch? && capacity > 0 && a.page !in small && a.page in large && |small| >= capacity {
      assert small[..|small| - 1] <= Without(large, a.page);
    }
  }

  /** The list of a k-entry cache is always a prefix of that of a (k+1)-entry cache. */
  lemma {:induction false} Inclusion(capacity: nat, accesses: seq<Access>)
    ensures Contents(capacity, accesses) <= Contents(capacity + 1, accesses)
  {
    hide Step, Bounded;
    if accesses != [] {
      var before := accesses[..|accesses| - 1];
      Inclusion(capacity, before);
      ContentsBounded(capacity, before);
      ContentsBounded(capacity + 1, before);
      StepInclusion(capacity, Contents(capacity, before), Contents(capacity + 1, before), accesses[|accesses| - 1]);
    }
  }

  lemma {:induction false} InclusionUpTo(capacity: nat, larger: nat, accesses: seq<Access>)
    requires capacity <= larger
    ensures Contents(capacity, accesses) <= Contents(larger, accesses)
    decreases larger
  {
    if capacity < larger {
      InclusionUpTo(capacity, larger - 1, accesses);
      Inclusion(larger - 1, accesses);
    }
  }

  /** A larger cache never hits less often. */
  lemma {:induction false} HitsMonotone(capacity: nat, larger: nat, accesses: seq<Access>)
    requires capacity <= larger
    ensures Hits(capacity, accesses) <= Hits(larger, accesses)
    decreases |accesses|
  {
    hide Contents;
    if accesses != [] {
      var before := accesses[..|accesses| - 1];
      HitsMonotone(capacity, larger, before);
      InclusionUpTo(capacity, larger, before);
    }
  }

  // ----- the class ------------------------------------------------------------------------------------

  /** A list node; the index stores handles the way the source stores list iterators. */
  datatype Node = Node(handle: nat, page: nat)

  function PagesOf(list: seq<Node>): (r: seq<nat>)
    ensures |r| == |list| && forall i :: 0 <= i < |r| ==> r[i] == list[i].page
  {
    seq(|list|, i requires 0 <= i < |list| => list[i].page)
  }

  class PageCache {
    const maxEntries: nat
    var list: seq<Node>
    var index: map<nat, nat>
    var nextHandle: nat
    var hits: nat
    var misses: nat
    var evictions: nat

    /** List and index describe the same duplicate-free set, within capacity. */
    ghost predicate Valid()
      reads this
    {
      Bounded(maxEntries, PagesOf(list)) && Linked(list, index, nextHandle)
    }

    ghost function Pages(): seq<nat>
      reads this
    {
      PagesOf(list)
    }

    constructor (max: nat)
      ensures Valid() && Pages() == [] && maxEntries == max && hits == 0 && misses == 0 && evictions == 0
    {
      maxEntries := max;
      list, index, nextHandle := [], map[], 0;
      hits, misses, evictions := 0, 0, 0;
    }

    /** `m_lru_list.erase(it->second)`: unlink the node the page's handle points to. */
    method Unlink(page: nat)
      requires Valid() && page in index
      modifies this`list
      ensures PagesOf(list) == Without(old(Pages()), page) && |list| < |old(list)|
      ensures Linked(list, index - {page}, nextHandle) && page !in PagesOf(list) && Bounded(maxEntries, PagesOf(list))
    {
      assert Node(index[page], page) in list;
      var i := 0;
      while list[i].handle != index[page]
        invariant 0 <= i < |list| && list == old(list)
        invariant exists j :: i <= j < |list| && list[j].handle == index[page]
        decreases |list| - i
      {
        i := i + 1;
      }
      HandlePage(list, index, nextHandle, i, page);
      UnlinkedPages(list, i);
      UnlinkedLinks(list, index, nextHandle, i);
      WithoutFacts(PagesOf(list), page);
      list := list[..i] + list[i + 1..];
    }

    /** `push_front` and the index update. */
    method PushFront(page: nat)
      requires Linked(list, index - {page}, nextHandle) && page !in PagesOf(list) && Distinct(PagesOf(list))
          && |list| < maxEntries
      modifies this`list, this`index, this`nextHandle
      ensures Valid() && Pages() == [page] + old(PagesOf(list))
    {
      DistinctCons(page, PagesOf(list));
      FrontPages(list, Node(nextHandle, page));
      FrontLinks(list, index, nextHandle, page);
      list := [Node(nextHandle, page)] + list;
      index := index[page := nextHandle];
      nextHandle := nextHandle + 1;
    }

    /** A cached page is unlinked and becomes the most recent. */
    method MoveToFront(page: nat)
      requires Valid() && page in index
      modifies this`list, this`index, this`nextHandle
      ensures Valid() && Pages() == [page] + Without(old(Pages()), page)
    {
      Unlink(page);
      PushFront(page);
    }

    /** A hit moves the page to the front. */
    method Lookup(page: nat) returns (hit: bool)
      requires Valid()
      modifies this
      ensures Valid() && hit == (page in old(Pages()))
      ensures Pages() == if hit then Insert(maxEntries, old(Pages()), page) else old(Pages())
      ensures hits == old(hits) + (if hit then 1 else 0) && misses == old(misses) + (if hit then 0 else 1)
          && evictions == old(evictions)
    {
      IndexedPages(list, index, nextHandle, page);
      if maxEntries == 0 {
        misses := misses + 1;
        return false;
      }
      if page in index {
        MoveToFront(page);
        hits := hits + 1;
        return true;
      }
      misses := misses + 1;
      return false;
    }

    method Add(page: nat)
      requires Valid()
      modifies this
      ensures Valid() && Pages() == Insert(maxEntries, old(Pages()), page) && hits == old(hits) && misses == old(misses)
      ensures evictions == old(evictions) + if maxEntries > 0 && page !in old(Pages()) && |old(Pages())| >= maxEntries
          then 1 else 0
    {
      IndexedPages(list, index, nextHandle, page);
      if maxEntries == 0 { return; }
      if page in index {
        MoveToFront(page);
        return;
      }
      if |list| >= maxEntries {
        var victim := list[|list| - 1].page;
        LastUnlinked(list, index, nextHandle);
        DistinctInit(PagesOf(list));
        list := list[..|list| - 1];
        index := index - {victim};
        evictions := evictions + 1;
      }
      assert index - {page} == index;
      PushFront(page);
    }

    method Drop(page: nat)
      requires Valid()
      modifies this`list, this`index
      ensures Valid() && Pages() == Without(old(Pages()), page)
    {
      IndexedPages(list, index, nextHandle, page);
      if page in index {
        Unlink(page);
        index := index - {page};
      } else {
        WithoutAbsent(PagesOf(list), page);
      }
    }
  }

  ghost predicate NodesIndexed(list: seq<Node>, index: map<nat, nat>, nextHandle: nat) {
    forall n :: n in list ==> n.page in index && index[n.page] == n.handle && n.handle < nextHandle
  }

  ghost predicate IndexListed(list: seq<Node>, index: map<nat, nat>) { forall p :: p in index ==> Node(index[p], p) in list }

  predicate DistinctHandles(list: seq<Node>) { forall i, j :: 0 <= i < j < |list| ==> list[i].handle != list[j].handle }

  /** Index and nodes point at each other; handles are distinct. */
  ghost predicate Linked(list: seq<Node>, index: map<nat, nat>, nextHandle: nat) {
    NodesIndexed(list, index, nextHandle) && IndexListed(list, index) && DistinctHandles(list)
  }

  lemma IndexedPages(list: seq<Node>, index: map<nat, nat>, nextHandle: nat, page: nat)
    requires Linked(list, index, nextHandle)
    ensures page in index <==> page in PagesOf(list)
  {
    if page in index {
      var i :| 0 <= i < |list| && list[i] == Node(index[page], page);
      assert PagesOf(list)[i] == page;
    }
    if page in PagesOf(list) {
      var i :| 0 <= i < |list| && PagesOf(list)[i] == page;
      assert list[i] in list;
    }
  }

  lemma HandlePage(list: seq<Node>, index: map<nat, nat>, nextHandle: nat, i: nat, page: nat)
    requires Linked(list, index, nextHandle) && page in index && i < |list| && list[i].handle == index[page]
    ensures list[i].page == page
  {
    var j :| 0 <= j < |list| && list[j] == Node(index[page], page);
    assert i == j;
  }

  lemma UnlinkedPages(list: seq<Node>, i: nat)
    requires i < |list| && Distinct(PagesOf(list))
    ensures PagesOf(list[..i] + list[i + 1..]) == Without(PagesOf(list), list[i].page)
  {
    var pages := PagesOf(list);
    var page := list[i].page;
    assert pages == pages[..i] + [page] + pages[i + 1..];
    assert page !in pages[..i];
    WithoutIs(pages[..i], page, pages[i + 1..]);
    assert PagesOf(list[..i] + list[i + 1..]) == pages[..i] + pages[i + 1..];
  }

  lemma RestMembers(list: seq<Node>, i: nat)
    requires i < |list| && Distinct(PagesOf(list))
    ensures forall n :: n in list[..i] + list[i + 1..] <==> n in list && n.page != list[i].page
  {
    var rest, page := list[..i] + list[i + 1..], list[i].page;
    forall n | n in rest ensures n in list && n.page != page {
      var k :| 0 <= k < |rest| && rest[k] == n;
      var m := if k < i then k else k + 1;
      assert list[m] == n && PagesOf(list)[m] == n.page && PagesOf(list)[i] == page;
    }
    forall n | n in list && n.page != page ensures n in rest {
      var k :| 0 <= k < |list| && list[k] == n;
      assert rest[if k < i then k else k - 1] == n;
    }
  }

  lemma RestHandles(list: seq<Node>, i: nat)
    requires i < |list| && DistinctHandles(list)
    ensures DistinctHandles(list[..i] + list[i + 1..])
  {
    var rest := list[..i] + list[i + 1..];
    forall a, b | 0 <= a < b < |rest| ensures rest[a].handle != rest[b].handle {
      assert rest[a] == list[if a < i then a else a + 1] && rest[b] == list[if b < i then b else b + 1];
    }
  }

  lemma RestLinked(list: seq<Node>, rest: seq<Node>, index: map<nat, nat>, nextHandle: nat, page: nat)
    requires NodesIndexed(list, index, nextHandle) && IndexListed(list, index)
    requires forall n :: n in rest <==> n in list && n.page != page
    ensures NodesIndexed(rest, index - {page}, nextHandle) && IndexListed(rest, index - {page})
  {
  }

  lemma UnlinkedLinks(list: seq<Node>, index: map<nat, nat>, nextHandle: nat, i: nat)
    requires i < |list| && Linked(list, index, nextHandle) && Distinct(PagesOf(list))
    ensures Linked(list[..i] + list[i + 1..], index - {list[i].page}, nextHandle)
  {
    hide Distinct, NodesIndexed, IndexListed, DistinctHandles;
    RestMembers(list, i);
    RestHandles(list, i);
    RestLinked(list, list[..i] + list[i + 1..], index, nextHandle, list[i].page);
  }

  lemma LastUnlinked(list: seq<Node>, index: map<nat, nat>, nextHandle: nat)
    requires list != [] && Linked(list, index, nextHandle) && Distinct(PagesOf(list))
    ensures Linked(list[..|list| - 1], index - {list[|list| - 1].page}, nextHandle)
    ensures PagesOf(list[..|list| - 1]) == PagesOf(list)[..|list| - 1]
  {
    UnlinkedLinks(list, index, nextHandle, |list| - 1);
    assert list[..|list| - 1] + list[|list|..] == list[..|list| - 1];
  }

  lemma FrontPages(list: seq<Node>, n: Node)
    ensures PagesOf([n] + list) == [n.page] + PagesOf(list)
  {
  }

  lemma FrontLinks(list: seq<Node>, index: map<nat, nat>, nextHandle: nat, page: nat)
    requires Linked(list, index - {page}, nextHandle) && page !in PagesOf(list)
    ensures Linked([Node(nextHandle, page)] + list, index[page := nextHandle], nextHandle + 1)
  {
    var front := [Node(nextHandle, page)] + list;
    var after := index[page := nextHandle];
    forall p: nat | p in after ensures Node(after[p], p) in front {
      if p == page { assert front[0] in front; } else { assert p in index - {page}; }
    }
  }
}
