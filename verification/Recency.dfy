/** Exactly which pages an LRU cache holds, read off the sequence of accesses. */
module Recency {
  import opened Basics
  import opened Lru

  // ----- the access sequence --------------------------------------------------------------------------

  /** The last access to the page is the touch at position i. */
  predicate LastTouch(page: nat, accesses: seq<Access>, i: nat) {
    i < |accesses| && accesses[i] == Touch(page)
    && forall j :: i < j < |accesses| ==> accesses[j] != Touch(page) && accesses[j] != Invalidate(page)
  }

  /** The touch at position j is not undone by an invalidation before position n. */
  predicate Standing(accesses: seq<Access>, j: nat, n: nat)
    requires j < n <= |accesses|
  {
    accesses[j].Touch? && forall l :: j < l < n ==> accesses[l] != Invalidate(accesses[j].page)
  }

  /** The other pages touched between positions i and n, and not invalidated since. */
  function Ahead(page: nat, accesses: seq<Access>, i: nat, n: nat): set<nat>
    requires n <= |accesses|
  {
    set j | i < j < n && Standing(accesses, j, n) && accesses[j].page != page :: accesses[j].page
  }

  /** The page was touched, not invalidated since, and at no moment since were as many other pages ahead
      of it as the cache has entries. */
  ghost predicate Kept(capacity: nat, page: nat, accesses: seq<Access>) {
    exists i: nat :: LastTouch(page, accesses, i) && forall n: nat :: i < n <= |accesses| ==> |Ahead(page, accesses, i, n)| < capacity
  }

  // ----- the same, access by access -------------------------------------------------------------------

  function Front(accesses: seq<Access>): seq<Access> requires accesses != [] { accesses[..|accesses| - 1] }

  function Final(accesses: seq<Access>): Access requires accesses != [] { accesses[|accesses| - 1] }

  function Newer(page: nat, accesses: seq<Access>): set<nat> {
    if accesses == [] then {}
    else
      match Final(accesses)
      case Touch(q) => if q == page then {} else Newer(page, Front(accesses)) + {q}
      case Invalidate(q) => if q == page then {} else Newer(page, Front(accesses)) - {q}
  }

  predicate Retained(capacity: nat, page: nat, accesses: seq<Access>) {
    if accesses == [] then false
    else if Final(accesses) == Touch(page) then capacity > 0
    else if Final(accesses) == Invalidate(page) then false
    else Retained(capacity, page, Front(accesses)) && |Newer(page, accesses)| < capacity
  }

  function Members(s: seq<nat>): set<nat> { set x | x in s }

  /** Ahead of each listed page are exactly the pages used since it was. */
  predicate Ordered(cache: seq<nat>, accesses: seq<Access>) {
    forall i :: 0 <= i < |cache| ==> Members(cache[..i]) == Newer(cache[i], accesses)
  }

  lemma {:induction false} MembersSize(s: seq<nat>)
    requires Distinct(s)
    ensures |Members(s)| == |s|
  {
    if s != [] {
      MembersSize(s[1..]);
      assert Members(s) == {s[0]} + Members(s[1..]);
    }
  }

  lemma Position(cache: seq<nat>, page: nat) returns (i: nat)
    requires Distinct(cache) && page in cache
    ensures i < |cache| && cache[i] == page && Without(cache, page) == cache[..i] + cache[i + 1..]
    ensures page !in cache[..i] && page !in cache[i + 1..]
  {
    i :| 0 <= i < |cache| && cache[i] == page;
    assert cache == cache[..i] + [page] + cache[i + 1..];
    WithoutIs(cache[..i], page, cache[i + 1..]);
  }

  lemma MovedOrdered(cache: seq<nat>, before: seq<Access>, page: nat, i: nat)
    requires Distinct(cache) && i < |cache| && cache[i] == page && Ordered(cache, before)
    ensures Ordered([page] + (cache[..i] + cache[i + 1..]), before + [Touch(page)])
  {
    hide Newer;
    var now, after := [page] + (cache[..i] + cache[i + 1..]), before + [Touch(page)];
    forall j | 0 <= j < |now| ensures Members(now[..j]) == Newer(now[j], after) {
      NewerNext(now[j], before, Touch(page));
      if 0 < j <= i {
        assert now[j] == cache[j - 1] && now[..j] == [page] + cache[..j - 1];
      } else if j > i {
        assert now[j] == cache[j] && now[..j] == [page] + (cache[..i] + cache[i + 1..j]);
        assert cache[..j] == cache[..i] + [page] + cache[i + 1..j];
      }
    }
  }

  lemma NewerNext(page: nat, before: seq<Access>, a: Access)
    ensures Newer(page, before + [a]) ==
      if a.page == page then {} else if a.Touch? then Newer(page, before) + {a.page} else Newer(page, before) - {a.page}
  {
    assert Front(before + [a]) == before;
  }

  lemma PushedOrdered(cache: seq<nat>, before: seq<Access>, page: nat, n: nat)
    requires page !in cache && n <= |cache| && Ordered(cache, before)
    ensures Ordered([page] + cache[..n], before + [Touch(page)])
  {
    hide Newer;
    var now, after := [page] + cache[..n], before + [Touch(page)];
    forall j | 0 <= j < |now| ensures Members(now[..j]) == Newer(now[j], after) {
      NewerNext(now[j], before, Touch(page));
      if j > 0 { assert now[j] == cache[j - 1] && now[..j] == [page] + cache[..j - 1]; }
    }
  }

  lemma DroppedOrdered(cache: seq<nat>, before: seq<Access>, page: nat, i: nat)
    requires Distinct(cache) && i < |cache| && cache[i] == page && Ordered(cache, before)
    ensures Ordered(cache[..i] + cache[i + 1..], before + [Invalidate(page)])
  {
    hide Newer;
    var now, after := cache[..i] + cache[i + 1..], before + [Invalidate(page)];
    forall j | 0 <= j < |now| ensures Members(now[..j]) == Newer(now[j], after) {
      NewerNext(now[j], before, Invalidate(page));
      if j < i {
        assert now[j] == cache[j] && now[..j] == cache[..j];
        assert page !in cache[..j];
      } else {
        assert now[j] == cache[j + 1] && now[..j] == cache[..i] + cache[i + 1..j + 1];
        assert cache[..j + 1] == cache[..i] + [page] + cache[i + 1..j + 1];
        assert page !in now[..j];
      }
    }
  }

  lemma AbsentOrdered(cache: seq<nat>, before: seq<Access>, page: nat)
    requires page !in cache && Ordered(cache, before)
    ensures Ordered(cache, before + [Invalidate(page)])
  {
    hide Newer;
    forall j | 0 <= j < |cache| ensures Members(cache[..j]) == Newer(cache[j], before + [Invalidate(page)]) {
      NewerNext(cache[j], before, Invalidate(page));
      assert page !in cache[..j];
    }
  }

  /** The list is in order of recency. */
  lemma {:induction false} ContentsOrdered(capacity: nat, accesses: seq<Access>)
    ensures Ordered(Contents(capacity, accesses), accesses)
    decreases |accesses|
  {
    hide Newer;
    if accesses != [] {
      var before := Front(accesses);
      assert accesses == before + [Final(accesses)];
      ContentsOrdered(capacity, before);
      ContentsBounded(capacity, before);
      var cache := Contents(capacity, before);
      match Final(accesses)
      case Touch(p) =>
        if capacity > 0 {
          if p in cache {
            var i := Position(cache, p);
            MovedOrdered(cache, before, p, i);
          } else if |cache| >= capacity {
            PushedOrdered(cache, before, p, |cache| - 1);
          } else {
            PushedOrdered(cache, before, p, |cache|);
            assert cache[..|cache|] == cache;
          }
        }
      case Invalidate(p) =>
        if p in cache {
          var i := Position(cache, p);
          DroppedOrdered(cache, before, p, i);
        } else {
          WithoutAbsent(cache, p);
          AbsentOrdered(cache, before, p);
        }
    }
  }

  lemma ListedWithin(capacity: nat, page: nat, accesses: seq<Access>)
    ensures page in Contents(capacity, accesses) ==> |Newer(page, accesses)| < capacity
  {
    hide Newer, Contents;
    var cache := Contents(capacity, accesses);
    ContentsOrdered(capacity, accesses);
    ContentsBounded(capacity, accesses);
    if page in cache {
      var i := Position(cache, page);
      assert Members(cache[..i]) == Newer(cache[i], accesses);
      MembersSize(cache[..i]);
    }
  }

  /** The page that gives way has a full list ahead of it. */
  lemma LastIsFull(capacity: nat, before: seq<Access>, q: nat)
    requires var cache := Contents(capacity, before); 0 < capacity <= |cache| && q !in cache
    ensures var cache := Contents(capacity, before); |Newer(cache[|cache| - 1], before + [Touch(q)])| >= capacity
  {
    hide Newer, Contents;
    var cache := Contents(capacity, before);
    ContentsOrdered(capacity, before);
    ContentsBounded(capacity, before);
    var last := |cache| - 1;
    var others := cache[..last];
    assert Members(others) == Newer(cache[last], before);
    MembersSize(others);
    NewerNext(cache[last], before, Touch(q));
    assert q !in Members(others);
  }

  lemma TouchedMembers(capacity: nat, cache: seq<nat>, q: nat)
    requires Bounded(capacity, cache) && capacity > 0
    ensures var now := Insert(capacity, cache, q);
      forall p :: p in now <==> p == q || (p in cache && (q in cache || |cache| < capacity || p != cache[|cache| - 1]))
  {
    WithoutFacts(cache, q);
    var now := Insert(capacity, cache, q);
    if q !in cache && |cache| >= capacity {
      forall p | p in cache && p != cache[|cache| - 1] ensures p in cache[..|cache| - 1] {
        var i :| 0 <= i < |cache| && cache[i] == p;
        assert cache[..|cache| - 1][i] == p;
      }
    }
  }

  lemma {:induction false} ContentsRetained(capacity: nat, page: nat, accesses: seq<Access>)
    ensures page in Contents(capacity, accesses) <==> Retained(capacity, page, accesses)
    decreases |accesses|
  {
    hide Newer, Insert, Without, Bounded;
    if accesses != [] {
      var before, a := Front(accesses), Final(accesses);
      assert accesses == before + [a];
      var cache := Contents(capacity, before);
      ContentsRetained(capacity, page, before);
      ContentsBounded(capacity, before);
      ListedWithin(capacity, page, accesses);
      BoundedIs(capacity, cache);
      if a.Touch? {
        if capacity > 0 {
          TouchedMembers(capacity, cache, a.page);
          if a.page !in cache && |cache| >= capacity { LastIsFull(capacity, before, a.page); }
        } else {
          NothingKept(cache, a.page);
        }
      } else {
        WithoutFacts(cache, a.page);
      }
    }
  }

  lemma BoundedIs(capacity: nat, cache: seq<nat>)
    requires Bounded(capacity, cache)
    ensures Distinct(cache) && |cache| <= capacity
  {
  }

  lemma NothingKept(cache: seq<nat>, page: nat)
    ensures Insert(0, cache, page) == cache
  {
  }

  // ----- back to the sequence ---------------------------------------------------------------------------

  lemma AheadNext(page: nat, before: seq<Access>, a: Access, i: nat, n: nat)
    requires n <= |before|
    ensures Ahead(page, before + [a], i, n) == Ahead(page, before, i, n)
  {
    var all := before + [a];
    forall j: nat | i < j < n ensures Standing(all, j, n) == Standing(before, j, n) {
      if Standing(before, j, n) { forall l | j < l < n ensures all[l] != Invalidate(all[j].page) { assert all[l] == before[l]; } }
      if Standing(all, j, n) { forall l | j < l < n ensures before[l] != Invalidate(before[j].page) { assert all[l] == before[l]; } }
    }
  }

  /** One more access: a touch stands in front, an invalidation takes its page away. */
  lemma AheadOne(page: nat, before: seq<Access>, a: Access, i: nat)
    requires i < |before| && a.page != page
    ensures Ahead(page, before + [a], i, |before| + 1)
      == if a.Touch? then Ahead(page, before, i, |before|) + {a.page} else Ahead(page, before, i, |before|) - {a.page}
  {
    var all, n := before + [a], |before|;
    forall j: nat | i < j < n ensures Standing(all, j, n + 1) <==> Standing(before, j, n) && a != Invalidate(before[j].page) {
      if Standing(before, j, n) && a != Invalidate(before[j].page) {
        forall l | j < l < n + 1 ensures all[l] != Invalidate(all[j].page) { if l < n { assert all[l] == before[l]; } }
      }
      if Standing(all, j, n + 1) {
        forall l | j < l < n ensures before[l] != Invalidate(before[j].page) { assert all[l] == before[l]; }
        assert all[n] != Invalidate(all[j].page);
      }
    }
    var was, now := Ahead(page, before, i, n), Ahead(page, all, i, n + 1);
    forall x | x in now ensures x in (if a.Touch? then was + {a.page} else was - {a.page}) {
      var j: nat :| i < j < n + 1 && Standing(all, j, n + 1) && all[j].page != page && all[j].page == x;
      if j < n { assert Standing(before, j, n) && before[j].page == x; }
    }
    forall x | x in (if a.Touch? then was + {a.page} else was - {a.page}) ensures x in now {
      if a.Touch? && x == a.page {
        assert Standing(all, n, n + 1) && all[n].page == x;
      } else {
        var j: nat :| i < j < n && Standing(before, j, n) && before[j].page != page && before[j].page == x;
        assert Standing(all, j, n + 1) && all[j].page == x;
      }
    }
  }

  lemma {:induction false} AheadIsNewer(page: nat, accesses: seq<Access>, i: nat)
    requires LastTouch(page, accesses, i)
    ensures Ahead(page, accesses, i, |accesses|) == Newer(page, accesses)
    decreases |accesses|
  {
    hide Ahead;
    var before, a := Front(accesses), Final(accesses);
    assert accesses == before + [a];
    if i == |before| {
      NothingAhead(page, accesses, i);
    } else {
      FrontTouch(page, accesses, i);
      AheadIsNewer(page, before, i);
      AheadOne(page, before, a, i);
    }
  }

  lemma NothingAhead(page: nat, accesses: seq<Access>, i: nat)
    requires i + 1 == |accesses|
    ensures Ahead(page, accesses, i, |accesses|) == {}
  {
  }

  lemma FrontTouch(page: nat, accesses: seq<Access>, i: nat)
    requires LastTouch(page, accesses, i) && i + 1 < |accesses|
    ensures LastTouch(page, Front(accesses), i) && Final(accesses).page != page
  {
    var before := Front(accesses);
    forall j | i < j < |before| ensures before[j] != Touch(page) && before[j] != Invalidate(page) { assert before[j] == accesses[j]; }
    assert accesses[|accesses| - 1] != Touch(page) && accesses[|accesses| - 1] != Invalidate(page);
  }

  lemma LaterTouch(page: nat, before: seq<Access>, a: Access, i: nat)
    requires LastTouch(page, before, i) && a.page != page
    ensures LastTouch(page, before + [a], i)
  {
    var all := before + [a];
    forall j | i < j < |all| ensures all[j] != Touch(page) && all[j] != Invalidate(page) { if j < |before| { assert all[j] == before[j]; } }
  }

  lemma {:induction false} RetainedKept(capacity: nat, page: nat, accesses: seq<Access>) returns (i: nat)
    requires Retained(capacity, page, accesses)
    ensures LastTouch(page, accesses, i) && forall n: nat :: i < n <= |accesses| ==> |Ahead(page, accesses, i, n)| < capacity
    decreases |accesses|
  {
    hide Ahead, Newer;
    var before, a := Front(accesses), Final(accesses);
    assert accesses == before + [a];
    if a == Touch(page) {
      i := |before|;
      NothingAhead(page, accesses, i);
    } else {
      i := RetainedKept(capacity, page, before);
      LaterTouch(page, before, a, i);
      AheadIsNewer(page, accesses, i);
      forall n: nat | i < n <= |accesses| ensures |Ahead(page, accesses, i, n)| < capacity { if n <= |before| { AheadNext(page, before, a, i, n); } }
    }
  }

  lemma {:induction false} KeptRetained(capacity: nat, page: nat, accesses: seq<Access>, i: nat)
    requires LastTouch(page, accesses, i) && forall n: nat :: i < n <= |accesses| ==> |Ahead(page, accesses, i, n)| < capacity
    ensures Retained(capacity, page, accesses)
    decreases |accesses|
  {
    hide Ahead, Newer;
    var before, a := Front(accesses), Final(accesses);
    assert accesses == before + [a];
    AheadIsNewer(page, accesses, i);
    if i < |before| {
      FrontTouch(page, accesses, i);
      forall n: nat | i < n <= |before| ensures |Ahead(page, before, i, n)| < capacity { AheadNext(page, before, a, i, n); }
      KeptRetained(capacity, page, before, i);
    }
  }

  // ----- what the cache holds ---------------------------------------------------------------------------

  /** A page is cached if and only if it was touched, not invalidated since, and never had a full cache of
      other pages ahead of it. */
  lemma CachedExactly(capacity: nat, page: nat, accesses: seq<Access>)
    ensures page in Contents(capacity, accesses) <==> Kept(capacity, page, accesses)
  {
    hide Contents, Retained, LastTouch, Ahead;
    ContentsRetained(capacity, page, accesses);
    if Retained(capacity, page, accesses) { var i := RetainedKept(capacity, page, accesses); }
    if i: nat :| LastTouch(page, accesses, i) && forall n: nat :: i < n <= |accesses| ==> |Ahead(page, accesses, i, n)| < capacity {
      KeptRetained(capacity, page, accesses, i);
    }
  }

  /** The distinct other pages touched after position i. */
  function Others(page: nat, accesses: seq<Access>, i: nat): set<nat> {
    set j | i < j < |accesses| && accesses[j].Touch? && accesses[j].page != page :: accesses[j].page
  }

  lemma {:induction false} Smaller(a: set<nat>, b: set<nat>)
    requires a <= b
    ensures |a| <= |b|
  {
    if a != {} {
      var x :| x in a;
      Smaller(a - {x}, b - {x});
    }
  }

  /** Fewer than a cache of other pages since: still there. */
  lemma Keeps(capacity: nat, page: nat, accesses: seq<Access>, i: nat)
    requires LastTouch(page, accesses, i) && |Others(page, accesses, i)| < capacity
    ensures page in Contents(capacity, accesses)
  {
    hide Contents, LastTouch;
    forall n: nat | i < n <= |accesses| ensures |Ahead(page, accesses, i, n)| < capacity {
      assert Ahead(page, accesses, i, n) <= Others(page, accesses, i);
      Smaller(Ahead(page, accesses, i, n), Others(page, accesses, i));
    }
    CachedExactly(capacity, page, accesses);
  }

  /** A full cache of other pages since, none of them invalidated: gone. */
  lemma Evicts(capacity: nat, page: nat, accesses: seq<Access>, i: nat)
    requires LastTouch(page, accesses, i) && |Others(page, accesses, i)| >= capacity
    requires forall j :: i < j < |accesses| ==> accesses[j].Touch?
    ensures page !in Contents(capacity, accesses)
  {
    hide Contents, Retained;
    assert Ahead(page, accesses, i, |accesses|) == Others(page, accesses, i) by {
      forall j: nat | i < j < |accesses| ensures Standing(accesses, j, |accesses|) { }
    }
    CachedExactly(capacity, page, accesses);
  }
}
