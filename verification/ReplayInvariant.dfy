/** What every step of the replay keeps, and why it terminates with every request served once. */
module ReplayInvariant {
  import opened Basics
  import opened Replay

  type Queues = map<nat, seq<nat>>
  type States = map<nat, PageState>

  // ----- tables ---------------------------------------------------------------------------------------

  /** Queues list the live states of each page in creation order; only a head may have been issued. */
  ghost predicate QueuesOk(queues: Queues, states: States) {
    && (forall page :: page in queues ==> QueueOk(queues[page], page, states))
    && (forall t :: t in states ==> states[t].site.page in queues && t in queues[states[t].site.page])
  }

  ghost predicate QueueOk(queue: seq<nat>, page: nat, states: States) {
    && queue != [] && Ascending(queue)
    && (forall t :: t in queue ==> t in states && states[t].site.page == page)
    && (forall i :: 0 < i < |queue| ==> queue[i] in states && !states[queue[i]].issued)
  }

  predicate WaitingOk(waiting: seq<nat>, states: States) { forall t :: t in states && !states[t].issued ==> t in waiting }

  /** A state that is neither ready nor issued has a timer pending. */
  ghost predicate TimersOk(timers: set<Timer>, states: States) {
    forall t :: t in states && !states[t].ready && !states[t].issued ==> exists u :: u in timers && u.token == t
  }

  /** Completions and issued states correspond one to one. */
  ghost predicate CompletionsOk(completions: set<Completion>, states: States) {
    && (forall c :: c in completions ==> c.token in states && states[c.token].issued)
    && (forall t :: t in states && states[t].issued ==> exists c :: c in completions && c.token == t)
    && (forall c, d :: c in completions && d in completions && c.token == d.token ==> c == d)
  }

  predicate SitesOk(p: Params, states: States, nextToken: nat)
    requires p.Valid()
  {
    forall t :: t in states ==> t < nextToken && states[t].site == SiteOfPage(p, states[t].site.page)
  }

  /** A channel busy beyond now has the pending completion that will free it. */
  ghost predicate BusyOk(busy: seq<nat>, completions: set<Completion>, cycle: nat) {
    forall i :: 0 <= i < |busy| && busy[i] > cycle ==> exists c :: c in completions && c.finish == busy[i]
  }

  // ----- services -------------------------------------------------------------------------------------

  /** Two services, the first before the second in time: never together on a channel or a sub-array, and
      in creation order on a page. */
  predicate InOrder(a: Service, b: Service) {
    && (a.site.channel == b.site.channel || a.site.subarray == b.site.subarray ==> a.finish <= b.start)
    && (a.site.page == b.site.page ==> a.token < b.token)
  }

  predicate Serialized(services: seq<Service>) {
    && (forall i :: 0 <= i < |services| ==> services[i].start < services[i].finish)
    && (forall i, j :: 0 <= i < j < |services| ==> InOrder(services[i], services[j]))
  }

  predicate ServicesOk(services: seq<Service>, channelBusy: seq<nat>, subarrayBusy: seq<nat>) {
    && Serialized(services)
    && forall i :: 0 <= i < |services| ==>
         && services[i].site.channel < |channelBusy| && services[i].finish <= channelBusy[services[i].site.channel]
         && services[i].site.subarray < |subarrayBusy| && services[i].finish <= subarrayBusy[services[i].site.subarray]
  }

  /** Unissued states are younger than everything served on their page. */
  predicate PastOk(services: seq<Service>, states: States, nextToken: nat) {
    && (forall i :: 0 <= i < |services| ==> services[i].token < nextToken)
    && forall i, t :: 0 <= i < |services| && t in states && !states[t].issued && states[t].site.page == services[i].site.page ==> services[i].token < t
  }

  // ----- accounts -------------------------------------------------------------------------------------

  function Ids(requests: seq<Request>): seq<nat> { if requests == [] then [] else Ids(requests[..|requests| - 1]) + [requests[|requests| - 1].id] }

  function RowIds(rows: seq<Row>, kind: Kind): seq<nat> {
    if rows == [] then [] else RowIds(rows[..|rows| - 1], kind) + (if rows[|rows| - 1].kind == kind
        then [rows[|rows| - 1].id] else [])
  }

  /** Every accepted request is in exactly one live state, once, or has its one COMPLETED row. */
  ghost predicate Accounted(ingress: seq<nat>, completed: seq<nat>, states: States) {
    && Distinct(ingress) && Distinct(completed)
    && (forall id :: id in completed ==> id in ingress)
    && (forall t :: t in states ==> states[t].ids != [] && Distinct(states[t].ids))
    && (forall t, id :: t in states && id in states[t].ids ==> id in ingress && id !in completed)
    && (forall t, u, id :: t in states && u in states && id in states[t].ids && id in states[u].ids ==> t == u)
    && (forall id :: id in ingress ==> id in completed || exists t :: t in states && id in states[t].ids)
  }

  ghost predicate Ok(p: Params, requests: seq<Request>, s: State, index: nat)
    requires p.Valid() && index <= |requests|
  {
    && QueuesOk(s.queues, s.states) && WaitingOk(s.waiting, s.states) && TimersOk(s.timers, s.states)
    && CompletionsOk(s.completions, s.states) && SitesOk(p, s.states, s.nextToken)
    && |s.channelBusy| == p.channels && |s.subarrayBusy| == p.subarrays
    && ServicesOk(s.services, s.channelBusy, s.subarrayBusy) && PastOk(s.services, s.states, s.nextToken)
    && RowIds(s.rows, Ingress) == Ids(requests[..index]) && Accounted(Ids(requests[..index]), RowIds(s.rows, Completed), s.states)
    && |s.completions| <= p.maxActive && s.peak <= p.maxActive
  }

  ghost predicate TimesOk(s: State, cycle: nat) { BusyOk(s.channelBusy, s.completions, cycle) && BusyOk(s.subarrayBusy, s.completions, cycle) }

  lemma InitOk(p: Params, requests: seq<Request>)
    requires p.Valid()
    ensures Ok(p, requests, Init(p), 0) && TimesOk(Init(p), 0)
  {
    assert requests[..0] == [];
  }

  // ----- rows -----------------------------------------------------------------------------------------

  lemma {:induction false} RowIdsAppend(a: seq<Row>, b: seq<Row>, kind: Kind)
    ensures RowIds(a + b, kind) == RowIds(a, kind) + RowIds(b, kind)
  {
    if b == [] {
      assert a + b == a;
    } else {
      assert (a + b)[..|a + b| - 1] == a + b[..|b| - 1];
      RowIdsAppend(a, b[..|b| - 1], kind);
    }
  }

  lemma RowIdsOne(row: Row, kind: Kind)
    ensures RowIds([row], kind) == if row.kind == kind then [row.id] else []
  {
    assert RowIds([row][..0], kind) == [];
  }

  lemma IdsAppend(requests: seq<Request>, index: nat)
    requires index < |requests|
    ensures Ids(requests[..index + 1]) == Ids(requests[..index]) + [requests[index].id]
  {
    assert requests[..index + 1][..index] == requests[..index];
  }

  lemma {:induction false} IdsAre(requests: seq<Request>)
    ensures |Ids(requests)| == |requests| && forall i :: 0 <= i < |requests| ==> Ids(requests)[i] == requests[i].id
  {
    if requests != [] { IdsAre(requests[..|requests| - 1]); }
  }

  lemma DistinctAppend(a: seq<nat>, x: nat)
    requires Distinct(a) && x !in a
    ensures Distinct(a + [x])
  {
  }

  // ----- ingest ---------------------------------------------------------------------------------------

  /** The parts of a page state the queue, timer and service tables look at are untouched. */
  predicate Milder(t: PageState, g: PageState) { g.site == t.site && g.issued == t.issued && (t.ready ==> g.ready) }

  lemma QueuesMilder(queues: Queues, states: States, k: nat, g: PageState)
    requires QueuesOk(queues, states) && k in states && g.site == states[k].site && g.issued == states[k].issued
    ensures QueuesOk(queues, states[k := g])
  {
    var after := states[k := g];
    forall page | page in queues ensures QueueOk(queues[page], page, after) { assert QueueOk(queues[page], page, states); }
  }

  lemma TablesMilder(p: Params, s: State, k: nat, g: PageState)
    requires p.Valid() && k in s.states && Milder(s.states[k], g)
    requires QueuesOk(s.queues, s.states) && WaitingOk(s.waiting, s.states) && TimersOk(s.timers, s.states)
        && CompletionsOk(s.completions, s.states)
    requires SitesOk(p, s.states, s.nextToken) && PastOk(s.services, s.states, s.nextToken)
    ensures var states := s.states[k := g];
      && QueuesOk(s.queues, states) && WaitingOk(s.waiting, states) && TimersOk(s.timers, states)
          && CompletionsOk(s.completions, states)
      && SitesOk(p, states, s.nextToken) && PastOk(s.services, states, s.nextToken)
  {
    hide SiteOfPage, QueueOk;
    QueuesMilder(s.queues, s.states, k, g);
  }

  lemma AccountedJoin(ingress: seq<nat>, completed: seq<nat>, states: States, k: nat, g: PageState, id: nat)
    requires Accounted(ingress, completed, states) && k in states && id !in ingress && g.ids == states[k].ids + [id]
    ensures Accounted(ingress + [id], completed, states[k := g])
  {
    var after, more := states[k := g], ingress + [id];
    DistinctAppend(ingress, id);
    DistinctAppend(states[k].ids, id);
    forall x | x in more ensures x in completed || exists t :: t in after && x in after[t].ids {
      if x == id {
        assert x in after[k].ids;
      } else if x !in completed {
        var t :| t in states && x in states[t].ids;
        assert t in after && x in after[t].ids;
      }
    }
  }

  lemma AccountedFresh(ingress: seq<nat>, completed: seq<nat>, states: States, k: nat, g: PageState, id: nat)
    requires Accounted(ingress, completed, states) && k !in states && id !in ingress && g.ids == [id]
    ensures Accounted(ingress + [id], completed, states[k := g])
  {
    var after, more := states[k := g], ingress + [id];
    DistinctAppend(ingress, id);
    forall x | x in more ensures x in completed || exists t :: t in after && x in after[t].ids {
      if x == id {
        assert x in after[k].ids;
      } else if x !in completed {
        var t :| t in states && x in states[t].ids;
        assert t in after && x in after[t].ids;
      }
    }
  }

  lemma AccountedSame(ingress: seq<nat>, completed: seq<nat>, states: States, k: nat, g: PageState)
    requires Accounted(ingress, completed, states) && k in states && g.ids == states[k].ids
    ensures Accounted(ingress, completed, states[k := g])
  {
    var after := states[k := g];
    forall x | x in ingress ensures x in completed || exists t :: t in after && x in after[t].ids {
      if x !in completed {
        var t :| t in states && x in states[t].ids;
        assert t in after && x in after[t].ids;
      }
    }
  }

  lemma QueuesEnqueue(queues: Queues, states: States, k: nat, g: PageState)
    requires QueuesOk(queues, states) && (forall t :: t in states ==> t < k) && !g.issued
    ensures var page := g.site.page; QueuesOk(queues[page := (if page in queues then queues[page] else []) + [k]], states[k := g])
  {
    var page := g.site.page;
    var queue := if page in queues then queues[page] else [];
    var after, all := states[k := g], queues[page := queue + [k]];
    forall q | q in all ensures QueueOk(all[q], q, after) {
      if q in queues { assert QueueOk(queues[q], q, states); }
      if q == page {
        forall i, j | 0 <= i < j < |all[q]| ensures all[q][i] < all[q][j] { if j == |queue| { assert queue[i] in queue; } }
      }
    }
  }

  lemma TablesEnqueue(p: Params, s: State, k: nat, g: PageState, timers: set<Timer>)
    requires p.Valid() && k == s.nextToken && !g.issued && g.site == SiteOfPage(p, g.site.page)
    requires timers == s.timers || exists u: Timer :: timers == s.timers + {u} && u.token == k
    requires !g.ready ==> exists u :: u in timers && u.token == k
    requires QueuesOk(s.queues, s.states) && WaitingOk(s.waiting, s.states) && TimersOk(s.timers, s.states)
        && CompletionsOk(s.completions, s.states)
    requires SitesOk(p, s.states, s.nextToken) && PastOk(s.services, s.states, s.nextToken)
    ensures var states := s.states[k := g]; var page := g.site.page;
      && QueuesOk(s.queues[page := (if page in s.queues then s.queues[page] else []) + [k]], states)
      && WaitingOk(s.waiting + [k], states) && TimersOk(timers, states) && CompletionsOk(s.completions, states)
      && SitesOk(p, states, k + 1) && PastOk(s.services, states, k + 1)
  {
    hide SiteOfPage, QueueOk;
    QueuesEnqueue(s.queues, s.states, k, g);
  }

  lemma PageOfSite(p: Params, page: nat)
    requires p.Valid()
    ensures SiteOfPage(p, page).page == page && SiteOfPage(p, page).channel < p.channels
        && SiteOfPage(p, page).subarray < p.subarrays
  {
  }

  lemma FreshFacts(p: Params, r: Request)
    requires p.Valid() && Acceptable(p, r)
    ensures var g := Fresh(p, r); !g.issued && g.ids == [r.id] && g.site == SiteOfPage(p, g.site.page)
  {
    hide Covered;
    PageOfSite(p, (r.address - p.base) / p.pageSize);
  }

  /** Between a request's INGRESS row and its page state. */
  ghost predicate Taken(p: Params, requests: seq<Request>, s: State, index: nat)
    requires p.Valid() && index < |requests|
  {
    && QueuesOk(s.queues, s.states) && WaitingOk(s.waiting, s.states) && TimersOk(s.timers, s.states)
    && CompletionsOk(s.completions, s.states) && SitesOk(p, s.states, s.nextToken)
    && |s.channelBusy| == p.channels && |s.subarrayBusy| == p.subarrays
    && ServicesOk(s.services, s.channelBusy, s.subarrayBusy) && PastOk(s.services, s.states, s.nextToken)
    && RowIds(s.rows, Ingress) == Ids(requests[..index + 1])
        && Accounted(Ids(requests[..index]), RowIds(s.rows, Completed), s.states)
    && |s.completions| <= p.maxActive && s.peak <= p.maxActive
  }

  lemma EnqueueOk(p: Params, requests: seq<Request>, s: State, index: nat)
    requires p.Valid() && index < |requests| && Acceptable(p, requests[index]) && Distinct(Ids(requests))
        && Taken(p, requests, s, index)
    ensures Ok(p, requests, Enqueue(p, s, requests[index]), index + 1)
  {
    hide QueuesOk, WaitingOk, TimersOk, CompletionsOk, SitesOk, PastOk, ServicesOk, Accounted, SiteOfPage, Ids, RowIds,
        Fresh, Hold, Acceptable;
    var r := requests[index];
    var g := Fresh(p, r);
    FreshFacts(p, r);
    var t := Enqueue(p, s, r);
    if !g.ready { assert Timer(r.arrival + Hold(p, r.write), s.nextTimer, s.nextToken) in t.timers; }
    TablesEnqueue(p, s, s.nextToken, g, t.timers);
    NewId(requests, index);
    IdsAppend(requests, index);
    TokenIsNew(p, s);
    AccountedFresh(Ids(requests[..index]), RowIds(s.rows, Completed), s.states, s.nextToken, g, r.id);
  }

  lemma HurryTaken(p: Params, requests: seq<Request>, s: State, index: nat, tail: Option<nat>, r: Request)
    requires p.Valid() && index < |requests| && Taken(p, requests, s, index)
    ensures Taken(p, requests, Hurry(s, tail, r), index)
  {
    hide QueuesOk, WaitingOk, TimersOk, CompletionsOk, SitesOk, PastOk, ServicesOk, Accounted, SiteOfPage, Ids, RowIds;
    var t := Hurry(s, tail, r);
    if t != s {
      var g := s.states[tail.value].(ready := true);
      TablesMilder(p, s, tail.value, g);
      AccountedSame(Ids(requests[..index]), RowIds(s.rows, Completed), s.states, tail.value, g);
    }
  }

  lemma IngressTaken(p: Params, requests: seq<Request>, s: State, index: nat, cycle: nat)
    requires p.Valid() && index < |requests| && Ok(p, requests, s, index)
    ensures Taken(p, requests, s.(rows := s.rows + [Row(cycle, requests[index].id, Ingress, false)]), index)
  {
    hide QueuesOk, WaitingOk, TimersOk, CompletionsOk, SitesOk, PastOk, ServicesOk, Accounted, Ids, RowIds;
    IngressRow(s.rows, cycle, requests[index].id);
    IdsAppend(requests, index);
  }

  lemma TokenIsNew(p: Params, s: State)
    requires p.Valid() && SitesOk(p, s.states, s.nextToken)
    ensures s.nextToken !in s.states
  {
    hide SiteOfPage;
  }

  lemma NewId(requests: seq<Request>, index: nat)
    requires index < |requests| && Distinct(Ids(requests))
    ensures requests[index].id !in Ids(requests[..index])
  {
    IdsAre(requests);
    IdsAre(requests[..index]);
    forall i | 0 <= i < index ensures Ids(requests[..index])[i] != requests[index].id { assert Ids(requests)[i] != Ids(requests)[index]; }
  }

  lemma JoinOk(p: Params, requests: seq<Request>, s: State, index: nat, k: nat)
    requires p.Valid() && index < |requests| && Acceptable(p, requests[index]) && Distinct(Ids(requests))
    requires Taken(p, requests, s, index) && k in s.states
    ensures Ok(p, requests, s.(states := s.states[k := Joined(p, s.states[k], requests[index])]), index + 1)
  {
    hide QueuesOk, WaitingOk, TimersOk, CompletionsOk, SitesOk, PastOk, ServicesOk, Accounted, Ids, RowIds, Covered;
    var r := requests[index];
    var g := Joined(p, s.states[k], r);
    TablesMilder(p, s, k, g);
    NewId(requests, index);
    IdsAppend(requests, index);
    AccountedJoin(Ids(requests[..index]), RowIds(s.rows, Completed), s.states, k, g, r.id);
  }

  lemma IngressRow(rows: seq<Row>, cycle: nat, id: nat)
    ensures RowIds(rows + [Row(cycle, id, Ingress, false)], Ingress) == RowIds(rows, Ingress) + [id]
    ensures RowIds(rows + [Row(cycle, id, Ingress, false)], Completed) == RowIds(rows, Completed)
  {
    var row := Row(cycle, id, Ingress, false);
    RowIdsAppend(rows, [row], Ingress);
    RowIdsAppend(rows, [row], Completed);
    RowIdsOne(row, Ingress);
    RowIdsOne(row, Completed);
  }

  lemma IngestOk(p: Params, requests: seq<Request>, s: State, index: nat, cycle: nat)
    requires p.Valid() && index < |requests| && Acceptable(p, requests[index]) && Distinct(Ids(requests))
        && Ok(p, requests, s, index)
    ensures var t := Ingest(p, s, requests[index], cycle);
      Ok(p, requests, t, index + 1) && t.completions == s.completions && t.channelBusy == s.channelBusy
          && t.subarrayBusy == s.subarrayBusy
  {
    hide Ok, Taken, Joined, RowIds, Ids, SiteOfPage, Fresh, Covered;
    var r := requests[index];
    var t := s.(rows := s.rows + [Row(cycle, r.id, Ingress, false)]);
    IngressTaken(p, requests, s, index, cycle);
    var tail := Tail(s, SiteOf(p, r.address).page);
    if tail.Some? && Joins(t, tail.value, r) {
      JoinOk(p, requests, t, index, tail.value);
    } else {
      HurryTaken(p, requests, t, index, tail, r);
      EnqueueOk(p, requests, Hurry(t, tail, r), index);
    }
  }

  // ----- timers ---------------------------------------------------------------------------------------

  lemma ReleaseOneOk(p: Params, requests: seq<Request>, s: State, index: nat)
    requires p.Valid() && index <= |requests| && Ok(p, requests, s, index) && s.timers != {}
    ensures var t := ReleaseOne(p, s); Ok(p, requests, t, index) && |t.timers| < |s.timers|
    ensures var t := ReleaseOne(p, s); t.completions == s.completions && t.channelBusy == s.channelBusy && t.subarrayBusy == s.subarrayBusy && Unissued(t) == Unissued(s)
  {
    hide QueuesOk, WaitingOk, CompletionsOk, SitesOk, PastOk, ServicesOk, Accounted, Ids, RowIds, Next;
    var u := Next(s.timers);
    var t := ReleaseOne(p, s);
    if t.states != s.states {
      TablesMilder(p, s, u.token, Expire(p, s.states[u.token]));
      AccountedSame(Ids(requests[..index]), RowIds(s.rows, Completed), s.states, u.token, Expire(p, s.states[u.token]));
    }
    FiredTimer(s.timers, u, s.states, t.states);
  }

  lemma FiredTimer(timers: set<Timer>, u: Timer, states: States, after: States)
    requires TimersOk(timers, states)
    requires after == states || (u.token in states && u.token in after && after == states[u.token := after[u.token]]
        && after[u.token].ready)
    requires after == states ==> u.token !in states || states[u.token].issued || states[u.token].ready
    ensures TimersOk(timers - {u}, after)
  {
    forall t | t in after && !after[t].ready && !after[t].issued ensures exists v :: v in timers - {u} && v.token == t {
      var v :| v in timers && v.token == t;
      assert v in timers - {u};
    }
  }

  lemma {:induction false} ReleaseDueOk(p: Params, requests: seq<Request>, s: State, index: nat, cycle: nat)
    requires p.Valid() && index <= |requests| && Ok(p, requests, s, index)
    ensures var t := ReleaseDue(p, s, cycle);
      && Ok(p, requests, t, index) && t.completions == s.completions && t.channelBusy == s.channelBusy
          && t.subarrayBusy == s.subarrayBusy
      && Unissued(t) == Unissued(s) && |t.timers| <= |s.timers|
      && (s.timers != {} && Next(s.timers).deadline <= cycle ==> |t.timers| < |s.timers|)
    decreases |s.timers|
  {
    hide Ok, ReleaseOne, Unissued, Next;
    if !(s.timers == {} || Next(s.timers).deadline > cycle) {
      ReleaseOneOk(p, requests, s, index);
      ReleaseDueOk(p, requests, ReleaseOne(p, s), index, cycle);
    }
  }

  // ----- completions ----------------------------------------------------------------------------------

  lemma AscendingTail(queue: seq<nat>)
    requires queue != [] && Ascending(queue)
    ensures Ascending(queue[1..]) && queue[0] !in queue[1..] && forall t :: t in queue && t != queue[0] ==> t in queue[1..]
  {
    assert queue == [queue[0]] + queue[1..];
    forall i | 0 <= i < |queue[1..]| ensures queue[1..][i] > queue[0] { assert queue[1..][i] == queue[i + 1]; }
  }

  lemma IssuedIsHead(queue: seq<nat>, page: nat, states: States, k: nat)
    requires QueueOk(queue, page, states) && k in queue && states[k].issued
    ensures queue[0] == k
  {
    var i :| 0 <= i < |queue| && queue[i] == k;
    hide Ascending;
    assert i == 0;
  }

  /** An issued state heads its queue; the rest of the queue is a queue. */
  lemma QueueComplete(queue: seq<nat>, page: nat, states: States, k: nat)
    requires QueueOk(queue, page, states) && k in queue && states[k].issued
    ensures queue[0] == k && (queue[1..] != [] ==> QueueOk(queue[1..], page, states - {k}))
    ensures forall t :: t in queue && t != k ==> t in queue[1..]
  {
    hide Ascending;
    IssuedIsHead(queue, page, states, k);
    AscendingTail(queue);
    var rest := queue[1..];
    forall t | t in rest ensures t in states - {k} && states[t].site.page == page { assert t in queue; }
    forall i | 0 < i < |rest| ensures rest[i] in states - {k} && !states[rest[i]].issued { assert rest[i] == queue[i + 1] && rest[i] in rest; }
  }

  lemma QueueElsewhere(queue: seq<nat>, page: nat, states: States, k: nat)
    requires QueueOk(queue, page, states) && k in states && states[k].site.page != page
    ensures QueueOk(queue, page, states - {k})
  {
    assert k !in queue;
  }

  lemma QueuesComplete(queues: Queues, states: States, k: nat)
    requires QueuesOk(queues, states) && k in states && states[k].issued
    ensures QueuesOk(Dequeue(queues, states[k].site.page, k), states - {k})
    ensures states[k].site.page in queues && queues[states[k].site.page] != [] && queues[states[k].site.page][0] == k
  {
    hide QueueOk;
    var page := states[k].site.page;
    QueueNonempty(queues[page], page, states);
    QueueComplete(queues[page], page, states, k);
    var after := Dequeue(queues, page, k);
    forall q | q in after ensures QueueOk(after[q], q, states - {k}) {
      if q != page { QueueElsewhere(queues[q], q, states, k); }
    }
  }

  lemma QueueNonempty(queue: seq<nat>, page: nat, states: States)
    requires QueueOk(queue, page, states)
    ensures queue != []
  {
  }

  lemma CompletionsComplete(completions: set<Completion>, states: States, c: Completion)
    requires CompletionsOk(completions, states) && c in completions
    ensures c.token in states && states[c.token].issued && CompletionsOk(completions - {c}, states - {c.token})
  {
    var after := states - {c.token};
    forall t | t in after && after[t].issued ensures exists d :: d in completions - {c} && d.token == t {
      var d :| d in completions && d.token == t;
      assert d in completions - {c};
    }
  }

  lemma OthersComplete(p: Params, s: State, k: nat)
    requires p.Valid() && k in s.states && s.states[k].issued
    requires WaitingOk(s.waiting, s.states) && TimersOk(s.timers, s.states) && SitesOk(p, s.states, s.nextToken)
        && PastOk(s.services, s.states, s.nextToken)
    ensures var states := s.states - {k};
      WaitingOk(s.waiting, states) && TimersOk(s.timers, states) && SitesOk(p, states, s.nextToken)
          && PastOk(s.services, states, s.nextToken)
  {
    hide SiteOfPage;
  }

  lemma {:induction false} DoneIds(requests: seq<Request>, ids: seq<nat>, cycle: nat, error: bool)
    requires Distinct(Ids(requests))
    ensures var done := RowIds(DoneRows(requests, ids, cycle, error), Completed);
      && Distinct(done) && (forall id :: id in done <==> id in ids && id in Ids(requests))
      && RowIds(DoneRows(requests, ids, cycle, error), Ingress) == []
  {
    if requests != [] {
      var rest := requests[1..];
      TailIds(requests);
      DoneIds(rest, ids, cycle, error);
      var row := Row(cycle, requests[0].id, Completed, error);
      RowIdsOne(row, Completed);
      RowIdsOne(row, Ingress);
      if requests[0].id in ids {
        RowIdsAppend([row], DoneRows(rest, ids, cycle, error), Completed);
        RowIdsAppend([row], DoneRows(rest, ids, cycle, error), Ingress);
        DistinctPrepend(requests[0].id, RowIds(DoneRows(rest, ids, cycle, error), Completed));
      } else {
        assert DoneRows(requests, ids, cycle, error) == DoneRows(rest, ids, cycle, error);
      }
    }
  }

  lemma DistinctPrepend(x: nat, a: seq<nat>)
    requires Distinct(a) && x !in a
    ensures Distinct([x] + a)
  {
  }

  lemma {:induction false} TailIds(requests: seq<Request>)
    requires requests != []
    ensures Ids(requests) == [requests[0].id] + Ids(requests[1..])
    ensures Distinct(Ids(requests)) ==> Distinct(Ids(requests[1..])) && requests[0].id !in Ids(requests[1..])
  {
    IdsAre(requests);
    IdsAre(requests[1..]);
    assert Ids(requests) == [requests[0].id] + Ids(requests[1..]);
    var rest := Ids(requests[1..]);
    if Distinct(Ids(requests)) {
      forall i | 0 <= i < |rest| ensures rest[i] != requests[0].id { assert Ids(requests)[i + 1] == rest[i]; }
      forall i, j | 0 <= i < j < |rest| ensures rest[i] != rest[j] { assert Ids(requests)[i + 1] == rest[i] && Ids(requests)[j + 1] == rest[j]; }
    }
  }

  lemma AccountedComplete(ingress: seq<nat>, completed: seq<nat>, states: States, k: nat, done: seq<nat>)
    requires Accounted(ingress, completed, states) && k in states && Distinct(done) && forall id :: id in done <==> id in states[k].ids
    ensures Accounted(ingress, completed + done, states - {k})
  {
    var after, more := states - {k}, completed + done;
    forall i, j | 0 <= i < j < |more| ensures more[i] != more[j] {
      if i < |completed| <= j { assert more[i] in completed && more[j] in done; }
      else if |completed| <= i { assert more[i] == done[i - |completed|] && more[j] == done[j - |completed|]; }
    }
    forall x | x in ingress ensures x in more || exists t :: t in after && x in after[t].ids {
      if x !in more {
        var t :| t in states && x in states[t].ids;
        assert t in after && x in after[t].ids;
      }
    }
  }

  lemma PrefixIds(requests: seq<Request>, index: nat, id: nat)
    requires index <= |requests| && id in Ids(requests[..index])
    ensures id in Ids(requests)
  {
    IdsAre(requests);
    IdsAre(requests[..index]);
    var i :| 0 <= i < index && Ids(requests[..index])[i] == id;
    assert Ids(requests)[i] == id;
  }

  lemma CompleteOneOk(p: Params, requests: seq<Request>, s: State, index: nat, cycle: nat)
    requires p.Valid() && index <= |requests| && Distinct(Ids(requests)) && Ok(p, requests, s, index) && s.completions != {}
    ensures var t := CompleteOne(requests, s, cycle);
      Ok(p, requests, t, index) && t.completions == s.completions - {First(s.completions)} && t.timers == s.timers
          && Unissued(t) == Unissued(s)
      && t.channelBusy == s.channelBusy && t.subarrayBusy == s.subarrayBusy
  {
    hide QueuesOk, WaitingOk, TimersOk, CompletionsOk, SitesOk, PastOk, ServicesOk, Accounted, Ids, RowIds, First,
        Dequeue, DoneRows, Unissued;
    var c := First(s.completions);
    FirstIn(s.completions);
    CompletionsComplete(s.completions, s.states, c);
    QueuesComplete(s.queues, s.states, c.token);
    OthersComplete(p, s, c.token);
    var done := s.states[c.token];
    var rows := DoneRows(requests, done.ids, cycle, done.error);
    DoneIds(requests, done.ids, cycle, done.error);
    RowIdsAppend(s.rows, rows, Ingress);
    RowIdsAppend(s.rows, rows, Completed);
    LiveIdsKnown(requests, index, RowIds(s.rows, Completed), s.states, c.token);
    AccountedComplete(Ids(requests[..index]), RowIds(s.rows, Completed), s.states, c.token, RowIds(rows, Completed));
    assert RowIds(s.rows, Ingress) + [] == RowIds(s.rows, Ingress);
    UnissuedComplete(s, CompleteOne(requests, s, cycle), c.token);
  }

  lemma UnissuedComplete(s: State, t: State, k: nat)
    requires k in s.states && s.states[k].issued && t.states == s.states - {k}
    ensures Unissued(t) == Unissued(s)
  {
  }

  lemma LiveIdsKnown(requests: seq<Request>, index: nat, completed: seq<nat>, states: States, k: nat)
    requires index <= |requests| && Accounted(Ids(requests[..index]), completed, states) && k in states
    ensures forall id :: id in states[k].ids ==> id in Ids(requests)
  {
    hide Ids;
    forall id | id in states[k].ids ensures id in Ids(requests) { PrefixIds(requests, index, id); }
  }

  lemma BusyComplete(busy: seq<nat>, completions: set<Completion>, c: Completion, cycle: nat)
    requires BusyOk(busy, completions, cycle) && c.finish <= cycle
    ensures BusyOk(busy, completions - {c}, cycle)
  {
    forall i | 0 <= i < |busy| && busy[i] > cycle ensures exists d :: d in completions - {c} && d.finish == busy[i] {
      var d :| d in completions && d.finish == busy[i];
      assert d in completions - {c};
    }
  }

  lemma {:induction false} CompleteDueOk(p: Params, requests: seq<Request>, s: State, index: nat, cycle: nat)
    requires p.Valid() && index <= |requests| && Distinct(Ids(requests)) && Ok(p, requests, s, index) && TimesOk(s, cycle)
    ensures var t := CompleteDue(requests, s, cycle);
      && Ok(p, requests, t, index) && TimesOk(t, cycle) && t.timers == s.timers && Unissued(t) == Unissued(s)
          && |t.completions| <= |s.completions|
      && (s.completions != {} && First(s.completions).finish <= cycle ==> |t.completions| < |s.completions|)
    decreases |s.completions|
  {
    hide Ok, BusyOk, CompleteOne, Unissued, Ids, First;
    if !(s.completions == {} || First(s.completions).finish > cycle) {
      var t := CompleteOne(requests, s, cycle);
      CompleteOneOk(p, requests, s, index, cycle);
      FirstIn(s.completions);
      BusyComplete(s.channelBusy, s.completions, First(s.completions), cycle);
      BusyComplete(s.subarrayBusy, s.completions, First(s.completions), cycle);
      CompleteDueOk(p, requests, t, index, cycle);
    }
  }

  lemma FirstIn(heap: set<Completion>)
    requires heap != {}
    ensures First(heap) in heap && |heap - {First(heap)}| < |heap|
  {
  }

  // ----- issuing --------------------------------------------------------------------------------------

  lemma {:induction false} ChooseFacts(s: State, waiting: seq<nat>, cycle: nat)
    ensures var (chosen, rest) := Choose(s, waiting, cycle);
      && (chosen.Some? ==> Schedulable(s, chosen.value, cycle) && chosen.value in waiting)
      && (chosen.None? ==> forall t :: t in waiting ==> !Schedulable(s, t, cycle))
      && (forall t :: t in waiting && Pending(s, t) && chosen != Some(t) ==> t in rest)
  {
    hide Head, Free;
    if waiting != [] { ChooseFacts(s, waiting[1..], cycle); }
  }

  lemma QueuesIssue(queues: Queues, states: States, k: nat, g: PageState)
    requires QueuesOk(queues, states) && k in states && g.site == states[k].site && queues[g.site.page] != []
        && queues[g.site.page][0] == k
    ensures QueuesOk(queues, states[k := g])
  {
    var after := states[k := g];
    forall page | page in queues ensures QueueOk(queues[page], page, after) {
      assert QueueOk(queues[page], page, states);
      if k in queues[page] { OnlyHead(queues[page], page, states, k); }
    }
  }

  lemma OnlyHead(queue: seq<nat>, page: nat, states: States, k: nat)
    requires QueueOk(queue, page, states) && queue[0] == k
    ensures forall i :: 0 < i < |queue| ==> queue[i] != k
  {
  }

  lemma CompletionsIssue(completions: set<Completion>, states: States, c: Completion, g: PageState)
    requires CompletionsOk(completions, states) && c.token in states && !states[c.token].issued && g.issued
    ensures CompletionsOk(completions + {c}, states[c.token := g]) && c !in completions
  {
    var after, all := states[c.token := g], completions + {c};
    forall t | t in after && after[t].issued ensures exists d :: d in all && d.token == t {
      if t == c.token { assert c in all; } else {
        var d :| d in completions && d.token == t;
        assert d in all;
      }
    }
  }

  lemma BusyIssue(busy: seq<nat>, completions: set<Completion>, c: Completion, i: nat, cycle: nat, occupied: bool)
    requires BusyOk(busy, completions, cycle)
    ensures BusyOk(if occupied then Occupy(busy, i, c.finish) else busy, completions + {c}, cycle)
  {
    var after := if occupied then Occupy(busy, i, c.finish) else busy;
    forall j | 0 <= j < |after| && after[j] > cycle ensures exists d :: d in completions + {c} && d.finish == after[j] {
      if after[j] == busy[j] {
        var d :| d in completions && d.finish == busy[j];
        assert d in completions + {c};
      } else {
        assert c in completions + {c};
      }
    }
  }

  lemma OthersIssue(p: Params, s: State, k: nat, g: PageState, waiting: seq<nat>)
    requires p.Valid() && k in s.states && g.issued && g.site == s.states[k].site
    requires TimersOk(s.timers, s.states) && SitesOk(p, s.states, s.nextToken)
    requires forall t :: t in s.states && !s.states[t].issued && t != k ==> t in waiting
    ensures var states := s.states[k := g]; WaitingOk(waiting, states) && TimersOk(s.timers, states) && SitesOk(p, states, s.nextToken)
  {
    hide SiteOfPage;
  }

  /** A service starts only on a free channel and sub-array, for the oldest state of its page. */
  lemma ServicesIssue(services: seq<Service>, channelBusy: seq<nat>, subarrayBusy: seq<nat>, v: Service, states: States,
      nextToken: nat)
    requires ServicesOk(services, channelBusy, subarrayBusy) && PastOk(services, states, nextToken)
    requires v.site.channel < |channelBusy| && v.site.subarray < |subarrayBusy| && v.start < v.finish
    requires channelBusy[v.site.channel] <= v.start && subarrayBusy[v.site.subarray] <= v.start
    requires v.token in states && !states[v.token].issued && states[v.token].site.page == v.site.page && v.token < nextToken
    ensures ServicesOk(services + [v], Occupy(channelBusy, v.site.channel, v.finish),
        Occupy(subarrayBusy, v.site.subarray, v.finish))
  {
    var all := services + [v];
    forall i, j | 0 <= i < j < |all| ensures InOrder(all[i], all[j]) {
      if j < |services| { assert InOrder(services[i], services[j]); }
    }
  }

  lemma PastIssue(services: seq<Service>, states: States, nextToken: nat, v: Service, g: PageState)
    requires PastOk(services, states, nextToken) && v.token in states && !states[v.token].issued && g.issued
        && v.token < nextToken
    requires forall t :: t in states && !states[t].issued && states[t].site.page == v.site.page && t != v.token ==> v.token < t
    ensures PastOk(services + [v], states[v.token := g], nextToken) && PastOk(services, states[v.token := g], nextToken)
  {
    var all, after := services + [v], states[v.token := g];
    forall i, t | 0 <= i < |all| && t in after && !after[t].issued
        && after[t].site.page == all[i].site.page ensures all[i].token < t { }
  }

  lemma HeadIsOldest(queues: Queues, states: States, k: nat)
    requires QueuesOk(queues, states) && k in states && states[k].site.page in queues
        && queues[states[k].site.page] != [] && queues[states[k].site.page][0] == k
    ensures forall t :: t in states && states[t].site.page == states[k].site.page && t != k ==> k < t
  {
    var queue := queues[states[k].site.page];
    forall t | t in states && states[t].site.page == states[k].site.page && t != k ensures k < t {
      assert QueueOk(queue, states[k].site.page, states);
      var i :| 0 <= i < |queue| && queue[i] == t;
      assert i > 0;
    }
  }

  lemma DurationPositive(p: Params, s: State, t: PageState)
    requires p.Valid()
    ensures Duration(p, s, t) > 0
  {
    hide Transfer;
  }

  lemma {:induction false} IssueRowIds(s: State, t: PageState, cycle: nat)
    ensures RowIds(IssueRows(s, t, cycle), Ingress) == [] && RowIds(IssueRows(s, t, cycle), Completed) == []
  {
    var id := if t.ids == [] then 0 else t.ids[0];
    RowIdsOne(Row(cycle, id, Read, false), Ingress);
    RowIdsOne(Row(cycle, id, Read, false), Completed);
    RowIdsOne(Row(cycle, id, Program, false), Ingress);
    RowIdsOne(Row(cycle, id, Program, false), Completed);
    RowIdsOne(Row(cycle, id, Erase, false), Ingress);
    RowIdsOne(Row(cycle, id, Erase, false), Completed);
    RowIdsAppend([Row(cycle, id, Erase, false)], [Row(cycle, id, Program, false)], Ingress);
    RowIdsAppend([Row(cycle, id, Erase, false)], [Row(cycle, id, Program, false)], Completed);
    assert [] + [Row(cycle, id, Program, false)] == [Row(cycle, id, Program, false)];
  }

  lemma SchedulableFacts(p: Params, s: State, k: nat, cycle: nat)
    requires p.Valid() && Schedulable(s, k, cycle) && SitesOk(p, s.states, s.nextToken) && |s.channelBusy| == p.channels
        && |s.subarrayBusy| == p.subarrays
    ensures k in s.states && !s.states[k].issued && k < s.nextToken
    ensures var site := s.states[k].site;
      && site.page in s.queues && s.queues[site.page] != [] && s.queues[site.page][0] == k
      && site.channel < |s.channelBusy| && site.subarray < |s.subarrayBusy| && s.channelBusy[site.channel] <= cycle
          && s.subarrayBusy[site.subarray] <= cycle
  {
    hide SiteOfPage;
    PageOfSite(p, s.states[k].site.page);
  }

  lemma IssueOk(p: Params, requests: seq<Request>, s: State, index: nat, k: nat, cycle: nat, waiting: seq<nat>)
    requires p.Valid() && index <= |requests| && Ok(p, requests, s, index) && TimesOk(s, cycle)
        && Schedulable(s, k, cycle) && |s.completions| < p.maxActive
    requires forall t :: t in s.states && !s.states[t].issued && t != k ==> t in waiting
    ensures var t := Issue(p, s.(waiting := waiting), k, cycle);
      Ok(p, requests, t, index) && TimesOk(t, cycle) && t.timers == s.timers && |t.completions| == |s.completions| + 1
  {
    hide QueuesOk, WaitingOk, TimersOk, CompletionsOk, SitesOk, PastOk, ServicesOk, Accounted, Ids, RowIds, BusyOk,
        Duration, Rejected, IssueRows, Schedulable, Occupy;
    SchedulableFacts(p, s, k, cycle);
    var was := s.states[k];
    var t := Issue(p, s.(waiting := waiting), k, cycle);
    var g := t.states[k];
    var rejected := Rejected(p, was);
    var finish := if rejected then cycle else cycle + Duration(p, s.(waiting := waiting), was);
    var c := Completion(finish, s.nextSequence, k);
    var v := Service(k, was.site, cycle, finish, was);
    QueuesIssue(s.queues, s.states, k, g);
    CompletionsIssue(s.completions, s.states, c, g);
    OthersIssue(p, s, k, g, waiting);
    BusyIssue(s.channelBusy, s.completions, c, was.site.channel, cycle, !rejected);
    BusyIssue(s.subarrayBusy, s.completions, c, was.site.subarray, cycle, !rejected);
    HeadIsOldest(s.queues, s.states, k);
    PastIssue(s.services, s.states, s.nextToken, v, g);
    DurationPositive(p, s.(waiting := waiting), was);
    if !rejected { ServicesIssue(s.services, s.channelBusy, s.subarrayBusy, v, s.states, s.nextToken); }
    OccupyLength(s.channelBusy, was.site.channel, finish);
    OccupyLength(s.subarrayBusy, was.site.subarray, finish);
    IssueRowIds(s.(waiting := waiting), was, cycle);
    RowIdsAppend(s.rows, IssueRows(s.(waiting := waiting), was, cycle), Ingress);
    RowIdsAppend(s.rows, IssueRows(s.(waiting := waiting), was, cycle), Completed);
    assert RowIds(s.rows, Ingress) + [] == RowIds(s.rows, Ingress) && RowIds(s.rows, Completed) + [] == RowIds(s.rows, Completed);
    AccountedSame(Ids(requests[..index]), RowIds(s.rows, Completed), s.states, k, g);
  }

  lemma OccupyLength(busy: seq<nat>, i: nat, until: nat)
    ensures |Occupy(busy, i, until)| == |busy|
  {
  }

  lemma PrunedOk(p: Params, requests: seq<Request>, s: State, index: nat, waiting: seq<nat>)
    requires p.Valid() && index <= |requests| && Ok(p, requests, s, index) && forall t :: t in s.states && !s.states[t].issued ==> t in waiting
    ensures Ok(p, requests, s.(waiting := waiting), index)
  {
    hide QueuesOk, TimersOk, CompletionsOk, SitesOk, PastOk, ServicesOk, Accounted, Ids, RowIds;
  }

  lemma AllWaiting(p: Params, requests: seq<Request>, s: State, index: nat)
    requires p.Valid() && index <= |requests| && Ok(p, requests, s, index)
    ensures WaitingOk(s.waiting, s.states)
  {
    hide QueuesOk, TimersOk, CompletionsOk, SitesOk, PastOk, ServicesOk, Accounted, Ids, RowIds;
  }

  /** If nothing is in service and no timer is left, some queue head can be issued. */
  lemma HeadCanIssue(p: Params, requests: seq<Request>, s: State, index: nat, cycle: nat) returns (k: nat)
    requires p.Valid() && index <= |requests| && Ok(p, requests, s, index) && TimesOk(s, cycle)
    requires s.states != map[] && s.completions == {} && s.timers == {}
    ensures Schedulable(s, k, cycle) && k in s.waiting
  {
    hide ServicesOk, PastOk, Accounted, Ids, RowIds, SiteOfPage;
    var t :| t in s.states;
    var page := s.states[t].site.page;
    assert QueueOk(s.queues[page], page, s.states);
    k := s.queues[page][0];
    assert k in s.queues[page];
  }

  /** Issuing keeps the tables; with states left but nothing in service afterwards, a timer is pending. */
  lemma {:induction false} IssueReadyOk(p: Params, requests: seq<Request>, s: State, index: nat, cycle: nat)
    requires p.Valid() && index <= |requests| && Ok(p, requests, s, index) && TimesOk(s, cycle)
    ensures var t := IssueReady(p, s, cycle);
      && Ok(p, requests, t, index) && TimesOk(t, cycle) && t.timers == s.timers
      && |Unissued(t)| + |t.completions| <= |Unissued(s)| + |s.completions|
      && (t.states != map[] && t.timers == {} ==> t.completions != {})
    decreases |Unissued(s)|
  {
    hide Ok, BusyOk, Unissued, Choose, Issue, Schedulable, Head, Free;
    if |s.completions| < p.maxActive {
      ChooseFacts(s, s.waiting, cycle);
      AllWaiting(p, requests, s, index);
      var (chosen, rest) := Choose(s, s.waiting, cycle);
      UnissuedWaiting(s, rest);
      if chosen.None? {
        PrunedOk(p, requests, s, index, rest);
        if s.states != map[] && s.completions == {} && s.timers == {} {
          var k := HeadCanIssue(p, requests, s, index, cycle);
        }
      } else {
        SchedulablePending(s, chosen.value, cycle);
        IssueOk(p, requests, s, index, chosen.value, cycle, rest);
        IssueShrinks(p, s.(waiting := rest), chosen.value, cycle);
        IssueReadyOk(p, requests, Issue(p, s.(waiting := rest), chosen.value, cycle), index, cycle);
      }
    }
  }

  lemma UnissuedWaiting(s: State, waiting: seq<nat>)
    ensures Unissued(s.(waiting := waiting)) == Unissued(s)
  {
  }

  lemma SchedulablePending(s: State, k: nat, cycle: nat)
    requires Schedulable(s, k, cycle)
    ensures Pending(s, k)
  {
  }

  // ----- progress -------------------------------------------------------------------------------------

  /** Falls at every loop turn: an arrival may become a state and a timer, a state becomes a completion. */
  function Measure(requests: seq<Request>, s: State, index: nat): nat
    requires index <= |requests|
  {
    3 * (|requests| - index) + |s.timers| + |Unissued(s)| + |s.completions|
  }

  lemma TimesLater(s: State, cycle: nat, later: nat)
    requires TimesOk(s, cycle) && cycle <= later
    ensures TimesOk(s, later)
  {
  }

  lemma UnissuedBound(a: State, b: State, k: nat)
    requires Unissued(b) <= Unissued(a) + {k}
    ensures |Unissued(b)| <= |Unissued(a)| + 1
  {
    SubsetSize(Unissued(b), Unissued(a) + {k});
    assert |Unissued(a) + {k}| <= |Unissued(a)| + 1;
  }

  lemma {:induction false} SubsetSize(a: set<nat>, b: set<nat>)
    requires a <= b
    ensures |a| <= |b|
  {
    if a != {} {
      var x :| x in a;
      SubsetSize(a - {x}, b - {x});
    }
  }

  lemma IngestMeasure(p: Params, s: State, r: Request, cycle: nat)
    requires p.Valid() && Acceptable(p, r)
    ensures var t := Ingest(p, s, r, cycle); |t.timers| <= |s.timers| + 1 && |Unissued(t)| <= |Unissued(s)| + 1 && t.completions == s.completions
  {
    hide SiteOfPage, Covered, Hold;
    var t := Ingest(p, s, r, cycle);
    assert Unissued(t) <= Unissued(s) + {s.nextToken};
    UnissuedBound(s, t, s.nextToken);
  }

  /** Where the least candidate came from. */
  lemma LeastIsDue(requests: seq<Request>, s: State, index: nat, now: nat)
    requires Candidates(requests, s, index) != [] && now == Least(Candidates(requests, s, index))
    ensures (index < |requests| && requests[index].arrival == now) || (s.completions != {} && First(s.completions).finish == now)
         || (s.timers != {} && Next(s.timers).deadline == now)
  {
    hide First, Next;
  }

  /** All served: with no live state left, the COMPLETED rows name every ingested request exactly once. */
  lemma AllServed(p: Params, requests: seq<Request>, s: State)
    requires p.Valid() && Ok(p, requests, s, |requests|) && s.states == map[]
    ensures RowIds(s.rows, Ingress) == Ids(requests)
    ensures Distinct(RowIds(s.rows, Completed)) && forall id :: id in RowIds(s.rows, Completed) <==> id in Ids(requests)
    ensures Serialized(s.services) && s.peak <= p.maxActive
  {
    hide QueuesOk, WaitingOk, TimersOk, CompletionsOk, SitesOk, PastOk, Ids, RowIds, Serialized;
    assert requests[..|requests|] == requests;
  }
}
