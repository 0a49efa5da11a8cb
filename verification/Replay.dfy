/** The trace replay as a value and its transitions: page states in FIFO queues, aggregation timers,
    serialized channel and sub-array service, and completions in a heap. */
module Replay {
  import opened Basics

  datatype Request = Request(id: nat, write: bool, address: nat, bytes: nat, arrival: nat)

  /** Command-line parameters after the constructor's clamping; `bytesPerTick` is the link rate. */
  datatype Params = Params(
    base: nat, span: nat, pageSize: nat, channels: nat, subarrays: nat, maxActive: nat,
    tRead: nat, tProg: nat, tErase: nat, aggregation: bool, readWindow: nat, readThreshold: nat,
    writeTimeout: nat, strict: bool, bytesPerTick: real)
  {
    predicate Valid() {
      && pageSize > 0 && channels > 0 && subarrays >= channels && maxActive > 0
      && tRead > 0 && tProg > 0 && readThreshold > 0 && bytesPerTick > 0.0
    }
  }

  datatype Site = Site(page: nat, channel: nat, subarray: nat)

  datatype PageState = PageState(
    site: Site, write: bool, firstArrival: nat, ids: seq<nat>, bytes: nat, offsets: set<nat>, ready: bool, issued: bool,
        error: bool)

  datatype Timer = Timer(deadline: nat, sequence: nat, token: nat)

  datatype Completion = Completion(finish: nat, sequence: nat, token: nat)

  datatype Kind = Ingress | Erase | Program | Read | Completed

  datatype Row = Row(cycle: nat, id: nat, kind: Kind, error: bool)

  /** One use of a channel and a sub-array, for a page state as it was when issued. */
  datatype Service = Service(token: nat, site: Site, start: nat, finish: nat, state: PageState)

  /** A page state as it was when completed. */
  datatype Done = Done(token: nat, state: PageState, cycle: nat)

  datatype State = State(
    queues: map<nat, seq<nat>>,
    states: map<nat, PageState>,
    waiting: seq<nat>,
    timers: set<Timer>,
    completions: set<Completion>,
    channelBusy: seq<nat>,
    subarrayBusy: seq<nat>,
    nextToken: nat,
    nextSequence: nat,
    nextTimer: nat,
    programmed: set<nat>,
    rows: seq<Row>,
    services: seq<Service>,
    done: seq<Done>,
    expired: set<nat>,
    peak: nat)

  function Init(p: Params): State {
    State(map[], map[], [], {}, {}, seq(p.channels, i => 0), seq(p.subarrays, i => 0), 1, 1, 1, {}, [], [], [], {}, 0)
  }

  // ----- heaps ----------------------------------------------------------------------------------------

  predicate Sooner(a: Completion, b: Completion) {
    a.finish < b.finish || (a.finish == b.finish && (a.sequence < b.sequence || (a.sequence == b.sequence && a.token <= b.token)))
  }

  function First(heap: set<Completion>): (c: Completion)
    requires heap != {}
    ensures c in heap && forall d :: d in heap ==> Sooner(c, d)
  {
    FirstExists(heap);
    var c :| c in heap && forall d :: d in heap ==> Sooner(c, d);
    c
  }

  lemma {:induction false} FirstExists(heap: set<Completion>)
    requires heap != {}
    ensures exists c :: c in heap && forall d :: d in heap ==> Sooner(c, d)
  {
    var e :| e in heap;
    if heap == {e} {
      assert forall d :: d in heap ==> Sooner(e, d);
    } else {
      FirstExists(heap - {e});
      var m :| m in heap - {e} && forall d :: d in heap - {e} ==> Sooner(m, d);
      var best := if Sooner(e, m) then e else m;
      forall d | d in heap ensures Sooner(best, d) { if d != e { assert d in heap - {e}; } }
      assert best in heap;
    }
  }

  predicate Earlier(a: Timer, b: Timer) {
    a.deadline < b.deadline || (a.deadline == b.deadline
        && (a.sequence < b.sequence || (a.sequence == b.sequence && a.token <= b.token)))
  }

  function Next(heap: set<Timer>): (t: Timer)
    requires heap != {}
    ensures t in heap && forall u :: u in heap ==> Earlier(t, u)
  {
    NextExists(heap);
    var t :| t in heap && forall u :: u in heap ==> Earlier(t, u);
    t
  }

  lemma {:induction false} NextExists(heap: set<Timer>)
    requires heap != {}
    ensures exists t :: t in heap && forall u :: u in heap ==> Earlier(t, u)
  {
    var e :| e in heap;
    if heap == {e} {
      assert forall u :: u in heap ==> Earlier(e, u);
    } else {
      NextExists(heap - {e});
      var m :| m in heap - {e} && forall u :: u in heap - {e} ==> Earlier(m, u);
      var best := if Earlier(e, m) then e else m;
      forall u | u in heap ensures Earlier(best, u) { if u != e { assert u in heap - {e}; } }
      assert best in heap;
    }
  }

  // ----- ingest ---------------------------------------------------------------------------------------

  /** Channel and sub-array of a page. */
  function SiteOfPage(p: Params, page: nat): Site
    requires p.Valid()
  {
    var channel := page % p.channels;
    var perChannel := p.subarrays / p.channels;
    var local := page / p.channels;
    var spread := if perChannel > 0 then local % perChannel else 0;
    var subarray := channel * perChannel + spread;
    Site(page, channel, if subarray >= p.subarrays then p.subarrays - 1 else subarray)
  }

  function SiteOf(p: Params, address: nat): Site
    requires p.Valid() && p.base <= address
  {
    SiteOfPage(p, (address - p.base) / p.pageSize)
  }

  predicate InSpan(p: Params, r: Request) { p.base <= r.address < p.base + p.span }

  function Offset(p: Params, r: Request): nat
    requires p.Valid() && p.base <= r.address
  {
    (r.address - p.base) % p.pageSize
  }

  /** What `ingest` accepts without raising. */
  predicate Acceptable(p: Params, r: Request)
    requires p.Valid()
  {
    InSpan(p, r) && (r.write ==> Offset(p, r) + r.bytes <= p.pageSize)
  }

  function Covered(p: Params, r: Request): set<nat>
    requires p.Valid() && Acceptable(p, r)
  {
    if r.write then Span(Offset(p, r), r.bytes) else {}
  }

  function Tail(s: State, page: nat): Option<nat> {
    if page in s.queues && s.queues[page] != [] then Some(s.queues[page][|s.queues[page]| - 1]) else None
  }

  predicate Joins(s: State, token: nat, r: Request) {
    token in s.states && s.states[token].write == r.write && (!r.write || !s.states[token].issued)
  }

  function Joined(p: Params, t: PageState, r: Request): PageState
    requires p.Valid() && Acceptable(p, r)
  {
    var g := t.(ids := t.ids + [r.id], bytes := t.bytes + r.bytes, offsets := t.offsets + Covered(p, r));
    g.(ready := t.ready || (if r.write then |g.offsets| >= p.pageSize else g.bytes >= p.readThreshold))
  }

  function Fresh(p: Params, r: Request): PageState
    requires p.Valid() && Acceptable(p, r)
  {
    PageState(SiteOf(p, r.address), r.write, r.arrival, [r.id], r.bytes, Covered(p, r),
              if r.write then |Covered(p, r)| >= p.pageSize else !p.aggregation || r.bytes >= p.readThreshold, false, false)
  }

  function Hold(p: Params, write: bool): nat { if write then p.writeTimeout else p.readWindow }

  /** `enqueue_state`: a state that is not ready yet gets a timer. */
  function Enqueue(p: Params, s: State, r: Request): State
    requires p.Valid() && Acceptable(p, r)
  {
    var t := Fresh(p, r);
    var page := t.site.page;
    s.(states := s.states[s.nextToken := t],
       queues := s.queues[page := (if page in s.queues then s.queues[page] else []) + [s.nextToken]],
       waiting := s.waiting + [s.nextToken],
       timers := if t.ready then s.timers else s.timers + {Timer(r.arrival + Hold(p, r.write), s.nextTimer, s.nextToken)},
       nextTimer := if t.ready then s.nextTimer else s.nextTimer + 1,
       nextToken := s.nextToken + 1)
  }

  /** A read behind an unissued write of its page releases that write. */
  function Hurry(s: State, tail: Option<nat>, r: Request): State {
    if tail.Some? && tail.value in s.states && s.states[tail.value].write && !r.write && !s.states[tail.value].issued
    then s.(states := s.states[tail.value := s.states[tail.value].(ready := true)]) else s
  }

  function Ingest(p: Params, s: State, r: Request, cycle: nat): State
    requires p.Valid() && Acceptable(p, r)
  {
    var t := s.(rows := s.rows + [Row(cycle, r.id, Ingress, false)]);
    var tail := Tail(s, SiteOf(p, r.address).page);
    if tail.Some? && Joins(t, tail.value, r) then t.(states := t.states[tail.value := Joined(p, t.states[tail.value], r)])
    else Enqueue(p, Hurry(t, tail, r), r)
  }

  // ----- timers ---------------------------------------------------------------------------------------

  function Expire(p: Params, t: PageState): PageState {
    t.(ready := true, error := t.error || (t.write && |t.offsets| < p.pageSize && p.strict))
  }

  function ReleaseOne(p: Params, s: State): State
    requires s.timers != {}
  {
    var t := Next(s.timers);
    var dead := t.token !in s.states || s.states[t.token].issued || s.states[t.token].ready;
    s.(timers := s.timers - {t},
       states := if dead then s.states else s.states[t.token := Expire(p, s.states[t.token])],
       expired := if dead then s.expired else s.expired + {t.token})
  }

  function ReleaseDue(p: Params, s: State, cycle: nat): State
    decreases |s.timers|
  {
    if s.timers == {} || Next(s.timers).deadline > cycle then s else ReleaseDue(p, ReleaseOne(p, s), cycle)
  }

  // ----- scheduling -----------------------------------------------------------------------------------

  predicate Pending(s: State, token: nat) { token in s.states && !s.states[token].issued }

  predicate Head(s: State, token: nat) {
    token in s.states && s.states[token].site.page in s.queues && s.queues[s.states[token].site.page] != []
    && s.queues[s.states[token].site.page][0] == token
  }

  predicate Free(s: State, site: Site, cycle: nat) {
    && (site.channel < |s.channelBusy| ==> s.channelBusy[site.channel] <= cycle)
    && (site.subarray < |s.subarrayBusy| ==> s.subarrayBusy[site.subarray] <= cycle)
  }

  predicate Schedulable(s: State, token: nat, cycle: nat) {
    Pending(s, token) && Head(s, token) && s.states[token].ready && Free(s, s.states[token].site, cycle)
  }

  /** `choose_state` over the waiting list: the chosen token, and the list left, without dead tokens up
      to it. */
  function Choose(s: State, waiting: seq<nat>, cycle: nat): (Option<nat>, seq<nat>) {
    if waiting == [] then (None, [])
    else if !Pending(s, waiting[0]) then Choose(s, waiting[1..], cycle)
    else if Schedulable(s, waiting[0], cycle) then (Some(waiting[0]), waiting[1..])
    else
      var (chosen, rest) := Choose(s, waiting[1..], cycle);
      (chosen, [waiting[0]] + rest)
  }

  /** Rounded up. */
  function Transfer(p: Params, bytes: nat): nat
    requires p.Valid()
  {
    var ticks := bytes as real / p.bytesPerTick;
    if ticks <= 0.0 then 0 else if ticks.Floor as real == ticks then ticks.Floor else ticks.Floor + 1
  }

  predicate Rejected(p: Params, t: PageState) { t.error || (t.write && p.strict && |t.offsets| < p.pageSize) }

  function Duration(p: Params, s: State, t: PageState): nat
    requires p.Valid()
  {
    if t.write then p.tProg + (if t.site.page in s.programmed then p.tErase else 0) else p.tRead + Transfer(p, t.bytes)
  }

  function IssueRows(s: State, t: PageState, cycle: nat): seq<Row> {
    var id := if t.ids == [] then 0 else t.ids[0];
    if t.write then (if t.site.page in s.programmed then [Row(cycle, id, Erase, false)]
        else []) + [Row(cycle, id, Program, false)]
    else [Row(cycle, id, Read, false)]
  }

  function Occupy(busy: seq<nat>, i: nat, until: nat): seq<nat> { if i < |busy| then busy[i := until] else busy }

  /** Strict mode completes an incomplete page at once, in error; anything else occupies its channel and
      sub-array until it finishes. */
  function Issue(p: Params, s: State, token: nat, cycle: nat): State
    requires p.Valid() && token in s.states
  {
    var t := s.states[token];
    var rejected := Rejected(p, t);
    var finish := if rejected then cycle else cycle + Duration(p, s, t);
    s.(states := s.states[token := t.(issued := true, error := rejected)],
       completions := s.completions + {Completion(finish, s.nextSequence, token)},
       peak := if |s.completions| + 1 > s.peak then |s.completions| + 1 else s.peak,
       nextSequence := s.nextSequence + 1,
       channelBusy := if rejected then s.channelBusy else Occupy(s.channelBusy, t.site.channel, finish),
       subarrayBusy := if rejected then s.subarrayBusy else Occupy(s.subarrayBusy, t.site.subarray, finish),
       programmed := if !rejected && t.write then s.programmed + {t.site.page} else s.programmed,
       rows := if rejected then s.rows else s.rows + IssueRows(s, t, cycle),
       services := if rejected then s.services else s.services + [Service(token, t.site, cycle, finish, t)])
  }

  function Unissued(s: State): set<nat> { set t | t in s.states && !s.states[t].issued }

  function IssueReady(p: Params, s: State, cycle: nat): State
    requires p.Valid()
    decreases |Unissued(s)|
  {
    if |s.completions| >= p.maxActive then s
    else
      var (chosen, rest) := Choose(s, s.waiting, cycle);
      if chosen.None? || !Pending(s, chosen.value) then s.(waiting := rest)
      else
        assert Unissued(s.(waiting := rest)) == Unissued(s);
        IssueShrinks(p, s.(waiting := rest), chosen.value, cycle);
        IssueReady(p, Issue(p, s.(waiting := rest), chosen.value, cycle), cycle)
  }

  lemma IssueShrinks(p: Params, s: State, token: nat, cycle: nat)
    requires p.Valid() && Pending(s, token)
    ensures |Unissued(Issue(p, s, token, cycle))| < |Unissued(s)|
  {
    assert Unissued(Issue(p, s, token, cycle)) == Unissued(s) - {token};
    assert token in Unissued(s);
  }

  // ----- completions ----------------------------------------------------------------------------------

  /** One COMPLETED row for each request of the state, in input order. */
  function DoneRows(requests: seq<Request>, ids: seq<nat>, cycle: nat, error: bool): seq<Row> {
    if requests == [] then []
    else (if requests[0].id in ids then [Row(cycle, requests[0].id, Completed, error)] else []) + DoneRows(requests[1..], ids, cycle, error)
  }

  /** The completed state leaves the front of its page's queue. */
  function Dequeue(queues: map<nat, seq<nat>>, page: nat, token: nat): map<nat, seq<nat>> {
    var queue := if page in queues then queues[page] else [];
    var rest := if queue != [] && queue[0] == token then queue[1..] else queue;
    if rest == [] then queues - {page} else queues[page := rest]
  }

  function CompleteOne(requests: seq<Request>, s: State, cycle: nat): State
    requires s.completions != {}
  {
    var c := First(s.completions);
    var t := s.(completions := s.completions - {c});
    if c.token !in s.states then t
    else
      var done := s.states[c.token];
      t.(rows := s.rows + DoneRows(requests, done.ids, cycle, done.error),
         queues := Dequeue(s.queues, done.site.page, c.token),
         states := s.states - {c.token},
         done := s.done + [Done(c.token, done, cycle)])
  }

  function CompleteDue(requests: seq<Request>, s: State, cycle: nat): State
    decreases |s.completions|
  {
    if s.completions == {} || First(s.completions).finish > cycle then s
        else CompleteDue(requests, CompleteOne(requests, s, cycle), cycle)
  }

  // ----- one loop turn --------------------------------------------------------------------------------

  /** The earliest arrival, completion or timer. */
  function Candidates(requests: seq<Request>, s: State, index: nat): seq<nat> {
    (if index < |requests| then [requests[index].arrival] else [])
    + (if s.completions != {} then [First(s.completions).finish] else [])
    + (if s.timers != {} then [Next(s.timers).deadline] else [])
  }

  function Least(xs: seq<nat>): (m: nat)
    requires xs != []
    ensures m in xs && forall x :: x in xs ==> m <= x
  {
    if |xs| == 1 then xs[0]
    else
      var rest := Least(xs[1..]);
      assert forall x :: x in xs ==> x == xs[0] || x in xs[1..];
      if xs[0] < rest then xs[0] else rest
  }
}
