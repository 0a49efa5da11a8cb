/** What the replay does for each request: when a page state is ready, which one is issued, how long it is
    served, and what its COMPLETED rows say. */
module ReplayService {
  import opened Basics
  import opened Replay
  import opened ReplayInvariant

  // ----- what a page state gathers ------------------------------------------------------------------------

  /** Bytes of the listed requests. */
  function BytesOf(past: seq<Request>, ids: seq<nat>): nat {
    if past == [] then 0
    else
      var last := past[|past| - 1];
      BytesOf(past[..|past| - 1], ids) + (if last.id in ids then last.bytes else 0)
  }

  /** A write touches a byte of its page. */
  predicate Touches(p: Params, r: Request, x: nat)
    requires p.Valid()
  {
    r.write && p.base <= r.address && (r.address - p.base) % p.pageSize <= x < (r.address - p.base) % p.pageSize + r.bytes
  }

  predicate Among(past: seq<Request>, ids: seq<nat>, r: Request) { r in past && r.id in ids }

  /** Same page, same kind. */
  predicate Fits(p: Params, t: PageState, r: Request)
    requires p.Valid()
  {
    p.base <= r.address && SiteOf(p, r.address) == t.site && r.write == t.write
  }

  /** The state gathers requests of one kind for one page, with their bytes and the bytes they write. */
  ghost predicate Gathers(p: Params, past: seq<Request>, t: PageState)
    requires p.Valid()
  {
    && t.bytes == BytesOf(past, t.ids)
    && (forall r :: Among(past, t.ids, r) ==> Fits(p, t, r))
    && (forall id :: id in t.ids ==> id in Ids(past))
    && (forall x: nat :: x in t.offsets <==> exists r :: Among(past, t.ids, r) && Touches(p, r, x))
    && (exists r :: Among(past, t.ids, r) && t.ids != [] && r.id == t.ids[0] && r.arrival == t.firstArrival)
  }

  ghost predicate ArrivedBy(past: seq<Request>, ids: seq<nat>, cycle: nat) { forall r :: Among(past, ids, r) ==> r.arrival <= cycle }

  /** A read of the state's page. */
  predicate ReadBehind(p: Params, past: seq<Request>, t: PageState)
    requires p.Valid()
  {
    exists r :: r in past && !r.write && p.base <= r.address && SiteOf(p, r.address) == t.site
  }

  /** Reasons to let a state go: a write is complete, timed out or waited for by a read of its page; a read
      is not aggregated, asks for enough or timed out. */
  predicate Justified(p: Params, past: seq<Request>, expired: set<nat>, k: nat, t: PageState)
    requires p.Valid()
  {
    if t.write then |t.offsets| >= p.pageSize || k in expired || ReadBehind(p, past, t)
    else !p.aggregation || t.bytes >= p.readThreshold || k in expired
  }

  /** Strict mode turns away a write that misses bytes of its page when issued, or did when its timer fired. */
  predicate Lacking(p: Params, expired: set<nat>, k: nat, t: PageState) {
    p.strict && t.write && (|t.offsets| < p.pageSize || k in expired)
  }

  /** Timers fire no earlier than the arrival of the first request allows. */
  predicate TimedOut(p: Params, expired: set<nat>, k: nat, t: PageState, cycle: nat) {
    k in expired ==> t.firstArrival + (if t.write then p.writeTimeout else p.readWindow) <= cycle
  }

  /** A complete write, a read that asks for enough or is not aggregated, and a state whose timer fired are
      ready at once. */
  predicate Prompt(p: Params, expired: set<nat>, k: nat, t: PageState) {
    (if t.write then |t.offsets| >= p.pageSize else !p.aggregation || t.bytes >= p.readThreshold) || k in expired ==> t.ready
  }

  // ----- live states, services and completions ------------------------------------------------------------

  ghost predicate StateTells(p: Params, past: seq<Request>, expired: set<nat>, cycle: nat, k: nat, t: PageState)
    requires p.Valid()
  {
    && Gathers(p, past, t) && ArrivedBy(past, t.ids, cycle) && TimedOut(p, expired, k, t, cycle)
    && Prompt(p, expired, k, t) && (t.issued ==> t.ready)
    && (t.ready ==> Justified(p, past, expired, k, t))
    && (t.error <==> if t.issued then Lacking(p, expired, k, t) else p.strict && t.write && k in expired)
  }

  /** The page has been programmed before. */
  predicate Written(services: seq<Service>, page: nat) { exists v :: v in services && v.state.write && v.site.page == page }

  /** How long a state is served after the given services. */
  function Takes(p: Params, before: seq<Service>, t: PageState): nat
    requires p.Valid()
  {
    if t.write then p.tProg + (if Written(before, t.site.page) then p.tErase else 0) else p.tRead + Transfer(p, t.bytes)
  }

  /** A service is that of a state ready for a reason and not turned away, none of its requests arriving
      later. */
  ghost predicate ServiceTells(p: Params, past: seq<Request>, expired: set<nat>, v: Service)
    requires p.Valid()
  {
    && v.site == v.state.site && !v.state.issued && Gathers(p, past, v.state) && ArrivedBy(past, v.state.ids, v.start)
    && Justified(p, past, expired, v.token, v.state) && TimedOut(p, expired, v.token, v.state, v.start)
    && !Lacking(p, expired, v.token, v.state)
  }

  predicate Lengths(p: Params, services: seq<Service>)
    requires p.Valid()
  {
    forall i :: 0 <= i < |services| ==> services[i].finish == services[i].start + Takes(p, services[..i], services[i].state)
  }

  predicate OncePerState(services: seq<Service>) { forall i, j :: 0 <= i < j < |services| ==> services[i].token != services[j].token }

  predicate Unserved(services: seq<Service>, k: nat) { forall v :: v in services ==> v.token != k }

  /** The service of this state: reads may have joined it since. */
  predicate Serves(v: Service, k: nat, t: PageState) {
    && v.token == k && v.site == t.site && v.state.write == t.write && v.state.ids <= t.ids
    && (t.write ==> v.state.ids == t.ids && v.state.offsets == t.offsets)
  }

  /** Turned away without a service, or served once until the given cycle. */
  ghost predicate Answered(services: seq<Service>, k: nat, t: PageState, finish: nat) {
    if t.error then Unserved(services, k) else exists v :: v in services && Serves(v, k, t) && v.finish == finish
  }

  ghost predicate LinkOk(states: States, services: seq<Service>, completions: set<Completion>) {
    && (forall k :: k in states && !states[k].issued ==> Unserved(services, k))
    && (forall c :: c in completions && c.token in states ==> Answered(services, c.token, states[c.token], c.finish))
  }

  ghost predicate DoneTells(p: Params, past: seq<Request>, services: seq<Service>, expired: set<nat>, d: Done)
    requires p.Valid()
  {
    && Gathers(p, past, d.state) && ArrivedBy(past, d.state.ids, d.cycle) && Answered(services, d.token, d.state, d.cycle)
    && TimedOut(p, expired, d.token, d.state, d.cycle) && (d.state.error <==> Lacking(p, expired, d.token, d.state))
  }

  // ----- rows -----------------------------------------------------------------------------------------------

  predicate Reports(row: Row, d: Done) { row.id in d.state.ids && row.cycle == d.cycle && row.error == d.state.error }

  /** Every COMPLETED row is that of a completed state. */
  predicate RowsTell(rows: seq<Row>, done: seq<Done>) {
    forall row :: row in rows && row.kind == Completed ==> exists d :: d in done && Reports(row, d)
  }

  predicate OnMedia(kind: Kind) { kind == Erase || kind == Program || kind == Read }

  function MediaRows(rows: seq<Row>): seq<Row> {
    if rows == [] then []
    else MediaRows(rows[..|rows| - 1]) + (if OnMedia(rows[|rows| - 1].kind) then [rows[|rows| - 1]] else [])
  }

  /** The rows of one service after the given ones. */
  function ServiceRows(before: seq<Service>, v: Service): seq<Row> {
    var id := if v.state.ids == [] then 0 else v.state.ids[0];
    if !v.state.write then [Row(v.start, id, Read, false)]
    else (if Written(before, v.site.page) then [Row(v.start, id, Erase, false)] else []) + [Row(v.start, id, Program, false)]
  }

  /** The ERASE, PROGRAM and READ rows of the services, in order. */
  function TraceOf(services: seq<Service>): seq<Row> {
    if services == [] then []
    else
      var before, last := services[..|services| - 1], services[|services| - 1];
      TraceOf(before) + ServiceRows(before, last)
  }

  // ----- everything together ----------------------------------------------------------------------------------

  ghost predicate StatesTell(p: Params, past: seq<Request>, expired: set<nat>, cycle: nat, states: States)
    requires p.Valid()
  {
    forall k :: k in states ==> StateTells(p, past, expired, cycle, k, states[k])
  }

  ghost predicate ServicesTell(p: Params, past: seq<Request>, expired: set<nat>, services: seq<Service>)
    requires p.Valid()
  {
    (forall v :: v in services ==> ServiceTells(p, past, expired, v)) && Lengths(p, services) && OncePerState(services)
  }

  ghost predicate ProgrammedOk(programmed: set<nat>, services: seq<Service>) { forall page :: page in programmed <==> Written(services, page) }

  ghost predicate DonesTell(p: Params, past: seq<Request>, services: seq<Service>, expired: set<nat>, done: seq<Done>)
    requires p.Valid()
  {
    forall d :: d in done ==> DoneTells(p, past, services, expired, d)
  }

  /** Timers are set for the first arrival. */
  predicate TimersTell(p: Params, timers: set<Timer>, states: States) {
    forall u :: u in timers && u.token in states ==> u.deadline == states[u.token].firstArrival + (if states[u.token].write then p.writeTimeout else p.readWindow)
  }

  predicate TokensKnown(s: State) {
    && (forall d :: d in s.done ==> d.token < s.nextToken && d.token !in s.states)
    && (forall v :: v in s.services ==> v.token < s.nextToken)
    && (forall k :: k in s.expired ==> k < s.nextToken)
    && (forall u :: u in s.timers ==> u.token < s.nextToken)
    && (forall k :: k in s.states ==> k < s.nextToken)
  }

  /** No completion is overdue. */
  predicate Punctual(completions: set<Completion>, cycle: nat) { forall c :: c in completions ==> cycle <= c.finish }

  ghost predicate Told(p: Params, past: seq<Request>, s: State, cycle: nat)
    requires p.Valid()
  {
    && StatesTell(p, past, s.expired, cycle, s.states) && ServicesTell(p, past, s.expired, s.services)
    && ProgrammedOk(s.programmed, s.services) && LinkOk(s.states, s.services, s.completions)
    && DonesTell(p, past, s.services, s.expired, s.done) && RowsTell(s.rows, s.done) && MediaRows(s.rows) == TraceOf(s.services)
    && TimersTell(p, s.timers, s.states) && TokensKnown(s)
  }

  lemma InitTold(p: Params)
    requires p.Valid()
    ensures Told(p, [], Init(p), 0)
  {
  }

  // ----- one more request is known --------------------------------------------------------------------------

  lemma {:induction false} BytesOfOthers(past: seq<Request>, ids: seq<nat>, id: nat)
    requires id !in Ids(past)
    ensures BytesOf(past, ids + [id]) == BytesOf(past, ids)
    decreases |past|
  {
    if past != [] { BytesOfOthers(past[..|past| - 1], ids, id); }
  }

  lemma BytesOfLater(past: seq<Request>, ids: seq<nat>, r: Request)
    ensures BytesOf(past + [r], ids) == BytesOf(past, ids) + (if r.id in ids then r.bytes else 0)
  {
    assert (past + [r])[..|past + [r]| - 1] == past;
  }

  lemma IdsLater(past: seq<Request>, r: Request)
    ensures Ids(past + [r]) == Ids(past) + [r.id]
  {
    assert (past + [r])[..|past + [r]| - 1] == past;
  }

  lemma AmongLater(past: seq<Request>, ids: seq<nat>, r: Request)
    requires r.id !in ids
    ensures forall q :: Among(past + [r], ids, q) <==> Among(past, ids, q)
  {
  }

  lemma GathersLater(p: Params, past: seq<Request>, r: Request, t: PageState)
    requires p.Valid() && Gathers(p, past, t) && r.id !in Ids(past)
    ensures Gathers(p, past + [r], t) && forall cycle :: ArrivedBy(past, t.ids, cycle) ==> ArrivedBy(past + [r], t.ids, cycle)
  {
    hide Among, Touches, Fits, BytesOf, Ids;
    BytesOfLater(past, t.ids, r);
    IdsLater(past, r);
    AmongLater(past, t.ids, r);
  }

  lemma JustifiedLater(p: Params, past: seq<Request>, r: Request, expired: set<nat>, k: nat, t: PageState)
    requires p.Valid() && Justified(p, past, expired, k, t)
    ensures Justified(p, past + [r], expired, k, t)
  {
    if ReadBehind(p, past, t) {
      var q :| q in past && !q.write && p.base <= q.address && SiteOf(p, q.address) == t.site;
      assert q in past + [r];
    }
  }

  lemma StateLater(p: Params, past: seq<Request>, r: Request, expired: set<nat>, cycle: nat, k: nat, t: PageState)
    requires p.Valid() && StateTells(p, past, expired, cycle, k, t) && r.id !in Ids(past)
    ensures StateTells(p, past + [r], expired, cycle, k, t)
  {
    hide Gathers, ArrivedBy, Justified, Ids, Lacking, TimedOut;
    GathersLater(p, past, r, t);
    if t.ready { JustifiedLater(p, past, r, expired, k, t); }
  }

  lemma ServicesLater(p: Params, past: seq<Request>, r: Request, expired: set<nat>, services: seq<Service>)
    requires p.Valid() && ServicesTell(p, past, expired, services) && r.id !in Ids(past)
    ensures ServicesTell(p, past + [r], expired, services)
  {
    hide Gathers, ArrivedBy, Justified, Ids, Lacking, TimedOut, Lengths, OncePerState;
    forall v | v in services ensures ServiceTells(p, past + [r], expired, v) {
      GathersLater(p, past, r, v.state);
      JustifiedLater(p, past, r, expired, v.token, v.state);
    }
  }

  lemma DonesLater(p: Params, past: seq<Request>, r: Request, services: seq<Service>, expired: set<nat>, done: seq<Done>)
    requires p.Valid() && DonesTell(p, past, services, expired, done) && r.id !in Ids(past)
    ensures DonesTell(p, past + [r], services, expired, done)
  {
    hide Gathers, ArrivedBy, Answered, Lacking, Ids;
    forall d | d in done ensures DoneTells(p, past + [r], services, expired, d) { GathersLater(p, past, r, d.state); }
  }

  // ----- ingest -----------------------------------------------------------------------------------------------

  lemma JoinOffsets(p: Params, past: seq<Request>, t: PageState, r: Request)
    requires p.Valid() && Acceptable(p, r) && Gathers(p, past, t) && r.id !in Ids(past)
    ensures forall x: nat :: x in t.offsets + Covered(p, r) <==> exists q :: Among(past + [r], t.ids + [r.id], q) && Touches(p, q, x)
  {
    hide BytesOf, Ids, Fits;
    var all, ids := past + [r], t.ids + [r.id];
    forall x: nat ensures x in t.offsets + Covered(p, r) <==> exists q :: Among(all, ids, q) && Touches(p, q, x) {
      if x in t.offsets {
        var q :| Among(past, t.ids, q) && Touches(p, q, x);
        assert Among(all, ids, q);
      } else if x in Covered(p, r) {
        assert Among(all, ids, r) && Touches(p, r, x);
      } else if q :| Among(all, ids, q) && Touches(p, q, x) {
        if q != r { AmongBefore(past, t.ids, r, q); }
      }
    }
  }

  lemma AmongBefore(past: seq<Request>, ids: seq<nat>, r: Request, q: Request)
    requires Among(past + [r], ids + [r.id], q) && q != r && r.id !in Ids(past)
    ensures Among(past, ids, q)
  {
    hide Ids;
    OldId(past, q, r.id);
  }

  lemma OldId(past: seq<Request>, q: Request, id: nat)
    requires q in past && id !in Ids(past)
    ensures q.id != id
  {
    IdsAre(past);
    var i :| 0 <= i < |past| && past[i] == q;
    assert Ids(past)[i] == q.id;
  }

  lemma JoinGathers(p: Params, past: seq<Request>, t: PageState, r: Request)
    requires p.Valid() && Acceptable(p, r) && Gathers(p, past, t) && r.id !in Ids(past) && Fits(p, t, r)
    ensures Gathers(p, past + [r], Joined(p, t, r))
  {
    hide Touches, Fits, BytesOf, Ids, Covered, Acceptable;
    var g := Joined(p, t, r);
    BytesOfLater(past, g.ids, r);
    BytesOfOthers(past, t.ids, r.id);
    IdsLater(past, r);
    JoinOffsets(p, past, t, r);
    forall q | Among(past + [r], g.ids, q) ensures Fits(p, g, q) {
      if q == r { FitsSame(p, t, g, r); } else {
        AmongBefore(past, t.ids, r, q);
        FitsSame(p, t, g, q);
      }
    }
    var first :| Among(past, t.ids, first) && t.ids != [] && first.id == t.ids[0] && first.arrival == t.firstArrival;
    assert Among(past + [r], g.ids, first) && g.ids[0] == t.ids[0];
  }

  lemma FitsSame(p: Params, t: PageState, g: PageState, r: Request)
    requires p.Valid() && g.site == t.site && g.write == t.write
    ensures Fits(p, t, r) == Fits(p, g, r)
  {
  }

  lemma JoinArrived(past: seq<Request>, ids: seq<nat>, r: Request, cycle: nat)
    requires ArrivedBy(past, ids, cycle) && r.arrival <= cycle && r.id !in Ids(past)
    ensures ArrivedBy(past + [r], ids + [r.id], cycle)
  {
    hide Ids;
    forall q | Among(past + [r], ids + [r.id], q) ensures q.arrival <= cycle {
      if q != r { AmongBefore(past, ids, r, q); }
    }
  }

  /** A request joining a state: a write not issued yet, or a read. */
  lemma JoinTells(p: Params, past: seq<Request>, expired: set<nat>, cycle: nat, k: nat, t: PageState, r: Request)
    requires p.Valid() && Acceptable(p, r) && StateTells(p, past, expired, cycle, k, t) && r.id !in Ids(past) && Fits(p, t, r)
    requires r.arrival <= cycle && (t.write ==> !t.issued)
    ensures StateTells(p, past + [r], expired, cycle, k, Joined(p, t, r))
  {
    hide Gathers, ArrivedBy, Ids, Covered, Fits, Acceptable, ReadBehind;
    var g := Joined(p, t, r);
    FitsKind(p, t, r);
    JoinGathers(p, past, t, r);
    JoinArrived(past, t.ids, r, cycle);
    SubsetSize(t.offsets, g.offsets);
    if t.ready { JustifiedLater(p, past, r, expired, k, t); }
    ReadBehindSame(p, past + [r], t, g);
  }

  lemma FitsKind(p: Params, t: PageState, r: Request)
    requires p.Valid() && Fits(p, t, r)
    ensures r.write == t.write
  {
  }

  lemma ReadBehindSame(p: Params, past: seq<Request>, t: PageState, g: PageState)
    requires p.Valid() && g.site == t.site
    ensures ReadBehind(p, past, t) == ReadBehind(p, past, g)
  {
  }

  lemma FreshGathers(p: Params, past: seq<Request>, r: Request)
    requires p.Valid() && Acceptable(p, r) && r.id !in Ids(past)
    ensures Gathers(p, past + [r], Fresh(p, r))
  {
    hide SiteOfPage;
    var g, all := Fresh(p, r), past + [r];
    BytesOfLater(past, [r.id], r);
    BytesOfNone(past, r.id);
    IdsLater(past, r);
    hide Ids, BytesOf;
    forall q ensures Among(all, [r.id], q) <==> q == r { if q in past { OldId(past, q, r.id); } }
    assert Among(all, g.ids, r);
  }

  lemma {:induction false} BytesOfNone(past: seq<Request>, id: nat)
    requires id !in Ids(past)
    ensures BytesOf(past, [id]) == 0
    decreases |past|
  {
    if past != [] { BytesOfNone(past[..|past| - 1], id); }
  }

  lemma FreshTells(p: Params, past: seq<Request>, expired: set<nat>, cycle: nat, k: nat, r: Request)
    requires p.Valid() && Acceptable(p, r) && r.id !in Ids(past) && r.arrival <= cycle && k !in expired
    ensures StateTells(p, past + [r], expired, cycle, k, Fresh(p, r))
  {
    hide Gathers, Ids, Covered, SiteOfPage, Acceptable;
    FreshGathers(p, past, r);
    forall q | Among(past + [r], [r.id], q) ensures q.arrival <= cycle { if q in past { OldId(past, q, r.id); } }
  }

  /** A read behind an unissued write lets it go. */
  lemma HurryTells(p: Params, past: seq<Request>, expired: set<nat>, cycle: nat, k: nat, t: PageState, r: Request)
    requires p.Valid() && StateTells(p, past, expired, cycle, k, t) && r.id !in Ids(past) && t.write && !r.write && !t.issued
    requires p.base <= r.address && SiteOf(p, r.address) == t.site
    ensures StateTells(p, past + [r], expired, cycle, k, t.(ready := true))
  {
    hide Gathers, ArrivedBy, Ids, SiteOfPage;
    var g := t.(ready := true);
    GathersLater(p, past, r, t);
    GathersReady(p, past + [r], t);
    assert r in past + [r];
  }

  lemma GathersReady(p: Params, past: seq<Request>, t: PageState)
    requires p.Valid() && Gathers(p, past, t)
    ensures forall ready, issued, error :: Gathers(p, past, t.(ready := ready, issued := issued, error := error))
  {
    forall ready, issued, error ensures Gathers(p, past, t.(ready := ready, issued := issued, error := error)) {
      var g := t.(ready := ready, issued := issued, error := error);
      forall r | Among(past, t.ids, r) ensures Fits(p, g, r) { FitsSame(p, t, g, r); }
    }
  }

  lemma StatesUpdate(p: Params, past: seq<Request>, r: Request, expired: set<nat>, cycle: nat, states: States, k: nat, g: PageState)
    requires p.Valid() && StatesTell(p, past, expired, cycle, states) && r.id !in Ids(past)
    requires StateTells(p, past + [r], expired, cycle, k, g)
    ensures StatesTell(p, past + [r], expired, cycle, states[k := g]) && StatesTell(p, past + [r], expired, cycle, states)
  {
    hide StateTells, Ids;
    forall j | j in states ensures StateTells(p, past + [r], expired, cycle, j, states[j]) {
      StateLater(p, past, r, expired, cycle, j, states[j]);
    }
  }

  lemma LinkUpdate(states: States, services: seq<Service>, completions: set<Completion>, k: nat, g: PageState)
    requires LinkOk(states, services, completions)
    requires if k in states then Looser(states[k], g) else !g.issued && Unserved(services, k) && forall c :: c in completions ==> c.token != k
    ensures LinkOk(states[k := g], services, completions)
  {
    var after := states[k := g];
    forall c | c in completions && c.token in after ensures Answered(services, c.token, after[c.token], c.finish) {
      if c.token == k && !g.error {
        var v :| v in services && Serves(v, k, states[k]) && v.finish == c.finish;
        assert Serves(v, k, g);
      }
    }
  }

  /** The state may have gathered more reads. */
  predicate Looser(t: PageState, g: PageState) {
    && g.issued == t.issued && g.error == t.error && g.site == t.site && g.write == t.write && t.ids <= g.ids
    && (t.write && t.issued ==> g.ids == t.ids && g.offsets == t.offsets)
    && g.firstArrival == t.firstArrival
  }

  /** A write not issued yet has no completion to answer for. */
  lemma LinkUnissued(states: States, services: seq<Service>, completions: set<Completion>, k: nat, g: PageState)
    requires LinkOk(states, services, completions) && CompletionsOk(completions, states) && k in states && !states[k].issued && !g.issued
    ensures LinkOk(states[k := g], services, completions)
  {
    hide Unserved, Answered;
  }

  lemma TimersUpdate(p: Params, timers: set<Timer>, states: States, k: nat, g: PageState)
    requires TimersTell(p, timers, states) && k in states && g.firstArrival == states[k].firstArrival && g.write == states[k].write
    ensures TimersTell(p, timers, states[k := g])
  {
  }

  lemma JoinedFacts(p: Params, t: PageState, r: Request)
    requires p.Valid() && Acceptable(p, r)
    ensures var g := Joined(p, t, r);
      g.issued == t.issued && g.error == t.error && g.site == t.site && g.write == t.write && t.ids <= g.ids && g.firstArrival == t.firstArrival
  {
    hide Covered;
  }

  /** The last state of the page's queue is a state of the page. */
  lemma TailSite(p: Params, s: State, page: nat)
    requires p.Valid() && QueuesOk(s.queues, s.states) && SitesOk(p, s.states, s.nextToken) && Tail(s, page).Some?
    ensures var k := Tail(s, page).value; k in s.states && s.states[k].site == SiteOfPage(p, page)
  {
    hide SiteOfPage;
    assert QueueOk(s.queues[page], page, s.states);
    assert Tail(s, page).value in s.queues[page];
  }

  lemma IngressRows(rows: seq<Row>, row: Row, done: seq<Done>)
    requires RowsTell(rows, done) && row.kind == Ingress
    ensures RowsTell(rows + [row], done) && MediaRows(rows + [row]) == MediaRows(rows)
  {
    hide Reports;
    assert (rows + [row])[..|rows + [row]| - 1] == rows;
    forall q | q in rows + [row] && q.kind == Completed ensures exists d :: d in done && Reports(q, d) { assert q in rows; }
  }

  lemma IngestJoin(p: Params, past: seq<Request>, s: State, r: Request, cycle: nat, k: nat)
    requires p.Valid() && Acceptable(p, r) && Told(p, past, s, cycle) && CompletionsOk(s.completions, s.states)
    requires r.id !in Ids(past) && r.arrival <= cycle && Joins(s, k, r) && Fits(p, s.states[k], r)
    ensures Told(p, past + [r], s.(states := s.states[k := Joined(p, s.states[k], r)]), cycle)
  {
    hide Ids, StateTells, ServicesTell, ProgrammedOk, LinkOk, DonesTell, RowsTell, MediaRows, TraceOf, TimersTell, Joined, Fits, CompletionsOk,
        StatesTell, Acceptable;
    var t := s.states[k];
    var g := Joined(p, t, r);
    JoinedFacts(p, t, r);
    StateOf(p, past, s.expired, cycle, s.states, k);
    JoinTells(p, past, s.expired, cycle, k, t, r);
    StatesUpdate(p, past, r, s.expired, cycle, s.states, k, g);
    ServicesLater(p, past, r, s.expired, s.services);
    DonesLater(p, past, r, s.services, s.expired, s.done);
    TimersUpdate(p, s.timers, s.states, k, g);
    if t.issued { LinkUpdate(s.states, s.services, s.completions, k, g); } else { LinkUnissued(s.states, s.services, s.completions, k, g); }
  }

  lemma StateOf(p: Params, past: seq<Request>, expired: set<nat>, cycle: nat, states: States, k: nat)
    requires p.Valid() && StatesTell(p, past, expired, cycle, states) && k in states
    ensures StateTells(p, past, expired, cycle, k, states[k])
  {
    hide StateTells;
  }

  lemma IngestHurry(p: Params, past: seq<Request>, s: State, r: Request, cycle: nat, tail: Option<nat>)
    requires p.Valid() && Told(p, past, s, cycle) && CompletionsOk(s.completions, s.states) && r.id !in Ids(past)
    requires p.base <= r.address && (tail.Some? && tail.value in s.states ==> s.states[tail.value].site == SiteOf(p, r.address))
    ensures var t := Hurry(s, tail, r);
      && StatesTell(p, past + [r], t.expired, cycle, t.states) && LinkOk(t.states, t.services, t.completions) && TimersTell(p, t.timers, t.states)
      && t.states.Keys == s.states.Keys
  {
    hide Ids, StateTells, ServicesTell, ProgrammedOk, LinkOk, DonesTell, RowsTell, MediaRows, TraceOf, TimersTell, CompletionsOk, StatesTell,
        SiteOfPage;
    StatesAllLater(p, past, r, s.expired, cycle, s.states);
    if tail.Some? && tail.value in s.states && s.states[tail.value].write && !r.write && !s.states[tail.value].issued {
      var k := tail.value;
      var g := s.states[k].(ready := true);
      StateOf(p, past, s.expired, cycle, s.states, k);
      HurryTells(p, past, s.expired, cycle, k, s.states[k], r);
      StatesUpdate(p, past, r, s.expired, cycle, s.states, k, g);
      TimersUpdate(p, s.timers, s.states, k, g);
      LinkUnissued(s.states, s.services, s.completions, k, g);
    }
  }

  lemma StatesAllLater(p: Params, past: seq<Request>, r: Request, expired: set<nat>, cycle: nat, states: States)
    requires p.Valid() && StatesTell(p, past, expired, cycle, states) && r.id !in Ids(past)
    ensures StatesTell(p, past + [r], expired, cycle, states)
  {
    hide StateTells, Ids;
    forall j | j in states ensures StateTells(p, past + [r], expired, cycle, j, states[j]) {
      StateLater(p, past, r, expired, cycle, j, states[j]);
    }
  }

  lemma StatesWith(p: Params, past: seq<Request>, expired: set<nat>, cycle: nat, states: States, k: nat, g: PageState)
    requires p.Valid() && StatesTell(p, past, expired, cycle, states) && StateTells(p, past, expired, cycle, k, g)
    ensures StatesTell(p, past, expired, cycle, states[k := g])
  {
    hide StateTells;
  }

  /** A fresh state, after its request's row and the release of a write before it. */
  lemma IngestEnqueue(p: Params, past: seq<Request>, s: State, r: Request, cycle: nat)
    requires p.Valid() && Acceptable(p, r) && r.id !in Ids(past) && r.arrival <= cycle && s.nextToken !in s.states
    requires StatesTell(p, past + [r], s.expired, cycle, s.states) && ServicesTell(p, past, s.expired, s.services)
        && ProgrammedOk(s.programmed, s.services) && LinkOk(s.states, s.services, s.completions)
        && DonesTell(p, past, s.services, s.expired, s.done) && RowsTell(s.rows, s.done) && MediaRows(s.rows) == TraceOf(s.services)
        && TimersTell(p, s.timers, s.states) && TokensKnown(s) && CompletionsOk(s.completions, s.states)
    ensures Told(p, past + [r], Enqueue(p, s, r), cycle)
  {
    hide Ids, StateTells, ServicesTell, ProgrammedOk, LinkOk, DonesTell, RowsTell, MediaRows, TraceOf, TimersTell, CompletionsOk, StatesTell,
        Fresh, TokensKnown, Acceptable;
    var k, g := s.nextToken, Fresh(p, r);
    FreshIs(p, r);
    NothingYet(s);
    FreshTells(p, past, s.expired, cycle, k, r);
    StatesWith(p, past + [r], s.expired, cycle, s.states, k, g);
    ServicesLater(p, past, r, s.expired, s.services);
    DonesLater(p, past, r, s.services, s.expired, s.done);
    CompletionsElsewhere(s.completions, s.states, k);
    LinkUpdate(s.states, s.services, s.completions, k, g);
    TimersEnqueue(p, s, r);
    TokensEnqueue(p, s, r);
  }

  lemma FreshIs(p: Params, r: Request)
    requires p.Valid() && Acceptable(p, r)
    ensures var g := Fresh(p, r); !g.issued && g.firstArrival == r.arrival && g.write == r.write
  {
    hide SiteOfPage, Covered;
  }

  lemma NothingYet(s: State)
    requires TokensKnown(s)
    ensures s.nextToken !in s.expired && Unserved(s.services, s.nextToken)
  {
  }

  lemma CompletionsElsewhere(completions: set<Completion>, states: States, k: nat)
    requires CompletionsOk(completions, states) && k !in states
    ensures forall c :: c in completions ==> c.token != k
  {
  }

  lemma TimersEnqueue(p: Params, s: State, r: Request)
    requires p.Valid() && Acceptable(p, r) && TimersTell(p, s.timers, s.states) && TokensKnown(s)
    ensures var t := Enqueue(p, s, r); TimersTell(p, t.timers, t.states)
  {
    FreshIs(p, r);
    hide Fresh, Acceptable, Hold;
  }

  lemma TokensEnqueue(p: Params, s: State, r: Request)
    requires p.Valid() && Acceptable(p, r) && TokensKnown(s)
    ensures TokensKnown(Enqueue(p, s, r))
  {
    hide Fresh, Acceptable, Hold;
  }

  lemma TokensSame(s: State, t: State)
    requires TokensKnown(s) && t.done == s.done && t.services == s.services && t.expired == s.expired && t.timers == s.timers
        && t.states.Keys == s.states.Keys && t.nextToken == s.nextToken
    ensures TokensKnown(t)
  {
  }

  lemma ToldRow(p: Params, past: seq<Request>, s: State, cycle: nat, row: Row)
    requires p.Valid() && Told(p, past, s, cycle) && row.kind == Ingress
    ensures Told(p, past, s.(rows := s.rows + [row]), cycle)
  {
    hide StatesTell, ServicesTell, ProgrammedOk, LinkOk, DonesTell, RowsTell, MediaRows, TraceOf, TimersTell;
    IngressRows(s.rows, row, s.done);
  }

  lemma IngestTold(p: Params, past: seq<Request>, s: State, r: Request, cycle: nat)
    requires p.Valid() && Acceptable(p, r) && Told(p, past, s, cycle) && CompletionsOk(s.completions, s.states)
        && QueuesOk(s.queues, s.states) && SitesOk(p, s.states, s.nextToken)
    requires r.id !in Ids(past) && r.arrival <= cycle
    ensures Told(p, past + [r], Ingest(p, s, r, cycle), cycle)
  {
    hide Ids, Told, CompletionsOk, QueuesOk, SiteOfPage, Joined, Enqueue, Acceptable;
    var row := Row(cycle, r.id, Ingress, false);
    var t := s.(rows := s.rows + [row]);
    ToldRow(p, past, s, cycle, row);
    var page := (r.address - p.base) / p.pageSize;
    AddressSite(p, r);
    var tail := Tail(s, page);
    if tail.Some? { TailSite(p, s, page); }
    if tail.Some? && Joins(t, tail.value, r) {
      JoinerFits(p, t.states[tail.value], r);
      IngestJoin(p, past, t, r, cycle, tail.value);
    } else {
      IngestHurry(p, past, t, r, cycle, tail);
      HurryRest(p, past, t, r, cycle, tail);
      IngestEnqueue(p, past, Hurry(t, tail, r), r, cycle);
    }
  }

  lemma AddressSite(p: Params, r: Request)
    requires p.Valid() && Acceptable(p, r)
    ensures p.base <= r.address && SiteOf(p, r.address).page == (r.address - p.base) / p.pageSize
  {
    PageOfSite(p, (r.address - p.base) / p.pageSize);
  }

  lemma JoinerFits(p: Params, t: PageState, r: Request)
    requires p.Valid() && p.base <= r.address && t.site == SiteOf(p, r.address) && t.write == r.write
    ensures Fits(p, t, r)
  {
  }

  lemma HurryRest(p: Params, past: seq<Request>, s: State, r: Request, cycle: nat, tail: Option<nat>)
    requires p.Valid() && Told(p, past, s, cycle) && CompletionsOk(s.completions, s.states) && SitesOk(p, s.states, s.nextToken)
    ensures var t := Hurry(s, tail, r);
      && ServicesTell(p, past, t.expired, t.services)
      && ProgrammedOk(t.programmed, t.services) && DonesTell(p, past, t.services, t.expired, t.done) && RowsTell(t.rows, t.done)
      && MediaRows(t.rows) == TraceOf(t.services) && TokensKnown(t) && CompletionsOk(t.completions, t.states) && t.nextToken !in t.states
  {
    hide ServicesTell, ProgrammedOk, LinkOk, DonesTell, RowsTell, MediaRows, TraceOf, TimersTell, StatesTell, TokensKnown, SiteOfPage;
    TokensSame(s, Hurry(s, tail, r));
  }

  // ----- timers -----------------------------------------------------------------------------------------------

  lemma ExpireTells(p: Params, past: seq<Request>, expired: set<nat>, cycle: nat, k: nat, t: PageState)
    requires p.Valid() && StateTells(p, past, expired, cycle, k, t) && !t.issued && !t.ready && t.firstArrival + Hold(p, t.write) <= cycle
    ensures StateTells(p, past, expired + {k}, cycle, k, Expire(p, t))
  {
    hide Gathers, ArrivedBy, ReadBehind;
    GathersReady(p, past, t);
    assert Expire(p, t) == t.(ready := true, issued := t.issued, error := Expire(p, t).error);
  }

  lemma StateMore(p: Params, past: seq<Request>, expired: set<nat>, cycle: nat, k: nat, j: nat, t: PageState)
    requires p.Valid() && StateTells(p, past, expired, cycle, j, t) && j != k
    ensures StateTells(p, past, expired + {k}, cycle, j, t)
  {
    hide Gathers, ArrivedBy, ReadBehind;
  }

  lemma StatesExpire(p: Params, past: seq<Request>, expired: set<nat>, cycle: nat, states: States, k: nat)
    requires p.Valid() && StatesTell(p, past, expired, cycle, states) && k in states && !states[k].issued && !states[k].ready
    requires states[k].firstArrival + Hold(p, states[k].write) <= cycle
    ensures StatesTell(p, past, expired + {k}, cycle, states[k := Expire(p, states[k])])
  {
    hide StateTells, Expire;
    ExpireTells(p, past, expired, cycle, k, states[k]);
    forall j | j in states && j != k ensures StateTells(p, past, expired + {k}, cycle, j, states[j]) {
      StateMore(p, past, expired, cycle, k, j, states[j]);
    }
  }

  lemma ServicesMore(p: Params, past: seq<Request>, expired: set<nat>, services: seq<Service>, k: nat)
    requires p.Valid() && ServicesTell(p, past, expired, services) && Unserved(services, k)
    ensures ServicesTell(p, past, expired + {k}, services)
  {
    hide Gathers, ArrivedBy, ReadBehind, Lengths, OncePerState;
    forall v | v in services ensures ServiceTells(p, past, expired + {k}, v) { assert ServiceTells(p, past, expired, v); }
  }

  lemma DonesMore(p: Params, past: seq<Request>, services: seq<Service>, expired: set<nat>, done: seq<Done>, k: nat)
    requires p.Valid() && DonesTell(p, past, services, expired, done) && forall d :: d in done ==> d.token != k
    ensures DonesTell(p, past, services, expired + {k}, done)
  {
    hide Gathers, ArrivedBy, Answered;
    forall d | d in done ensures DoneTells(p, past, services, expired + {k}, d) { assert DoneTells(p, past, services, expired, d); }
  }

  lemma ReleaseOneTold(p: Params, past: seq<Request>, s: State, cycle: nat)
    requires p.Valid() && Told(p, past, s, cycle) && CompletionsOk(s.completions, s.states) && s.timers != {}
        && Next(s.timers).deadline <= cycle
    ensures Told(p, past, ReleaseOne(p, s), cycle)
  {
    hide StatesTell, ServicesTell, ProgrammedOk, LinkOk, DonesTell, RowsTell, MediaRows, TraceOf, TimersTell, TokensKnown, CompletionsOk, Expire,
        Next, Unserved;
    var u := Next(s.timers);
    var k := u.token;
    if k in s.states && !s.states[k].issued && !s.states[k].ready {
      TimerDeadline(p, s.timers, s.states, u);
      StatesExpire(p, past, s.expired, cycle, s.states, k);
      UnissuedUnserved(s.states, s.services, s.completions, k);
      ServicesMore(p, past, s.expired, s.services, k);
      LiveNotDone(s, k);
      DonesMore(p, past, s.services, s.expired, s.done, k);
      ExpireKeeps(p, s.states[k]);
      LinkUnissued(s.states, s.services, s.completions, k, Expire(p, s.states[k]));
      TimersUpdate(p, s.timers, s.states, k, Expire(p, s.states[k]));
    }
    TimersLess(p, s.timers, ReleaseOne(p, s).states, u);
    TokensRelease(p, s);
  }

  lemma TimerDeadline(p: Params, timers: set<Timer>, states: States, u: Timer)
    requires TimersTell(p, timers, states) && u in timers && u.token in states
    ensures u.deadline == states[u.token].firstArrival + Hold(p, states[u.token].write)
  {
  }

  lemma UnissuedUnserved(states: States, services: seq<Service>, completions: set<Completion>, k: nat)
    requires LinkOk(states, services, completions) && k in states && !states[k].issued
    ensures Unserved(services, k)
  {
    hide Unserved, Answered;
  }

  lemma LiveNotDone(s: State, k: nat)
    requires TokensKnown(s) && k in s.states
    ensures forall d :: d in s.done ==> d.token != k
  {
  }

  lemma ExpireKeeps(p: Params, t: PageState)
    ensures var g := Expire(p, t); g.issued == t.issued && g.firstArrival == t.firstArrival && g.write == t.write
  {
  }

  lemma TimersLess(p: Params, timers: set<Timer>, states: States, u: Timer)
    requires TimersTell(p, timers, states)
    ensures TimersTell(p, timers - {u}, states)
  {
  }

  lemma TokensRelease(p: Params, s: State)
    requires TokensKnown(s) && s.timers != {}
    ensures TokensKnown(ReleaseOne(p, s))
  {
    hide Next, Expire;
  }

  lemma {:induction false} ReleaseDueTold(p: Params, requests: seq<Request>, past: seq<Request>, s: State, index: nat, cycle: nat)
    requires p.Valid() && index <= |requests| && Ok(p, requests, s, index) && Told(p, past, s, cycle)
    ensures Told(p, past, ReleaseDue(p, s, cycle), cycle)
    decreases |s.timers|
  {
    hide Ok, Told, ReleaseOne, Unissued, Next;
    if !(s.timers == {} || Next(s.timers).deadline > cycle) {
      ReleaseOneOk(p, requests, s, index);
      OkCompletions(p, requests, s, index);
      ReleaseOneTold(p, past, s, cycle);
      ReleaseDueTold(p, requests, past, ReleaseOne(p, s), index, cycle);
    }
  }

  lemma OkCompletions(p: Params, requests: seq<Request>, s: State, index: nat)
    requires p.Valid() && index <= |requests| && Ok(p, requests, s, index)
    ensures CompletionsOk(s.completions, s.states) && QueuesOk(s.queues, s.states) && SitesOk(p, s.states, s.nextToken)
  {
    hide QueuesOk, WaitingOk, TimersOk, CompletionsOk, SitesOk, PastOk, ServicesOk, Accounted, Ids, RowIds;
  }

  // ----- completions ------------------------------------------------------------------------------------------

  lemma {:induction false} DoneRowsReport(requests: seq<Request>, t: PageState, cycle: nat, row: Row)
    requires row in DoneRows(requests, t.ids, cycle, t.error)
    ensures row.kind == Completed && row.id in t.ids && row.cycle == cycle && row.error == t.error
  {
    if requests != [] && row in DoneRows(requests[1..], t.ids, cycle, t.error) { DoneRowsReport(requests[1..], t, cycle, row); }
  }

  lemma {:induction false} MediaRowsAppend(a: seq<Row>, b: seq<Row>)
    ensures MediaRows(a + b) == MediaRows(a) + MediaRows(b)
    decreases |b|
  {
    if b == [] {
      assert a + b == a;
    } else {
      assert (a + b)[..|a + b| - 1] == a + b[..|b| - 1];
      MediaRowsAppend(a, b[..|b| - 1]);
    }
  }

  lemma {:induction false} NoMediaRows(rows: seq<Row>)
    requires forall row :: row in rows ==> !OnMedia(row.kind)
    ensures MediaRows(rows) == []
  {
    if rows != [] { NoMediaRows(rows[..|rows| - 1]); }
  }

  lemma CompleteRows(requests: seq<Request>, rows: seq<Row>, done: seq<Done>, d: Done)
    requires RowsTell(rows, done)
    ensures var more := DoneRows(requests, d.state.ids, d.cycle, d.state.error);
      RowsTell(rows + more, done + [d]) && MediaRows(rows + more) == MediaRows(rows)
  {
    hide MediaRows, DoneRows, Reports;
    var more := DoneRows(requests, d.state.ids, d.cycle, d.state.error);
    forall row | row in more ensures !OnMedia(row.kind) && Reports(row, d) { RowReported(requests, d, row); }
    NoMediaRows(more);
    MediaRowsAppend(rows, more);
    assert MediaRows(rows) + [] == MediaRows(rows);
    forall row | row in rows + more && row.kind == Completed ensures exists e :: e in done + [d] && Reports(row, e) {
      if row in more {
        assert d in done + [d] && Reports(row, d);
      } else {
        var e :| e in done && Reports(row, e);
        assert e in done + [d];
      }
    }
  }

  lemma RowReported(requests: seq<Request>, d: Done, row: Row)
    requires row in DoneRows(requests, d.state.ids, d.cycle, d.state.error)
    ensures !OnMedia(row.kind) && Reports(row, d)
  {
    hide DoneRows;
    DoneRowsReport(requests, d.state, d.cycle, row);
  }

  lemma DoneTold(p: Params, past: seq<Request>, s: State, cycle: nat, c: Completion)
    requires p.Valid() && Told(p, past, s, cycle) && CompletionsOk(s.completions, s.states) && c in s.completions && c.finish == cycle
    ensures c.token in s.states && DoneTells(p, past, s.services, s.expired, Done(c.token, s.states[c.token], cycle))
  {
    hide Gathers, ArrivedBy, ServicesTell, ProgrammedOk, DonesTell, RowsTell, MediaRows, TraceOf, TimersTell, TokensKnown, Answered, Unserved,
        Lacking, Justified, TimedOut;
    StateOf(p, past, s.expired, cycle, s.states, c.token);
  }

  lemma LinkComplete(states: States, services: seq<Service>, completions: set<Completion>, c: Completion)
    requires LinkOk(states, services, completions)
    ensures LinkOk(states - {c.token}, services, completions - {c})
  {
    hide Unserved, Answered;
  }

  lemma CompleteOneTold(p: Params, requests: seq<Request>, past: seq<Request>, s: State, cycle: nat)
    requires p.Valid() && Told(p, past, s, cycle) && CompletionsOk(s.completions, s.states) && s.completions != {}
        && First(s.completions).finish == cycle
    ensures Told(p, past, CompleteOne(requests, s, cycle), cycle)
  {
    hide StateTells, ServicesTell, ProgrammedOk, LinkOk, DoneTells, RowsTell, MediaRows, TraceOf, TimersTell, TokensKnown, CompletionsOk, First,
        DoneRows, Dequeue;
    var c := First(s.completions);
    DoneTold(p, past, s, cycle, c);
    var d := Done(c.token, s.states[c.token], cycle);
    CompleteRows(requests, s.rows, s.done, d);
    LinkComplete(s.states, s.services, s.completions, c);
    TimersGone(p, s.timers, s.states, c.token);
    TokensComplete(requests, s, cycle);
  }

  lemma TimersGone(p: Params, timers: set<Timer>, states: States, k: nat)
    requires TimersTell(p, timers, states)
    ensures TimersTell(p, timers, states - {k})
  {
  }

  lemma TokensComplete(requests: seq<Request>, s: State, cycle: nat)
    requires TokensKnown(s) && s.completions != {}
    ensures TokensKnown(CompleteOne(requests, s, cycle))
  {
    hide First, DoneRows, Dequeue;
  }

  lemma {:induction false} CompleteDueTold(p: Params, requests: seq<Request>, past: seq<Request>, s: State, index: nat, cycle: nat)
    requires p.Valid() && index <= |requests| && Distinct(Ids(requests)) && Ok(p, requests, s, index) && Told(p, past, s, cycle)
    requires Punctual(s.completions, cycle)
    ensures var t := CompleteDue(requests, s, cycle); Told(p, past, t, cycle) && t.completions <= s.completions && Punctual(t.completions, cycle)
    decreases |s.completions|
  {
    hide Ok, Told, CompleteOne, Unissued, Ids, First;
    if !(s.completions == {} || First(s.completions).finish > cycle) {
      FirstIn(s.completions);
      OkCompletions(p, requests, s, index);
      CompleteOneOk(p, requests, s, index, cycle);
      CompleteOneTold(p, requests, past, s, cycle);
      CompleteDueTold(p, requests, past, CompleteOne(requests, s, cycle), index, cycle);
    }
  }

  // ----- issuing ------------------------------------------------------------------------------------------------

  lemma WrittenMore(services: seq<Service>, v: Service, page: nat)
    ensures Written(services + [v], page) <==> Written(services, page) || (v.state.write && v.site.page == page)
  {
    if Written(services, page) {
      var u :| u in services && u.state.write && u.site.page == page;
      assert u in services + [v];
    }
    if v.state.write && v.site.page == page { assert v in services + [v]; }
  }

  lemma ServicesIssued(p: Params, past: seq<Request>, expired: set<nat>, services: seq<Service>, v: Service)
    requires p.Valid() && ServicesTell(p, past, expired, services) && ServiceTells(p, past, expired, v) && Unserved(services, v.token)
    requires v.finish == v.start + Takes(p, services, v.state)
    ensures ServicesTell(p, past, expired, services + [v])
  {
    hide ServiceTells, Takes;
    var all := services + [v];
    forall i | 0 <= i < |all| ensures all[i].finish == all[i].start + Takes(p, all[..i], all[i].state) {
      if i < |services| { assert all[..i] == services[..i]; } else { assert all[..i] == services; }
    }
  }

  lemma TraceIssued(services: seq<Service>, v: Service)
    ensures TraceOf(services + [v]) == TraceOf(services) + ServiceRows(services, v)
  {
    assert (services + [v])[..|services + [v]| - 1] == services;
  }

  lemma RowsIssued(s: State, t: PageState, v: Service)
    requires ProgrammedOk(s.programmed, s.services) && v.state == t && v.site == t.site
    ensures IssueRows(s, t, v.start) == ServiceRows(s.services, v) && forall row :: row in IssueRows(s, t, v.start) ==> OnMedia(row.kind)
  {
    assert t.site.page in s.programmed <==> Written(s.services, t.site.page);
  }

  lemma {:induction false} AllMediaRows(rows: seq<Row>)
    requires forall row :: row in rows ==> OnMedia(row.kind)
    ensures MediaRows(rows) == rows
  {
    if rows != [] { AllMediaRows(rows[..|rows| - 1]); }
  }

  lemma ServedRows(rows: seq<Row>, more: seq<Row>, done: seq<Done>)
    requires RowsTell(rows, done) && forall row :: row in more ==> OnMedia(row.kind)
    ensures RowsTell(rows + more, done) && MediaRows(rows + more) == MediaRows(rows) + more
  {
    hide MediaRows, Reports;
    AllMediaRows(more);
    MediaRowsAppend(rows, more);
    forall row | row in rows + more && row.kind == Completed ensures exists d :: d in done && Reports(row, d) { assert row in rows; }
  }

  lemma DonesServed(p: Params, past: seq<Request>, services: seq<Service>, expired: set<nat>, done: seq<Done>, v: Service)
    requires p.Valid() && DonesTell(p, past, services, expired, done) && forall d :: d in done ==> d.token != v.token
    ensures DonesTell(p, past, services + [v], expired, done)
  {
    hide Gathers, ArrivedBy, Lacking, Serves;
    forall d | d in done ensures DoneTells(p, past, services + [v], expired, d) {
      AnsweredMore(services, d.token, d.state, d.cycle, v);
    }
  }

  lemma AnsweredMore(services: seq<Service>, k: nat, t: PageState, finish: nat, v: Service)
    requires Answered(services, k, t, finish) && k != v.token
    ensures Answered(services + [v], k, t, finish)
  {
    hide Serves;
    if !t.error {
      var u :| u in services && Serves(u, k, t) && u.finish == finish;
      assert u in services + [v];
    }
  }

  lemma LinkIssued(states: States, services: seq<Service>, completions: set<Completion>, c: Completion, g: PageState, v: Service)
    requires LinkOk(states, services, completions) && CompletionsOk(completions, states)
    requires c.token in states && !states[c.token].issued && g.issued && v.token == c.token
    requires !g.error ==> Serves(v, c.token, g) && v.finish == c.finish
    ensures g.error ==> LinkOk(states[c.token := g], services, completions + {c})
    ensures !g.error ==> LinkOk(states[c.token := g], services + [v], completions + {c})
  {
    hide Serves;
    var after, more := states[c.token := g], services + [v];
    forall d | d in completions && d.token in after && d.token != c.token
      ensures Answered(services, d.token, after[d.token], d.finish) && Answered(more, d.token, after[d.token], d.finish)
    {
      AnsweredMore(services, d.token, after[d.token], d.finish, v);
    }
    if !g.error { assert v in more; }
  }

  lemma IssuedTells(p: Params, past: seq<Request>, expired: set<nat>, cycle: nat, k: nat, t: PageState)
    requires p.Valid() && StateTells(p, past, expired, cycle, k, t) && !t.issued && t.ready
    ensures Rejected(p, t) == Lacking(p, expired, k, t)
    ensures StateTells(p, past, expired, cycle, k, t.(issued := true, error := Rejected(p, t)))
    ensures ServiceShape(p, past, expired, k, t, cycle)
  {
    hide Gathers, ArrivedBy, ReadBehind;
    GathersReady(p, past, t);
    var g := t.(issued := true, error := Rejected(p, t));
    assert g == t.(ready := t.ready, issued := true, error := Rejected(p, t));
    ReadBehindSame(p, past, t, g);
  }

  /** A service started from the state now would be as it should. */
  ghost predicate ServiceShape(p: Params, past: seq<Request>, expired: set<nat>, k: nat, t: PageState, cycle: nat)
    requires p.Valid()
  {
    !Lacking(p, expired, k, t) ==> forall finish :: ServiceTells(p, past, expired, Service(k, t.site, cycle, finish, t))
  }

  lemma DurationIs(p: Params, s: State, t: PageState)
    requires p.Valid() && ProgrammedOk(s.programmed, s.services)
    ensures Duration(p, s, t) == Takes(p, s.services, t)
  {
    hide Written, Transfer;
  }

  lemma ProgrammedMore(programmed: set<nat>, services: seq<Service>, v: Service)
    requires ProgrammedOk(programmed, services)
    ensures ProgrammedOk(if v.state.write then programmed + {v.site.page} else programmed, services + [v])
  {
    hide Written;
    forall page { WrittenMore(services, v, page); }
  }

  lemma TokensIssue(p: Params, s: State, k: nat, cycle: nat)
    requires p.Valid() && TokensKnown(s) && k in s.states
    ensures TokensKnown(Issue(p, s, k, cycle))
  {
    hide Rejected, Duration, IssueRows, Occupy;
  }

  lemma IssueRejectedTold(p: Params, past: seq<Request>, s: State, k: nat, cycle: nat)
    requires p.Valid() && Told(p, past, s, cycle) && CompletionsOk(s.completions, s.states) && Pending(s, k) && s.states[k].ready
        && Rejected(p, s.states[k])
    ensures Told(p, past, Issue(p, s, k, cycle), cycle)
  {
    hide StateTells, StatesTell, ServicesTell, ProgrammedOk, LinkOk, DonesTell, RowsTell, MediaRows, TraceOf, TimersTell, TokensKnown, CompletionsOk,
        Duration, IssueRows, Rejected, ServiceShape;
    var t := s.states[k];
    var g := t.(issued := true, error := true);
    StateOf(p, past, s.expired, cycle, s.states, k);
    IssuedTells(p, past, s.expired, cycle, k, t);
    StatesWith(p, past, s.expired, cycle, s.states, k, g);
    LinkIssued(s.states, s.services, s.completions, Completion(cycle, s.nextSequence, k), g, Service(k, t.site, cycle, cycle, t));
    TimersUpdate(p, s.timers, s.states, k, g);
    TokensIssue(p, s, k, cycle);
  }

  lemma IssueServedTold(p: Params, past: seq<Request>, s: State, k: nat, cycle: nat)
    requires p.Valid() && Told(p, past, s, cycle) && CompletionsOk(s.completions, s.states) && Pending(s, k) && s.states[k].ready
        && !Rejected(p, s.states[k])
    ensures Told(p, past, Issue(p, s, k, cycle), cycle)
  {
    hide StateTells, StatesTell, ServicesTell, ProgrammedOk, LinkOk, DonesTell, RowsTell, MediaRows, TraceOf, TimersTell, TokensKnown, CompletionsOk,
        Duration, IssueRows, Rejected, ServiceTells, Serves, Lacking, Takes, Occupy, ServiceRows;
    var t := s.states[k];
    var g := t.(issued := true, error := false);
    var finish := cycle + Duration(p, s, t);
    var v := Service(k, t.site, cycle, finish, t);
    StateOf(p, past, s.expired, cycle, s.states, k);
    IssuedTells(p, past, s.expired, cycle, k, t);
    StatesWith(p, past, s.expired, cycle, s.states, k, g);
    UnissuedUnserved(s.states, s.services, s.completions, k);
    DurationIs(p, s, t);
    ServicesIssued(p, past, s.expired, s.services, v);
    ProgrammedMore(s.programmed, s.services, v);
    ServesIssued(k, t, v);
    LinkIssued(s.states, s.services, s.completions, Completion(finish, s.nextSequence, k), g, v);
    LiveNotDone(s, k);
    DonesServed(p, past, s.services, s.expired, s.done, v);
    RowsIssued(s, t, v);
    ServedRows(s.rows, IssueRows(s, t, cycle), s.done);
    TraceIssued(s.services, v);
    TimersUpdate(p, s.timers, s.states, k, g);
    TokensIssue(p, s, k, cycle);
  }

  lemma ServesIssued(k: nat, t: PageState, v: Service)
    requires v.token == k && v.site == t.site && v.state == t
    ensures Serves(v, k, t.(issued := true, error := false))
  {
  }

  lemma IssueTold(p: Params, past: seq<Request>, s: State, k: nat, cycle: nat, waiting: seq<nat>)
    requires p.Valid() && Told(p, past, s, cycle) && CompletionsOk(s.completions, s.states) && Schedulable(s, k, cycle)
    requires Punctual(s.completions, cycle)
    ensures var t := Issue(p, s.(waiting := waiting), k, cycle); Told(p, past, t, cycle) && Punctual(t.completions, cycle)
  {
    hide Told, CompletionsOk, Issue, Head, Free, Rejected;
    ToldWaiting(p, past, s, cycle, waiting);
    var w := s.(waiting := waiting);
    if Rejected(p, s.states[k]) { IssueRejectedTold(p, past, w, k, cycle); } else { IssueServedTold(p, past, w, k, cycle); }
    IssuePunctual(p, w, k, cycle);
  }

  lemma IssuePunctual(p: Params, s: State, k: nat, cycle: nat)
    requires p.Valid() && k in s.states && Punctual(s.completions, cycle)
    ensures Punctual(Issue(p, s, k, cycle).completions, cycle)
  {
    hide Duration, Rejected, IssueRows, Occupy;
  }

  lemma ToldWaiting(p: Params, past: seq<Request>, s: State, cycle: nat, waiting: seq<nat>)
    requires p.Valid() && Told(p, past, s, cycle)
    ensures Told(p, past, s.(waiting := waiting), cycle)
  {
    hide StatesTell, ServicesTell, ProgrammedOk, LinkOk, DonesTell, RowsTell, MediaRows, TraceOf, TimersTell, TokensKnown;
    TokensSame(s, s.(waiting := waiting));
  }

  /** Nothing is left to issue, or the active limit is reached. */
  ghost predicate Exhausted(p: Params, s: State, cycle: nat) { |s.completions| >= p.maxActive || forall k :: k in s.states ==> !Schedulable(s, k, cycle) }

  lemma {:induction false} IssueReadyTold(p: Params, requests: seq<Request>, past: seq<Request>, s: State, index: nat, cycle: nat)
    requires p.Valid() && index <= |requests| && Ok(p, requests, s, index) && TimesOk(s, cycle)
    requires Told(p, past, s, cycle) && Punctual(s.completions, cycle)
    ensures var t := IssueReady(p, s, cycle); Told(p, past, t, cycle) && Punctual(t.completions, cycle) && Exhausted(p, t, cycle)
    decreases |Unissued(s)|
  {
    hide Ok, Told, Unissued, Choose, Issue, Schedulable, BusyOk, CompletionsOk;
    if |s.completions| < p.maxActive {
      ChooseFacts(s, s.waiting, cycle);
      AllWaiting(p, requests, s, index);
      var (chosen, rest) := Choose(s, s.waiting, cycle);
      UnissuedWaiting(s, rest);
      ToldWaiting(p, past, s, cycle, rest);
      if chosen.None? {
        SchedulableWaits(s, rest, cycle);
      } else {
        SchedulablePending(s, chosen.value, cycle);
        IssueOk(p, requests, s, index, chosen.value, cycle, rest);
        OkCompletions(p, requests, s, index);
        IssueTold(p, past, s, chosen.value, cycle, rest);
        IssueShrinks(p, s.(waiting := rest), chosen.value, cycle);
        IssueReadyTold(p, requests, past, Issue(p, s.(waiting := rest), chosen.value, cycle), index, cycle);
      }
    }
  }

  lemma SchedulableWaits(s: State, waiting: seq<nat>, cycle: nat)
    requires WaitingOk(s.waiting, s.states) && forall k :: k in s.waiting ==> !Schedulable(s, k, cycle)
    ensures forall k :: k in s.states ==> !Schedulable(s.(waiting := waiting), k, cycle)
  {
    hide Head, Free;
    forall k | k in s.states ensures !Schedulable(s.(waiting := waiting), k, cycle) {
      if !s.states[k].issued { SameSchedule(s, waiting, k, cycle); }
    }
  }

  lemma SameSchedule(s: State, waiting: seq<nat>, k: nat, cycle: nat)
    ensures Schedulable(s.(waiting := waiting), k, cycle) == Schedulable(s, k, cycle)
  {
  }

  // ----- the oldest first ---------------------------------------------------------------------------------------

  /** The waiting list is in creation order. */
  ghost predicate Orderly(s: State) { Ascending(s.waiting) && forall k :: k in s.waiting ==> k < s.nextToken }

  lemma IngestOrderly(p: Params, s: State, r: Request, cycle: nat)
    requires p.Valid() && Acceptable(p, r) && Orderly(s)
    ensures Orderly(Ingest(p, s, r, cycle))
  {
    hide Joined, Fresh, Hold, Acceptable, SiteOfPage;
    forall i | 0 <= i < |s.waiting| ensures s.waiting[i] < s.nextToken { assert s.waiting[i] in s.waiting; }
  }

  lemma {:induction false} ReleaseDueOrderly(p: Params, s: State, cycle: nat)
    requires Orderly(s)
    ensures Orderly(ReleaseDue(p, s, cycle))
    decreases |s.timers|
  {
    hide Next, Expire;
    if !(s.timers == {} || Next(s.timers).deadline > cycle) { ReleaseDueOrderly(p, ReleaseOne(p, s), cycle); }
  }

  lemma {:induction false} CompleteDueOrderly(requests: seq<Request>, s: State, cycle: nat)
    requires Orderly(s)
    ensures Orderly(CompleteDue(requests, s, cycle))
    decreases |s.completions|
  {
    hide First, DoneRows, Dequeue;
    if !(s.completions == {} || First(s.completions).finish > cycle) { CompleteDueOrderly(requests, CompleteOne(requests, s, cycle), cycle); }
  }

  /** What is left of the list keeps its order. */
  lemma {:induction false} ChooseOrder(s: State, waiting: seq<nat>, cycle: nat)
    requires Ascending(waiting)
    ensures var rest := Choose(s, waiting, cycle).1; Ascending(rest) && forall k :: k in rest ==> k in waiting
  {
    hide Schedulable;
    if waiting != [] {
      AscendingTail(waiting);
      ChooseOrder(s, waiting[1..], cycle);
      var rest := Choose(s, waiting[1..], cycle).1;
      forall i | 0 <= i < |rest| ensures waiting[0] < rest[i] {
        assert rest[i] in rest;
        var j :| 0 <= j < |waiting[1..]| && waiting[1..][j] == rest[i];
        assert waiting[j + 1] == rest[i];
      }
    }
  }

  lemma {:induction false} ChooseFirst(s: State, waiting: seq<nat>, cycle: nat, k: nat)
    requires Ascending(waiting) && k in waiting && Schedulable(s, k, cycle)
    ensures var chosen := Choose(s, waiting, cycle).0; chosen.Some? && Schedulable(s, chosen.value, cycle) && chosen.value <= k
  {
    hide Head, Free;
    AscendingTail(waiting);
    if !Schedulable(s, waiting[0], cycle) { ChooseFirst(s, waiting[1..], cycle, k); }
  }

  /** The state issued is the oldest of those that can be. */
  lemma OldestFirst(p: Params, requests: seq<Request>, s: State, index: nat, cycle: nat, k: nat)
    requires p.Valid() && index <= |requests| && Ok(p, requests, s, index) && Orderly(s) && Schedulable(s, k, cycle)
    ensures var chosen := Choose(s, s.waiting, cycle).0; chosen.Some? && Schedulable(s, chosen.value, cycle) && chosen.value <= k
  {
    hide Ok, Schedulable;
    AllWaiting(p, requests, s, index);
    SchedulablePending(s, k, cycle);
    ChooseFirst(s, s.waiting, cycle, k);
  }

  lemma {:induction false} IssueReadyOrderly(p: Params, s: State, cycle: nat)
    requires p.Valid() && Orderly(s)
    ensures Orderly(IssueReady(p, s, cycle))
    decreases |Unissued(s)|
  {
    hide Unissued, Choose, Pending, Rejected, Duration, IssueRows, Occupy;
    if |s.completions| < p.maxActive {
      var (chosen, rest) := Choose(s, s.waiting, cycle);
      ChooseOrder(s, s.waiting, cycle);
      if chosen.Some? && Pending(s, chosen.value) {
        UnissuedWaiting(s, rest);
        PendingIn(s, rest, chosen.value);
        IssueShrinks(p, s.(waiting := rest), chosen.value, cycle);
        IssueReadyOrderly(p, Issue(p, s.(waiting := rest), chosen.value, cycle), cycle);
      }
    }
  }

  lemma PendingIn(s: State, waiting: seq<nat>, k: nat)
    requires Pending(s, k)
    ensures Pending(s.(waiting := waiting), k) && k in s.states
  {
  }

  // ----- reads do not wait for a write's timer ----------------------------------------------------------------------

  /** Only the last state of a page may be a write that is not ready: anything behind a write lets it go. */
  predicate TailOnly(queue: seq<nat>, states: States) {
    forall i :: 0 <= i < |queue| - 1 ==> queue[i] in states && (states[queue[i]].write ==> states[queue[i]].ready)
  }

  predicate TailsOnly(queues: Queues, states: States) { forall page :: page in queues ==> TailOnly(queues[page], states) }

  /** States become ready and stay ready. */
  predicate Readier(states: States, after: States) {
    forall k :: k in states ==> k in after && after[k].write == states[k].write && (states[k].ready ==> after[k].ready)
  }

  lemma TailsReadier(queues: Queues, states: States, after: States)
    requires TailsOnly(queues, states) && Readier(states, after)
    ensures TailsOnly(queues, after)
  {
    forall page | page in queues ensures TailOnly(queues[page], after) { assert TailOnly(queues[page], states); }
  }

  lemma TailsEnqueue(queues: Queues, states: States, page: nat, k: nat, g: PageState)
    requires TailsOnly(queues, states) && k !in states
    requires page in queues && queues[page] != [] ==>
      var tail := queues[page][|queues[page]| - 1]; tail in states && (states[tail].write ==> states[tail].ready)
    ensures TailsOnly(queues[page := (if page in queues then queues[page] else []) + [k]], states[k := g])
  {
    var queue := if page in queues then queues[page] else [];
    var all, after := queues[page := queue + [k]], states[k := g];
    forall q | q in all ensures TailOnly(all[q], after) {
      if q in queues { assert TailOnly(queues[q], states); }
    }
  }

  lemma IngestTails(p: Params, past: seq<Request>, s: State, r: Request, cycle: nat)
    requires p.Valid() && Acceptable(p, r) && QueuesOk(s.queues, s.states) && SitesOk(p, s.states, s.nextToken)
        && StatesTell(p, past, s.expired, cycle, s.states) && TailsOnly(s.queues, s.states)
    ensures var t := Ingest(p, s, r, cycle); TailsOnly(t.queues, t.states)
  {
    hide StatesTell, QueuesOk, TailsOnly, Joined, Fresh, Acceptable, SiteOfPage, Hold;
    var page := (r.address - p.base) / p.pageSize;
    AddressSite(p, r);
    FreshPage(p, r);
    TokenIsNew(p, s);
    var tail := Tail(s, page);
    if tail.Some? {
      TailSite(p, s, page);
      var k := tail.value;
      IssuedReady(p, past, s.expired, cycle, s.states, k);
      if Joins(s, k, r) {
        JoinedReady(p, s.states[k], r);
        TailsReadier(s.queues, s.states, s.states[k := Joined(p, s.states[k], r)]);
      } else {
        var t := Hurry(s, tail, r);
        TailsReadier(s.queues, s.states, t.states);
        TailsEnqueue(s.queues, t.states, page, s.nextToken, Fresh(p, r));
      }
    } else {
      TailsEnqueue(s.queues, s.states, page, s.nextToken, Fresh(p, r));
    }
  }

  lemma FreshPage(p: Params, r: Request)
    requires p.Valid() && Acceptable(p, r)
    ensures Fresh(p, r).site.page == (r.address - p.base) / p.pageSize
  {
    hide Covered;
    PageOfSite(p, (r.address - p.base) / p.pageSize);
  }

  lemma IssuedReady(p: Params, past: seq<Request>, expired: set<nat>, cycle: nat, states: States, k: nat)
    requires p.Valid() && StatesTell(p, past, expired, cycle, states) && k in states
    ensures states[k].issued ==> states[k].ready
  {
    StateOf(p, past, expired, cycle, states, k);
    hide StatesTell, Gathers, ArrivedBy, Justified, Lacking;
  }

  lemma JoinedReady(p: Params, t: PageState, r: Request)
    requires p.Valid() && Acceptable(p, r)
    ensures Joined(p, t, r).write == t.write && (t.ready ==> Joined(p, t, r).ready)
  {
    hide Covered;
  }

  lemma {:induction false} ReleaseDueTails(p: Params, s: State, cycle: nat)
    requires TailsOnly(s.queues, s.states)
    ensures var t := ReleaseDue(p, s, cycle); TailsOnly(t.queues, t.states)
    decreases |s.timers|
  {
    hide Next, TailsOnly;
    if !(s.timers == {} || Next(s.timers).deadline > cycle) {
      TailsReadier(s.queues, s.states, ReleaseOne(p, s).states);
      ReleaseDueTails(p, ReleaseOne(p, s), cycle);
    }
  }

  lemma CompleteOneTails(requests: seq<Request>, s: State, cycle: nat)
    requires s.completions != {} && QueuesOk(s.queues, s.states) && CompletionsOk(s.completions, s.states) && TailsOnly(s.queues, s.states)
    ensures var t := CompleteOne(requests, s, cycle); TailsOnly(t.queues, t.states)
  {
    hide First, DoneRows, TailsOnly, QueuesOk, Dequeue;
    var c := First(s.completions);
    QueuesComplete(s.queues, s.states, c.token);
    TailsComplete(s.queues, s.states, c.token);
  }

  lemma TailRest(queue: seq<nat>, page: nat, states: States, k: nat)
    requires TailOnly(queue, states) && QueueOk(queue, page, states) && queue[0] == k
    ensures TailOnly(queue[1..], states - {k})
  {
    OnlyHead(queue, page, states, k);
    hide QueueOk;
    var rest := queue[1..];
    forall i | 0 <= i < |rest| - 1
      ensures rest[i] in states - {k} && ((states - {k})[rest[i]].write ==> (states - {k})[rest[i]].ready)
    {
      assert rest[i] == queue[i + 1];
    }
  }

  lemma TailElsewhere(queue: seq<nat>, page: nat, states: States, k: nat)
    requires TailOnly(queue, states) && QueueOk(queue, page, states) && k in states && states[k].site.page != page
    ensures TailOnly(queue, states - {k})
  {
    forall i | 0 <= i < |queue| ensures queue[i] != k { assert queue[i] in queue; }
    hide QueueOk;
  }

  lemma TailsComplete(queues: Queues, states: States, k: nat)
    requires QueuesOk(queues, states) && k in states && states[k].issued && TailsOnly(queues, states)
    ensures TailsOnly(Dequeue(queues, states[k].site.page, k), states - {k})
  {
    hide QueueOk, TailOnly;
    QueuesComplete(queues, states, k);
    var page := states[k].site.page;
    var after := Dequeue(queues, page, k);
    forall q | q in after ensures TailOnly(after[q], states - {k}) {
      if q == page { TailRest(queues[q], q, states, k); } else { TailElsewhere(queues[q], q, states, k); }
    }
  }

  lemma {:induction false} CompleteDueTails(p: Params, requests: seq<Request>, s: State, index: nat, cycle: nat)
    requires p.Valid() && index <= |requests| && Distinct(Ids(requests)) && Ok(p, requests, s, index) && TailsOnly(s.queues, s.states)
    ensures var t := CompleteDue(requests, s, cycle); TailsOnly(t.queues, t.states)
    decreases |s.completions|
  {
    hide Ok, TailsOnly, CompleteOne, Ids, First, QueuesOk, CompletionsOk;
    if !(s.completions == {} || First(s.completions).finish > cycle) {
      FirstIn(s.completions);
      OkCompletions(p, requests, s, index);
      CompleteOneOk(p, requests, s, index, cycle);
      CompleteOneTails(requests, s, cycle);
      CompleteDueTails(p, requests, CompleteOne(requests, s, cycle), index, cycle);
    }
  }

  lemma {:induction false} IssueReadyTails(p: Params, s: State, cycle: nat)
    requires p.Valid() && TailsOnly(s.queues, s.states)
    ensures var t := IssueReady(p, s, cycle); TailsOnly(t.queues, t.states)
    decreases |Unissued(s)|
  {
    hide Unissued, Choose, Pending, Rejected, Duration, IssueRows, Occupy, TailsOnly;
    if |s.completions| < p.maxActive {
      var (chosen, rest) := Choose(s, s.waiting, cycle);
      if chosen.Some? && Pending(s, chosen.value) {
        UnissuedWaiting(s, rest);
        PendingIn(s, rest, chosen.value);
        var t := Issue(p, s.(waiting := rest), chosen.value, cycle);
        TailsReadier(s.queues, s.states, t.states);
        IssueShrinks(p, s.(waiting := rest), chosen.value, cycle);
        IssueReadyTails(p, t, cycle);
      }
    }
  }

  /** No timer that is due is left. */
  lemma {:induction false} ReleaseDueAll(p: Params, s: State, cycle: nat)
    ensures forall u :: u in ReleaseDue(p, s, cycle).timers ==> cycle < u.deadline
    decreases |s.timers|
  {
    hide ReleaseOne, Next;
    if s.timers != {} {
      NextIn(s.timers);
      if Next(s.timers).deadline <= cycle {
        FewerTimers(p, s);
        ReleaseDueAll(p, ReleaseOne(p, s), cycle);
      }
    }
  }

  lemma NextIn(heap: set<Timer>)
    requires heap != {}
    ensures Next(heap) in heap && forall u :: u in heap ==> Next(heap).deadline <= u.deadline
  {
    forall u | u in heap ensures Next(heap).deadline <= u.deadline { assert Earlier(Next(heap), u); }
  }

  lemma FewerTimers(p: Params, s: State)
    requires s.timers != {}
    ensures |ReleaseOne(p, s).timers| < |s.timers|
  {
    hide Next, Expire;
    NextIn(s.timers);
  }

  // ----- what is refused --------------------------------------------------------------------------------------------

  /** The byte lies on the page of the first one. */
  predicate OnPage(p: Params, r: Request, i: nat)
    requires p.Valid() && p.base <= r.address
  {
    (r.address - p.base + i) / p.pageSize == (r.address - p.base) / p.pageSize
  }

  /** Taken in is exactly a request in the span, and a write with all its bytes on one page. */
  lemma AcceptableExactly(p: Params, r: Request)
    requires p.Valid()
    ensures Acceptable(p, r) <==> p.base <= r.address < p.base + p.span && (r.write ==> forall i: nat :: i < r.bytes ==> OnPage(p, r, i))
  {
    if p.base <= r.address {
      forall i: nat ensures OnPage(p, r, i) <==> Offset(p, r) + i < p.pageSize { SamePage(r.address - p.base, i, p.pageSize); }
      hide OnPage, Offset;
      if Offset(p, r) + r.bytes > p.pageSize && r.bytes > 0 { assert !OnPage(p, r, r.bytes - 1); }
      OffsetBelow(p, r);
    }
  }

  lemma OffsetBelow(p: Params, r: Request)
    requires p.Valid() && p.base <= r.address
    ensures Offset(p, r) < p.pageSize
  {
  }

  lemma SamePage(at: nat, i: nat, n: nat)
    requires n > 0
    ensures (at + i) / n == at / n <==> at % n + i < n
  {
    Whole(at, n);
    Whole(at + i, n);
    Step((at + i) / n - at / n, n);
    Step(at / n - (at + i) / n, n);
    var d := (at + i) / n - at / n;
    assert i == d * n + (at + i) % n - at % n;
    assert (-d) * n == -(d * n);
    if d < 0 { Negative(d, n); }
  }

  lemma Whole(a: nat, n: nat)
    requires n > 0
    ensures a == (a / n) * n + a % n
  {
  }

  lemma Negative(d: int, n: nat)
    requires d < 0
    ensures d * n + n <= 0
  {
    Opposite(-d - 1, n);
  }

  lemma Opposite(e: int, n: int)
    requires e >= 0 && n >= 0
    ensures (-e - 1) * n + n <= 0
  {
    assert (-e - 1) * n == -(e * n) - n;
  }

  // ----- rates and places -----------------------------------------------------------------------------------------

  /** The transfer takes the fewest whole ticks that carry the bytes. */
  lemma TransferFits(p: Params, bytes: nat)
    requires p.Valid()
    ensures var ticks := Transfer(p, bytes);
      && bytes as real <= ticks as real * p.bytesPerTick
      && (ticks > 0 ==> (ticks - 1) as real * p.bytesPerTick < bytes as real)
  {
    hide Transfer;
    var q, ticks := bytes as real / p.bytesPerTick, Transfer(p, bytes);
    RoundedUp(p, bytes);
    Quotient(bytes as real, p.bytesPerTick);
    Scale(q, ticks as real, p.bytesPerTick);
    if ticks > 0 { ScaleStrict((ticks - 1) as real, q, p.bytesPerTick); }
  }

  lemma RoundedUp(p: Params, bytes: nat)
    requires p.Valid()
    ensures var q, ticks := bytes as real / p.bytesPerTick, Transfer(p, bytes);
      q <= ticks as real && (ticks > 0 ==> (ticks - 1) as real < q)
  {
  }

  lemma Quotient(a: real, b: real)
    requires b != 0.0
    ensures a == (a / b) * b
  {
  }

  lemma Scale(a: real, b: real, c: real)
    requires c > 0.0 && a <= b
    ensures a * c <= b * c
  {
  }

  lemma ScaleStrict(a: real, b: real, c: real)
    requires c > 0.0 && a < b
    ensures a * c < b * c
  {
  }

  // ----- what the COMPLETED rows mean ------------------------------------------------------------------------------

  /** A COMPLETED row belongs to a state that gathered its request. It is in error exactly if strict mode
      turned the state away, which then was not served; otherwise the state's one service, of the length
      the media and the link take, ends in the cycle of the row. */
  ghost predicate Truthful(p: Params, requests: seq<Request>, services: seq<Service>, expired: set<nat>, done: seq<Done>, row: Row)
    requires p.Valid()
  {
    exists d :: d in done && row.id in d.state.ids && row.cycle == d.cycle && Gathers(p, requests, d.state)
      && (row.error <==> Lacking(p, expired, d.token, d.state)) && TimedOut(p, expired, d.token, d.state, d.cycle)
      && if row.error then Unserved(services, d.token)
         else exists v :: v in services && Serves(v, d.token, d.state) && v.finish == row.cycle && ServiceTells(p, requests, expired, v)
  }

  lemma RowsTruthful(p: Params, requests: seq<Request>, s: State, cycle: nat)
    requires p.Valid() && Told(p, requests, s, cycle)
    ensures forall row :: row in s.rows && row.kind == Completed ==> Truthful(p, requests, s.services, s.expired, s.done, row)
    ensures Lengths(p, s.services) && OncePerState(s.services) && MediaRows(s.rows) == TraceOf(s.services)
  {
    hide StateTells, ProgrammedOk, LinkOk, MediaRows, TraceOf, TimersTell, TokensKnown, Gathers, ArrivedBy, Lacking, TimedOut, Serves, ServiceTells,
        Lengths, OncePerState, Unserved;
    forall row | row in s.rows && row.kind == Completed ensures Truthful(p, requests, s.services, s.expired, s.done, row) {
      var d :| d in s.done && Reports(row, d);
      assert DoneTells(p, requests, s.services, s.expired, d);
      if !row.error {
        var v :| v in s.services && Serves(v, d.token, d.state) && v.finish == d.cycle;
        assert ServiceTells(p, requests, s.expired, v);
      }
    }
  }

  // ----- where pages live -------------------------------------------------------------------------------------------

  /** The site of a page, unclamped: the share of its channel holds the sub-array. */
  lemma SiteInShare(p: Params, page: nat)
    requires p.Valid()
    ensures var site, share := SiteOfPage(p, page), p.subarrays / p.channels;
      && share > 0 && site.channel == page % p.channels && site.channel * share <= site.subarray < (site.channel + 1) * share <= p.subarrays
      && site.subarray == site.channel * share + (page / p.channels) % share
  {
    var share, channel := p.subarrays / p.channels, page % p.channels;
    Share(p.subarrays, p.channels);
    Within(channel, share, p.channels);
    assert (page / p.channels) % share < share;
  }

  lemma Share(all: nat, parts: nat)
    requires 0 < parts <= all
    ensures all / parts > 0 && parts * (all / parts) <= all
  {
  }

  lemma Within(i: nat, share: nat, n: nat)
    requires i < n
    ensures (i + 1) * share == i * share + share && (i + 1) * share <= n * share
  {
    assert n * share == (i + 1) * share + (n - i - 1) * share;
  }

  /** Neighbouring pages are spread over all channels and, inside a channel, over its sub-arrays: two pages
      share a sub-array only if they are a whole round apart. */
  lemma SitesSpread(p: Params, a: nat, b: nat)
    requires p.Valid() && a < b < a + p.channels * (p.subarrays / p.channels)
    ensures SiteOfPage(p, a).channel != SiteOfPage(p, b).channel || SiteOfPage(p, a).subarray != SiteOfPage(p, b).subarray
  {
    hide SiteOfPage;
    SiteInShare(p, a);
    SiteInShare(p, b);
    var n, share := p.channels, p.subarrays / p.channels;
    if a % n == b % n && (a / n) % share == (b / n) % share { RoundApart(a, b, n, share); }
  }

  lemma RoundApart(a: nat, b: nat, n: nat, share: nat)
    requires n > 0 && share > 0 && a < b && a % n == b % n && (a / n) % share == (b / n) % share
    ensures a + n * share <= b
  {
    var x, y := a / n, b / n;
    assert b - a == (y - x) * n;
    Step(y - x, n);
    assert y - x == (y / share - x / share) * share;
    Step(y / share - x / share, share);
    Times(y - x, share, n);
  }

  /** A positive multiple is at least one unit. */
  lemma Step(d: int, n: nat)
    ensures d * n > 0 ==> d * n >= n
  {
    if d > 0 { assert d * n == n + (d - 1) * n; }
  }

  lemma Times(d: int, share: nat, n: nat)
    requires d >= share
    ensures d * n >= n * share
  {
    assert d * n == share * n + (d - share) * n;
  }

  // ----- all invariants, phase by phase -----------------------------------------------------------------------------

  /** Everything known of the replay after the first requests, at a cycle. */
  ghost predicate Sound(p: Params, requests: seq<Request>, s: State, index: nat, cycle: nat)
    requires p.Valid() && index <= |requests|
  {
    && Ok(p, requests, s, index) && TimesOk(s, cycle)
    && Told(p, requests[..index], s, cycle) && Punctual(s.completions, cycle) && Orderly(s) && TailsOnly(s.queues, s.states)
  }

  lemma InitSound(p: Params, requests: seq<Request>)
    requires p.Valid()
    ensures Sound(p, requests, Init(p), 0, 0)
  {
    InitOk(p, requests);
    InitTold(p);
    hide Ok, Told, BusyOk;
    assert requests[..0] == [];
  }

  lemma StateAfter(p: Params, past: seq<Request>, expired: set<nat>, cycle: nat, later: nat, k: nat, t: PageState)
    requires p.Valid() && StateTells(p, past, expired, cycle, k, t) && cycle <= later
    ensures StateTells(p, past, expired, later, k, t)
  {
    hide Gathers, Justified, Lacking, Among;
  }

  /** Time passes up to the next event. */
  lemma SoundLater(p: Params, requests: seq<Request>, s: State, index: nat, cycle: nat, later: nat)
    requires p.Valid() && index <= |requests| && Sound(p, requests, s, index, cycle) && cycle <= later
    requires s.completions != {} ==> later <= First(s.completions).finish || later == cycle
    ensures Sound(p, requests, s, index, later)
  {
    hide Ok, StateTells, ServicesTell, ProgrammedOk, LinkOk, DonesTell, RowsTell, MediaRows, TraceOf, TimersTell, TokensKnown, BusyOk, Orderly,
        First, TailsOnly;
    TimesLaterOk(s, cycle, later);
    forall k | k in s.states ensures StateTells(p, requests[..index], s.expired, later, k, s.states[k]) {
      StateAfter(p, requests[..index], s.expired, cycle, later, k, s.states[k]);
    }
  }

  lemma TimesLaterOk(s: State, cycle: nat, later: nat)
    requires TimesOk(s, cycle) && cycle <= later
    ensures TimesOk(s, later)
  {
    hide BusyOk;
    TimesLater(s, cycle, later);
  }

  lemma CompleteSound(p: Params, requests: seq<Request>, s: State, index: nat, cycle: nat)
    requires p.Valid() && index <= |requests| && Distinct(Ids(requests)) && Sound(p, requests, s, index, cycle)
    ensures var t := CompleteDue(requests, s, cycle);
      && Sound(p, requests, t, index, cycle) && t.timers == s.timers && Unissued(t) == Unissued(s) && |t.completions| <= |s.completions|
      && (s.completions != {} && First(s.completions).finish <= cycle ==> |t.completions| < |s.completions|)
  {
    hide Ok, BusyOk, CompleteDue, Unissued, Ids, First, Told, Orderly, Punctual, TailsOnly;
    CompleteDueOk(p, requests, s, index, cycle);
    CompleteDueTold(p, requests, requests[..index], s, index, cycle);
    CompleteDueOrderly(requests, s, cycle);
    CompleteDueTails(p, requests, s, index, cycle);
  }

  lemma ReleaseSound(p: Params, requests: seq<Request>, s: State, index: nat, cycle: nat)
    requires p.Valid() && index <= |requests| && Sound(p, requests, s, index, cycle)
    ensures var t := ReleaseDue(p, s, cycle);
      && Sound(p, requests, t, index, cycle) && t.completions == s.completions && Unissued(t) == Unissued(s) && |t.timers| <= |s.timers|
      && (forall u :: u in t.timers ==> cycle < u.deadline)
      && (s.timers != {} && Next(s.timers).deadline <= cycle ==> |t.timers| < |s.timers|)
  {
    hide Ok, BusyOk, ReleaseDue, Unissued, Next, Told, Orderly, Punctual, TailsOnly;
    ReleaseDueOk(p, requests, s, index, cycle);
    ReleaseDueTold(p, requests, requests[..index], s, index, cycle);
    ReleaseDueOrderly(p, s, cycle);
    ReleaseDueTails(p, s, cycle);
    ReleaseDueAll(p, s, cycle);
  }

  lemma IngestSound(p: Params, requests: seq<Request>, s: State, index: nat, cycle: nat)
    requires p.Valid() && index < |requests| && Distinct(Ids(requests)) && Acceptable(p, requests[index]) && requests[index].arrival <= cycle
    requires Sound(p, requests, s, index, cycle)
    ensures var t := Ingest(p, s, requests[index], cycle); Sound(p, requests, t, index + 1, cycle)
  {
    hide Ok, BusyOk, Ingest, Ids, Told, Orderly, Punctual, Acceptable, QueuesOk, CompletionsOk, SitesOk, TailsOnly, StatesTell;
    IngestOk(p, requests, s, index, cycle);
    OkCompletions(p, requests, s, index);
    NewId(requests, index);
    IngestTold(p, requests[..index], s, requests[index], cycle);
    IngestOrderly(p, s, requests[index], cycle);
    ToldStates(p, requests[..index], s, cycle);
    IngestTails(p, requests[..index], s, requests[index], cycle);
    assert requests[..index] + [requests[index]] == requests[..index + 1];
  }

  lemma IssueSound(p: Params, requests: seq<Request>, s: State, index: nat, cycle: nat)
    requires p.Valid() && index <= |requests| && Sound(p, requests, s, index, cycle)
    ensures var t := IssueReady(p, s, cycle);
      && Sound(p, requests, t, index, cycle) && t.timers == s.timers && Exhausted(p, t, cycle)
      && |Unissued(t)| + |t.completions| <= |Unissued(s)| + |s.completions|
      && (t.states != map[] && t.timers == {} ==> t.completions != {})
  {
    hide Ok, BusyOk, IssueReady, Unissued, Told, Orderly, Punctual, Exhausted, TailsOnly;
    IssueReadyOk(p, requests, s, index, cycle);
    IssueReadyTold(p, requests, requests[..index], s, index, cycle);
    IssueReadyOrderly(p, s, cycle);
    IssueReadyTails(p, s, cycle);
  }

  lemma ToldStates(p: Params, past: seq<Request>, s: State, cycle: nat)
    requires p.Valid() && Told(p, past, s, cycle)
    ensures StatesTell(p, past, s.expired, cycle, s.states)
  {
    hide StatesTell, ServicesTell, ProgrammedOk, LinkOk, DonesTell, RowsTell, MediaRows, TraceOf, TimersTell, TokensKnown;
  }

  /** All served, truthfully. */
  lemma EndSound(p: Params, requests: seq<Request>, s: State, cycle: nat)
    requires p.Valid() && Sound(p, requests, s, |requests|, cycle) && s.states == map[]
    ensures RowIds(s.rows, Ingress) == Ids(requests)
    ensures Distinct(RowIds(s.rows, Completed)) && forall id :: id in RowIds(s.rows, Completed) <==> id in Ids(requests)
    ensures Serialized(s.services) && s.peak <= p.maxActive
    ensures forall row :: row in s.rows && row.kind == Completed ==> Truthful(p, requests, s.services, s.expired, s.done, row)
    ensures Lengths(p, s.services) && OncePerState(s.services) && MediaRows(s.rows) == TraceOf(s.services)
  {
    hide Ok, BusyOk, Told, Orderly, Punctual, Ids, RowIds, Serialized, Truthful, Lengths, OncePerState, MediaRows, TraceOf, TailsOnly;
    assert requests[..|requests|] == requests;
    AllServed(p, requests, s);
    RowsTruthful(p, requests, s, cycle);
  }
}
