/** Invariants of the controller's tables, one predicate per table pair, with the lemmas saying how
    each kind of entry update carries them along. */
module ControllerTables {
  import opened Basics
  import opened Geometry
  import opened Controller
  import Nand

  type Mshr = map<nat, Entry>

  // ----- entries ----------------------------------------------------------------------------------

  predicate AllOnPage(cfg: Config, page: nat, rs: seq<Request>) { forall r :: r in rs ==> cfg.PageOf(r.addr) == page }

  predicate AllOfKind(write: bool, rs: seq<Request>) { forall r :: r in rs ==> r.isWrite == write }

  /** A write entry is queued, erasing, programming or delivering; a read entry is queued, reading,
      timing a cache hit or delivering. Nothing else is possible. */
  predicate PhaseOk(e: Entry) {
    if e.isWriteOp then
      && e.op != Reading && e.hitReady == 0 && !e.fillCache && !e.aggregating
      && (if e.delivering then e.op == Programming else e.pending != [] && e.pending[0].isWrite)
    else
      && (e.op == Waiting || e.op == Reading) && AllOfKind(false, e.pending)
      && (e.op == Reading ==> e.hitReady == 0) && (e.delivering && e.op == Waiting ==> e.hitReady > 0)
      && (e.aggregating ==> Queued(e)) && (e.fillCache ==> e.delivering && e.op == Reading)
  }

  predicate EntryOk(cfg: Config, k: nat, e: Entry) {
    && e.page == k && ChannelOf(cfg, k) == Some(e.channel) && InChannel(cfg, e.channel, e.sa)
    && e.pending != [] && AllOnPage(cfg, k, e.pending) && PhaseOk(e) && (e.aggregating ==> cfg.readAggregation)
  }

  predicate EntriesOk(cfg: Config, mshr: Mshr) { forall k :: k in mshr ==> EntryOk(cfg, k, mshr[k]) }

  // ----- the scheduling queue ---------------------------------------------------------------------

  /** The queue lists every queued entry once and nothing else. */
  ghost predicate QueueOk(mshr: Mshr, queue: seq<nat>) {
    && Distinct(queue)
    && forall k :: k in queue <==> k in mshr && Queued(mshr[k])
  }

  lemma QueueSame(mshr: Mshr, queue: seq<nat>, k: nat, e: Entry)
    requires QueueOk(mshr, queue) && (if k in mshr then Queued(mshr[k]) == Queued(e) else !Queued(e))
    ensures QueueOk(mshr[k := e], queue)
  {
  }

  lemma QueueAdd(mshr: Mshr, queue: seq<nat>, k: nat, e: Entry)
    requires QueueOk(mshr, queue) && (k in mshr ==> !Queued(mshr[k])) && Queued(e)
    ensures QueueOk(mshr[k := e], queue + [k])
  {
    assert k !in queue;
    forall x ensures x in queue + [k] <==> x in mshr[k := e] && Queued(mshr[k := e][x]) { }
  }

  lemma QueueDrop(mshr: Mshr, queue: seq<nat>, k: nat)
    requires QueueOk(mshr, queue) && (k in mshr ==> !Queued(mshr[k]))
    ensures QueueOk(mshr - {k}, queue)
  {
  }

  lemma QueueTake(mshr: Mshr, queue: seq<nat>, i: nat, e: Entry)
    requires QueueOk(mshr, queue) && i < |queue| && !Queued(e)
    ensures QueueOk(mshr[queue[i] := e], queue[..i] + queue[i + 1..])
  {
    var rest := queue[..i] + queue[i + 1..];
    forall x ensures x in rest <==> x in queue && x != queue[i] {
      if x in queue && x != queue[i] {
        var j :| 0 <= j < |queue| && queue[j] == x;
        assert rest[if j < i then j else j - 1] == x;
      }
    }
    assert Distinct(rest) by {
      forall a, b | 0 <= a < b < |rest| ensures rest[a] != rest[b] {
        assert rest[a] == queue[if a < i then a else a + 1] && rest[b] == queue[if b < i then b else b + 1];
      }
    }
  }

  /** Rewriting every entry without touching its phase. */
  lemma QueueMap(mshr: Mshr, mshr': Mshr, queue: seq<nat>)
    requires QueueOk(mshr, queue) && mshr'.Keys == mshr.Keys
    requires forall k :: k in mshr ==> Queued(mshr'[k]) == Queued(mshr[k])
    ensures QueueOk(mshr', queue)
  {
  }

  // ----- in-flight entries and sub-arrays -----------------------------------------------------------

  predicate Matches(sub: Nand.Sub, e: Entry) {
    && sub.block == e.block
    && match e.op
       case Reading => sub.phase == Nand.Reading
       case Erasing => sub.phase == Nand.Erasing
       case Programming => sub.phase == Nand.Programming
       case Waiting => false
  }

  /** The active set is the set of busy sub-arrays. */
  ghost predicate BusyOk(subs: seq<Nand.Sub>, active: set<nat>) {
    forall i :: i in active <==> 0 <= i < |subs| && subs[i].phase != Nand.Idle
  }

  /** In-flight entries and busy sub-arrays correspond one to one. */
  ghost predicate FlightOk(mshr: Mshr, subs: seq<Nand.Sub>, active: set<nat>) {
    && (forall k :: k in mshr && InFlight(mshr[k]) ==> 0 <= mshr[k].sa < |subs| && mshr[k].sa in active && Matches(subs[mshr[k].sa], mshr[k]))
    && (forall i :: i in active ==> exists k :: k in mshr && Serves(mshr[k], i))
    && (forall j, k :: j in mshr && k in mshr && InFlight(mshr[j]) && InFlight(mshr[k]) && mshr[j].sa == mshr[k].sa ==> j == k)
  }

  ghost predicate ActiveOk(cfg: Config, mshr: Mshr, subs: seq<Nand.Sub>, active: set<nat>) {
    && |subs| == cfg.Subarrays() && BusyOk(subs, active) && |active| <= cfg.MaxActive()
    && FlightOk(mshr, subs, active)
  }

  /** An entry that stays in flight on its sub-array, or stays out of flight. */
  predicate SameFlight(e: Entry, g: Entry) {
    if InFlight(e) then InFlight(g) && g.sa == e.sa && g.block == e.block && g.op == e.op else !InFlight(g)
  }

  lemma FlightSame(mshr: Mshr, subs: seq<Nand.Sub>, active: set<nat>, k: nat, e: Entry)
    requires FlightOk(mshr, subs, active) && (if k in mshr then SameFlight(mshr[k], e) else !InFlight(e))
    ensures FlightOk(mshr[k := e], subs, active)
  {
    var m := mshr[k := e];
    forall i | i in active ensures exists j :: j in m && Serves(m[j], i) {
      var j :| j in mshr && Serves(mshr[j], i);
      assert j in m && Serves(m[j], i);
    }
  }

  lemma FlightMap(mshr: Mshr, mshr': Mshr, subs: seq<Nand.Sub>, active: set<nat>)
    requires FlightOk(mshr, subs, active) && mshr'.Keys == mshr.Keys
    requires forall k :: k in mshr ==> SameFlight(mshr[k], mshr'[k])
    ensures FlightOk(mshr', subs, active)
  {
    forall i | i in active ensures exists j :: j in mshr' && Serves(mshr'[j], i) {
      var j :| j in mshr && Serves(mshr[j], i);
      assert SameFlight(mshr[j], mshr'[j]);
      assert j in mshr' && Serves(mshr'[j], i);
    }
    forall j, k | j in mshr' && k in mshr' && InFlight(mshr'[j]) && InFlight(mshr'[k])
        && mshr'[j].sa == mshr'[k].sa ensures j == k {
      assert SameFlight(mshr[j], mshr'[j]) && SameFlight(mshr[k], mshr'[k]);
    }
    forall k | k in mshr' && InFlight(mshr'[k])
      ensures 0 <= mshr'[k].sa < |subs| && mshr'[k].sa in active && Matches(subs[mshr'[k].sa], mshr'[k])
    {
      assert SameFlight(mshr[k], mshr'[k]);
    }
  }

  lemma FlightDrop(mshr: Mshr, subs: seq<Nand.Sub>, active: set<nat>, k: nat)
    requires FlightOk(mshr, subs, active) && (k in mshr ==> !InFlight(mshr[k]))
    ensures FlightOk(mshr - {k}, subs, active)
  {
    forall i | i in active ensures exists j :: j in mshr - {k} && Serves((mshr - {k})[j], i) {
      var j :| j in mshr && Serves(mshr[j], i);
      assert j in mshr - {k} && Serves((mshr - {k})[j], i);
    }
  }

  /** Starting an operation on an idle sub-array. */
  lemma FlightStart(mshr: Mshr, subs: seq<Nand.Sub>, active: set<nat>, k: nat, e: Entry, sub: Nand.Sub)
    requires FlightOk(mshr, subs, active) && BusyOk(subs, active) && k in mshr && !InFlight(mshr[k])
    requires InFlight(e) && 0 <= e.sa < |subs| && subs[e.sa].phase == Nand.Idle && Matches(sub, e)
    ensures FlightOk(mshr[k := e], subs[e.sa := sub], active + {e.sa})
    ensures BusyOk(subs[e.sa := sub], active + {e.sa})
    ensures |active + {e.sa}| == |active| + 1
  {
    var m := mshr[k := e];
    assert e.sa !in active;
    forall i | i in active + {e.sa} ensures exists j :: j in m && Serves(m[j], i) {
      if i == e.sa {
        assert k in m && Serves(m[k], i);
      } else {
        var j :| j in mshr && Serves(mshr[j], i);
        assert j in m && Serves(m[j], i);
      }
    }
  }

  /** A busy sub-array advances without finishing. */
  lemma FlightTick(mshr: Mshr, subs: seq<Nand.Sub>, active: set<nat>, sa: nat, sub: Nand.Sub)
    requires FlightOk(mshr, subs, active) && BusyOk(subs, active) && sa < |subs|
    requires sub.phase == subs[sa].phase && sub.block == subs[sa].block
    ensures FlightOk(mshr, subs[sa := sub], active) && BusyOk(subs[sa := sub], active)
  {
  }

  /** A sub-array finishes: its one entry leaves flight with it. */
  lemma FlightFinish(mshr: Mshr, subs: seq<Nand.Sub>, active: set<nat>, sa: nat, sub: Nand.Sub, k: nat, e: Entry)
    requires FlightOk(mshr, subs, active) && BusyOk(subs, active) && sa < |subs| && sub.phase == Nand.Idle
    requires k in mshr && Serves(mshr[k], sa) && !InFlight(e)
    ensures FlightOk(mshr[k := e], subs[sa := sub], active - {sa}) && BusyOk(subs[sa := sub], active - {sa})
  {
    var m := mshr[k := e];
    forall i | i in active - {sa} ensures exists j :: j in m && Serves(m[j], i) {
      var j :| j in mshr && Serves(mshr[j], i);
      assert j in m && Serves(m[j], i);
    }
    forall j | j in m && InFlight(m[j])
      ensures 0 <= m[j].sa < |subs| && m[j].sa in active - {sa} && Matches(subs[sa := sub][m[j].sa], m[j])
    {
      assert j != k && mshr[j].sa != sa;
    }
  }

  /** Exactly one entry is found for a finishing sub-array. */
  lemma ServingIsUnique(mshr: Mshr, subs: seq<Nand.Sub>, active: set<nat>, sa: nat)
    requires FlightOk(mshr, subs, active) && sa in active
    ensures Serving(mshr, sa) != {}
    ensures forall k :: k in Serving(mshr, sa) ==> Serving(mshr, sa) == {k}
  {
    var k :| k in mshr && Serves(mshr[k], sa);
    assert k in Serving(mshr, sa);
    forall j | j in Serving(mshr, sa) ensures j == k { assert Serves(mshr[j], sa); }
  }

  // ----- the write buffer ---------------------------------------------------------------------------

  predicate BufferedOk(cfg: Config, tick: nat, page: nat, b: Buffered) {
    && b.requests != [] && AllOnPage(cfg, page, b.requests) && AllOfKind(true, b.requests)
    && (forall i :: i in b.covered ==> i < cfg.pageSize)
    && b.firstTick <= b.lastTick <= tick && ChannelOf(cfg, page).Some?
  }

  predicate BufferOk(cfg: Config, tick: nat, buffer: map<nat, Buffered>) {
    forall p :: p in buffer ==> BufferedOk(cfg, tick, p, buffer[p])
  }

  // ----- channels -----------------------------------------------------------------------------------

  ghost function WritesOn(mshr: Mshr, ch: nat): set<nat> { set k | k in mshr && mshr[k].isWriteOp && mshr[k].channel == ch }

  predicate CreditOk(cfg: Config, channels: seq<Channel>) {
    |channels| == cfg.Channels() && forall c :: 0 <= c < |channels| ==> 0.0 <= channels[c].credit <= cfg.MaxCredit()
  }

  /** Section 5.4.1.7 of the OCP HBF specification: the outstanding-write counter of a channel is the
      number of its write entries. */
  ghost predicate WritesOk(mshr: Mshr, channels: seq<Channel>) {
    forall c :: 0 <= c < |channels| ==> channels[c].outstandingWrites == |WritesOn(mshr, c)|
  }

  lemma WritesMap(mshr: Mshr, mshr': Mshr, channels: seq<Channel>, channels': seq<Channel>)
    requires WritesOk(mshr, channels) && mshr'.Keys == mshr.Keys && |channels'| == |channels|
    requires forall k :: k in mshr ==> mshr'[k].isWriteOp == mshr[k].isWriteOp && mshr'[k].channel == mshr[k].channel
    requires forall c :: 0 <= c < |channels| ==> channels'[c].outstandingWrites == channels[c].outstandingWrites
    ensures WritesOk(mshr', channels')
  {
    forall c | 0 <= c < |channels| ensures channels'[c].outstandingWrites == |WritesOn(mshr', c)| {
      assert WritesOn(mshr', c) == WritesOn(mshr, c);
    }
  }

  lemma WritesEnter(mshr: Mshr, channels: seq<Channel>, k: nat, e: Entry)
    requires WritesOk(mshr, channels) && k !in mshr
    ensures WritesOk(mshr[k := e], if e.isWriteOp then AddWrite(channels, e.channel) else channels)
  {
    var m := mshr[k := e];
    var after := if e.isWriteOp then AddWrite(channels, e.channel) else channels;
    forall c | 0 <= c < |after| ensures after[c].outstandingWrites == |WritesOn(m, c)| {
      if e.isWriteOp && e.channel == c {
        assert WritesOn(m, c) == WritesOn(mshr, c) + {k};
        assert k !in WritesOn(mshr, c);
      } else {
        assert WritesOn(m, c) == WritesOn(mshr, c);
      }
    }
  }

  lemma WritesDrop(mshr: Mshr, channels: seq<Channel>, k: nat, c': Channel)
    requires WritesOk(mshr, channels) && k in mshr && mshr[k].channel < |channels|
    requires var c := channels[mshr[k].channel];
      c'.outstandingWrites == if mshr[k].isWriteOp && c.outstandingWrites > 0 then c.outstandingWrites - 1
          else c.outstandingWrites
    ensures WritesOk(mshr - {k}, channels[mshr[k].channel := c'])
  {
    var ch := mshr[k].channel;
    forall c | 0 <= c < |channels| ensures channels[ch := c'][c].outstandingWrites == |WritesOn(mshr - {k}, c)| {
      assert WritesOn(mshr - {k}, c) == WritesOn(mshr, c) - {k};
      if mshr[k].isWriteOp && c == ch { assert k in WritesOn(mshr, c); } else { assert k !in WritesOn(mshr, c); }
    }
  }
}
