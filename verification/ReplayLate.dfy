/** Strict mode against its own account: a write that covers its whole page when it is issued is still
    turned away if its timer fired earlier, while the page was busy. */
module ReplayLate {
  import opened Basics
  import opened Replay

  /** One channel, one sub-array, two-byte pages, strict writes, a write timeout of one cycle. */
  const P := Params(0, 2, 2, 1, 1, 1, 10, 1, 0, false, 0, 1, 1, true, 1.0)

  /** A read, then the first half of a write, both in cycle 0; its second half comes in cycle 2. */
  const READ := Request(1, false, 0, 1, 0)
  const HALF := Request(2, true, 0, 1, 0)
  const REST := Request(3, true, 1, 1, 2)

  const SITE := Site(0, 0, 0)

  const READING := PageState(SITE, false, 0, [1], 1, {}, true, false, false)
  const WRITING := PageState(SITE, true, 0, [2], 1, {0}, false, false, false)
  const EXPIRED := PageState(SITE, true, 0, [2], 1, {0}, true, false, true)
  const COMPLETE := PageState(SITE, true, 0, [2, 3], 2, {0, 1}, true, false, true)

  /** The read is queued. */
  const QUEUED := State(map[0 := [1]], map[1 := READING], [1], {}, {}, [0], [0], 2, 1, 1, {}, [Row(0, 1, Ingress, false)], [], [], {}, 0)

  /** The half write is queued behind it, its timer set. */
  const BEHIND := State(map[0 := [1, 2]], map[1 := READING, 2 := WRITING], [1, 2], {Timer(1, 1, 2)}, {}, [0], [0], 3, 1, 2, {},
    [Row(0, 1, Ingress, false), Row(0, 2, Ingress, false)], [], [], {}, 0)

  /** The read is served until cycle 11. */
  const SERVING := State(map[0 := [1, 2]], map[1 := READING.(issued := true), 2 := WRITING], [2], {Timer(1, 1, 2)}, {Completion(11, 1, 1)}, [11],
    [11], 3, 2, 2, {}, [Row(0, 1, Ingress, false), Row(0, 2, Ingress, false), Row(0, 1, Read, false)], [Service(1, SITE, 0, 11, READING)],
    [], {}, 1)

  /** Cycle 1: the timer has fired. */
  const FIRED := SERVING.(timers := {}, states := map[1 := READING.(issued := true), 2 := EXPIRED], expired := {2})

  /** Cycle 2: the other half has joined, and the page is covered. */
  const JOINED := FIRED.(states := map[1 := READING.(issued := true), 2 := COMPLETE], rows := FIRED.rows + [Row(2, 3, Ingress, false)])

  /** Cycle 11: the read has completed. */
  const FREE := JOINED.(states := map[2 := COMPLETE], queues := map[0 := [2]], completions := {}, rows := JOINED.rows + [Row(11, 1, Completed, false)],
    done := [Done(1, READING.(issued := true), 11)])

  lemma Facts()
    ensures P.Valid() && SiteOfPage(P, 0) == SITE && Acceptable(P, READ) && Acceptable(P, HALF) && Acceptable(P, REST)
    ensures Span(0, 1) == {0} && Span(1, 1) == {1}
  {
  }

  lemma FreshStates()
    requires P.Valid() && Acceptable(P, READ) && Acceptable(P, HALF) && Acceptable(P, REST)
    ensures Fresh(P, READ) == READING && Fresh(P, HALF) == WRITING && Joined(P, EXPIRED, REST) == COMPLETE
  {
    Facts();
    assert |{0}| == 1;
    assert {0} + {1} == {0, 1};
  }

  lemma TakeRead()
    requires P.Valid() && Acceptable(P, READ)
    ensures Ingest(P, Init(P), READ, 0) == QUEUED
  {
    hide Fresh, SiteOfPage, Acceptable;
    Facts();
    FreshStates();
    assert Init(P).channelBusy == [0] && Init(P).subarrayBusy == [0];
    assert [] + [1] == [1] && [] + [Row(0, 1, Ingress, false)] == [Row(0, 1, Ingress, false)];
    assert map[][0 := [1]] == map[0 := [1]];
    var t := Ingest(P, Init(P), READ, 0);
    assert t.states == QUEUED.states && t.queues == QUEUED.queues && t.waiting == QUEUED.waiting && t.rows == QUEUED.rows;
  }

  lemma TakeHalf()
    requires P.Valid() && Acceptable(P, HALF)
    ensures Ingest(P, QUEUED, HALF, 0) == BEHIND
  {
    hide Fresh, SiteOfPage, Acceptable, Enqueue;
    Facts();
    FreshStates();
    assert Tail(QUEUED, 0) == Some(1);
    EnqueueHalf();
  }

  lemma EnqueueHalf()
    requires P.Valid() && Acceptable(P, HALF)
    ensures Enqueue(P, QUEUED.(rows := QUEUED.rows + [Row(0, 2, Ingress, false)]), HALF) == BEHIND
  {
    hide Fresh, SiteOfPage, Acceptable;
    Facts();
    FreshStates();
    assert [1] + [2] == [1, 2];
    assert map[0 := [1]][0 := [1, 2]] == map[0 := [1, 2]];
    assert map[1 := READING][2 := WRITING] == map[1 := READING, 2 := WRITING];
    assert QUEUED.rows + [Row(0, 2, Ingress, false)] == BEHIND.rows;
    assert {} + {Timer(1, 1, 2)} == {Timer(1, 1, 2)};
  }

  lemma Serve()
    requires P.Valid()
    ensures IssueReady(P, BEHIND, 0) == SERVING
  {
    assert Schedulable(BEHIND, 1, 0);
    assert BEHIND.waiting[1..] == [2];
    assert Choose(BEHIND, BEHIND.waiting, 0) == (Some(1), [2]);
    assert Transfer(P, 1) == 1;
    assert Issue(P, BEHIND.(waiting := [2]), 1, 0) == SERVING;
  }

  lemma Fire()
    ensures ReleaseDue(P, SERVING, 1) == FIRED
  {
    assert Next(SERVING.timers) == Timer(1, 1, 2);
    assert |{0}| == 1;
    assert ReleaseOne(P, SERVING) == FIRED;
  }

  lemma Join()
    requires P.Valid() && Acceptable(P, REST)
    ensures Ingest(P, FIRED, REST, 2) == JOINED
  {
    hide Fresh, Joined;
    Facts();
    FreshStates();
  }

  /** With one completion outstanding nothing else is issued. */
  lemma Full(s: State, cycle: nat)
    requires P.Valid() && |s.completions| == 1
    ensures IssueReady(P, s, cycle) == s
  {
  }

  lemma Finish()
    ensures CompleteDue([READ, HALF, REST], JOINED, 11) == FREE
  {
    var requests := [READ, HALF, REST];
    assert First(JOINED.completions) == Completion(11, 1, 1);
    assert requests[1..] == [HALF, REST] && [HALF, REST][1..] == [REST] && [REST][1..] == [];
    assert DoneRows([REST], [1], 11, false) == [];
    assert DoneRows([HALF, REST], [1], 11, false) == [];
    assert DoneRows(requests, [1], 11, false) == [Row(11, 1, Completed, false)];
    assert CompleteOne(requests, JOINED, 11) == FREE;
  }

  /** The turns of cycles 0, 1, 2 and 11. */
  function Turns(): State
    requires P.Valid() && Acceptable(P, READ) && Acceptable(P, HALF) && Acceptable(P, REST)
  {
    var zero := IssueReady(P, Ingest(P, Ingest(P, Init(P), READ, 0), HALF, 0), 0);
    var one := IssueReady(P, ReleaseDue(P, zero, 1), 1);
    var two := IssueReady(P, Ingest(P, one, REST, 2), 2);
    IssueReady(P, CompleteDue([READ, HALF, REST], two, 11), 11)
  }

  /** In cycle 11 the write is issued with every byte of its page, and turned away. */
  lemma CompletePageRejected()
    requires P.Valid() && Acceptable(P, READ) && Acceptable(P, HALF) && Acceptable(P, REST)
    ensures var t := Turns();
      2 in t.states && |t.states[2].offsets| == P.pageSize && t.states[2].issued && t.states[2].error && Completion(11, 2, 2) in t.completions
  {
    TakeRead();
    TakeHalf();
    Serve();
    Fire();
    Full(FIRED, 1);
    Join();
    Full(JOINED, 2);
    Finish();
    Reject();
  }

  lemma Reject()
    requires P.Valid()
    ensures var t := IssueReady(P, FREE, 11);
      2 in t.states && |t.states[2].offsets| == P.pageSize && t.states[2].issued && t.states[2].error && Completion(11, 2, 2) in t.completions
  {
    assert Schedulable(FREE, 2, 11);
    assert FREE.waiting[1..] == [];
    assert Choose(FREE, FREE.waiting, 11) == (Some(2), []);
    var s := Issue(P, FREE.(waiting := []), 2, 11);
    assert |{0, 1}| == 2;
    assert s.completions == {Completion(11, 2, 2)};
    Full(s, 11);
  }
}
