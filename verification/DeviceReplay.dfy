/** `DeviceReplay` as the mutable object it is: its loops run the transitions of Replay, and `Run`
    terminates with every request served exactly once. */
module DeviceReplay {
  import opened Basics
  import opened Replay
  import opened ReplayInvariant
  import opened ReplayService

  datatype Outcome = Finished | Refused(index: nat)

  /** The fields an issued state leaves behind. */
  lemma IssueIs(p: Params, s: State, u: State, token: nat, cycle: nat)
    requires p.Valid() && token in s.states
    requires var t := s.states[token]; var rejected := Rejected(p, t);
      var finish := if rejected then cycle else cycle + Duration(p, s, t);
      && u.states == s.states[token := t.(issued := true, error := rejected)]
      && u.completions == s.completions + {Completion(finish, s.nextSequence, token)} && u.nextSequence == s.nextSequence + 1
      && u.channelBusy == (if rejected then s.channelBusy else Occupy(s.channelBusy, t.site.channel, finish))
      && u.subarrayBusy == (if rejected then s.subarrayBusy else Occupy(s.subarrayBusy, t.site.subarray, finish))
      && u.programmed == (if !rejected && t.write then s.programmed + {t.site.page} else s.programmed)
      && u.rows == (if rejected then s.rows else s.rows + IssueRows(s, t, cycle))
      && u.services == (if rejected then s.services else s.services + [Service(token, t.site, cycle, finish, t)])
    requires u.queues == s.queues && u.waiting == s.waiting && u.timers == s.timers && u.nextToken == s.nextToken
        && u.nextTimer == s.nextTimer && u.done == s.done && u.expired == s.expired
    requires u.peak == if |s.completions| + 1 > s.peak then |s.completions| + 1 else s.peak
    ensures u == Issue(p, s, token, cycle)
  {
    hide IssueRows, Duration, Rejected, Occupy;
  }

  /** The fields an enqueued state leaves behind. */
  lemma EnqueueIs(p: Params, s: State, u: State, r: Request)
    requires p.Valid() && Acceptable(p, r)
    requires var t := Fresh(p, r);
      && u.states == s.states[s.nextToken := t] && u.nextToken == s.nextToken + 1
      && u.queues == s.queues[t.site.page := (if t.site.page in s.queues then s.queues[t.site.page] else []) + [s.nextToken]]
      && u.waiting == s.waiting + [s.nextToken]
      && u.timers == (if !t.ready then s.timers + {Timer(r.arrival + Hold(p, r.write), s.nextTimer, s.nextToken)} else s.timers)
      && u.nextTimer == (if !t.ready then s.nextTimer + 1 else s.nextTimer)
    requires u.completions == s.completions && u.channelBusy == s.channelBusy && u.subarrayBusy == s.subarrayBusy
        && u.nextSequence == s.nextSequence && u.programmed == s.programmed && u.rows == s.rows && u.services == s.services
        && u.done == s.done && u.expired == s.expired && u.peak == s.peak
    ensures u == Enqueue(p, s, r)
  {
    hide Fresh, Hold, Acceptable;
  }

  class Device {
    const p: Params
    var queues: map<nat, seq<nat>>
    var states: map<nat, PageState>
    var waiting: seq<nat>
    var timers: set<Timer>
    var completions: set<Completion>
    const channelBusy: array<nat>
    const subarrayBusy: array<nat>
    var nextToken: nat
    var nextSequence: nat
    var nextTimer: nat
    var programmed: set<nat>
    var rows: seq<Row>
    ghost var services: seq<Service>
    ghost var done: seq<Done>
    ghost var expired: set<nat>
    ghost var peak: nat

    ghost function Contents(): State
      reads this, channelBusy, subarrayBusy
    {
      State(queues, states, waiting, timers, completions, channelBusy[..], subarrayBusy[..], nextToken, nextSequence,
          nextTimer, programmed, rows, services, done, expired, peak)
    }

    ghost predicate Valid()
      reads this, channelBusy, subarrayBusy
    {
      p.Valid() && channelBusy != subarrayBusy
    }

    constructor (params: Params)
      requires params.Valid()
      ensures Valid() && p == params && Contents() == Init(params) && fresh(channelBusy) && fresh(subarrayBusy)
    {
      p := params;
      queues, states, waiting, timers, completions := map[], map[], [], {}, {};
      channelBusy := new nat[params.channels](i => 0);
      subarrayBusy := new nat[params.subarrays](i => 0);
      nextToken, nextSequence, nextTimer := 1, 1, 1;
      programmed, rows, services, done, expired, peak := {}, [], [], [], {}, 0;
      new;
      assert channelBusy[..] == Init(params).channelBusy;
      assert subarrayBusy[..] == Init(params).subarrayBusy;
    }

    /** `enqueue_state`. */
    method EnqueueState(r: Request)
      requires Valid() && Acceptable(p, r)
      modifies this`states, this`queues, this`waiting, this`timers, this`nextTimer, this`nextToken
      ensures Valid() && Contents() == Enqueue(p, old(Contents()), r)
    {
      hide Fresh, Hold, Acceptable, Enqueue;
      var t := Fresh(p, r);
      var token := ListState(t);
      QueueTimer(!t.ready, r.arrival + Hold(p, r.write), token);
      EnqueueIs(p, old(Contents()), Contents(), r);
    }

    /** The state gets a token, and joins its page's queue and the waiting list. */
    method ListState(t: PageState) returns (token: nat)
      modifies this`states, this`queues, this`waiting, this`nextToken
      ensures token == old(nextToken) && nextToken == token + 1 && states == old(states)[token := t] && waiting == old(waiting) + [token]
      ensures queues == old(queues)[t.site.page := (if t.site.page in old(queues) then old(queues)[t.site.page] else []) + [token]]
    {
      token := nextToken;
      states, nextToken := states[token := t], token + 1;
      queues := queues[t.site.page := (if t.site.page in queues then queues[t.site.page] else []) + [token]];
      waiting := waiting + [token];
    }

    /** `queue_timer`, for a state that is not ready yet. */
    method QueueTimer(needed: bool, deadline: nat, token: nat)
      modifies this`timers, this`nextTimer
      ensures timers == if needed then old(timers) + {Timer(deadline, old(nextTimer), token)} else old(timers)
      ensures nextTimer == if needed then old(nextTimer) + 1 else old(nextTimer)
    {
      if needed { timers, nextTimer := timers + {Timer(deadline, nextTimer, token)}, nextTimer + 1; }
    }

    /** `ingest`; refused where the source raises `ValueError`. */
    method TakeIn(r: Request, cycle: nat) returns (ok: bool)
      requires Valid()
      modifies this
      ensures Valid() && ok == Acceptable(p, r)
      ensures Contents() == if ok then Ingest(p, old(Contents()), r, cycle) else old(Contents())
    {
      hide Joined, Enqueue, SiteOfPage, Covered, Offset;
      if !Acceptable(p, r) { return false; }
      rows := rows + [Row(cycle, r.id, Ingress, false)];
      var page := SiteOf(p, r.address).page;
      if page in queues && queues[page] != [] {
        var tail := queues[page][|queues[page]| - 1];
        if tail in states {
          var t := states[tail];
          if t.write == r.write && (!r.write || !t.issued) {
            states := states[tail := Joined(p, t, r)];
            return true;
          }
          if t.write && !r.write && !t.issued { states := states[tail := t.(ready := true)]; }
        }
      }
      EnqueueState(r);
      return true;
    }

    method ReleaseTimers(cycle: nat)
      requires Valid()
      modifies this
      ensures Valid() && Contents() == ReleaseDue(p, old(Contents()), cycle)
    {
      while timers != {} && Next(timers).deadline <= cycle
        invariant ReleaseDue(p, Contents(), cycle) == ReleaseDue(p, old(Contents()), cycle)
        decreases |timers|
      {
        ghost var before := Contents();
        var t := Next(timers);
        timers := timers - {t};
        if t.token in states && !states[t.token].issued && !states[t.token].ready {
          states := states[t.token := Expire(p, states[t.token])];
          expired := expired + {t.token};
        }
        assert Contents() == ReleaseOne(p, before);
      }
    }

    /** `choose_state`: scans the waiting deque, keeping what it passes over in front. */
    method ChooseState(cycle: nat) returns (chosen: Option<nat>)
      requires Valid()
      modifies this`waiting
      ensures (chosen, waiting) == Choose(old(Contents()), old(waiting), cycle)
    {
      var retained: seq<nat> := [];
      var rest := waiting;
      chosen := None;
      ghost var s := Contents();
      hide Schedulable, Pending;
      assert [] + Choose(s, waiting, cycle).1 == Choose(s, waiting, cycle).1;
      while rest != []
        invariant Contents() == s && chosen == None
        invariant Choose(s, waiting, cycle) == (Choose(s, rest, cycle).0, retained + Choose(s, rest, cycle).1)
        decreases |rest|
      {
        var token := rest[0];
        if !IsPending(token) {
          rest := rest[1..];
        } else if IsSchedulable(token, cycle) {
          chosen := Some(token);
          rest := rest[1..];
          break;
        } else {
          assert (retained + [token]) + Choose(s, rest[1..], cycle).1 == retained + ([token] + Choose(s, rest[1..], cycle).1);
          retained := retained + [token];
          rest := rest[1..];
        }
      }
      waiting := retained + rest;
    }

    predicate IsPending(token: nat)
      reads this, channelBusy, subarrayBusy
      ensures IsPending(token) == Pending(Contents(), token)
      ensures IsPending(token) ==> token in states
    {
      token in states && !states[token].issued
    }

    predicate IsSchedulable(token: nat, cycle: nat)
      requires token in states
      reads this, channelBusy, subarrayBusy
      ensures IsSchedulable(token, cycle) == Schedulable(Contents(), token, cycle)
    {
      var t := states[token];
      && !t.issued && t.site.page in queues && queues[t.site.page] != [] && queues[t.site.page][0] == token && t.ready
      && (t.site.channel < channelBusy.Length ==> channelBusy[t.site.channel] <= cycle)
      && (t.site.subarray < subarrayBusy.Length ==> subarrayBusy[t.site.subarray] <= cycle)
    }

    method OccupySite(site: Site, finish: nat)
      requires channelBusy != subarrayBusy
      modifies channelBusy, subarrayBusy
      ensures channelBusy[..] == Occupy(old(channelBusy[..]), site.channel, finish)
      ensures subarrayBusy[..] == Occupy(old(subarrayBusy[..]), site.subarray, finish)
    {
      if site.channel < channelBusy.Length { channelBusy[site.channel] := finish; }
      if site.subarray < subarrayBusy.Length { subarrayBusy[site.subarray] := finish; }
    }

    /** The ERASE, PROGRAM or READ rows of a state that goes to the media, and how long it will take. */
    method Record(t: PageState, cycle: nat) returns (duration: nat)
      requires Valid()
      modifies this`rows, this`programmed
      ensures rows == old(rows) + IssueRows(old(Contents()), t, cycle) && duration == Duration(p, old(Contents()), t)
      ensures programmed == if t.write then old(programmed) + {t.site.page} else old(programmed)
    {
      var id := if t.ids == [] then 0 else t.ids[0];
      if t.write {
        duration := p.tProg;
        if t.site.page in programmed {
          duration := duration + p.tErase;
          rows := rows + [Row(cycle, id, Erase, false)];
        }
        rows := rows + [Row(cycle, id, Program, false)];
        programmed := programmed + {t.site.page};
      } else {
        rows := rows + [Row(cycle, id, Read, false)];
        duration := p.tRead + Transfer(p, t.bytes);
      }
    }

    method IssueState(token: nat, cycle: nat)
      requires Valid() && token in states
      modifies this, channelBusy, subarrayBusy
      ensures Valid() && Contents() == Issue(p, old(Contents()), token, cycle)
    {
      hide Issue, IssueRows, Duration, Rejected, Occupy;
      ghost var pending := |completions| + 1;
      if IsRejected(states[token]) { RejectState(token, cycle); } else { ServeState(token, cycle); }
      peak := if pending > peak then pending else peak;
      IssueIs(p, old(Contents()), Contents(), token, cycle);
    }

    method RejectState(token: nat, cycle: nat)
      requires Valid() && token in states
      modifies this`states, this`completions, this`nextSequence
      ensures states == old(states)[token := old(states)[token].(issued := true, error := true)]
      ensures completions == old(completions) + {Completion(cycle, old(nextSequence), token)} && nextSequence == old(nextSequence) + 1
    {
      states := states[token := states[token].(issued := true, error := true)];
      completions := completions + {Completion(cycle, nextSequence, token)};
      nextSequence := nextSequence + 1;
    }

    method ServeState(token: nat, cycle: nat)
      requires Valid() && token in states
      modifies this`states, this`completions, this`nextSequence, this`rows, this`programmed, this`services, channelBusy, subarrayBusy
      ensures Valid()
      ensures var t := old(states[token]); var finish := cycle + Duration(p, old(Contents()), t);
        && states == old(states)[token := t.(issued := true, error := false)]
        && completions == old(completions) + {Completion(finish, old(nextSequence), token)} && nextSequence == old(nextSequence) + 1
        && channelBusy[..] == Occupy(old(channelBusy[..]), t.site.channel, finish)
        && subarrayBusy[..] == Occupy(old(subarrayBusy[..]), t.site.subarray, finish)
        && programmed == (if t.write then old(programmed) + {t.site.page} else old(programmed))
        && rows == old(rows) + IssueRows(old(Contents()), t, cycle)
        && services == old(services) + [Service(token, t.site, cycle, finish, t)]
    {
      hide IssueRows, Duration, Occupy;
      var t := states[token];
      var duration := Record(t, cycle);
      states := states[token := t.(issued := true, error := false)];
      OccupySite(t.site, cycle + duration);
      completions := completions + {Completion(cycle + duration, nextSequence, token)};
      nextSequence := nextSequence + 1;
      services := services + [Service(token, t.site, cycle, cycle + duration, t)];
    }

    predicate IsRejected(t: PageState)
      ensures IsRejected(t) == Rejected(p, t)
    {
      t.error || (t.write && p.strict && |t.offsets| < p.pageSize)
    }

    /** `issue_ready`: the loop ends when nothing can be chosen or the active limit is reached. */
    method IssueAll(cycle: nat)
      requires Valid()
      modifies this, channelBusy, subarrayBusy
      ensures Valid() && Contents() == IssueReady(p, old(Contents()), cycle)
    {
      while |completions| < p.maxActive
        invariant Valid() && IssueReady(p, Contents(), cycle) == IssueReady(p, old(Contents()), cycle)
        decreases |Unissued(Contents())|
      {
        ghost var before := Contents();
        var chosen := ChooseState(cycle);
        ChooseFacts(before, before.waiting, cycle);
        UnissuedWaiting(before, waiting);
        if chosen.None? { return; }
        SchedulablePending(before, chosen.value, cycle);
        IssueShrinks(p, Contents(), chosen.value, cycle);
        IssueState(chosen.value, cycle);
      }
    }

    method CompleteAll(requests: seq<Request>, cycle: nat)
      requires Valid()
      modifies this`completions, this`rows, this`queues, this`states, this`done
      ensures Valid() && Contents() == CompleteDue(requests, old(Contents()), cycle)
    {
      hide DoneRows, Dequeue, First;
      while completions != {} && First(completions).finish <= cycle
        invariant CompleteDue(requests, Contents(), cycle) == CompleteDue(requests, old(Contents()), cycle)
        decreases |completions|
      {
        CompleteNext(requests, cycle);
      }
    }

    /** The earliest completion, and the state it completes if that is still there. */
    method CompleteNext(requests: seq<Request>, cycle: nat)
      requires Valid() && completions != {}
      modifies this`completions, this`rows, this`queues, this`states, this`done
      ensures Valid() && Contents() == CompleteOne(requests, old(Contents()), cycle)
    {
      hide DoneRows, Dequeue, First;
      var c := First(completions);
      completions := completions - {c};
      if c.token in states {
        var state := states[c.token];
        AppendDone(requests, state, cycle);
        queues := Dequeue(queues, state.site.page, c.token);
        states := states - {c.token};
        done := done + [Done(c.token, state, cycle)];
      }
    }

    /** One COMPLETED row per request of the state, walking all requests in order. */
    method AppendDone(requests: seq<Request>, state: PageState, cycle: nat)
      modifies this`rows
      ensures rows == old(rows) + DoneRows(requests, state.ids, cycle, state.error)
    {
      var i := 0;
      while i < |requests|
        invariant i <= |requests|
        invariant rows + DoneRows(requests[i..], state.ids, cycle, state.error) == old(rows) + DoneRows(requests, state.ids,
            cycle, state.error)
      {
        assert requests[i..][1..] == requests[i + 1..] && requests[i..][0] == requests[i];
        if requests[i].id in state.ids { rows := rows + [Row(cycle, requests[i].id, Completed, state.error)]; }
        i := i + 1;
      }
    }

    /** `run`: the event loop. It refuses exactly the inputs with a request out of span or a write over a
        page boundary; otherwise it terminates, the no-progress error is unreachable, every request has
        one INGRESS and one COMPLETED row, no channel or sub-array serves two states at once, pages are
        served in order, the active limit is respected, and every COMPLETED row is truthful: in error
        without a service, or in the cycle in which the one service of its state ends. */
    method Run(requests: seq<Request>) returns (outcome: Outcome)
      requires Valid() && Contents() == Init(p) && Distinct(Ids(requests))
      modifies this, channelBusy, subarrayBusy
      ensures outcome == Finished <==> forall r :: r in requests ==> Acceptable(p, r)
      ensures outcome.Refused? ==> outcome.index < |requests| && !Acceptable(p, requests[outcome.index])
      ensures outcome == Finished ==>
        && RowIds(rows, Ingress) == Ids(requests)
        && Distinct(RowIds(rows, Completed)) && (forall id :: id in RowIds(rows, Completed) <==> id in Ids(requests))
        && Serialized(services) && peak <= p.maxActive && states == map[]
      ensures outcome == Finished ==>
        && (forall row :: row in rows && row.kind == Completed ==> Truthful(p, requests, services, expired, done, row))
        && Lengths(p, services) && OncePerState(services) && MediaRows(rows) == TraceOf(services)
    {
      hide Sound, Measure, Acceptable, Ids, RowIds, Serialized, Truthful, Lengths, OncePerState, MediaRows, TraceOf, Exhausted;
      InitSound(p, requests);
      var index := 0;
      var cycle := 0;
      while index < |requests| || states != map[] || completions != {}
        invariant Valid() && index <= |requests| && Sound(p, requests, Contents(), index, cycle)
        invariant forall i :: 0 <= i < index ==> Acceptable(p, requests[i])
        invariant index == |requests| && states != map[] && timers == {} ==> completions != {}
        decreases Measure(requests, Contents(), index)
      {
        var candidates: seq<nat> := [];
        if index < |requests| { candidates := candidates + [requests[index].arrival]; }
        if completions != {} { candidates := candidates + [First(completions).finish]; }
        if timers != {} { candidates := candidates + [Next(timers).deadline]; }
        assert candidates == Candidates(requests, Contents(), index);
        if candidates == [] { break; }
        var now := Least(candidates);
        LeastIsDue(requests, Contents(), index, now);
        SoundLater(p, requests, Contents(), index, cycle, if now > cycle then now else cycle);
        if now > cycle { cycle := now; }
        var ok;
        index, ok := Turn(requests, index, cycle, now);
        if !ok { return Refused(index); }
      }
      EndSound(p, requests, Contents(), cycle);
      return Finished;
    }

    /** One loop turn: completions, timers, arrivals, issues. It ends with the active limit reached or
        nothing left that could be issued. */
    method Turn(requests: seq<Request>, from: nat, cycle: nat, ghost now: nat) returns (index: nat, ok: bool)
      requires Valid() && from <= |requests| && Distinct(Ids(requests)) && Sound(p, requests, Contents(), from, cycle)
      requires now <= cycle && ((from < |requests| && requests[from].arrival == now)
          || (completions != {} && First(completions).finish == now) || (timers != {} && Next(timers).deadline == now))
      modifies this, channelBusy, subarrayBusy
      ensures Valid() && from <= index <= |requests| && (forall i :: from <= i < index ==> Acceptable(p, requests[i]))
      ensures !ok ==> index < |requests| && !Acceptable(p, requests[index])
      ensures ok ==> Sound(p, requests, Contents(), index, cycle) && Measure(requests, Contents(), index) < old(Measure(requests, Contents(), from))
      ensures ok ==> Exhausted(p, Contents(), cycle)
      ensures ok && states != map[] && timers == {} ==> completions != {}
    {
      hide Sound, Exhausted, Unissued, Acceptable, Ids, CompleteDue, ReleaseDue, IssueReady, First, Next;
      ghost var s0 := Contents();
      CompleteAll(requests, cycle);
      CompleteSound(p, requests, s0, from, cycle);
      ghost var s1 := Contents();
      ReleaseTimers(cycle);
      ReleaseSound(p, requests, s1, from, cycle);
      index, ok := TakeInDue(requests, from, cycle);
      if !ok { return; }
      ghost var s3 := Contents();
      IssueAll(cycle);
      IssueSound(p, requests, s3, index, cycle);
      if index >= |requests| && states != map[] && completions == {} && timers == {} {
        // The no-progress error.
        assert false;
      }
    }

    method TakeInDue(requests: seq<Request>, from: nat, cycle: nat) returns (index: nat, ok: bool)
      requires Valid() && from <= |requests| && Distinct(Ids(requests)) && Sound(p, requests, Contents(), from, cycle)
      modifies this
      ensures Valid() && from <= index <= |requests| && (forall i :: from <= i < index ==> Acceptable(p, requests[i]))
      ensures !ok ==> index < |requests| && !Acceptable(p, requests[index])
      ensures ok ==> Sound(p, requests, Contents(), index, cycle)
      ensures ok ==> Measure(requests, Contents(), index) + (index - from) <= old(Measure(requests, Contents(), from))
      ensures ok && from < |requests| && requests[from].arrival <= cycle ==> index > from
    {
      hide Sound, Unissued, Acceptable, Ids, Ingest;
      index, ok := from, true;
      while index < |requests| && requests[index].arrival <= cycle
        invariant Valid() && from <= index <= |requests| && Sound(p, requests, Contents(), index, cycle)
        invariant forall i :: from <= i < index ==> Acceptable(p, requests[i])
        invariant Measure(requests, Contents(), index) + (index - from) <= old(Measure(requests, Contents(), from))
      {
        ghost var s := Contents();
        ok := TakeIn(requests[index], cycle);
        if !ok { return; }
        IngestSound(p, requests, s, index, cycle);
        IngestMeasure(p, s, requests[index], cycle);
        index := index + 1;
      }
    }
  }
}
