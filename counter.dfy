/** The denormalised counter: `confirmedRequests` on an event is meant to be
    the number of CONFIRMED requests for it. Every request operation moves
    the counter and the table together, so the agreement, once it holds,
    survives them; the event edits never touch the counter. */
module Counter {
  import opened Common
  import opened EventModel
  import opened RequestModel
  import opened EventService
  import opened RequestService

  /** 1 when the row is a CONFIRMED request for the event, else 0. */
  function Counts(r: Request, eventId: EventId): nat {
    if r.event.id == eventId && r.status == Status.Confirmed then 1 else 0
  }

  /** The identifiers of the CONFIRMED requests for the event. */
  ghost function ConfirmedIds(reqs: map<RequestId, Request>, eventId: EventId): set<RequestId> {
    set id | id in reqs && Counts(reqs[id], eventId) == 1
  }

  /** How many CONFIRMED requests the event has in the table. */
  ghost function ConfirmedOf(reqs: map<RequestId, Request>, eventId: EventId): nat {
    |ConfirmedIds(reqs, eventId)|
  }

  /** Writing one row moves the count by the difference the row makes. */
  lemma ConfirmedOfWrite(reqs: map<RequestId, Request>, eventId: EventId, x: RequestId, v: Request)
    ensures ConfirmedOf(reqs[x := v], eventId)
         == ConfirmedOf(reqs, eventId) - (if x in reqs then Counts(reqs[x], eventId) else 0) + Counts(v, eventId)
  {
    var before, after := ConfirmedIds(reqs, eventId), ConfirmedIds(reqs[x := v], eventId);
    var was := x in reqs && Counts(reqs[x], eventId) == 1;
    var now := Counts(v, eventId) == 1;
    assert x in before <==> was;
    assert x in after <==> now;
    if was && !now {
      assert after == before - {x};
    } else if !was && now {
      assert after == before + {x};
    } else {
      assert after == before;
    }
  }

  /** The counter of event row e agrees with the request table. */
  ghost predicate Consistent(reqs: map<RequestId, Request>, e: EventData) {
    e.confirmedRequests == ConfirmedOf(reqs, e.id)
  }

  /** addRequest keeps every event's counter in step: the joined event's
      counter goes up exactly when the new row is CONFIRMED, and no other
      event's count moves. */
  lemma AddKeepsConsistent(reqs: map<RequestId, Request>, users: set<UserId>, userId: UserId, e: EventData,
                           id: RequestId, ev: Event, other: EventData)
    requires Consistent(reqs, e) && Consistent(reqs, other)
    requires id !in reqs && ev.id == e.id
    requires AddRequestSpec(reqs, users, userId, e).Success?
    ensures var st := AddRequestSpec(reqs, users, userId, e).value;
            Consistent(reqs[id := Request(userId, ev, st)], e.(confirmedRequests := e.confirmedRequests + Joined(st)))
    ensures var st := AddRequestSpec(reqs, users, userId, e).value;
            var delta := if other.id == e.id then Joined(st) else 0;
            Consistent(reqs[id := Request(userId, ev, st)], other.(confirmedRequests := other.confirmedRequests + delta))
  {
    var row := Request(userId, ev, AddRequestSpec(reqs, users, userId, e).value);
    ConfirmedOfWrite(reqs, e.id, id, row);
    ConfirmedOfWrite(reqs, other.id, id, row);
  }

  /** cancelRequest keeps every event's counter in step: only the request's
      own event moves, and by one exactly when the request was CONFIRMED. */
  lemma CancelKeepsConsistent(reqs: map<RequestId, Request>, users: set<UserId>, userId: UserId, rid: RequestId, e: EventData)
    requires Consistent(reqs, e)
    requires CancelSpec(reqs, users, userId, rid).Success?
    ensures var before := reqs[rid];
            var delta := if before.event.id == e.id then Withdrawn(before.status) else 0;
            Consistent(reqs[rid := CancelSpec(reqs, users, userId, rid).value], e.(confirmedRequests := e.confirmedRequests + delta))
  {
    ConfirmedOfWrite(reqs, e.id, rid, CancelSpec(reqs, users, userId, rid).value);
  }

  /** Writing new statuses for listed rows of one event moves that event's
      count by the change in CONFIRMED statuses among them. */
  lemma {:induction false} ConfirmedOfWithStatuses(reqs: map<RequestId, Request>, found: seq<RequestId>, sts: seq<Status>, eventId: EventId)
    requires |found| == |sts|
    requires forall k :: 0 <= k < |found| ==> found[k] in reqs
    requires forall i, j :: 0 <= i < j < |found| ==> found[i] != found[j]
    requires forall k :: 0 <= k < |found| ==> reqs[found[k]].event.id == eventId
    ensures ConfirmedOf(WithStatuses(reqs, found, sts), eventId)
         == ConfirmedOf(reqs, eventId) - Confirmations(Statuses(reqs, found)) + Confirmations(sts)
    decreases |found|
  {
    if found != [] {
      var n := |found| - 1;
      var id := found[n];
      var m' := WithStatuses(reqs, found[..n], sts[..n]);
      ConfirmedOfWithStatuses(reqs, found[..n], sts[..n], eventId);
      assert id !in found[..n];
      assert m'[id] == reqs[id];
      ConfirmedOfWrite(m', eventId, id, reqs[id].(status := sts[n]));
      var old_ := Statuses(reqs, found);
      assert old_[..n] == Statuses(reqs, found[..n]);
      assert Confirmations(old_) == Confirmations(old_[..n]) + Counts(reqs[id], eventId);
    }
  }

  /** Writing new statuses for listed rows of other events leaves this
      event's count alone. */
  lemma {:induction false} ConfirmedOfWithStatusesElsewhere(reqs: map<RequestId, Request>, found: seq<RequestId>,
                                                            sts: seq<Status>, eventId: EventId)
    requires |found| == |sts|
    requires forall k :: 0 <= k < |found| ==> found[k] in reqs
    requires forall i, j :: 0 <= i < j < |found| ==> found[i] != found[j]
    requires forall k :: 0 <= k < |found| ==> reqs[found[k]].event.id != eventId
    ensures ConfirmedOf(WithStatuses(reqs, found, sts), eventId) == ConfirmedOf(reqs, eventId)
    decreases |found|
  {
    if found != [] {
      var n := |found| - 1;
      var id := found[n];
      var m' := WithStatuses(reqs, found[..n], sts[..n]);
      ConfirmedOfWithStatusesElsewhere(reqs, found[..n], sts[..n], eventId);
      assert id !in found[..n];
      assert m'[id] == reqs[id];
      ConfirmedOfWrite(m', eventId, id, reqs[id].(status := sts[n]));
    }
  }

  /** updateRequestsStatus keeps every event's counter in step with the table:
      the updated event's counter takes the new value and no other event's
      count moves. */
  lemma BulkKeepsConsistent(e: EventData, userId: UserId, users: set<UserId>, reqs: map<RequestId, Request>,
                            ids: seq<RequestId>, decision: Decision, other: EventData)
    requires Consistent(reqs, e) && Consistent(reqs, other)
    requires RequestsStatusUpdate(e, userId, users, reqs, ids, decision).Success?
    ensures var r := RequestsStatusUpdate(e, userId, users, reqs, ids, decision).value;
            Consistent(r.requests, e.(confirmedRequests := r.confirmed))
    ensures var r := RequestsStatusUpdate(e, userId, users, reqs, ids, decision).value;
            var delta := if other.id == e.id then r.confirmed - e.confirmedRequests else 0;
            Consistent(r.requests, other.(confirmedRequests := other.confirmedRequests + delta))
  {
    var r := RequestsStatusUpdate(e, userId, users, reqs, ids, decision).value;
    BulkOpen(e, userId, users, reqs, ids, decision);
    if e.requestModeration && e.participantLimit != 0 {
      var found := FindAllById(ids, reqs);
      ModeratedWrites(reqs, found, e.confirmedRequests, e.participantLimit, decision);
      ConfirmedOfWithStatuses(reqs, found, Statuses(r.requests, found), e.id);
      if other.id != e.id {
        ConfirmedOfWithStatusesElsewhere(reqs, found, Statuses(r.requests, found), other.id);
      }
    }
  }

  /** Neither event edit touches the counter, so both keep it in step. */
  lemma EditsKeepConsistent(reqs: map<RequestId, Request>, e: EventData, userId: UserId, users: set<UserId>,
                            categories: set<CategoryId>, upd: EventUpdate, now: Time)
    requires Consistent(reqs, e)
    ensures OwnerEdit(e, userId, users, categories, upd, now).Success? ==>
              Consistent(reqs, OwnerEdit(e, userId, users, categories, upd, now).value)
    ensures AdminEdit(e, upd, now).Success? ==> Consistent(reqs, AdminEdit(e, upd, now).value)
  {
  }
}
