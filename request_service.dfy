/** A user's own participation requests: joining an event and withdrawing,
    with the event's denormalised counter of confirmed requests kept in step. */
module RequestService {
  import opened Common
  import opened EventModel
  import opened RequestModel

  // ---------------------------------------------------------------------------
  // Joining an event
  // ---------------------------------------------------------------------------

  /** existsByRequesterAndEvent: some row links this user to this event, whatever its status. */
  predicate HasRequest(reqs: map<RequestId, Request>, userId: UserId, eventId: EventId) {
    exists id :: id in reqs && reqs[id].requester == userId && reqs[id].event.id == eventId
  }

  /** The existence check ignores the status: rewriting the status of any row,
      to CANCELED included, neither creates nor removes a match. */
  lemma HasRequestAnyStatus(reqs: map<RequestId, Request>, userId: UserId, eventId: EventId,
                            id: RequestId, st: Status)
    requires id in reqs
    ensures HasRequest(reqs[id := reqs[id].(status := st)], userId, eventId) <==> HasRequest(reqs, userId, eventId)
  {
    var after := reqs[id := reqs[id].(status := st)];
    if HasRequest(reqs, userId, eventId) {
      var j :| j in reqs && reqs[j].requester == userId && reqs[j].event.id == eventId;
      assert j in after && after[j].requester == userId && after[j].event.id == eventId;
    }
    if HasRequest(after, userId, eventId) {
      var j :| j in after && after[j].requester == userId && after[j].event.id == eventId;
      assert j in reqs && reqs[j].requester == userId && reqs[j].event.id == eventId;
    }
  }

  /** The counter change a new request of status st brings. */
  function Joined(st: Status): int {
    if st == Status.Confirmed then 1 else 0
  }

  /** addRequest on the loaded event row e: the guards in the order the source
      checks them, then the status of the new request (PENDING under
      moderation, CONFIRMED otherwise). */
  function AddRequestSpec(reqs: map<RequestId, Request>, users: set<UserId>, userId: UserId, e: EventData): (r: Result<Status>)
    ensures userId !in users ==> r == Failure(NotFound)
    ensures userId in users && HasRequest(reqs, userId, e.id) ==> r == Failure(Duplicate)
    ensures userId in users && !HasRequest(reqs, userId, e.id) && userId == e.initiator ==> r == Failure(ConflictData)
    ensures (userId in users && !HasRequest(reqs, userId, e.id) && userId != e.initiator && e.state != State.Published)
            ==> r == Failure(ConflictData)
    ensures (userId in users && !HasRequest(reqs, userId, e.id) && userId != e.initiator && e.state == State.Published
             && e.participantLimit != 0 && e.participantLimit == e.confirmedRequests) ==> r == Failure(ConflictData)
    ensures r.Success? <==>
      && userId in users
      && !HasRequest(reqs, userId, e.id)
      && userId != e.initiator
      && e.state == State.Published
      && (e.participantLimit == 0 || e.confirmedRequests != e.participantLimit)
    ensures r.Failure? ==> r.error in {NotFound, Duplicate, ConflictData}
    ensures r.Success? ==> r.value == if e.requestModeration then Status.Pending else Status.Confirmed
  {
    if userId !in users then Failure(NotFound)
    else if HasRequest(reqs, userId, e.id) then Failure(Duplicate)
    else if userId == e.initiator then Failure(ConflictData)
    else if e.state != State.Published then Failure(ConflictData)
    else if e.participantLimit != 0 && e.participantLimit == e.confirmedRequests then Failure(ConflictData)
    else if e.requestModeration then Success(Status.Pending)
    else Success(Status.Confirmed)
  }

  /** addRequest, with the user table as a parameter and a null event as a
      missing row. Saving assigns the repository's next identifier. */
  method AddRequest(repo: RequestRepository, users: set<UserId>, userId: UserId, event: Event?)
    returns (r: Result<RequestId>)
    requires repo.Valid()
    modifies repo, event
    ensures repo.Valid()
    ensures event == null ==> r == Failure(NotFound) && unchanged(repo)
    ensures event != null ==>
      var s := AddRequestSpec(old(repo.requests), users, userId, old(event.Data()));
      && (r.Success? <==> s.Success?)
      && (r.Failure? ==> r.error == s.error && unchanged(repo) && event.Data() == old(event.Data()))
      && (r.Success? ==>
            && r.value == old(repo.nextId) && r.value !in old(repo.requests)
            && repo.requests == old(repo.requests)[r.value := Request(userId, event, s.value)]
            && repo.nextId == old(repo.nextId) + 1
            && event.Data() == old(event.Data()).(confirmedRequests := old(event.confirmedRequests) + Joined(s.value)))
  {
    if userId !in users { return Failure(NotFound); }
    if event == null { return Failure(NotFound); }
    if HasRequest(repo.requests, userId, event.id) {
      return Failure(Duplicate);
    }
    if userId == event.initiator { return Failure(ConflictData); }
    if event.state != State.Published { return Failure(ConflictData); }
    var participantLimit, confirmedRequests := event.participantLimit, event.confirmedRequests;
    if participantLimit != 0 && participantLimit == confirmedRequests { return Failure(ConflictData); }
    var status;
    if event.requestModeration {
      status := Status.Pending;
    } else {
      status := Status.Confirmed;
      event.confirmedRequests := confirmedRequests + 1;
    }
    r := Success(repo.nextId);
    repo.requests := repo.requests[repo.nextId := Request(userId, event, status)];
    repo.nextId := repo.nextId + 1;
  }

  /** The counter invariant survives a new request: a CONFIRMED one is only
      admitted while the counter is below a non-zero limit. */
  lemma AddKeepsWithinLimit(reqs: map<RequestId, Request>, users: set<UserId>, userId: UserId, e: EventData)
    requires WithinLimit(e)
    requires AddRequestSpec(reqs, users, userId, e).Success?
    ensures WithinLimit(e.(confirmedRequests := e.confirmedRequests + Joined(AddRequestSpec(reqs, users, userId, e).value)))
  {
  }

  /** A second request for the same event fails as a duplicate, whatever became of the first. */
  lemma SecondRequestIsDuplicate(reqs: map<RequestId, Request>, users: set<UserId>, userId: UserId, e: EventData,
                                 id: RequestId, ev: Event, st: Status)
    requires userId in users && ev.id == e.id && id !in reqs
    ensures AddRequestSpec(reqs[id := Request(userId, ev, st)], users, userId, e) == Failure(Duplicate)
  {
    assert reqs[id := Request(userId, ev, st)][id].requester == userId;
  }

  // ---------------------------------------------------------------------------
  // Withdrawing a request
  // ---------------------------------------------------------------------------

  /** The counter change cancelling a request of status st brings. */
  function Withdrawn(st: Status): int {
    if st == Status.Confirmed then -1 else 0
  }

  /** cancelRequest on the request table: the user must exist and the request
      must be theirs; the row becomes CANCELED. */
  function CancelSpec(reqs: map<RequestId, Request>, users: set<UserId>, userId: UserId, rid: RequestId): (r: Result<Request>)
    ensures r.Success? <==> userId in users && rid in reqs && reqs[rid].requester == userId
    ensures r.Failure? ==> r.error == NotFound
    ensures r.Success? ==> r.value == reqs[rid].(status := Status.Canceled)
  {
    if userId !in users then Failure(NotFound)
    else if rid !in reqs || reqs[rid].requester != userId then Failure(NotFound)
    else Success(reqs[rid].(status := Status.Canceled))
  }

  /** The event a request row points at, if the row exists: all that cancelRequest may change besides the table. */
  function EventOf(reqs: map<RequestId, Request>, rid: RequestId): set<Event> {
    if rid in reqs then {reqs[rid].event} else {}
  }

  /** cancelRequest, with the user table as a parameter. The counter of the
      request's event goes down by one exactly when the request was CONFIRMED. */
  method CancelRequest(repo: RequestRepository, users: set<UserId>, userId: UserId, rid: RequestId)
    returns (r: Result<Request>)
    requires repo.Valid()
    modifies repo, EventOf(repo.requests, rid)
    ensures repo.Valid()
    ensures r == CancelSpec(old(repo.requests), users, userId, rid)
    ensures r.Failure? ==> unchanged(repo) && forall ev | ev in old(EventOf(repo.requests, rid)) :: unchanged(ev)
    ensures r.Success? ==>
      var before := old(repo.requests[rid]);
      && repo.requests == old(repo.requests)[rid := r.value]
      && repo.nextId == old(repo.nextId)
      && before.event.Data()
         == old(before.event.Data()).(confirmedRequests := old(before.event.confirmedRequests) + Withdrawn(before.status))
  {
    if userId !in users { return Failure(NotFound); }
    if rid !in repo.requests || repo.requests[rid].requester != userId { return Failure(NotFound); }
    var request := repo.requests[rid];
    if request.status == Status.Confirmed {
      var event := request.event;
      var confirmedRequests := event.confirmedRequests;
      event.confirmedRequests := confirmedRequests - 1;
    }
    request := request.(status := Status.Canceled);
    repo.requests := repo.requests[rid := request];
    r := Success(request);
  }

  /** Cancelling again changes nothing: the row is already CANCELED, so the
      counter stays and the row is the same. */
  lemma CancelIdempotent(reqs: map<RequestId, Request>, users: set<UserId>, userId: UserId, rid: RequestId)
    requires CancelSpec(reqs, users, userId, rid).Success?
    ensures var once := CancelSpec(reqs, users, userId, rid).value;
            && CancelSpec(reqs[rid := once], users, userId, rid) == Success(once)
            && Withdrawn(once.status) == 0
  {
  }

  /** Cancelling never raises the counter, so it keeps the counter invariant. */
  lemma CancelKeepsWithinLimit(e: EventData, st: Status)
    requires WithinLimit(e)
    ensures WithinLimit(e.(confirmedRequests := e.confirmedRequests + Withdrawn(st)))
    ensures Withdrawn(st) <= 0
  {
  }
}
