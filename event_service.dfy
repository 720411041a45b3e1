/** The event lifecycle: creation defaults, the owner's and the administrator's
    edits, and the owner's bulk decision on participation requests. */
module EventService {
  import opened Common
  import opened EventModel
  import opened RequestModel

  // ---------------------------------------------------------------------------
  // Date checks
  // ---------------------------------------------------------------------------

  /** Owner rule (creation and owner edit): a date before now + 2 hours is refused. */
  predicate OwnerDateOk(date: Time, now: Time): (ok: bool)
    ensures ok <==> date - now >= 2 * Hour
  {
    !(date < now + 2 * Hour)
  }

  /** Administrator rule (checkDateEvent): refused when now + 1 hour is after the date. */
  predicate AdminDateOk(date: Time, now: Time): (ok: bool)
    ensures ok <==> date - now >= Hour
  {
    !(now + Hour > date)
  }

  /** Both rules accept the boundary instant itself, and every date an owner may
      set is one an administrator may set, but not the other way round. */
  lemma DateChecks(now: Time)
    ensures OwnerDateOk(now + 2 * Hour, now) && !OwnerDateOk(now + 2 * Hour - 1, now)
    ensures AdminDateOk(now + Hour, now) && !AdminDateOk(now + Hour - 1, now)
    ensures forall date :: OwnerDateOk(date, now) ==> AdminDateOk(date, now)
    ensures AdminDateOk(now + Hour, now) && !OwnerDateOk(now + Hour, now)
  {
  }

  // ---------------------------------------------------------------------------
  // Creation defaults
  // ---------------------------------------------------------------------------

  /** The body of a new-event request; the three optional fields may be absent. */
  datatype NewEventDto = NewEventDto(
    annotation: string,
    category: CategoryId,
    description: string,
    eventDate: Time,
    location: Location,
    paid: Option<bool>,
    participantLimit: Option<int>,
    requestModeration: Option<bool>,
    title: string)

  /** checkFields: refuses a date less than two hours ahead, then fills in the
      defaults (not paid, moderated, unlimited). */
  function CheckFields(dto: NewEventDto, now: Time): (r: Result<NewEventDto>)
    ensures r.Success? <==> OwnerDateOk(dto.eventDate, now)
    ensures r.Failure? ==> r.error == Validation
    ensures r.Success? ==> r.value.paid == (if dto.paid.Some? then dto.paid else Some(false))
    ensures r.Success? ==> r.value.requestModeration == (if dto.requestModeration.Some? then dto.requestModeration else Some(true))
    ensures r.Success? ==> r.value.participantLimit == (if dto.participantLimit.Some? then dto.participantLimit else Some(0))
    ensures r.Success? ==> r.value.(paid := dto.paid, participantLimit := dto.participantLimit,
                                    requestModeration := dto.requestModeration) == dto
  {
    if dto.eventDate < now + 2 * Hour then Failure(Validation)
    else
      var paid := if dto.paid.None? then Some(false) else dto.paid;
      var moderation := if dto.requestModeration.None? then Some(true) else dto.requestModeration;
      var limit := if dto.participantLimit.None? then Some(0) else dto.participantLimit;
      Success(dto.(paid := paid, requestModeration := moderation, participantLimit := limit))
  }

  /** Filling the defaults a second time changes nothing. */
  lemma CheckFieldsIdempotent(dto: NewEventDto, now: Time)
    requires CheckFields(dto, now).Success?
    ensures CheckFields(CheckFields(dto, now).value, now) == CheckFields(dto, now)
  {
  }

  // ---------------------------------------------------------------------------
  // Partial updates
  // ---------------------------------------------------------------------------

  /** UpdateEventUserRequest / UpdateEventAdminRequest: every field may be null (None). */
  datatype EventUpdate = EventUpdate(
    annotation: Option<string>,
    category: Option<CategoryId>,
    description: Option<string>,
    eventDate: Option<Time>,
    location: Option<Location>,
    paid: Option<bool>,
    participantLimit: Option<int>,
    requestModeration: Option<bool>,
    stateAction: Option<StateAction>,
    title: Option<string>)

  function Or<T>(current: T, given: Option<T>): T {
    if given.Some? then given.value else current
  }

  function OrText(current: string, given: Option<string>): string {
    if Supplied(given) then given.value else current
  }

  /** The setters both edit paths call on the plain fields. */
  function Patched(e: EventData, upd: EventUpdate): EventData {
    e.(annotation := OrText(e.annotation, upd.annotation),
       category := Or(e.category, upd.category),
       description := OrText(e.description, upd.description),
       eventDate := Or(e.eventDate, upd.eventDate),
       location := Or(e.location, upd.location),
       paid := Or(e.paid, upd.paid),
       participantLimit := Or(e.participantLimit, upd.participantLimit),
       requestModeration := Or(e.requestModeration, upd.requestModeration),
       title := OrText(e.title, upd.title))
  }

  /** What a partial update means, field by field: a null field, or a null or
      blank text, keeps the old value; any other value replaces it. Identity,
      initiator, creation time and the confirmed-request counter never change. */
  ghost predicate PartialUpdate(before: EventData, upd: EventUpdate, after: EventData) {
    && after.id == before.id
    && after.initiator == before.initiator
    && after.createdOn == before.createdOn
    && after.confirmedRequests == before.confirmedRequests
    && (if Supplied(upd.annotation) then after.annotation == upd.annotation.value else after.annotation == before.annotation)
    && (if Supplied(upd.description) then after.description == upd.description.value else after.description == before.description)
    && (if Supplied(upd.title) then after.title == upd.title.value else after.title == before.title)
    && (if upd.category.Some? then after.category == upd.category.value else after.category == before.category)
    && (if upd.eventDate.Some? then after.eventDate == upd.eventDate.value else after.eventDate == before.eventDate)
    && (if upd.location.Some? then after.location == upd.location.value else after.location == before.location)
    && (if upd.paid.Some? then after.paid == upd.paid.value else after.paid == before.paid)
    && (if upd.participantLimit.Some? then after.participantLimit == upd.participantLimit.value
        else after.participantLimit == before.participantLimit)
    && (if upd.requestModeration.Some? then after.requestModeration == upd.requestModeration.value
        else after.requestModeration == before.requestModeration)
  }

  // ---------------------------------------------------------------------------
  // Owner edit
  // ---------------------------------------------------------------------------

  /** The owner's stateAction: SEND_TO_REVIEW publishes (as written), CANCEL_REVIEW cancels, anything else keeps the state. */
  function OwnerState(s: State, action: Option<StateAction>): State {
    match action
    case Some(SendToReview) => State.Published
    case Some(CancelReview) => State.Canceled
    case _ => s
  }

  /** updateEventOfUser on the loaded row e: the guards in the order the source
      checks them, then the partial update and the owner's state action. */
  function OwnerEdit(e: EventData, userId: UserId, users: set<UserId>, categories: set<CategoryId>,
                     upd: EventUpdate, now: Time): (r: Result<EventData>)
    ensures userId !in users ==> r == Failure(NotFound)
    ensures userId in users && userId != e.initiator ==> r == Failure(Validation)
    ensures userId in users && userId == e.initiator && e.state == State.Published ==> r == Failure(ConflictData)
    ensures (userId in users && userId == e.initiator && e.state != State.Published
             && upd.category.Some? && upd.category.value !in categories) ==> r == Failure(NotFound)
    ensures (userId in users && userId == e.initiator && e.state != State.Published
             && (upd.category.Some? ==> upd.category.value in categories)
             && upd.eventDate.Some? && !OwnerDateOk(upd.eventDate.value, now)) ==> r == Failure(Validation)
    ensures r.Success? <==>
      && userId in users && userId == e.initiator && e.state != State.Published
      && (upd.category.Some? ==> upd.category.value in categories)
      && (upd.eventDate.Some? ==> OwnerDateOk(upd.eventDate.value, now))
    ensures r.Failure? ==> r.error in {NotFound, Validation, ConflictData}
    ensures r.Success? ==> PartialUpdate(e, upd, r.value) && r.value.publishedOn == e.publishedOn
    ensures r.Success? ==> (r.value.state ==
      if upd.stateAction == Some(SendToReview) then State.Published
       else if upd.stateAction == Some(CancelReview) then State.Canceled
       else e.state)
  {
    if userId !in users then Failure(NotFound)
    else if userId != e.initiator then Failure(Validation)
    else if e.state == State.Published then Failure(ConflictData)
    else if upd.category.Some? && upd.category.value !in categories then Failure(NotFound)
    else if upd.eventDate.Some? && !OwnerDateOk(upd.eventDate.value, now) then Failure(Validation)
    else Success(Patched(e, upd).(state := OwnerState(e.state, upd.stateAction)))
  }

  /** updateEventOfUser, with the user, event and category tables as parameters
      (a null event is a missing row). The setters run on the managed copy of
      the row, written back when the transaction commits. The category and
      date checks, which the source makes between setters, come first here: a
      thrown error discards the copy, so the two orders cannot be told apart. */
  method UpdateEventOfUser(users: set<UserId>, categories: set<CategoryId>, userId: UserId, event: Event?,
                           upd: EventUpdate, now: Time) returns (r: Result<EventData>)
    modifies event
    ensures event == null ==> r == Failure(NotFound)
    ensures event != null ==> r == OwnerEdit(old(event.Data()), userId, users, categories, upd, now)
    ensures event != null ==> event.Data() == if r.Success? then r.value else old(event.Data())
  {
    if userId !in users { return Failure(NotFound); }
    if event == null { return Failure(NotFound); }
    if userId != event.initiator { return Failure(Validation); }
    if event.state == State.Published { return Failure(ConflictData); }
    if upd.category.Some? && upd.category.value !in categories { return Failure(NotFound); }
    if upd.eventDate.Some? && !OwnerDateOk(upd.eventDate.value, now) { return Failure(Validation); }
    var d := event.Data();
    d := d.(annotation := OrText(d.annotation, upd.annotation));
    d := d.(category := Or(d.category, upd.category));
    d := d.(description := OrText(d.description, upd.description));
    d := d.(eventDate := Or(d.eventDate, upd.eventDate));
    d := d.(location := Or(d.location, upd.location));
    d := d.(paid := Or(d.paid, upd.paid));
    d := d.(participantLimit := Or(d.participantLimit, upd.participantLimit));
    d := d.(requestModeration := Or(d.requestModeration, upd.requestModeration));
    d := d.(title := OrText(d.title, upd.title));
    d := d.(state := OwnerState(d.state, upd.stateAction));
    event.Flush(d);
    r := Success(d);
  }

  /** Because the owner's SEND_TO_REVIEW publishes at once, the owner can publish
      a pending event without an administrator, publishedOn keeps its old value, and
      every later owner edit is refused as a conflict. */
  lemma OwnerSendToReviewPublishes(e: EventData, userId: UserId, users: set<UserId>, categories: set<CategoryId>,
                                   upd: EventUpdate, now: Time, upd2: EventUpdate, now2: Time)
    requires OwnerEdit(e, userId, users, categories, upd, now).Success?
    requires upd.stateAction == Some(SendToReview)
    ensures OwnerEdit(e, userId, users, categories, upd, now).value.state == State.Published
    ensures OwnerEdit(e, userId, users, categories, upd, now).value.publishedOn == e.publishedOn
    ensures OwnerEdit(OwnerEdit(e, userId, users, categories, upd, now).value, userId, users, categories, upd2, now2)
            == Failure(ConflictData)
  {
  }

  // ---------------------------------------------------------------------------
  // Administrator edit
  // ---------------------------------------------------------------------------

  /** checkStateAction: PUBLISH_EVENT only from PENDING, REJECT_EVENT not from PUBLISHED. */
  predicate StateActionAllowed(s: State, action: Option<StateAction>): (ok: bool)
    ensures s == State.Pending ==> ok
    ensures s == State.Published ==> (ok <==> action != Some(PublishEvent) && action != Some(RejectEvent))
    ensures s == State.Canceled ==> (ok <==> action != Some(PublishEvent))
  {
    && (action == Some(PublishEvent) ==> s == State.Pending)
    && (action == Some(RejectEvent) ==> s != State.Published)
  }

  /** The state the administrator's stateAction leads to. */
  function AdminNextState(s: State, action: Option<StateAction>): State {
    match action
    case Some(RejectEvent) => State.Canceled
    case Some(CancelReview) => State.Canceled
    case Some(SendToReview) => State.Pending
    case Some(PublishEvent) => State.Published
    case None => s
  }

  /** The administrator's state action applied to the row: PUBLISH_EVENT also stamps publishedOn. */
  function AdminState(e: EventData, action: Option<StateAction>, now: Time): EventData {
    e.(state := AdminNextState(e.state, action),
       publishedOn := if action == Some(PublishEvent) then Some(now) else e.publishedOn)
  }

  /** updateEventAdmin on the loaded row e: the transition guard, the date
      guard, then the partial update and the transition. */
  function AdminEdit(e: EventData, upd: EventUpdate, now: Time): (r: Result<EventData>)
    ensures upd.stateAction == Some(PublishEvent) && e.state != State.Pending ==> r == Failure(OperationFailed)
    ensures upd.stateAction == Some(RejectEvent) && e.state == State.Published ==> r == Failure(OperationFailed)
    ensures StateActionAllowed(e.state, upd.stateAction) && upd.eventDate.Some? && !AdminDateOk(upd.eventDate.value, now)
            ==> r == Failure(InvalidDateTime)
    ensures r.Success? <==>
      && (upd.stateAction == Some(PublishEvent) ==> e.state == State.Pending)
      && (upd.stateAction == Some(RejectEvent) ==> e.state != State.Published)
      && (upd.eventDate.Some? ==> AdminDateOk(upd.eventDate.value, now))
    ensures r.Failure? ==> r.error in {OperationFailed, InvalidDateTime}
    ensures r.Success? ==> PartialUpdate(e, upd, r.value)
    ensures r.Success? ==> (r.value.state ==
      if upd.stateAction == Some(PublishEvent) then State.Published
       else if upd.stateAction == Some(SendToReview) then State.Pending
       else if upd.stateAction.Some? then State.Canceled
       else e.state)
    ensures r.Success? ==> r.value.publishedOn == (if upd.stateAction == Some(PublishEvent) then Some(now) else e.publishedOn)
  {
    if !StateActionAllowed(e.state, upd.stateAction) then Failure(OperationFailed)
    else if upd.eventDate.Some? && !AdminDateOk(upd.eventDate.value, now) then Failure(InvalidDateTime)
    else Success(AdminState(Patched(e, upd), upd.stateAction, now))
  }

  /** updateEventAdmin, with the event table as a parameter (null is a missing
      row). The clock is read once as `now`. As for the owner, the setters run
      on the managed copy and the date check comes before them. */
  method UpdateEventAdmin(event: Event?, upd: EventUpdate, now: Time) returns (r: Result<EventData>)
    modifies event
    ensures event == null ==> r == Failure(NotFoundRecordInDb)
    ensures event != null ==> r == AdminEdit(old(event.Data()), upd, now)
    ensures event != null ==> event.Data() == if r.Success? then r.value else old(event.Data())
  {
    if event == null { return Failure(NotFoundRecordInDb); }
    if !StateActionAllowed(event.state, upd.stateAction) { return Failure(OperationFailed); }
    if upd.eventDate.Some? && !AdminDateOk(upd.eventDate.value, now) { return Failure(InvalidDateTime); }
    var d := event.Data();
    d := d.(annotation := OrText(d.annotation, upd.annotation));
    d := d.(category := Or(d.category, upd.category));
    d := d.(description := OrText(d.description, upd.description));
    d := d.(eventDate := Or(d.eventDate, upd.eventDate));
    d := d.(location := Or(d.location, upd.location));
    d := d.(paid := Or(d.paid, upd.paid));
    d := d.(participantLimit := Or(d.participantLimit, upd.participantLimit));
    d := d.(requestModeration := Or(d.requestModeration, upd.requestModeration));
    d := AdminState(d, upd.stateAction, now);
    d := d.(title := OrText(d.title, upd.title));
    event.Flush(d);
    r := Success(d);
  }

  /** PUBLISH_EVENT succeeds only from PENDING and stamps publishedOn; a second
      PUBLISH_EVENT on the result fails, whatever else it carries. */
  lemma PublishOnlyOnce(e: EventData, upd: EventUpdate, now: Time, upd2: EventUpdate, now2: Time)
    requires upd.stateAction == Some(PublishEvent) && upd2.stateAction == Some(PublishEvent)
    ensures AdminEdit(e, upd, now).Success? ==>
      && e.state == State.Pending
      && AdminEdit(e, upd, now).value.state == State.Published
      && AdminEdit(e, upd, now).value.publishedOn == Some(now)
      && AdminEdit(AdminEdit(e, upd, now).value, upd2, now2) == Failure(OperationFailed)
  {
  }

  /** REJECT_EVENT fails on a published event and otherwise cancels it;
      SEND_TO_REVIEW always yields PENDING, even from PUBLISHED. */
  lemma RejectAndReview(e: EventData, upd: EventUpdate, now: Time)
    requires upd.eventDate.None?
    ensures upd.stateAction == Some(RejectEvent) ==>
      (e.state == State.Published <==> AdminEdit(e, upd, now).Failure?)
      && (AdminEdit(e, upd, now).Success? ==> AdminEdit(e, upd, now).value.state == State.Canceled)
    ensures upd.stateAction == Some(SendToReview) ==>
      AdminEdit(e, upd, now).Success? && AdminEdit(e, upd, now).value.state == State.Pending
  {
  }

  /** publishedOn is not set only once: an administrator can send a published
      event back to review and publish it again, which stamps a new instant. */
  lemma RepublishAfterReview(e: EventData, review: EventUpdate, publish: EventUpdate, now1: Time, now2: Time)
    requires e.state == State.Published
    requires review.stateAction == Some(SendToReview) && review.eventDate.None?
    requires publish.stateAction == Some(PublishEvent) && publish.eventDate.None?
    ensures AdminEdit(e, review, now1).Success?
    ensures AdminEdit(AdminEdit(e, review, now1).value, publish, now2).Success?
    ensures AdminEdit(AdminEdit(e, review, now1).value, publish, now2).value.publishedOn == Some(now2)
  {
  }

  /** Neither edit path guards participantLimit against the counter: a lower
      limit may leave more confirmed requests than the limit allows. */
  lemma EditsCanBreakLimit(e: EventData, upd: EventUpdate, now: Time)
    requires e.state == State.Pending && e.confirmedRequests == 5 && e.participantLimit == 10
    requires upd == EventUpdate(None, None, None, None, None, None, Some(3), None, None, None)
    ensures WithinLimit(e)
    ensures OwnerEdit(e, e.initiator, {e.initiator}, {}, upd, now).Success?
    ensures !WithinLimit(OwnerEdit(e, e.initiator, {e.initiator}, {}, upd, now).value)
    ensures AdminEdit(e, upd, now).Success? && !WithinLimit(AdminEdit(e, upd, now).value)
  {
  }

  // ---------------------------------------------------------------------------
  // Bulk status update of participation requests
  // ---------------------------------------------------------------------------

  /** EventRequestStatusUpdateRequest.status. */
  datatype Decision = Confirm | Reject

  /** findAllById: the listed identifiers that exist, each once, in order of first occurrence. */
  function FindAllById(ids: seq<RequestId>, reqs: map<RequestId, Request>): (found: seq<RequestId>)
    ensures forall id :: id in found <==> id in ids && id in reqs
    ensures forall i, j :: 0 <= i < j < |found| ==> found[i] != found[j]
    decreases |ids|
  {
    if ids == [] then []
    else
      var rest := FindAllById(ids[..|ids| - 1], reqs);
      var id := ids[|ids| - 1];
      if id in reqs && id !in rest then rest + [id] else rest
  }

  /** The statuses of the found requests, in list order. */
  function Statuses(reqs: map<RequestId, Request>, found: seq<RequestId>): (sts: seq<Status>)
    requires forall k :: 0 <= k < |found| ==> found[k] in reqs
    ensures |sts| == |found| && forall k :: 0 <= k < |found| ==> sts[k] == reqs[found[k]].status
  {
    seq(|found|, k requires 0 <= k < |found| => reqs[found[k]].status)
  }

  /** How many of the statuses are CONFIRMED. */
  function Confirmations(sts: seq<Status>): (n: nat)
    ensures n <= |sts|
    decreases |sts|
  {
    if sts == [] then 0
    else Confirmations(sts[..|sts| - 1]) + (if sts[|sts| - 1] == Status.Confirmed then 1 else 0)
  }

  function Min(a: int, b: int): int {
    if a <= b then a else b
  }

  /** The CONFIRMED branch of the forEach over statuses sts, starting from the
      counter `count`: a non-PENDING request aborts the whole call (None);
      otherwise each request is confirmed while the counter differs from the
      limit, and cancelled once it equals it. Yields the new statuses and counter. */
  function ConfirmStatuses(sts: seq<Status>, count: int, limit: int): (r: Option<(seq<Status>, int)>)
    ensures r.Some? ==> |r.value.0| == |sts|
    decreases |sts|
  {
    if sts == [] then Some(([], count))
    else
      var n := |sts| - 1;
      match ConfirmStatuses(sts[..n], count, limit)
      case None => None
      case Some((done, c)) =>
        if sts[n] != Status.Pending then None
        else if c == limit then Some((done + [Status.Canceled], c))
        else Some((done + [Status.Confirmed], c + 1))
  }

  /** The CONFIRMED walk aborts exactly when some status is not PENDING. */
  lemma {:induction false} ConfirmAborts(sts: seq<Status>, count: int, limit: int)
    ensures ConfirmStatuses(sts, count, limit).None? <==> exists k :: 0 <= k < |sts| && sts[k] != Status.Pending
    decreases |sts|
  {
    if sts != [] {
      var n := |sts| - 1;
      ConfirmAborts(sts[..n], count, limit);
      assert forall k :: 0 <= k < n ==> sts[..n][k] == sts[k];
    }
  }

  /** A CONFIRMED walk that does not abort, from a counter at or below the
      limit, confirms the first `limit - count` requests and cancels the
      rest; the counter grows by the confirmations. */
  lemma {:induction false} ConfirmStatusesWalk(sts: seq<Status>, count: int, limit: int)
    requires ConfirmStatuses(sts, count, limit).Some?
    ensures var (done, c) := ConfirmStatuses(sts, count, limit).value;
            && c == count + Confirmations(done)
            && c == (if count <= limit then count + Min(|sts|, limit - count) else count + |sts|)
            && forall k :: 0 <= k < |sts| ==>
                 done[k] == if count <= limit && k >= limit - count then Status.Canceled else Status.Confirmed
    decreases |sts|
  {
    if sts != [] {
      var n := |sts| - 1;
      var (done, c) := ConfirmStatuses(sts[..n], count, limit).value;
      ConfirmStatusesWalk(sts[..n], count, limit);
      var d := ConfirmStatuses(sts, count, limit).value.0;
      assert d[..n] == done;
    }
  }

  /** One more step of the CONFIRMED walk. */
  lemma ConfirmStep(sts: seq<Status>, count: int, limit: int, i: nat, done: seq<Status>, c: int)
    requires i < |sts|
    requires ConfirmStatuses(sts[..i], count, limit) == Some((done, c))
    ensures ConfirmStatuses(sts[..i + 1], count, limit)
         == if sts[i] != Status.Pending then None
            else if c == limit then Some((done + [Status.Canceled], c))
            else Some((done + [Status.Confirmed], c + 1))
  {
    assert sts[..i + 1][..i] == sts[..i];
  }

  /** The request table after setting the found requests' statuses to sts, one by one. */
  function WithStatuses(reqs: map<RequestId, Request>, found: seq<RequestId>, sts: seq<Status>): (m: map<RequestId, Request>)
    requires |found| == |sts|
    requires forall k :: 0 <= k < |found| ==> found[k] in reqs
    requires forall i, j :: 0 <= i < j < |found| ==> found[i] != found[j]
    ensures m.Keys == reqs.Keys
    ensures forall id :: id in reqs && id !in found ==> m[id] == reqs[id]
    decreases |found|
  {
    if found == [] then reqs
    else
      var n := |found| - 1;
      var m' := WithStatuses(reqs, found[..n], sts[..n]);
      assert found[n] !in found[..n];
      assert forall k :: 0 <= k < n ==> found[..n][k] == found[k] && sts[..n][k] == sts[k];
      m'[found[n] := m'[found[n]].(status := sts[n])]
  }

  /** Each found row carries the status written for its position. */
  lemma {:induction false} WithStatusesAt(reqs: map<RequestId, Request>, found: seq<RequestId>, sts: seq<Status>)
    requires |found| == |sts|
    requires forall k :: 0 <= k < |found| ==> found[k] in reqs
    requires forall i, j :: 0 <= i < j < |found| ==> found[i] != found[j]
    ensures forall k :: 0 <= k < |found| ==> WithStatuses(reqs, found, sts)[found[k]] == reqs[found[k]].(status := sts[k])
    decreases |found|
  {
    if found != [] {
      var n := |found| - 1;
      WithStatusesAt(reqs, found[..n], sts[..n]);
      forall k | 0 <= k < n
        ensures WithStatuses(reqs, found, sts)[found[k]] == reqs[found[k]].(status := sts[k])
      {
        assert found[..n][k] == found[k] && sts[..n][k] == sts[k];
        assert found[k] != found[n];
      }
      assert found[n] !in found[..n];
    }
  }

  /** One more step of the walk: the statuses for the first i + 1 rows are
      those for the first i, then one more row. */
  lemma WithStatusesStep(reqs: map<RequestId, Request>, found: seq<RequestId>, done: seq<Status>, st: Status, i: nat)
    requires i < |found| && |done| == i
    requires forall k :: 0 <= k < |found| ==> found[k] in reqs
    requires forall i, j :: 0 <= i < j < |found| ==> found[i] != found[j]
    ensures found[i] !in found[..i]
    ensures WithStatuses(reqs, found[..i + 1], done + [st])
         == WithStatuses(reqs, found[..i], done)[found[i] := reqs[found[i]].(status := st)]
  {
    assert found[..i + 1][..i] == found[..i] && (done + [st])[..i] == done;
  }

  /** The REJECTED branch of the forEach over statuses sts: a non-PENDING
      request aborts the whole call (None); otherwise every request is cancelled. */
  function RejectStatuses(sts: seq<Status>): (r: Option<seq<Status>>)
    ensures r.None? <==> exists k :: 0 <= k < |sts| && sts[k] != Status.Pending
    ensures r.Some? ==> |r.value| == |sts| && forall k :: 0 <= k < |sts| ==> r.value[k] == Status.Canceled
    decreases |sts|
  {
    if sts == [] then Some([])
    else
      var n := |sts| - 1;
      match RejectStatuses(sts[..n])
      case None => None
      case Some(done) => if sts[n] != Status.Pending then None else Some(done + [Status.Canceled])
  }

  /** One more step of the REJECTED walk. */
  lemma RejectStep(sts: seq<Status>, i: nat, done: seq<Status>)
    requires i < |sts|
    requires RejectStatuses(sts[..i]) == Some(done)
    ensures RejectStatuses(sts[..i + 1]) == if sts[i] != Status.Pending then None else Some(done + [Status.Canceled])
  {
    assert sts[..i + 1][..i] == sts[..i];
  }

  /** The committed outcome of a bulk update: the request table and the event's counter. */
  datatype Updated = Updated(requests: map<RequestId, Request>, confirmed: int)

  /** A request table that differs from `before` at most in statuses. */
  ghost predicate OnlyStatusesChange(before: map<RequestId, Request>, after: map<RequestId, Request>) {
    && after.Keys == before.Keys
    && forall id :: id in before ==> after[id] == before[id].(status := after[id].status)
  }

  /** No status in sts is CONFIRMED, so none counts. */
  lemma {:induction false} NoConfirmations(sts: seq<Status>)
    requires forall k :: 0 <= k < |sts| ==> sts[k] != Status.Confirmed
    ensures Confirmations(sts) == 0
    decreases |sts|
  {
    if sts != [] {
      NoConfirmations(sts[..|sts| - 1]);
    }
  }

  /** Reading back the statuses just written gives them. */
  lemma StatusesOfWithStatuses(reqs: map<RequestId, Request>, found: seq<RequestId>, sts: seq<Status>)
    requires |found| == |sts|
    requires forall k :: 0 <= k < |found| ==> found[k] in reqs
    requires forall i, j :: 0 <= i < j < |found| ==> found[i] != found[j]
    ensures Statuses(WithStatuses(reqs, found, sts), found) == sts
  {
    var m := WithStatuses(reqs, found, sts);
    WithStatusesAt(reqs, found, sts);
    assert forall k :: 0 <= k < |found| ==> Statuses(m, found)[k] == m[found[k]].status == sts[k];
  }

  /** The switch on the decision, run when moderation is on and the limit is
      not 0, over the found rows with the event's counter `count`; None is the
      ConflictDataException a non-PENDING row throws. */
  function Moderated(reqs: map<RequestId, Request>, found: seq<RequestId>, count: int, limit: int,
                     decision: Decision): (r: Option<Updated>)
    requires forall k :: 0 <= k < |found| ==> found[k] in reqs
    requires forall i, j :: 0 <= i < j < |found| ==> found[i] != found[j]
    ensures r.None? <==> exists id :: id in found && reqs[id].status != Status.Pending
    ensures r.Some? ==> r.value.requests.Keys == reqs.Keys
  {
    var sts := Statuses(reqs, found);
    StatusesPending(reqs, found);
    match decision
    case Confirm =>
      ConfirmAborts(sts, count, limit);
      (match ConfirmStatuses(sts, count, limit)
       case None => None
       case Some((done, c)) => Some(Updated(WithStatuses(reqs, found, done), c)))
    case Reject =>
      (match RejectStatuses(sts)
       case None => None
       case Some(done) => Some(Updated(WithStatuses(reqs, found, done), count)))
  }

  /** Some found request belongs to another event. */
  predicate Foreign(reqs: map<RequestId, Request>, found: seq<RequestId>, eventId: EventId)
    requires forall k :: 0 <= k < |found| ==> found[k] in reqs
  {
    exists id :: id in found && reqs[id].event.id != eventId
  }

  /** updateRequestsStatus on the loaded event row e and request table reqs. */
  function RequestsStatusUpdate(e: EventData, userId: UserId, users: set<UserId>, reqs: map<RequestId, Request>,
                                ids: seq<RequestId>, decision: Decision): (r: Result<Updated>)
    ensures userId !in users ==> r == Failure(NotFound)
    ensures userId in users && userId != e.initiator ==> r == Failure(Validation)
    ensures userId in users && userId == e.initiator && e.confirmedRequests == e.participantLimit ==> r == Failure(ConflictData)
    ensures (userId in users && userId == e.initiator && e.confirmedRequests != e.participantLimit
             && (exists id :: id in ids && id in reqs && reqs[id].event.id != e.id)) ==> r == Failure(Validation)
    ensures (userId in users && userId == e.initiator && e.confirmedRequests != e.participantLimit
             && (forall id :: id in ids && id in reqs ==> reqs[id].event.id == e.id)
             && !(e.requestModeration && e.participantLimit != 0)) ==> r == Success(Updated(reqs, e.confirmedRequests))
    ensures (userId in users && userId == e.initiator && e.confirmedRequests != e.participantLimit
             && (forall id :: id in ids && id in reqs ==> reqs[id].event.id == e.id)
             && e.requestModeration && e.participantLimit != 0
             && (exists id :: id in ids && id in reqs && reqs[id].status != Status.Pending)) ==> r == Failure(ConflictData)
    ensures r.Success? <==>
      && userId in users && userId == e.initiator && e.confirmedRequests != e.participantLimit
      && (forall id :: id in ids && id in reqs ==> reqs[id].event.id == e.id)
      && (e.requestModeration && e.participantLimit != 0 ==>
            forall id :: id in ids && id in reqs ==> reqs[id].status == Status.Pending)
    ensures r.Failure? ==> r.error in {NotFound, Validation, ConflictData}
    ensures r.Success? ==> forall id :: id in ids && id in reqs ==> reqs[id].event.id == e.id
    ensures r.Success? && !(e.requestModeration && e.participantLimit != 0) ==> r.value == Updated(reqs, e.confirmedRequests)
  {
    if userId !in users then Failure(NotFound)
    else if userId != e.initiator then Failure(Validation)
    else if e.confirmedRequests == e.participantLimit then Failure(ConflictData)
    else
      var found := FindAllById(ids, reqs);
      if Foreign(reqs, found, e.id) then Failure(Validation)
      else if !(e.requestModeration && e.participantLimit != 0) then Success(Updated(reqs, e.confirmedRequests))
      else
        match Moderated(reqs, found, e.confirmedRequests, e.participantLimit, decision)
        case None => Failure(ConflictData)
        case Some(u) => Success(u)
  }

  /** What a successful call established on its way: the guards passed, every
      found request belongs to the event, and under moderation with a limit the
      outcome is that of the switch on the decision. */
  lemma BulkOpen(e: EventData, userId: UserId, users: set<UserId>, reqs: map<RequestId, Request>,
                 ids: seq<RequestId>, decision: Decision)
    requires RequestsStatusUpdate(e, userId, users, reqs, ids, decision).Success?
    ensures userId in users && userId == e.initiator && e.confirmedRequests != e.participantLimit
    ensures var found := FindAllById(ids, reqs);
            forall k :: 0 <= k < |found| ==> reqs[found[k]].event.id == e.id
    ensures e.requestModeration && e.participantLimit != 0 ==>
              Moderated(reqs, FindAllById(ids, reqs), e.confirmedRequests, e.participantLimit, decision)
              == Some(RequestsStatusUpdate(e, userId, users, reqs, ids, decision).value)
  {
  }

  /** Writing statuses changes nothing but statuses. */
  lemma WithStatusesOnlyStatuses(reqs: map<RequestId, Request>, found: seq<RequestId>, sts: seq<Status>)
    requires |found| == |sts|
    requires forall k :: 0 <= k < |found| ==> found[k] in reqs
    requires forall i, j :: 0 <= i < j < |found| ==> found[i] != found[j]
    ensures OnlyStatusesChange(reqs, WithStatuses(reqs, found, sts))
  {
    var m := WithStatuses(reqs, found, sts);
    WithStatusesAt(reqs, found, sts);
    forall id | id in reqs
      ensures m[id] == reqs[id].(status := m[id].status)
    {
      if id in found {
        var k :| 0 <= k < |found| && found[k] == id;
      }
    }
  }

  /** A switch that did not throw found every listed row PENDING, rewrote only
      their statuses, and moved the counter by the CONFIRMED ones among them. */
  lemma ModeratedWrites(reqs: map<RequestId, Request>, found: seq<RequestId>, count: int, limit: int, decision: Decision)
    requires forall k :: 0 <= k < |found| ==> found[k] in reqs
    requires forall i, j :: 0 <= i < j < |found| ==> found[i] != found[j]
    requires Moderated(reqs, found, count, limit, decision).Some?
    ensures var u := Moderated(reqs, found, count, limit, decision).value;
            && u.requests == WithStatuses(reqs, found, Statuses(u.requests, found))
            && Confirmations(Statuses(reqs, found)) == 0
            && u.confirmed == count + Confirmations(Statuses(u.requests, found))
  {
    var sts := Statuses(reqs, found);
    match decision
    case Confirm =>
      ConfirmAborts(sts, count, limit);
      ConfirmStatusesWalk(sts, count, limit);
      var done := ConfirmStatuses(sts, count, limit).value.0;
      NoConfirmations(sts);
      StatusesOfWithStatuses(reqs, found, done);
    case Reject =>
      var done := RejectStatuses(sts).value;
      NoConfirmations(sts);
      NoConfirmations(done);
      StatusesOfWithStatuses(reqs, found, done);
  }

  /** A successful bulk update changes only statuses, and only of listed requests. */
  lemma BulkChangesOnlyListedStatuses(e: EventData, userId: UserId, users: set<UserId>, reqs: map<RequestId, Request>,
                                      ids: seq<RequestId>, decision: Decision)
    requires RequestsStatusUpdate(e, userId, users, reqs, ids, decision).Success?
    ensures OnlyStatusesChange(reqs, RequestsStatusUpdate(e, userId, users, reqs, ids, decision).value.requests)
    ensures forall id :: id in reqs && id !in ids ==>
      RequestsStatusUpdate(e, userId, users, reqs, ids, decision).value.requests[id] == reqs[id]
  {
    BulkOpen(e, userId, users, reqs, ids, decision);
    if e.requestModeration && e.participantLimit != 0 {
      var found := FindAllById(ids, reqs);
      var r := RequestsStatusUpdate(e, userId, users, reqs, ids, decision).value;
      ModeratedWrites(reqs, found, e.confirmedRequests, e.participantLimit, decision);
      WithStatusesOnlyStatuses(reqs, found, Statuses(r.requests, found));
    }
  }

  /** The counter moves by exactly the change in the number of CONFIRMED
      requests among those listed. */
  lemma BulkCounterTracksConfirmations(e: EventData, userId: UserId, users: set<UserId>, reqs: map<RequestId, Request>,
                                       ids: seq<RequestId>, decision: Decision)
    requires RequestsStatusUpdate(e, userId, users, reqs, ids, decision).Success?
    ensures var r := RequestsStatusUpdate(e, userId, users, reqs, ids, decision).value;
            var found := FindAllById(ids, reqs);
            r.confirmed - e.confirmedRequests
              == Confirmations(Statuses(r.requests, found)) - Confirmations(Statuses(reqs, found))
  {
    BulkOpen(e, userId, users, reqs, ids, decision);
    if e.requestModeration && e.participantLimit != 0 {
      ModeratedWrites(reqs, FindAllById(ids, reqs), e.confirmedRequests, e.participantLimit, decision);
    }
  }

  /** Some found request is not PENDING exactly when some status in the list is not. */
  lemma StatusesPending(reqs: map<RequestId, Request>, found: seq<RequestId>)
    requires forall k :: 0 <= k < |found| ==> found[k] in reqs
    ensures (exists k :: 0 <= k < |found| && Statuses(reqs, found)[k] != Status.Pending)
        <==> (exists id :: id in found && reqs[id].status != Status.Pending)
  {
    var sts := Statuses(reqs, found);
    if exists id :: id in found && reqs[id].status != Status.Pending {
      var id :| id in found && reqs[id].status != Status.Pending;
      var k :| 0 <= k < |found| && found[k] == id;
      assert sts[k] != Status.Pending;
    }
  }

  /** CONFIRMED under moderation with a limit: the call succeeds exactly when
      every listed request is PENDING and belongs to the event; then the listed
      requests are confirmed in list order while the counter is below the
      limit and the rest are cancelled, so the counter ends at the limit or
      below it. */
  lemma BulkConfirm(e: EventData, userId: UserId, users: set<UserId>, reqs: map<RequestId, Request>, ids: seq<RequestId>)
    requires userId in users && userId == e.initiator
    requires e.requestModeration && e.participantLimit != 0
    requires e.confirmedRequests < e.participantLimit
    ensures var r := RequestsStatusUpdate(e, userId, users, reqs, ids, Confirm);
            r.Success? <==> forall id :: id in ids && id in reqs ==> reqs[id].event.id == e.id && reqs[id].status == Status.Pending
    ensures var r := RequestsStatusUpdate(e, userId, users, reqs, ids, Confirm);
            var found := FindAllById(ids, reqs);
            var room := e.participantLimit - e.confirmedRequests;
            r.Success? ==>
              && r.value.confirmed == e.confirmedRequests + Min(|found|, room)
              && r.value.confirmed <= e.participantLimit
              && forall k :: 0 <= k < |found| ==>
                   r.value.requests[found[k]].status == if k < room then Status.Confirmed else Status.Canceled
  {
    var found := FindAllById(ids, reqs);
    var sts := Statuses(reqs, found);
    StatusesPending(reqs, found);
    ConfirmAborts(sts, e.confirmedRequests, e.participantLimit);
    if RequestsStatusUpdate(e, userId, users, reqs, ids, Confirm).Success? {
      BulkOpen(e, userId, users, reqs, ids, Confirm);
      ConfirmStatusesWalk(sts, e.confirmedRequests, e.participantLimit);
      var done := ConfirmStatuses(sts, e.confirmedRequests, e.participantLimit).value.0;
      WithStatusesAt(reqs, found, done);
    }
  }

  /** CONFIRMED when an edit has already lowered the limit below the counter:
      the call succeeds exactly when every listed request is PENDING and
      belongs to the event; the counter never equals the limit again, so every
      listed request is confirmed and the counter moves further past the limit. */
  lemma BulkConfirmPastLimit(e: EventData, userId: UserId, users: set<UserId>, reqs: map<RequestId, Request>,
                             ids: seq<RequestId>)
    requires userId in users && userId == e.initiator
    requires e.requestModeration && 0 < e.participantLimit < e.confirmedRequests
    ensures var r := RequestsStatusUpdate(e, userId, users, reqs, ids, Confirm);
            r.Success? <==> forall id :: id in ids && id in reqs ==> reqs[id].event.id == e.id && reqs[id].status == Status.Pending
    ensures var r := RequestsStatusUpdate(e, userId, users, reqs, ids, Confirm);
            var found := FindAllById(ids, reqs);
            r.Success? ==>
              && r.value.confirmed == e.confirmedRequests + |found|
              && forall k :: 0 <= k < |found| ==> r.value.requests[found[k]].status == Status.Confirmed
  {
    if RequestsStatusUpdate(e, userId, users, reqs, ids, Confirm).Success? {
      var found := FindAllById(ids, reqs);
      var sts := Statuses(reqs, found);
      BulkOpen(e, userId, users, reqs, ids, Confirm);
      ConfirmStatusesWalk(sts, e.confirmedRequests, e.participantLimit);
      WithStatusesAt(reqs, found, ConfirmStatuses(sts, e.confirmedRequests, e.participantLimit).value.0);
    }
  }

  /** REJECTED under moderation with a limit: the call succeeds exactly when
      every listed request is PENDING and belongs to the event; then every
      listed request is CANCELED and the counter is unchanged. */
  lemma BulkReject(e: EventData, userId: UserId, users: set<UserId>, reqs: map<RequestId, Request>, ids: seq<RequestId>)
    requires userId in users && userId == e.initiator && e.confirmedRequests != e.participantLimit
    requires e.requestModeration && e.participantLimit != 0
    ensures var r := RequestsStatusUpdate(e, userId, users, reqs, ids, Reject);
            r.Success? <==> forall id :: id in ids && id in reqs ==> reqs[id].event.id == e.id && reqs[id].status == Status.Pending
    ensures var r := RequestsStatusUpdate(e, userId, users, reqs, ids, Reject);
            r.Success? ==>
              && r.value.confirmed == e.confirmedRequests
              && forall id :: id in ids && id in reqs ==> r.value.requests[id].status == Status.Canceled
  {
    var found := FindAllById(ids, reqs);
    StatusesPending(reqs, found);
    var r := RequestsStatusUpdate(e, userId, users, reqs, ids, Reject);
    if r.Success? {
      BulkOpen(e, userId, users, reqs, ids, Reject);
      var done := RejectStatuses(Statuses(reqs, found)).value;
      WithStatusesAt(reqs, found, done);
      forall id | id in ids && id in reqs
        ensures r.value.requests[id].status == Status.Canceled
      {
        var k :| 0 <= k < |found| && found[k] == id;
      }
    }
  }

  /** The bulk update keeps the counter invariant. */
  lemma BulkKeepsWithinLimit(e: EventData, userId: UserId, users: set<UserId>, reqs: map<RequestId, Request>,
                             ids: seq<RequestId>, decision: Decision)
    requires WithinLimit(e)
    requires RequestsStatusUpdate(e, userId, users, reqs, ids, decision).Success?
    ensures WithinLimit(e.(confirmedRequests := RequestsStatusUpdate(e, userId, users, reqs, ids, decision).value.confirmed))
  {
    BulkOpen(e, userId, users, reqs, ids, decision);
    if e.requestModeration && e.participantLimit != 0 && decision == Confirm {
      ConfirmStatusesWalk(Statuses(reqs, FindAllById(ids, reqs)), e.confirmedRequests, e.participantLimit);
    }
  }

  /** The found requests in list order: the list the call returns. */
  function Listed(reqs: map<RequestId, Request>, found: seq<RequestId>): seq<Request>
    requires forall k :: 0 <= k < |found| ==> found[k] in reqs
  {
    seq(|found|, k requires 0 <= k < |found| => reqs[found[k]])
  }

  /** The CONFIRMED forEach over the managed copies: m0 is the request table,
      found the rows to walk, count the event's counter. None is the
      ConflictDataException a non-PENDING row throws. */
  method ConfirmEach(m0: map<RequestId, Request>, found: seq<RequestId>, c0: int, limit: int) returns (res: Option<Updated>)
    requires forall k :: 0 <= k < |found| ==> found[k] in m0
    requires forall i, j :: 0 <= i < j < |found| ==> found[i] != found[j]
    ensures res == Moderated(m0, found, c0, limit, Confirm)
  {
    ghost var sts := Statuses(m0, found);
    ghost var done: seq<Status> := [];
    var m, count := m0, c0;
    var i := 0;
    while i < |found|
      invariant 0 <= i <= |found|
      invariant |done| == i
      invariant ConfirmStatuses(sts[..i], c0, limit) == Some((done, count))
      invariant m == WithStatuses(m0, found[..i], done)
    {
      var id := found[i];
      ConfirmStep(sts, c0, limit, i, done, count);
      if m[id].status != Status.Pending {
        assert sts[i] != Status.Pending;
        ConfirmAborts(sts, c0, limit);
        return None;
      }
      if count == limit {
        WithStatusesStep(m0, found, done, Status.Canceled, i);
        m := m[id := m[id].(status := Status.Canceled)];
        done := done + [Status.Canceled];
      } else {
        WithStatusesStep(m0, found, done, Status.Confirmed, i);
        m := m[id := m[id].(status := Status.Confirmed)];
        done := done + [Status.Confirmed];
        count := count + 1;
      }
      i := i + 1;
    }
    assert sts[..i] == sts && found[..i] == found;
    res := Some(Updated(m, count));
  }

  /** The REJECTED forEach over the managed copies; None is the
      ConflictDataException a non-PENDING row throws. */
  method RejectEach(m0: map<RequestId, Request>, found: seq<RequestId>, c0: int, limit: int) returns (res: Option<Updated>)
    requires forall k :: 0 <= k < |found| ==> found[k] in m0
    requires forall i, j :: 0 <= i < j < |found| ==> found[i] != found[j]
    ensures res == Moderated(m0, found, c0, limit, Reject)
  {
    ghost var sts := Statuses(m0, found);
    ghost var done: seq<Status> := [];
    var m := m0;
    var i := 0;
    while i < |found|
      invariant 0 <= i <= |found|
      invariant RejectStatuses(sts[..i]) == Some(done)
      invariant m == WithStatuses(m0, found[..i], done)
    {
      var id := found[i];
      RejectStep(sts, i, done);
      WithStatusesStep(m0, found, done, Status.Canceled, i);
      if m[id].status != Status.Pending {
        return None;
      }
      m := m[id := m[id].(status := Status.Canceled)];
      done := done + [Status.Canceled];
      i := i + 1;
    }
    assert sts[..i] == sts && found[..i] == found;
    res := Some(Updated(m, c0));
  }

  /** The switch on the decision over the managed copies. */
  method ModerateEach(m0: map<RequestId, Request>, found: seq<RequestId>, c0: int, limit: int, decision: Decision)
    returns (res: Option<Updated>)
    requires forall k :: 0 <= k < |found| ==> found[k] in m0
    requires forall i, j :: 0 <= i < j < |found| ==> found[i] != found[j]
    ensures res == Moderated(m0, found, c0, limit, decision)
  {
    match decision {
      case Confirm =>
        res := ConfirmEach(m0, found, c0, limit);
      case Reject =>
        res := RejectEach(m0, found, c0, limit);
    }
  }

  /** updateRequestsStatus, with the user table as a parameter and a null event
      as a missing row. The forEach runs on managed copies of the rows and of
      the counter; they are written back when the transaction commits, and a
      thrown error discards them. */
  method UpdateRequestsStatus(repo: RequestRepository, users: set<UserId>, userId: UserId, event: Event?,
                              ids: seq<RequestId>, decision: Decision) returns (r: Result<seq<Request>>)
    requires repo.Valid()
    modifies repo, event
    ensures repo.Valid()
    ensures event == null ==> r == Failure(NotFound) && unchanged(repo)
    ensures event != null ==>
      var s := RequestsStatusUpdate(old(event.Data()), userId, users, old(repo.requests), ids, decision);
      && (r.Success? <==> s.Success?)
      && (r.Failure? ==> r.error == s.error)
      && (r.Success? ==> r.value == Listed(s.value.requests, FindAllById(ids, old(repo.requests))))
      && repo.requests == (if s.Success? then s.value.requests else old(repo.requests))
      && event.Data() == old(event.Data()).(confirmedRequests := if s.Success? then s.value.confirmed else old(event.confirmedRequests))
    ensures repo.nextId == old(repo.nextId)
  {
    if userId !in users { return Failure(NotFound); }
    if event == null { return Failure(NotFound); }
    var e := event.Data();
    if userId != e.initiator { return Failure(Validation); }
    if e.confirmedRequests == e.participantLimit { return Failure(ConflictData); }
    var m0 := repo.requests;
    var found := FindAllById(ids, m0);
    if Foreign(m0, found, e.id) { return Failure(Validation); }
    if !(e.requestModeration && e.participantLimit != 0) {
      return Success(Listed(m0, found));
    }
    var res := ModerateEach(m0, found, e.confirmedRequests, e.participantLimit, decision);
    if res.None? { return Failure(ConflictData); }
    var m, count := res.value.requests, res.value.confirmed;
    repo.requests := m;
    event.Flush(e.(confirmedRequests := count));
    r := Success(Listed(m, found));
  }
}
