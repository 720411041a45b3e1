# Event lifecycle and participant-limit bookkeeping

A Dafny model of the core of the Explore With Me main service. It covers:

- the lifecycle of an event (PENDING, PUBLISHED, CANCELED) under the owner's
  and the administrator's edits, with their date rules;
- the creation defaults;
- the participation requests (PENDING, CONFIRMED, CANCELED);
- the denormalised `confirmedRequests` counter on the event, which joining,
  withdrawing and the owner's bulk confirm/reject keep in step.

Modules:

- `Common`: `Option`, `Result`, the error kinds (one per exception class),
  identifiers, time in nanoseconds, and Java's `isBlank`.
- `EventModel`: `State`, `StateAction`, the row value `EventData`, the
  counter invariant `WithinLimit`, and the class `Event`, whose fields the
  services change.
- `RequestModel`: `Status`, the `Request` row, which refers to its `Event`
  object, and the class `RequestRepository`. It holds the request table as a
  map and the next identifier the database will assign.
- `EventService`: `checkFields`, `checkDateEvent`, `checkStateAction`,
  `updateEventOfUser`, `updateEventAdmin` and `updateRequestsStatus`.
- `RequestService`: `addRequest` and `cancelRequest`.
- `Counter`: the number of CONFIRMED requests of an event, counted in the
  table. Every request operation keeps the counter equal to it, and the edits
  leave it alone.

### How the model is built

Each state-changing operation is an imperative method. It works on the
`Event` object and the `RequestRepository`. Its postcondition equates the
outcome with a pure function of the old state:

| method | function |
|---|---|
| `UpdateEventOfUser` | `OwnerEdit` |
| `UpdateEventAdmin` | `AdminEdit` |
| `UpdateRequestsStatus` | `RequestsStatusUpdate` |
| `AddRequest` | `AddRequestSpec` |
| `CancelRequest` | `CancelSpec` |

The lemmas prove what the service promises about those functions.

Every operation runs in one `@Transactional` method, so a thrown exception
rolls back every change. The methods model this in two ways:

- The edits change a managed copy of the row (`Event.Data()`). They write it
  back with `Event.Flush` only when no guard failed.
- `updateRequestsStatus` walks the requests over copies of the table and the
  counter (`ConfirmEach`, `RejectEach`). It commits them only if no request
  threw.

An exception is therefore an error result with nothing changed. Repository
lookups are parameters: the users and categories are sets, and a missing event
is a null `Event?`. The clock is a `now` parameter.

### Behaviour worth knowing

- The owner's SEND_TO_REVIEW sets the state to PUBLISHED
  (EventServiceImpl.java:169-175), while the administrator's SEND_TO_REVIEW
  sets PENDING (EventServiceImpl.java:391-393). The model does the same.
  `OwnerSendToReviewPublishes` states what the owner's path leads to:
  - the owner publishes without an administrator;
  - `publishedOn` keeps its old value (unset for an event never published);
  - every later owner edit is refused.
- `publishedOn` can be stamped more than once. An administrator's
  SEND_TO_REVIEW moves a PUBLISHED event back to PENDING, and a second
  PUBLISH_EVENT stamps a new instant (`RepublishAfterReview`).
- `confirmedRequests <= participantLimit` is not a global invariant. Both
  edits can lower the limit below the counter (`EditsCanBreakLimit`). The
  model therefore proves the bound as preserved by the request operations
  only (`AddKeepsWithinLimit`, `CancelKeepsWithinLimit`,
  `BulkKeepsWithinLimit`). Once an edit has lowered a non-zero limit below
  the counter, a successful bulk confirm cancels nothing
  (`BulkConfirmPastLimit`).
- Both edits check the new date between two setters, and the owner edit
  looks up a new category after the annotation setter, throwing NotFound
  when it is missing (EventServiceImpl.java:138-141). The model makes these
  checks before the first setter. Any thrown error discards all the setters,
  so the two orders have the same outcome.

## Model

| member | source | states |
|---|---|---|
| EventService.OwnerDateOk | main-service/src/main/java/ru/practicum/ewm/event/service/EventServiceImpl.java:146-150 | the owner's date rule accepts a date exactly when it is at least two hours after now |
| EventService.AdminDateOk | main-service/src/main/java/ru/practicum/ewm/event/service/EventServiceImpl.java:490-496 | checkDateEvent accepts a date exactly when it is at least one hour after now |
| EventService.CheckFields | main-service/src/main/java/ru/practicum/ewm/event/service/EventServiceImpl.java:474-488 | succeeds exactly when the date is not before now + 2 h; otherwise a validation error; paid, moderation and limit default to false, true and 0 when absent and are kept when given; no other field changes |
| EventService.CheckFieldsIdempotent | main-service/src/main/java/ru/practicum/ewm/event/service/EventServiceImpl.java:479-487 | filling in the defaults a second time changes nothing |
| EventService.DateChecks | main-service/src/main/java/ru/practicum/ewm/event/service/EventServiceImpl.java:490-496 | the owner rule (not before now + 2 h) and the administrator rule (now + 1 h not after the date) both accept their boundary; every date the owner may set the administrator may set, and not the other way round |
| EventService.OwnerEdit | main-service/src/main/java/ru/practicum/ewm/event/service/EventServiceImpl.java:122-175 | unknown user: NotFound; not the initiator: Validation; PUBLISHED event: ConflictData; then an unknown category: NotFound; then a date less than 2 h ahead: Validation. Success exactly when all of those pass. On success, a null field or a null/blank text keeps the old value and any other value replaces it; id, initiator, creation time, counter and publishedOn stay; SEND_TO_REVIEW gives PUBLISHED, CANCEL_REVIEW gives CANCELED, otherwise the state stays |
| EventService.UpdateEventOfUser | main-service/src/main/java/ru/practicum/ewm/event/service/EventServiceImpl.java:120-178 | a missing event is NotFound; otherwise the result is OwnerEdit of the row as loaded; the row becomes the result on success and is left exactly as it was on any error |
| EventService.OwnerSendToReviewPublishes | main-service/src/main/java/ru/practicum/ewm/event/service/EventServiceImpl.java:169-175 | an owner SEND_TO_REVIEW that succeeds yields PUBLISHED with publishedOn unchanged, after which every owner edit fails with ConflictData |
| EventService.StateActionAllowed | main-service/src/main/java/ru/practicum/ewm/event/service/EventServiceImpl.java:498-511 | checkStateAction per state: on PENDING every action passes; on PUBLISHED exactly the actions other than PUBLISH_EVENT and REJECT_EVENT pass; on CANCELED exactly the actions other than PUBLISH_EVENT pass |
| EventService.AdminEdit | main-service/src/main/java/ru/practicum/ewm/event/service/EventServiceImpl.java:352-400 | PUBLISH_EVENT from a state other than PENDING, or REJECT_EVENT on a PUBLISHED event: OperationFailed; an allowed action with a date less than 1 h ahead: InvalidDateTime; success exactly otherwise, with the same partial update as the owner; REJECT_EVENT and CANCEL_REVIEW give CANCELED, SEND_TO_REVIEW gives PENDING, PUBLISH_EVENT gives PUBLISHED and publishedOn = now |
| EventService.UpdateEventAdmin | main-service/src/main/java/ru/practicum/ewm/event/service/EventServiceImpl.java:350-401 | a missing event is NotFoundRecordInDb; otherwise the result is AdminEdit of the row as loaded; the row becomes the result on success and is unchanged on error |
| EventService.PublishOnlyOnce | main-service/src/main/java/ru/practicum/ewm/event/service/EventServiceImpl.java:498-505 | a successful PUBLISH_EVENT started from PENDING, yields PUBLISHED with publishedOn = now, and a second PUBLISH_EVENT on the result fails |
| EventService.RejectAndReview | main-service/src/main/java/ru/practicum/ewm/event/service/EventServiceImpl.java:385-393 | with no new date, REJECT_EVENT fails exactly on a PUBLISHED event and otherwise gives CANCELED, and SEND_TO_REVIEW always succeeds and gives PENDING |
| EventService.RepublishAfterReview | main-service/src/main/java/ru/practicum/ewm/event/service/EventServiceImpl.java:391-397 | a PUBLISHED event sent back to review can be published again, and publishedOn takes the new instant |
| EventService.EditsCanBreakLimit | main-service/src/main/java/ru/practicum/ewm/event/service/EventServiceImpl.java:160-162 | both edits accept a participantLimit below the counter, so the counter invariant can be broken by an edit |
| EventService.FindAllById | main-service/src/main/java/ru/practicum/ewm/event/service/EventServiceImpl.java:445 | an identifier is found exactly when it is listed and stored; no request is found twice |
| EventService.ConfirmAborts | main-service/src/main/java/ru/practicum/ewm/event/service/EventServiceImpl.java:451-454 | the CONFIRMED walk throws exactly when some listed request is not PENDING |
| EventService.ConfirmStatusesWalk | main-service/src/main/java/ru/practicum/ewm/event/service/EventServiceImpl.java:451-461 | a CONFIRMED walk that does not throw, from a counter at or below the limit, confirms the first limit − counter requests in list order and cancels the rest; the counter ends at counter + min(listed, room) and equals the old counter plus the confirmations |
| EventService.ConfirmStatuses | main-service/src/main/java/ru/practicum/ewm/event/service/EventServiceImpl.java:451-461 | the CONFIRMED walk, when it does not throw, gives one new status per found request (its outcome is stated by ConfirmAborts and ConfirmStatusesWalk) |
| EventService.RejectStatuses | main-service/src/main/java/ru/practicum/ewm/event/service/EventServiceImpl.java:463-468 | the REJECTED walk throws exactly when some listed request is not PENDING; otherwise every listed request becomes CANCELED |
| EventService.WithStatuses | main-service/src/main/java/ru/practicum/ewm/event/service/EventServiceImpl.java:451-468 | writing the walk's statuses keeps the table's keys and every request that was not found |
| EventService.WithStatusesAt | main-service/src/main/java/ru/practicum/ewm/event/service/EventServiceImpl.java:451-468 | each found request carries the status written for its position, with its other fields kept |
| EventService.Moderated | main-service/src/main/java/ru/practicum/ewm/event/service/EventServiceImpl.java:449-470 | the decision switch fails exactly when some found request is not PENDING, for either decision; on success the table keeps its keys |
| EventService.RequestsStatusUpdate | main-service/src/main/java/ru/practicum/ewm/event/service/EventServiceImpl.java:433-471 | unknown user: NotFound; not the initiator: Validation; counter equal to the limit (0 = 0 included): ConflictData; then a listed stored request of another event: Validation; then, without moderation or with limit 0, success with nothing changed; with moderation and a non-zero limit, a listed request that is not PENDING: ConflictData; no other error kinds; success exactly when the user is the initiator, the counter differs from the limit, every listed stored request belongs to the event and, under moderation with a non-zero limit, every one is PENDING; on success every listed request belongs to the event |
| EventService.BulkChangesOnlyListedStatuses | main-service/src/main/java/ru/practicum/ewm/event/service/EventServiceImpl.java:449-471 | a successful bulk update changes nothing but statuses, and nothing of an unlisted request |
| EventService.BulkCounterTracksConfirmations | main-service/src/main/java/ru/practicum/ewm/event/service/EventServiceImpl.java:455-461 | the counter moves by exactly the change in the number of CONFIRMED listed requests |
| EventService.BulkConfirm | main-service/src/main/java/ru/practicum/ewm/event/service/EventServiceImpl.java:449-462 | with moderation and a counter below a non-zero limit, CONFIRMED succeeds exactly when every listed request is PENDING and belongs to the event; then the first (limit − counter) found requests are CONFIRMED and the rest CANCELED, and the counter ends at counter + min(found, room), never above the limit |
| EventService.BulkConfirmPastLimit | main-service/src/main/java/ru/practicum/ewm/event/service/EventServiceImpl.java:455-461 | when the counter is already above a non-zero limit, CONFIRMED succeeds exactly when every listed request is PENDING and belongs to the event; it then confirms every found request and raises the counter by their number |
| EventService.BulkReject | main-service/src/main/java/ru/practicum/ewm/event/service/EventServiceImpl.java:463-469 | with moderation and a non-zero limit, REJECTED succeeds exactly when every listed request is PENDING and belongs to the event; then every listed request is CANCELED and the counter is unchanged |
| EventService.BulkKeepsWithinLimit | main-service/src/main/java/ru/practicum/ewm/event/service/EventServiceImpl.java:455-461 | a successful bulk update keeps the counter at or below a non-zero limit |
| EventService.ConfirmEach | main-service/src/main/java/ru/practicum/ewm/event/service/EventServiceImpl.java:451-462 | the CONFIRMED forEach, a loop over the found requests, yields exactly the CONFIRMED outcome of the decision switch (nothing, if a request throws) |
| EventService.RejectEach | main-service/src/main/java/ru/practicum/ewm/event/service/EventServiceImpl.java:463-469 | the REJECTED forEach yields exactly the REJECTED outcome of the decision switch |
| EventService.ModerateEach | main-service/src/main/java/ru/practicum/ewm/event/service/EventServiceImpl.java:449-470 | the switch on the decision yields the outcome of the matching walk |
| EventService.UpdateRequestsStatus | main-service/src/main/java/ru/practicum/ewm/event/service/EventServiceImpl.java:429-472 | a missing event is NotFound; otherwise it succeeds exactly when RequestsStatusUpdate does, with the same error; on success it returns the found requests in list order with their new statuses and commits the table and the counter; the table stays valid (every identifier below `nextId`); on error the table and the event are unchanged |
| RequestService.HasRequest | main-service/src/main/java/ru/practicum/ewm/partrequest/service/ParticipationRequestServiceImpl.java:39 | existsByRequesterAndEvent: some stored request links the user to the event, in any status |
| RequestService.HasRequestAnyStatus | main-service/src/main/java/ru/practicum/ewm/partrequest/service/ParticipationRequestServiceImpl.java:39-41 | rewriting any row's status, to CANCELED included, does not change whether the user has a request for the event |
| RequestService.AddRequestSpec | main-service/src/main/java/ru/practicum/ewm/partrequest/service/ParticipationRequestServiceImpl.java:34-61 | unknown user: NotFound; an existing request of the user for the event, whatever its status: Duplicate; the initiator: ConflictData; an event that is not PUBLISHED: ConflictData; a non-zero limit equal to the counter: ConflictData; success exactly when all of those pass; the new request is PENDING under moderation and CONFIRMED otherwise |
| RequestService.AddRequest | main-service/src/main/java/ru/practicum/ewm/partrequest/service/ParticipationRequestServiceImpl.java:32-63 | a missing event is NotFound; otherwise it succeeds exactly when AddRequestSpec does; on success the new row gets the next identifier and the computed status, the counter rises by one exactly for a CONFIRMED row, and the table stays valid; on error nothing changes |
| RequestService.AddKeepsWithinLimit | main-service/src/main/java/ru/practicum/ewm/partrequest/service/ParticipationRequestServiceImpl.java:48-61 | joining keeps the counter at or below a non-zero limit |
| RequestService.SecondRequestIsDuplicate | main-service/src/main/java/ru/practicum/ewm/partrequest/service/ParticipationRequestServiceImpl.java:39-41 | once a user has a request for an event, in any status, another request for it fails with Duplicate |
| RequestService.CancelSpec | main-service/src/main/java/ru/practicum/ewm/partrequest/service/ParticipationRequestServiceImpl.java:67-77 | succeeds exactly when the user exists and the request exists and is theirs, otherwise NotFound; the request becomes CANCELED with its other fields kept |
| RequestService.CancelRequest | main-service/src/main/java/ru/practicum/ewm/partrequest/service/ParticipationRequestServiceImpl.java:65-79 | the result is CancelSpec of the table; on success only that row changes, and the counter of its event falls by one exactly when the request was CONFIRMED; the table stays valid (every identifier below `nextId`); on error nothing changes |
| RequestService.CancelIdempotent | main-service/src/main/java/ru/practicum/ewm/partrequest/service/ParticipationRequestServiceImpl.java:72-77 | cancelling a cancelled request again gives the same row and leaves the counter alone |
| RequestService.CancelKeepsWithinLimit | main-service/src/main/java/ru/practicum/ewm/partrequest/service/ParticipationRequestServiceImpl.java:72-76 | cancelling never raises the counter, so it keeps the counter invariant |
| Counter.AddKeepsConsistent | main-service/src/main/java/ru/practicum/ewm/partrequest/service/ParticipationRequestServiceImpl.java:53-62 | joining keeps every event's counter equal to its number of CONFIRMED requests: the joined event's counter rises by one exactly for a CONFIRMED row, and every other event's count stays |
| Counter.CancelKeepsConsistent | main-service/src/main/java/ru/practicum/ewm/partrequest/service/ParticipationRequestServiceImpl.java:72-77 | cancelling keeps every event's counter equal to its number of CONFIRMED requests: only the request's own event moves, down by one exactly for a CONFIRMED request |
| Counter.ConfirmedOfWithStatuses | main-service/src/main/java/ru/practicum/ewm/event/service/EventServiceImpl.java:451-468 | writing new statuses to requests of one event moves its number of CONFIRMED requests by the change among the rewritten ones |
| Counter.ConfirmedOfWithStatusesElsewhere | main-service/src/main/java/ru/practicum/ewm/event/service/EventServiceImpl.java:451-468 | writing new statuses to requests of other events leaves an event's number of CONFIRMED requests unchanged |
| Counter.BulkKeepsConsistent | main-service/src/main/java/ru/practicum/ewm/event/service/EventServiceImpl.java:449-471 | a successful bulk update keeps every event's counter equal to its number of CONFIRMED requests: the updated event's counter takes the new value, and every other event's count stays |
| Counter.EditsKeepConsistent | main-service/src/main/java/ru/practicum/ewm/event/service/EventServiceImpl.java:135-175 | neither edit touches the counter, so both keep it in step with the table |

## Left out

- Listing and read paths (events of a user, public search, admin search,
  requests of an event, a user's requests) are left out. They are repository
  queries plus calls to the statistics service.
- Statistics hits and views, the DTO mappers, and the recount of confirmed
  requests in the returned views are left out. They are network I/O or field
  copies.
- `UpdateEventAdmin`: after the save, the source calls the statistics client
  and the recount of confirmed requests inside the same transaction
  (EventServiceImpl.java:403-410). A failure there rolls the edit back. The
  model assumes both calls succeed.
- `addEvent` is left out beyond `checkFields`. Its category and user lookups
  and `EventMapper.mapToEvent` are not part of this model.
- The Spring Data repositories and their queries are parameters:
  - `existsById` is set membership;
  - a missing `findById` row is a null or absent entry;
  - `existsByRequesterAndEvent` is `HasRequest`;
  - `findByRequesterIdAndId` is a lookup plus a requester check;
  - `save` assigns `nextId`.
- The database decides the order of `findAllById`. The model takes the
  listed identifiers in order of first occurrence, each found request once.
- Latitude and longitude are `Float` values that are only copied. They are a
  `Location` of two reals.
- `UpdateEventAdmin`: the source reads the clock twice, once for the date
  check and once for `publishedOn`. The model reads it once as `now`.
- `UpdateEventAdmin`: the source changes the id of the event's current
  category object. The model sets the event's category id to the given
  value.
- `confirmedRequests` and `participantLimit` are Java `Integer` values. The
  model uses unbounded `int`s, so it has no overflow and no null value. The
  source compares the two boxed values with `Objects.equals` or `.equals`
  (EventServiceImpl.java:440 and 455, ParticipationRequestServiceImpl.java:50).
  The model compares them with `int` equality.
- Concurrency and row locking around the counter are left out. Each call is
  one atomic step.
- The bean-validation annotations on the request bodies are left out. The
  framework enforces them before the services run.
