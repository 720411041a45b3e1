/** The Event entity: the row the services load, change through its setters,
    and flush when the transaction commits. */
module EventModel {
  import opened Common

  /** Lifecycle state of an event. */
  datatype State = Pending | Published | Canceled

  /** The actions an owner or an administrator may attach to an edit. */
  datatype StateAction = SendToReview | CancelReview | PublishEvent | RejectEvent

  /** The geolocation; the source's Float pair is only ever copied. */
  datatype Location = Location(lat: real, lon: real)

  /** The value of every column of one event row. */
  datatype EventData = EventData(
    id: EventId,
    initiator: UserId,
    createdOn: Time,
    annotation: string,
    category: CategoryId,
    description: string,
    eventDate: Time,
    location: Location,
    paid: bool,
    participantLimit: int,
    requestModeration: bool,
    title: string,
    state: State,
    publishedOn: Option<Time>,
    confirmedRequests: int)

  /** The counter invariant: a non-zero limit bounds the confirmed requests (0 means unlimited). */
  predicate WithinLimit(e: EventData) {
    e.participantLimit != 0 ==> e.confirmedRequests <= e.participantLimit
  }

  /** A loaded, managed Event entity. Identity, initiator and creation time are never set after creation. */
  class Event {
    const id: EventId
    const initiator: UserId
    const createdOn: Time
    var annotation: string
    var category: CategoryId
    var description: string
    var eventDate: Time
    var location: Location
    var paid: bool
    var participantLimit: int
    var requestModeration: bool
    var title: string
    var state: State
    var publishedOn: Option<Time>
    var confirmedRequests: int

    /** The current values of all columns. */
    function Data(): EventData
      reads this
    {
      EventData(id, initiator, createdOn, annotation, category, description, eventDate, location,
                paid, participantLimit, requestModeration, title, state, publishedOn, confirmedRequests)
    }

    /** Commit: writes a managed copy of the row back to the entity. */
    method Flush(d: EventData)
      requires d.id == id && d.initiator == initiator && d.createdOn == createdOn
      modifies this
      ensures Data() == d
    {
      annotation, category, description, eventDate := d.annotation, d.category, d.description, d.eventDate;
      location, paid, participantLimit, requestModeration := d.location, d.paid, d.participantLimit, d.requestModeration;
      title, state, publishedOn, confirmedRequests := d.title, d.state, d.publishedOn, d.confirmedRequests;
    }
  }
}
