/** Participation requests and their repository. */
module RequestModel {
  import opened Common
  import opened EventModel

  /** Status of a participation request. */
  datatype Status = Pending | Confirmed | Canceled

  /** One request row: who asked, for which event (the entity it references), and where it stands. */
  datatype Request = Request(requester: UserId, event: Event, status: Status)

  /** The request table: rows by identifier, and the next identifier the database will assign. */
  class RequestRepository {
    var requests: map<RequestId, Request>
    var nextId: RequestId

    ghost predicate Valid()
      reads this
    {
      forall id :: id in requests ==> id < nextId
    }
  }
}
