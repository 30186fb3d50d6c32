/**
 * The request workflow of the matching service: a founder sends a mentor a
 * mentorship request, the mentor accepts or declines it, and each step
 * notifies the other side. The three tables it writes (requests,
 * connections, notifications) are fields of `MentorshipStore`; the failures
 * the data store can report are parameters of the methods.
 */
module Requests {
  import opened Wrappers
  import opened Scoring
  import opened Matching

  datatype RequestStatus = Pending | Accepted | Declined

  /** The status as stored (and as interpolated into the notification text). */
  function StatusText(s: RequestStatus): string
  {
    match s
    case Pending => "pending"
    case Accepted => "accepted"
    case Declined => "declined"
  }

  /** A row of `mentorship_requests`; `respondedAt` is an opaque timestamp. */
  datatype MentorshipRequest = MentorshipRequest(
    founderId: string,
    mentorId: string,
    message: string,
    status: RequestStatus,
    respondedAt: Option<string>)

  /** A row of `mentorship_connections`. */
  datatype Connection = Connection(founderId: string, mentorId: string, requestId: nat, status: string)

  /** A row of `notifications`. */
  datatype Notification = Notification(userId: string, kind: string, title: string, message: string, link: string)

  datatype RequestError = InsertFailed | FetchFailed | RequestNotFound | UpdateFailed

  /** The notification a mentor receives for a new request. */
  function RequestNotification(mentorId: string): (r: Notification)
    ensures r.userId == mentorId && r.kind == "request" && r.link == "/dashboard"
  {
    Notification(mentorId, "request", "New Mentorship Request",
                 "You have received a new mentorship request", "/dashboard")
  }

  /** The notification a founder receives once the mentor has answered. */
  function ResponseNotification(founderId: string, status: RequestStatus): (r: Notification)
    ensures r.userId == founderId && r.kind == "request" && r.link == "/dashboard"
    ensures status != Pending ==> (r.title == "Mentorship Request Accepted" <==> status == Accepted)
    ensures r.message == "Your mentorship request has been " + StatusText(status)
  {
    assert ("Mentorship Request " + "Declined")[19] != "Mentorship Request Accepted"[19];
    Notification(founderId, "request",
                 "Mentorship Request " + (if status == Accepted then "Accepted" else "Declined"),
                 "Your mentorship request has been " + StatusText(status), "/dashboard")
  }

  /** The request row after the update of `respondToRequest`. */
  function Responded(q: MentorshipRequest, status: RequestStatus, now: string): MentorshipRequest
  {
    q.(status := status, respondedAt := Some(now))
  }

  /** The connection rows an answer inserts: one active connection on acceptance, none otherwise. */
  function NewConnections(q: MentorshipRequest, requestId: nat, status: RequestStatus): seq<Connection>
  {
    if status == Accepted then [Connection(q.founderId, q.mentorId, requestId, "active")] else []
  }

  /**
   * What the tables keep whatever the order of calls: every connection
   * names an existing request and its two parties, and a request has a
   * response time exactly when it is no longer pending.
   */
  ghost predicate Consistent(requests: map<nat, MentorshipRequest>, connections: seq<Connection>)
  {
    && (forall c :: c in connections ==>
          c.requestId in requests
          && requests[c.requestId].founderId == c.founderId
          && requests[c.requestId].mentorId == c.mentorId)
    && (forall id :: id in requests ==> (requests[id].status == Pending <==> requests[id].respondedAt.None?))
  }

  /** The mentors a founder has sent a request to, at any status. */
  function RequestedMentorIds(requests: map<nat, MentorshipRequest>, founderId: string): (r: set<string>)
    ensures forall x :: x in r <==>
      exists id :: id in requests && requests[id].founderId == founderId && requests[id].mentorId == x
  {
    set id | id in requests && requests[id].founderId == founderId :: requests[id].mentorId
  }

  class MentorshipStore {
    var requests: map<nat, MentorshipRequest>
    var connections: seq<Connection>
    var notifications: seq<Notification>
    /** The id the next inserted request receives. */
    var nextId: nat

    ghost predicate Valid()
      reads this
    {
      && (forall id :: id in requests ==> id < nextId)
      && Consistent(requests, connections)
    }

    constructor ()
      ensures Valid()
      ensures requests == map[] && connections == [] && notifications == [] && nextId == 0
    {
      requests := map[];
      connections := [];
      notifications := [];
      nextId := 0;
    }

    /**
     * `sendMentorshipRequest`: inserts a pending request (with no check for an
     * earlier request between the same two users), then notifies the mentor.
     * A failed insert changes nothing.
     */
    method SendMentorshipRequest(founderId: string, mentorId: string, message: string, insertFails: bool)
      returns (o: Outcome<RequestError>)
      requires Valid()
      modifies this
      ensures Valid()
      ensures insertFails ==> o == Fail(InsertFailed) && unchanged(this)
      ensures !insertFails ==>
        && o == Pass
        && old(nextId) !in old(requests)
        && requests == old(requests)[old(nextId) := MentorshipRequest(founderId, mentorId, message, Pending, None)]
        && nextId == old(nextId) + 1
        && connections == old(connections)
        && notifications == old(notifications) + [RequestNotification(mentorId)]
    {
      if insertFails {
        return Fail(InsertFailed);
      }
      SendKeepsConsistent(requests, connections, nextId, founderId, mentorId, message);
      requests := requests[nextId := MentorshipRequest(founderId, mentorId, message, Pending, None)];
      nextId := nextId + 1;
      notifications := notifications + [RequestNotification(mentorId)];
      o := Pass;
    }

    /**
     * `respondToRequest`: looks the request up, records the answer and the
     * response time whatever the request's current status, adds an active
     * connection on acceptance and notifies the founder. A failed lookup, a
     * missing request or a failed update changes nothing.
     */
    method RespondToRequest(requestId: nat, status: RequestStatus, now: string,
                            fetchFails: bool, updateFails: bool)
      returns (o: Outcome<RequestError>)
      requires Valid()
      requires status != Pending
      modifies this
      ensures Valid()
      ensures fetchFails ==> o == Fail(FetchFailed) && unchanged(this)
      ensures !fetchFails && requestId !in old(requests) ==> o == Fail(RequestNotFound) && unchanged(this)
      ensures !fetchFails && requestId in old(requests) && updateFails ==> o == Fail(UpdateFailed) && unchanged(this)
      ensures !fetchFails && requestId in old(requests) && !updateFails ==>
        var q := old(requests)[requestId];
        && o == Pass
        && requests == old(requests)[requestId := Responded(q, status, now)]
        && connections == old(connections) + NewConnections(q, requestId, status)
        && notifications == old(notifications) + [ResponseNotification(q.founderId, status)]
        && nextId == old(nextId)
    {
      if fetchFails {
        return Fail(FetchFailed);
      }
      if requestId !in requests {
        return Fail(RequestNotFound);
      }
      var q := requests[requestId];
      if updateFails {
        return Fail(UpdateFailed);
      }
      RespondKeepsConsistent(requests, connections, requestId, status, now);
      requests := requests[requestId := Responded(q, status, now)];
      if status == Accepted {
        connections := connections + [Connection(q.founderId, q.mentorId, requestId, "active")];
      }
      notifications := notifications + [ResponseNotification(q.founderId, status)];
      o := Pass;
    }
  }

  /** A new pending request under an unused id keeps the tables consistent. */
  lemma SendKeepsConsistent(requests: map<nat, MentorshipRequest>, connections: seq<Connection>, id: nat,
                            founderId: string, mentorId: string, message: string)
    requires Consistent(requests, connections) && id !in requests
    ensures Consistent(requests[id := MentorshipRequest(founderId, mentorId, message, Pending, None)], connections)
  {
    var q := MentorshipRequest(founderId, mentorId, message, Pending, None);
    forall c | c in connections
      ensures c.requestId in requests[id := q] && requests[id := q][c.requestId] == requests[c.requestId]
    {
      assert c.requestId != id;
    }
  }

  /** Answering a request keeps the tables consistent, whatever its earlier status. */
  lemma RespondKeepsConsistent(requests: map<nat, MentorshipRequest>, connections: seq<Connection>,
                               id: nat, status: RequestStatus, now: string)
    requires Consistent(requests, connections) && id in requests && status != Pending
    ensures var q := requests[id];
      Consistent(requests[id := Responded(q, status, now)], connections + NewConnections(q, id, status))
  {
    var q := requests[id];
    var after := requests[id := Responded(q, status, now)];
    forall c | c in connections + NewConnections(q, id, status)
      ensures c.requestId in after
      ensures after[c.requestId].founderId == c.founderId && after[c.requestId].mentorId == c.mentorId
    {
      if c !in connections {
        assert c == Connection(q.founderId, q.mentorId, id, "active");
      }
    }
  }

  /**
   * An answer replaces the status and response time of that request only, and
   * does so whatever the request's status was, answered or not.
   */
  lemma RespondIgnoresPreviousStatus(q: MentorshipRequest, status: RequestStatus, now: string)
    ensures var r := Responded(q, status, now);
      && r.status == status && r.respondedAt == Some(now)
      && r.founderId == q.founderId && r.mentorId == q.mentorId && r.message == q.message
  {
  }

  /** Acceptance adds exactly the active connection between the request's two users; declining adds none. */
  lemma AcceptanceAloneConnects(q: MentorshipRequest, id: nat, status: RequestStatus)
    ensures |NewConnections(q, id, status)| == (if status == Accepted then 1 else 0)
    ensures forall c :: c in NewConnections(q, id, status) ==>
      c.founderId == q.founderId && c.mentorId == q.mentorId && c.requestId == id && c.status == "active"
  {
  }

  /** The founder's notification reads "Mentorship Request Accepted" or "... Declined". */
  lemma ResponseNotificationWording(founderId: string)
    ensures ResponseNotification(founderId, Accepted).title == "Mentorship Request Accepted"
    ensures ResponseNotification(founderId, Accepted).message == "Your mentorship request has been accepted"
    ensures ResponseNotification(founderId, Declined).title == "Mentorship Request Declined"
    ensures ResponseNotification(founderId, Declined).message == "Your mentorship request has been declined"
  {
  }

  /** A request, at any status, keeps its mentor out of the founder's matches. */
  lemma RequestedMentorsNeverMatched(requests: map<nat, MentorshipRequest>, founderId: string,
                                     startup: StartupProfile, rows: seq<MentorProfile>, limit: int, id: nat)
    requires id in requests && requests[id].founderId == founderId
    ensures forall m :: m in FindMatches(true, Some(startup), Some(rows),
                                         Some(RequestedMentorIds(requests, founderId)), limit).value ==>
      m.mentor.id != requests[id].mentorId
  {
    assert requests[id].mentorId in RequestedMentorIds(requests, founderId);
  }

  /**
   * With no pending check, answering the same request twice records the
   * second answer: accepting twice adds two identical connections, and
   * declining after accepting leaves the connection of the acceptance in place.
   */
  method RespondTwice() returns (store: MentorshipStore)
    ensures store.Valid()
    ensures |store.requests| == 1 && 0 in store.requests
    ensures |store.connections| == 2 && store.connections[0] == store.connections[1]
    ensures store.connections[0] == Connection("founder", "mentor", 0, "active")
    ensures store.notifications == [RequestNotification("mentor"), ResponseNotification("founder", Accepted),
                                    ResponseNotification("founder", Accepted)]
  {
    store := new MentorshipStore();
    var o := store.SendMentorshipRequest("founder", "mentor", "hello", false);
    o := store.RespondToRequest(0, Accepted, "t1", false, false);
    o := store.RespondToRequest(0, Accepted, "t2", false, false);
    assert store.requests == map[0 := MentorshipRequest("founder", "mentor", "hello", Accepted, Some("t2"))];
  }

  /** Accepting and then declining leaves a declined request with an active connection. */
  method AcceptThenDecline() returns (store: MentorshipStore)
    ensures store.Valid()
    ensures 0 in store.requests && store.requests[0].status == Declined
    ensures store.connections == [Connection("founder", "mentor", 0, "active")]
  {
    store := new MentorshipStore();
    var o := store.SendMentorshipRequest("founder", "mentor", "hello", false);
    o := store.RespondToRequest(0, Accepted, "t1", false, false);
    o := store.RespondToRequest(0, Declined, "t2", false, false);
  }

  /** No duplicate check: the same founder can send the same mentor two pending requests. */
  method SendTwice() returns (store: MentorshipStore)
    ensures store.Valid()
    ensures 0 in store.requests && 1 in store.requests
    ensures store.requests[0].mentorId == store.requests[1].mentorId == "mentor"
    ensures store.requests[0].status == store.requests[1].status == Pending
    ensures store.notifications == [RequestNotification("mentor"), RequestNotification("mentor")]
  {
    store := new MentorshipStore();
    var o := store.SendMentorshipRequest("founder", "mentor", "hello", false);
    o := store.SendMentorshipRequest("founder", "mentor", "again", false);
  }
}
