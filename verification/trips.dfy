/** The trips routes: listing with filters, the calendar range, one trip with
    the viewer's request status, creation, owner-only update and delete, and
    the request lifecycle (submit, list for the owner, accept or reject). */
module Trips {
  import opened Basics
  import opened Text
  import opened Store
  import TripOrder

  // ------------------------------------------------------------------ listing

  /** The query string of GET /api/trips; "" stands for an absent parameter. */
  datatype TripQuery = TripQuery(departure: string, arrival: string, date: string,
                                 kind: string, capacity: string)

  /** The WHERE clause the listing builds: active trips, and each supplied
      filter in turn (city filters as case-insensitive substring matches,
      the type filter also admitting 'both' and skipped for 'all'). */
  predicate Matches(q: TripQuery, t: Trip)
  {
    && t.status == "active"
    && (q.departure == "" || Contains(Lower(t.departure), Lower(q.departure)))
    && (q.arrival == "" || Contains(Lower(t.arrival), Lower(q.arrival)))
    && (q.date == "" || t.date == q.date)
    && (q.kind == "" || q.kind == "all" || t.availability == q.kind || t.availability == "both")
    && (q.capacity == "" || t.capacity == q.capacity)
  }

  /** GET /api/trips: exactly the matching trips, by (date, time) ascending. */
  function ListTrips(s: State, q: TripQuery): (r: seq<Trip>)
    ensures forall t :: t in r <==> t in s.trips && Matches(q, t)
    ensures multiset(r) == multiset(Filter(s.trips, (t: Trip) => Matches(q, t)))
    ensures TripOrder.Sorted(r)
  {
    var picked := Filter(s.trips, (t: Trip) => Matches(q, t));
    TripOrder.SortSorted(picked);
    SameMembers(TripOrder.Sort(picked), picked);
    TripOrder.Sort(picked)
  }

  /** Sequences that are permutations of each other hold the same elements. */
  lemma SameMembers(a: seq<Trip>, b: seq<Trip>)
    requires multiset(a) == multiset(b)
    ensures forall t :: t in a <==> t in b
  {
    forall t
      ensures t in a <==> t in b
    {
      assert t in a <==> t in multiset(a);
      assert t in b <==> t in multiset(b);
    }
  }

  const CalendarFrom := "2000-01-01"
  const CalendarTo := "2100-12-31"

  /** `t.date BETWEEN start AND end`, with the route's defaults for absent bounds. */
  predicate InCalendar(start: string, end: string, t: Trip)
  {
    var from := if start == "" then CalendarFrom else start;
    var to := if end == "" then CalendarTo else end;
    t.status == "active" && TripOrder.StrLe(from, t.date) && TripOrder.StrLe(t.date, to)
  }

  /** GET /api/trips/calendar: the active trips dated within the range, sorted. */
  function CalendarTrips(s: State, start: string, end: string): (r: seq<Trip>)
    ensures forall t :: t in r <==> t in s.trips && InCalendar(start, end, t)
    ensures multiset(r) == multiset(Filter(s.trips, (t: Trip) => InCalendar(start, end, t)))
    ensures TripOrder.Sorted(r)
  {
    var picked := Filter(s.trips, (t: Trip) => InCalendar(start, end, t));
    TripOrder.SortSorted(picked);
    SameMembers(TripOrder.Sort(picked), picked);
    TripOrder.Sort(picked)
  }

  // --------------------------------------------------------------- one trip

  datatype TripDetail = TripDetail(trip: Trip, driverName: string, hasRequested: bool,
                                   requestStatus: Option<string>)

  /** The viewer already has a request (of any status) for the trip. */
  predicate HasRequested(s: State, tripId: Id, requester: Id)
  {
    exists q :: q in s.requests && q.trip == tripId && q.requester == requester
  }

  /** GET /api/trips/:id, where `viewer` is the optional session user. */
  function GetTrip(s: State, viewer: Option<Id>, tripId: Id): (r: Response<TripDetail>)
    ensures r.Err? <==> !HasTrip(s.trips, tripId)
    ensures r.Err? ==> r == Err(404, "Trip not found")
    ensures r.Ok? ==> r.code == 200 && r.value.trip in s.trips && r.value.trip.id == tripId
    ensures r.Ok? ==> (r.value.hasRequested <==> viewer.Some? && HasRequested(s, tripId, viewer.value))
    ensures r.Ok? ==> (r.value.requestStatus.Some? <==> r.value.hasRequested)
    ensures r.Ok? && r.value.requestStatus.Some? ==>
              exists q :: q in s.requests && q.trip == tripId && q.requester == viewer.value
                          && q.status == r.value.requestStatus.value
  {
    match TripById(s, tripId)
    case None => Err(404, "Trip not found")
    case Some(t) =>
      var mine := if viewer.None? then None
                  else Find(s.requests, (q: TripRequest) => q.trip == tripId && q.requester == viewer.value);
      match mine
      case None => Ok(200, TripDetail(t, NameOf(s, t.owner), false, None))
      case Some(q) => Ok(200, TripDetail(t, NameOf(s, t.owner), true, Some(q.status)))
  }

  // ------------------------------------------------------- create/update/delete

  /** The body of POST and PUT /api/trips; "" stands for an absent field. */
  datatype TripForm = TripForm(departure: string, arrival: string, date: string, time: string,
                               description: string, availability: string, capacity: string)

  /** The web path multer gives an uploaded trip photo. */
  function TripPhoto(upload: Option<string>): Option<string>
  {
    match upload
    case None => None
    case Some(file) => Some("/uploads/trips/" + file)
  }

  /** POST /api/trips: a new active trip owned by the caller, with the
      defaults 'both' and 'medium' for an absent type or capacity. */
  function CreateTrip(s: State, caller: Id, form: TripForm, upload: Option<string>): (out: Step<Id>)
    requires HasUser(s.users, caller)
    ensures out.response == Ok(201, s.clock)
    ensures |out.state.trips| == |s.trips| + 1 && out.state.trips[..|s.trips|] == s.trips
    ensures var t := out.state.trips[|s.trips|];
            && t.id == s.clock && t.owner == caller && t.status == "active"
            && t.departure == form.departure && t.arrival == form.arrival
            && t.date == form.date && t.time == form.time
            && t.description == (if form.description == "" then None else Some(form.description))
            && t.availability == (if form.availability == "" then "both" else form.availability)
            && t.capacity == (if form.capacity == "" then "medium" else form.capacity)
            && t.photo == TripPhoto(upload)
    ensures out.state.(trips := s.trips, clock := s.clock) == s
  {
    var t := Trip(s.clock, caller, form.departure, form.arrival, form.date, form.time,
                  if form.description == "" then None else Some(form.description),
                  if form.availability == "" then "both" else form.availability,
                  if form.capacity == "" then "medium" else form.capacity,
                  TripPhoto(upload), "active");
    Step(Ok(201, s.clock), s.(trips := s.trips + [t], clock := s.clock + 1))
  }

  /** The ownership guard of update, delete and the request listing: the
      trip exists and the caller owns it. */
  predicate OwnedBy(s: State, tripId: Id, caller: Id)
  {
    match TripById(s, tripId)
    case None => false
    case Some(t) => t.owner == caller
  }

  /** The columns PUT /api/trips/:id writes; owner, status and id stay. */
  function Edit(t: Trip, form: TripForm, upload: Option<string>): Trip
  {
    t.(departure := form.departure, arrival := form.arrival, date := form.date, time := form.time,
       description := Some(form.description), availability := form.availability,
       capacity := form.capacity,
       photo := if upload.Some? then TripPhoto(upload) else t.photo)
  }

  /** PUT /api/trips/:id. */
  function UpdateTrip(s: State, caller: Id, tripId: Id, form: TripForm, upload: Option<string>): (out: Step<string>)
    ensures !OwnedBy(s, tripId, caller) ==> out == Step(Err(403, NotAuthorized), s)
    ensures OwnedBy(s, tripId, caller) ==> out.response == Ok(200, "Trip updated")
    ensures |out.state.trips| == |s.trips|
    ensures forall i :: 0 <= i < |s.trips| ==>
              out.state.trips[i] == if s.trips[i].id == tripId && OwnedBy(s, tripId, caller)
                                    then Edit(s.trips[i], form, upload) else s.trips[i]
    ensures out.state.(trips := s.trips) == s
  {
    if !OwnedBy(s, tripId, caller) then Step(Err(403, NotAuthorized), s)
    else
      Step(Ok(200, "Trip updated"),
           s.(trips := Update(s.trips, (t: Trip) => t.id == tripId, (t: Trip) => Edit(t, form, upload))))
  }

  /** DELETE /api/trips/:id, with the schema's cascade. */
  function DeleteTrip(s: State, caller: Id, tripId: Id): (out: Step<string>)
    ensures !OwnedBy(s, tripId, caller) ==> out == Step(Err(403, NotAuthorized), s)
    ensures OwnedBy(s, tripId, caller) ==>
              && out.response == Ok(200, "Trip deleted")
              && (forall t :: t in out.state.trips <==> t in s.trips && t.id != tripId)
              && (forall r :: r in out.state.requests <==> r in s.requests && r.trip != tripId)
              && (forall c :: c in out.state.conversations <==>
                    c in s.conversations && !(exists r :: r in s.requests && r.trip == tripId && r.id == c.request))
              && (forall m :: m in out.state.messages <==>
                    m in s.messages && !(exists c :: c in s.conversations && c.id == m.conversation && c !in out.state.conversations))
              && out.state.users == s.users && out.state.notifications == s.notifications
              && out.state.tokens == s.tokens && out.state.clock == s.clock
  {
    if !OwnedBy(s, tripId, caller) then Step(Err(403, NotAuthorized), s)
    else Step(Ok(200, "Trip deleted"), DeleteTripCascade(s, tripId))
  }

  /** A new trip keeps the store valid. */
  lemma CreateTripPreservesValid(s: State, caller: Id, form: TripForm, upload: Option<string>)
    requires Valid(s) && HasUser(s.users, caller)
    ensures Valid(CreateTrip(s, caller, form, upload).state)
  {
    var s' := CreateTrip(s, caller, form, upload).state;
    ChronologicalLater(s, s.clock + 1);
    StampedAppend(s.trips, s'.trips[|s.trips|], (t: Trip) => t.id, s.clock);
    assert s'.trips == s.trips + [s'.trips[|s.trips|]];
    forall r | r in s'.requests
      ensures HasTrip(s'.trips, r.trip)
    {
      var t :| t in s.trips && t.id == r.trip;
      assert t in s'.trips;
    }
  }

  /** An edit touches neither ids nor owners, so the store stays valid. */
  lemma UpdateTripPreservesValid(s: State, caller: Id, tripId: Id, form: TripForm, upload: Option<string>)
    requires Valid(s)
    ensures Valid(UpdateTrip(s, caller, tripId, form, upload).state)
  {
    var s' := UpdateTrip(s, caller, tripId, form, upload).state;
    SameTripKeysValid(s, s'.trips);
    assert s' == s.(trips := s'.trips);
  }

  /** Rewriting trips in place, keeping each one's id and driver, keeps the store valid. */
  lemma SameTripKeysValid(s: State, trips: seq<Trip>)
    requires Valid(s)
    requires |trips| == |s.trips|
    requires forall i :: 0 <= i < |trips| ==> trips[i].id == s.trips[i].id && trips[i].owner == s.trips[i].owner
    ensures Valid(s.(trips := trips))
  {
    forall t | t in trips
      ensures HasUser(s.users, t.owner)
    {
      var k :| 0 <= k < |trips| && trips[k] == t;
      assert s.trips[k] in s.trips;
    }
    forall r | r in s.requests
      ensures HasTrip(trips, r.trip)
    {
      var t :| t in s.trips && t.id == r.trip;
      var k :| 0 <= k < |s.trips| && s.trips[k] == t;
      assert trips[k] in trips;
    }
  }

  /** The owner stays the owner after editing the trip. */
  lemma UpdateKeepsOwnership(s: State, caller: Id, tripId: Id, form: TripForm, upload: Option<string>)
    requires Valid(s) && OwnedBy(s, tripId, caller)
    ensures OwnedBy(UpdateTrip(s, caller, tripId, form, upload).state, tripId, caller)
  {
    var s' := UpdateTrip(s, caller, tripId, form, upload).state;
    var t := TripById(s, tripId).value;
    var m :| 0 <= m < |s.trips| && s.trips[m] == t;
    assert s'.trips[m] in s'.trips;
    var t' := TripById(s', tripId).value;
    var k :| 0 <= k < |s'.trips| && s'.trips[k] == t';
    assert s.trips[k].id == tripId;
    assert k == m by {
      assert s.trips[k].id == s.trips[m].id;
    }
  }

  /** Deleting a trip keeps the store valid: the cascade leaves nothing dangling. */
  lemma DeleteTripPreservesValid(s: State, caller: Id, tripId: Id)
    requires Valid(s)
    ensures Valid(DeleteTrip(s, caller, tripId).state)
  {
    DeleteTripCascadeValid(s, tripId);
  }

  // ----------------------------------------------------------- request lifecycle

  const Arrow := " \U{2192} "

  function RequestReceivedBody(requesterName: string, t: Trip): string
  {
    requesterName + " souhaite participer \U{00E0} votre trajet " + t.departure + Arrow + t.arrival
  }

  function TripLink(tripId: Id): string
  {
    "/trip-detail.html?id=" + NatToString(tripId)
  }

  /** POST /api/trips/:id/request by the session user `caller`. */
  function SubmitRequest(s: State, caller: Id, tripId: Id, message: string): (out: Step<string>)
    requires HasUser(s.users, caller)
    ensures !HasTrip(s.trips, tripId) ==> out == Step(Err(404, "Trip not found"), s)
    ensures OwnedBy(s, tripId, caller) ==> out == Step(Err(400, "Cannot request your own trip"), s)
    ensures HasTrip(s.trips, tripId) && !OwnedBy(s, tripId, caller) && HasRequested(s, tripId, caller) ==>
              out == Step(Err(400, "You have already requested this trip"), s)
    ensures out.response.Ok? <==>
              HasTrip(s.trips, tripId) && !OwnedBy(s, tripId, caller) && !HasRequested(s, tripId, caller)
    ensures out.response.Ok? ==>
              && out.response == Ok(201, "Request sent successfully")
              && out.state.requests == s.requests +
                   [TripRequest(s.clock, tripId, caller, if message == "" then None else Some(message), "pending")]
              && out.state.notifications == s.notifications +
                   [Notification(s.clock + 1, TripById(s, tripId).value.owner, RequestReceived,
                                 "Nouvelle demande de trajet",
                                 RequestReceivedBody(NameOf(s, caller), TripById(s, tripId).value),
                                 TripLink(tripId), false)]
              && out.state.(requests := s.requests, notifications := s.notifications, clock := s.clock) == s
  {
    match TripById(s, tripId)
    case None => Step(Err(404, "Trip not found"), s)
    case Some(t) =>
      if t.owner == caller then Step(Err(400, "Cannot request your own trip"), s)
      else if HasRequested(s, tripId, caller) then Step(Err(400, "You have already requested this trip"), s)
      else
        var s1 := AddRequest(s, tripId, caller, if message == "" then None else Some(message), "pending");
        Step(Ok(201, "Request sent successfully"),
             Notify(s1, t.owner, RequestReceived, "Nouvelle demande de trajet",
                    RequestReceivedBody(NameOf(s, caller), t), TripLink(tripId)))
  }

  /** After a successful submit the pair has exactly one request, and it is pending. */
  lemma SubmitCreatesOnePending(s: State, caller: Id, tripId: Id, message: string)
    requires HasUser(s.users, caller)
    requires SubmitRequest(s, caller, tripId, message).response.Ok?
    ensures var s' := SubmitRequest(s, caller, tripId, message).state;
            && Count(s'.requests, (q: TripRequest) => q.trip == tripId && q.requester == caller) == 1
            && (forall q :: q in s'.requests && q.trip == tripId && q.requester == caller ==> q.status == "pending")
            && Count(s'.notifications, (n: Notification) => n.kind == RequestReceived)
               == Count(s.notifications, (n: Notification) => n.kind == RequestReceived) + 1
  {
    var s' := SubmitRequest(s, caller, tripId, message).state;
    var pair := (q: TripRequest) => q.trip == tripId && q.requester == caller;
    var received := (n: Notification) => n.kind == RequestReceived;
    CountAppend(s.requests, [s'.requests[|s.requests|]], pair);
    assert s'.requests == s.requests + [s'.requests[|s.requests|]];
    assert Count(s.requests, pair) == 0;
    CountAppend(s.notifications, [s'.notifications[|s.notifications|]], received);
    assert s'.notifications == s.notifications + [s'.notifications[|s.notifications|]];
  }

  /** Submitting again for the same (trip, requester) pair is refused. */
  lemma SubmitTwiceConflicts(s: State, caller: Id, tripId: Id, m1: string, m2: string)
    requires HasUser(s.users, caller)
    requires SubmitRequest(s, caller, tripId, m1).response.Ok?
    ensures var s' := SubmitRequest(s, caller, tripId, m1).state;
            HasUser(s'.users, caller) &&
            SubmitRequest(s', caller, tripId, m2) == Step(Err(400, "You have already requested this trip"), s')
  {
    var s' := SubmitRequest(s, caller, tripId, m1).state;
    var q := s'.requests[|s.requests|];
    assert q in s'.requests && q.trip == tripId && q.requester == caller;
    assert s'.trips == s.trips;
  }

  /** Submit keeps every rule of the store, in particular one request per pair. */
  lemma SubmitPreservesValid(s: State, caller: Id, tripId: Id, message: string)
    requires Valid(s) && HasUser(s.users, caller)
    ensures Valid(SubmitRequest(s, caller, tripId, message).state)
  {
    if SubmitRequest(s, caller, tripId, message).response.Ok? {
      var t := TripById(s, tripId).value;
      var m := if message == "" then None else Some(message);
      AddRequestValid(s, tripId, caller, m, "pending");
      var s1 := AddRequest(s, tripId, caller, m, "pending");
      assert HasUser(s1.users, t.owner) by { assert t in s.trips; }
      NotifyValid(s1, t.owner, RequestReceived, "Nouvelle demande de trajet",
                  RequestReceivedBody(NameOf(s, caller), t), TripLink(tripId));
    }
  }

  datatype RequestView = RequestView(request: TripRequest, requesterName: string, requesterPhoto: string)

  /** Each request joined with its requester's name and photo. */
  function RequestViews(s: State, rs: seq<TripRequest>): (v: seq<RequestView>)
    ensures |v| == |rs|
    ensures forall i :: 0 <= i < |rs| ==>
              v[i] == RequestView(rs[i], NameOf(s, rs[i].requester), PhotoOf(s, rs[i].requester))
  {
    seq(|rs|, i requires 0 <= i < |rs| => RequestView(rs[i], NameOf(s, rs[i].requester), PhotoOf(s, rs[i].requester)))
  }

  /** The listing shows request `q`. */
  ghost predicate Shows(v: seq<RequestView>, q: TripRequest)
  {
    exists i :: 0 <= i < |v| && v[i].request == q
  }

  /** GET /api/trips/:id/requests: the trip's requests, newest first, for its owner only. */
  function ListRequests(s: State, caller: Id, tripId: Id): (r: Response<seq<RequestView>>)
    ensures !OwnedBy(s, tripId, caller) ==> r == Err(403, NotAuthorized)
    ensures OwnedBy(s, tripId, caller) ==> r.Ok? && r.code == 200
    ensures r.Ok? ==> |r.value| == Count(s.requests, (q: TripRequest) => q.trip == tripId)
    ensures r.Ok? ==> forall i :: 0 <= i < |r.value| ==>
              r.value[i].request in s.requests && r.value[i].request.trip == tripId
              && r.value[i].requesterName == NameOf(s, r.value[i].request.requester)
    ensures r.Ok? ==> forall q :: Shows(r.value, q) <==> q in s.requests && q.trip == tripId
  {
    if !OwnedBy(s, tripId, caller) then Err(403, NotAuthorized)
    else
      var newest := Reverse(Filter(s.requests, (q: TripRequest) => q.trip == tripId));
      CountIsFilterLength(s.requests, (q: TripRequest) => q.trip == tripId);
      ViewsShow(s, newest);
      Ok(200, RequestViews(s, newest))
  }

  lemma ViewsShow(s: State, rs: seq<TripRequest>)
    ensures forall q :: Shows(RequestViews(s, rs), q) <==> q in rs
  {
    var v := RequestViews(s, rs);
    forall q
      ensures Shows(v, q) <==> q in rs
    {
      if q in rs {
        var i :| 0 <= i < |rs| && rs[i] == q;
        assert v[i].request == q;
      }
    }
  }

  /** In a valid store the owner sees the requests newest first. */
  lemma ListRequestsNewestFirst(s: State, caller: Id, tripId: Id)
    requires Valid(s)
    requires ListRequests(s, caller, tripId).Ok?
    ensures var v := ListRequests(s, caller, tripId).value;
            forall i, j :: 0 <= i < j < |v| ==> v[i].request.id > v[j].request.id
  {
    var mine := Filter(s.requests, (q: TripRequest) => q.trip == tripId);
    FilterAscending(s.requests, (q: TripRequest) => q.trip == tripId, (q: TripRequest) => q.id);
    ReverseAscending(mine, (q: TripRequest) => q.id);
  }

  function DecisionTitle(accepted: bool): string
  {
    if accepted then "Demande accept\U{00E9}e !" else "Demande refus\U{00E9}e"
  }

  function DecisionBody(accepted: bool, ownerName: string, t: Trip): string
  {
    ownerName + (if accepted then " a accept\U{00E9}" else " a refus\U{00E9}")
    + " votre demande pour le trajet " + t.departure + Arrow + t.arrival
  }

  /** The guard of the respond route: the request exists, its trip exists
      (the SQL join), and the caller owns that trip. */
  predicate MayRespond(s: State, caller: Id, requestId: Id)
  {
    match RequestById(s, requestId)
    case None => false
    case Some(q) => OwnedBy(s, q.trip, caller)
  }

  /** PUT /api/trips/requests/:requestId/respond with body field `status`.
      Any status string is written; only "accepted" opens a conversation. */
  function Respond(s: State, caller: Id, requestId: Id, status: string): (out: Step<string>)
    requires HasUser(s.users, caller)
    ensures !MayRespond(s, caller, requestId) ==> out == Step(Err(403, NotAuthorized), s)
    ensures MayRespond(s, caller, requestId) ==>
              && out.response == Ok(200, "Request " + status)
              && |out.state.requests| == |s.requests|
              && (forall i :: 0 <= i < |s.requests| ==>
                    out.state.requests[i] == if s.requests[i].id == requestId
                                             then s.requests[i].(status := status) else s.requests[i])
              && |out.state.notifications| == |s.notifications| + 1
              && out.state.notifications[..|s.notifications|] == s.notifications
              && (var n := out.state.notifications[|s.notifications|];
                  && n.owner == RequestById(s, requestId).value.requester
                  && (n.kind == RequestAccepted <==> status == "accepted")
                  && (n.kind == RequestRejected <==> status != "accepted")
                  && n.title == DecisionTitle(status == "accepted")
                  && n.body == DecisionBody(status == "accepted", NameOf(s, caller),
                                            TripById(s, RequestById(s, requestId).value.trip).value)
                  && n.link == "/messages.html" && !n.read)
              && (status == "accepted" ==>
                    out.state.conversations == s.conversations +
                      [Conversation(s.clock + 1, requestId, caller, RequestById(s, requestId).value.requester)])
              && (status != "accepted" ==> out.state.conversations == s.conversations)
              && out.state.users == s.users && out.state.trips == s.trips
              && out.state.messages == s.messages && out.state.tokens == s.tokens
  {
    match RequestById(s, requestId)
    case None => Step(Err(403, NotAuthorized), s)
    case Some(q) =>
      match TripById(s, q.trip)
      case None => Step(Err(403, NotAuthorized), s)
      case Some(t) =>
        if t.owner != caller then Step(Err(403, NotAuthorized), s)
        else
          var accepted := status == "accepted";
          var s1 := s.(requests := SetRequestStatus(s.requests, requestId, status));
          var s2 := Notify(s1, q.requester, if accepted then RequestAccepted else RequestRejected,
                           DecisionTitle(accepted), DecisionBody(accepted, NameOf(s, caller), t),
                           "/messages.html");
          var s3 := if accepted then AddConversation(s2, requestId, caller, q.requester) else s2;
          Step(Ok(200, "Request " + status), s3)
  }

  /** In a valid store the owner may respond to the same request again. */
  lemma RespondAgainAllowed(s: State, caller: Id, requestId: Id, status: string)
    requires Valid(s) && HasUser(s.users, caller)
    requires MayRespond(s, caller, requestId)
    ensures var s1 := Respond(s, caller, requestId, status).state;
            HasUser(s1.users, caller) && MayRespond(s1, caller, requestId)
  {
    var s1 := Respond(s, caller, requestId, status).state;
    var q := RequestById(s, requestId).value;
    var i :| 0 <= i < |s.requests| && s.requests[i] == q;
    assert s1.requests[i] == q.(status := status);
    assert s1.requests[i] in s1.requests;
    var q1 := RequestById(s1, requestId).value;
    var j :| 0 <= j < |s1.requests| && s1.requests[j] == q1;
    assert s.requests[j].id == requestId;
    assert i == j by {
      assert s.requests[i].id == s.requests[j].id;
    }
    assert s1.trips == s.trips;
  }

  /** Each acceptance adds one conversation for the request. */
  lemma AcceptAddsConversation(s: State, caller: Id, requestId: Id)
    requires HasUser(s.users, caller)
    requires MayRespond(s, caller, requestId)
    ensures Count(Respond(s, caller, requestId, "accepted").state.conversations, (c: Conversation) => c.request == requestId)
            == Count(s.conversations, (c: Conversation) => c.request == requestId) + 1
  {
    var s1 := Respond(s, caller, requestId, "accepted").state;
    CountAppend(s.conversations, [s1.conversations[|s.conversations|]], (c: Conversation) => c.request == requestId);
  }

  /** There is no pending-only guard: accepting the same request twice opens
      two conversations for it. */
  lemma AcceptTwiceTwoConversations(s: State, caller: Id, requestId: Id)
    requires Valid(s) && HasUser(s.users, caller)
    requires MayRespond(s, caller, requestId)
    ensures var s1 := Respond(s, caller, requestId, "accepted").state;
            var s2 := Respond(s1, caller, requestId, "accepted").state;
            Count(s2.conversations, (c: Conversation) => c.request == requestId)
            == Count(s.conversations, (c: Conversation) => c.request == requestId) + 2
  {
    var s1 := Respond(s, caller, requestId, "accepted").state;
    AcceptAddsConversation(s, caller, requestId);
    RespondAgainAllowed(s, caller, requestId, "accepted");
    AcceptAddsConversation(s1, caller, requestId);
  }

  /** Respond keeps every rule of the store. */
  lemma RespondPreservesValid(s: State, caller: Id, requestId: Id, status: string)
    requires Valid(s) && HasUser(s.users, caller)
    ensures Valid(Respond(s, caller, requestId, status).state)
  {
    if MayRespond(s, caller, requestId) {
      var q := RequestById(s, requestId).value;
      var t := TripById(s, q.trip).value;
      var accepted := status == "accepted";
      SetRequestStatusValid(s, requestId, status);
      var s1 := s.(requests := SetRequestStatus(s.requests, requestId, status));
      assert q in s.requests;
      NotifyValid(s1, q.requester, if accepted then RequestAccepted else RequestRejected,
                  DecisionTitle(accepted), DecisionBody(accepted, NameOf(s, caller), t), "/messages.html");
      if accepted {
        var s2 := Notify(s1, q.requester, RequestAccepted, DecisionTitle(accepted),
                         DecisionBody(accepted, NameOf(s, caller), t), "/messages.html");
        var k :| 0 <= k < |s.requests| && s.requests[k] == q;
        assert s2.requests[k] in s2.requests;
        AddConversationValid(s2, requestId, caller, q.requester);
      }
    }
  }
}
