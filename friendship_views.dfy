/** The views of apps/friendships/views.py over the user table and the
    friendship table. Searching and listing are functions of the tables;
    sending, accepting and rejecting are methods of FriendshipStore, each
    proved equal to a step function (SendStep, RespondStep) that gives the
    response and the table afterwards. The authenticated user arrives as an
    argument, and the clock as `now`, in microseconds. */
module FriendshipViews {
  import opened Util
  import opened Text
  import opened Accounts
  import opened FriendshipModels

  const HttpOk: nat := 200
  const HttpCreated: nat := 201
  const HttpBadRequest: nat := 400
  const HttpNotFound: nat := 404
  const HttpTooManyRequests: nat := 429
  const HttpServerError: nat := 500

  const OneMinute := 60_000_000
  const RateLimit := 3
  const SearchLimit := 10

  const SearchRequired := "Search query is required"
  const ReceiverEmailRequired := "Receiver email is required"
  const NoSuchUser := "User with the given email does not exist"
  const SelfRequest := "You cannot send a friend request to yourself"
  const AlreadyFriends := "You are already friends with this user"
  const AlreadySent := "Friend request already sent"
  const AlreadyReceived := "This user has already sent you a friend request"
  const TooManyRequests := "You cannot send more than 3 friend requests within a minute"
  const SenderEmailRequired := "Sender email is required"
  const RequestNotFound := "Friend request not found"
  const RequestAccepted := "Friend request accepted"
  const RequestRejected := "Friend request rejected"

  /** `{"id", "name", "email"}` of one user, as the search and friend lists render it. */
  datatype UserSummary = UserSummary(id: UserId, name: string, email: string)

  function Summary(u: User): UserSummary
  {
    UserSummary(u.id, u.name, u.email)
  }

  /** One entry of the pending-request list. */
  datatype PendingItem = PendingItem(id: nat, senderId: UserId, senderName: string, senderEmail: string, timestamp: int)

  datatype Body =
    | ErrorBody(error: string)
    | MessageBody(message: string)
    | RequestBody(request: Friendship, fromUser: User, toUser: User)
    | UsersBody(users: seq<UserSummary>)
    | PendingBody(requests: seq<PendingItem>)
      /** an exception the view does not catch; the framework answers 500 */
    | Unhandled(exception: string)

  datatype Response = Response(status: nat, body: Body)

  function Error(status: nat, message: string): Response
  {
    Response(status, ErrorBody(message))
  }

  const AmbiguousLookup := Response(HttpServerError, Unhandled("MultipleObjectsReturned"))

  /** A view's answer together with the friendship table it leaves behind. */
  datatype Outcome = Outcome(response: Response, records: seq<Friendship>, nextId: nat)

  // ---------------------------------------------------------------------
  // The user table as the views query it

  function HasId(id: UserId): User -> bool
  {
    (u: User) => u.id == id
  }

  /** The row a foreign key refers to. */
  function UserById(users: seq<User>, id: UserId): (r: Option<User>)
    ensures r.Some? ==> r.value in users && r.value.id == id
    ensures r.None? <==> forall i :: 0 <= i < |users| ==> users[i].id != id
  {
    match First(users, HasId(id))
    case None => None
    case Some(i) => Some(users[i])
  }

  /** `email__iexact=email`. */
  function EmailIs(email: string): User -> bool
  {
    (u: User) => EqualsIgnoreCase(u.email, email)
  }

  // ---------------------------------------------------------------------
  // The invariant of the friendship table

  /** Keys grow along the table (so table order is key order) and stay below the next key. */
  predicate KeysIncreasing(records: seq<Friendship>, nextId: nat)
  {
    && (forall i, j :: 0 <= i < j < |records| ==> records[i].id < records[j].id)
    && (forall i :: 0 <= i < |records| ==> records[i].id < nextId)
  }

  predicate StoreInvariant(records: seq<Friendship>, nextId: nat)
  {
    PairsUnique(records) && NoSelfRequests(records) && KeysIncreasing(records, nextId)
  }

  /** Every foreign key of the table refers to a row of the user table. */
  predicate RefsResolve(users: seq<User>, records: seq<Friendship>)
  {
    forall i :: 0 <= i < |records| ==>
      UserById(users, records[i].fromUser).Some? && UserById(users, records[i].toUser).Some?
  }

  /** A new request between two users no row links yet keeps the invariant. */
  lemma AppendKeepsInvariant(records: seq<Friendship>, nextId: nat, f: Friendship)
    requires f.id == nextId && f.fromUser != f.toUser
    requires forall i :: 0 <= i < |records| ==> !Links(records[i], f.fromUser, f.toUser)
    ensures StoreInvariant(records, nextId) ==> StoreInvariant(records + [f], nextId + 1)
  {
  }

  /** Changing only the status and timestamp of one row keeps the invariant. */
  lemma StatusChangeKeepsInvariant(records: seq<Friendship>, nextId: nat, k: nat, f: Friendship)
    requires k < |records|
    requires f.id == records[k].id && f.fromUser == records[k].fromUser && f.toUser == records[k].toUser
    ensures StoreInvariant(records, nextId) ==> StoreInvariant(records[k := f], nextId)
  {
    var t := records[k := f];
    if StoreInvariant(records, nextId) {
      forall i, j | 0 <= i < j < |t| ensures !Links(t[i], t[j].fromUser, t[j].toUser) {
        assert !Links(records[i], records[j].fromUser, records[j].toUser);
      }
    }
  }

  // ---------------------------------------------------------------------
  // SearchUsersView.get

  /** `search.strip().lower()`, a missing parameter read as "". */
  function SearchQuery(search: Option<string>): string
  {
    LowerStr(Strip(OrElse(search, "")))
  }

  /** `Q(email__iexact=q) | Q(name__icontains=q)`. */
  function SearchHit(q: string): User -> bool
  {
    (u: User) => EqualsIgnoreCase(u.email, q) || ContainsIgnoreCase(u.name, q)
  }

  /** The users the search filter selects, in table order. */
  function MatchingUsers(users: seq<User>, q: string): (m: seq<User>)
    ensures |m| == |Indices(users, SearchHit(q))|
    ensures forall k :: 0 <= k < |m| ==>
              var i := Indices(users, SearchHit(q))[k]; i < |users| && SearchHit(q)(users[i]) && m[k] == users[i]
  {
    var idx := Indices(users, SearchHit(q));
    seq(|idx|, k requires 0 <= k < |idx| => users[idx[k]])
  }

  /** A query that is blank once stripped is refused with 400; otherwise the
      first ten matching users (see MatchingUsers) come back, summarised.
      SearchSound, SearchComplete and SearchDistinct in FriendshipProperties
      state what that list holds. */
  function SearchUsers(users: seq<User>, search: Option<string>): (r: Response)
    ensures r.status == HttpBadRequest <==> IsBlank(OrElse(search, ""))
    ensures r.status == HttpBadRequest ==> r.body == ErrorBody(SearchRequired)
    ensures r.status != HttpBadRequest ==> r.status == HttpOk && r.body.UsersBody?
    ensures r.body.UsersBody? ==>
              var m := MatchingUsers(users, SearchQuery(search));
              && |r.body.users| == (if |m| < SearchLimit then |m| else SearchLimit)
              && forall k :: 0 <= k < |r.body.users| ==> r.body.users[k] == Summary(m[k])
  {
    var q := SearchQuery(search);
    if q == [] then Error(HttpBadRequest, SearchRequired)
    else
      var matches := MatchingUsers(users, q);
      var n := if |matches| < SearchLimit then |matches| else SearchLimit;
      Response(HttpOk, UsersBody(seq(n, k requires 0 <= k < n => Summary(matches[k]))))
  }

  // ---------------------------------------------------------------------
  // SendFriendRequestView.post

  /** `Q(from_user=a, to_user=b) | Q(from_user=b, to_user=a)`. */
  function Linking(a: UserId, b: UserId): Friendship -> bool
  {
    (f: Friendship) => Links(f, a, b)
  }

  /** `from_user=uid, created_at__gte=since`, whatever the status. */
  function SentSince(uid: UserId, since: int): Friendship -> bool
  {
    (f: Friendship) => f.fromUser == uid && f.createdAt >= since
  }

  /** How many requests `uid` created in the minute up to `now`. */
  function RecentRequests(records: seq<Friendship>, uid: UserId, now: int): nat
  {
    |Indices(records, SentSince(uid, now - OneMinute))|
  }

  /** The guards that follow the receiver lookup: an existing row between the
      two users in either direction (the first one, in key order, picks the
      message), then the rate limit; if both pass, one pending row is appended.
      A refusal leaves the table as it was, and the table invariant is kept. */
  function Admit(records: seq<Friendship>, nextId: nat, sender: User, receiver: User, now: int): (o: Outcome)
    requires sender.id != receiver.id
    ensures o.response.status in {HttpCreated, HttpBadRequest, HttpTooManyRequests}
    ensures o.response.status != HttpCreated ==> o.records == records && o.nextId == nextId
    ensures o.response.status == HttpBadRequest <==> exists i :: 0 <= i < |records| && Links(records[i], sender.id, receiver.id)
    ensures o.response.status == HttpTooManyRequests <==>
              (forall i :: 0 <= i < |records| ==> !Links(records[i], sender.id, receiver.id))
              && RecentRequests(records, sender.id, now) >= RateLimit
    ensures o.response.status == HttpTooManyRequests ==> o.response == Error(HttpTooManyRequests, TooManyRequests)
    ensures o.response.status == HttpCreated ==>
              var request := NewRequest(nextId, sender.id, receiver.id, now);
              && o.response == Response(HttpCreated, RequestBody(request, sender, receiver))
              && o.records == records + [request]
              && o.nextId == nextId + 1
    ensures StoreInvariant(records, nextId) ==> StoreInvariant(o.records, o.nextId)
  {
    match First(records, Linking(sender.id, receiver.id))
    case Some(j) =>
      var existing := records[j];
      var message :=
        if existing.status == Accepted then AlreadyFriends
        else if existing.fromUser == sender.id then AlreadySent
        else AlreadyReceived;
      Outcome(Error(HttpBadRequest, message), records, nextId)
    case None =>
      if RecentRequests(records, sender.id, now) >= RateLimit then
        Outcome(Error(HttpTooManyRequests, TooManyRequests), records, nextId)
      else
        var request := NewRequest(nextId, sender.id, receiver.id, now);
        AppendKeepsInvariant(records, nextId, request);
        Outcome(Response(HttpCreated, RequestBody(request, sender, receiver)), records + [request], nextId + 1)
  }

  /** What `SendFriendRequestView.post` answers and the table it leaves: a
      missing or empty email is refused with 400, an email no user has
      (ignoring case) with 404, and the sender's own email with 400; an email
      shared by several users raises. Otherwise Admit decides. */
  function SendStep(users: seq<User>, records: seq<Friendship>, nextId: nat, sender: User,
                    receiverEmail: Option<string>, now: int): (o: Outcome)
    ensures o.response.status in {HttpCreated, HttpBadRequest, HttpNotFound, HttpTooManyRequests, HttpServerError}
    ensures o.response.status != HttpCreated ==> o.records == records && o.nextId == nextId
    ensures receiverEmail.None? || receiverEmail.value == "" ==> o.response == Error(HttpBadRequest, ReceiverEmailRequired)
    ensures o.response.status == HttpNotFound <==>
              receiverEmail.Some? && receiverEmail.value != "" && GetIndex(users, EmailIs(receiverEmail.value)).DoesNotExist?
    ensures o.response.status == HttpNotFound ==> o.response == Error(HttpNotFound, NoSuchUser)
    ensures o.response.status == HttpServerError ==> o.response == AmbiguousLookup
    ensures o.response.status == HttpServerError <==>
              receiverEmail.Some? && receiverEmail.value != "" && GetIndex(users, EmailIs(receiverEmail.value)).MultipleObjectsReturned?
    ensures receiverEmail.Some? && receiverEmail.value != "" && GetIndex(users, EmailIs(receiverEmail.value)).Found? &&
            users[GetIndex(users, EmailIs(receiverEmail.value)).value].id == sender.id ==>
              o.response == Error(HttpBadRequest, SelfRequest)
    ensures receiverEmail.Some? && receiverEmail.value != "" && GetIndex(users, EmailIs(receiverEmail.value)).Found? &&
            users[GetIndex(users, EmailIs(receiverEmail.value)).value].id != sender.id ==>
              o == Admit(records, nextId, sender, users[GetIndex(users, EmailIs(receiverEmail.value)).value], now)
    ensures StoreInvariant(records, nextId) ==> StoreInvariant(o.records, o.nextId)
  {
    if receiverEmail.None? || receiverEmail.value == "" then
      Outcome(Error(HttpBadRequest, ReceiverEmailRequired), records, nextId)
    else match GetIndex(users, EmailIs(receiverEmail.value))
      case DoesNotExist => Outcome(Error(HttpNotFound, NoSuchUser), records, nextId)
      case MultipleObjectsReturned => Outcome(AmbiguousLookup, records, nextId)
      case Found(i) =>
        var receiver := users[i];
        if sender.id == receiver.id then
          Outcome(Error(HttpBadRequest, SelfRequest), records, nextId)
        else
          Admit(records, nextId, sender, receiver, now)
  }

  // ---------------------------------------------------------------------
  // AcceptFriendRequestView.post and RejectFriendRequestView.post

  datatype Decision = Accept | Reject

  function Target(d: Decision): Status
  {
    match d
    case Accept => Accepted
    case Reject => Rejected
  }

  function Confirmation(d: Decision): string
  {
    match d
    case Accept => RequestAccepted
    case Reject => RequestRejected
  }

  /** `from_user__email__iexact=email`, through the foreign key. */
  predicate SenderEmailIs(users: seq<User>, id: UserId, email: string)
  {
    match UserById(users, id)
    case Some(u) => EqualsIgnoreCase(u.email, email)
    case None => false
  }

  /** `to_user=uid, from_user__email__iexact=email, status="pending"`. */
  function IncomingPending(users: seq<User>, uid: UserId, email: string): Friendship -> bool
  {
    (f: Friendship) => f.toUser == uid && f.status == Pending && SenderEmailIs(users, f.fromUser, email)
  }

  /** What accepting (or rejecting) answers and the table it leaves. Only a
      pending request addressed to the actor from a sender with that email
      changes, to the decided status with `updated_at` set to `now`; every
      other row, and the whole table on a refusal, stays as it was. */
  function RespondStep(users: seq<User>, records: seq<Friendship>, nextId: nat, actor: User,
                       senderEmail: Option<string>, d: Decision, now: int): (o: Outcome)
    ensures o.response.status in {HttpOk, HttpBadRequest, HttpNotFound, HttpServerError}
    ensures o.nextId == nextId && |o.records| == |records|
    ensures o.response.status != HttpOk ==> o.records == records
    ensures o.response.status == HttpBadRequest <==> senderEmail.None? || senderEmail.value == ""
    ensures o.response.status == HttpBadRequest ==> o.response == Error(HttpBadRequest, SenderEmailRequired)
    ensures o.response.status == HttpNotFound <==>
              senderEmail.Some? && senderEmail.value != "" &&
              forall i :: 0 <= i < |records| ==> !IncomingPending(users, actor.id, senderEmail.value)(records[i])
    ensures o.response.status == HttpNotFound ==> o.response == Error(HttpNotFound, RequestNotFound)
    ensures o.response.status == HttpServerError <==>
              senderEmail.Some? && senderEmail.value != "" &&
              GetIndex(records, IncomingPending(users, actor.id, senderEmail.value)).MultipleObjectsReturned?
    ensures o.response.status == HttpServerError ==> o.response == AmbiguousLookup
    ensures o.response.status == HttpOk <==>
              senderEmail.Some? && senderEmail.value != "" &&
              GetIndex(records, IncomingPending(users, actor.id, senderEmail.value)).Found?
    ensures o.response.status == HttpOk ==>
              && o.response.body == MessageBody(Confirmation(d))
              && senderEmail.Some?
              && exists k :: 0 <= k < |records|
                   && IncomingPending(users, actor.id, senderEmail.value)(records[k])
                   && o.records == records[k := SavedWithStatus(records[k], Target(d), now)]
    ensures StoreInvariant(records, nextId) ==> StoreInvariant(o.records, o.nextId)
  {
    if senderEmail.None? || senderEmail.value == "" then
      Outcome(Error(HttpBadRequest, SenderEmailRequired), records, nextId)
    else match GetIndex(records, IncomingPending(users, actor.id, senderEmail.value))
      case DoesNotExist => Outcome(Error(HttpNotFound, RequestNotFound), records, nextId)
      case MultipleObjectsReturned => Outcome(AmbiguousLookup, records, nextId)
      case Found(k) =>
        var updated := SavedWithStatus(records[k], Target(d), now);
        StatusChangeKeepsInvariant(records, nextId, k, updated);
        Outcome(Response(HttpOk, MessageBody(Confirmation(d))), records[k := updated], nextId)
  }

  // ---------------------------------------------------------------------
  // ListFriendsView.get and ListPendingFriendRequestsView.get

  /** `Q(from_user=uid, status="accepted") | Q(to_user=uid, status="accepted")`. */
  function FriendshipOf(uid: UserId): Friendship -> bool
  {
    (f: Friendship) => f.status == Accepted && (f.fromUser == uid || f.toUser == uid)
  }

  /** The party of `f` that is not `uid`, read the way the view reads it. */
  function OtherParty(f: Friendship, uid: UserId): UserId
  {
    if f.fromUser == uid then f.toUser else f.fromUser
  }

  function FriendEntry(users: seq<User>, f: Friendship, uid: UserId): (e: UserSummary)
    requires UserById(users, f.fromUser).Some? && UserById(users, f.toUser).Some?
    ensures e.id == OtherParty(f, uid)
    ensures exists u :: u in users && u.id == OtherParty(f, uid) && e == Summary(u)
  {
    Summary(UserById(users, OtherParty(f, uid)).value)
  }

  /** One entry per accepted friendship the user is part of, naming the
      other party, in table order: the k-th entry comes from the k-th row the
      filter selects (FriendsSound and FriendsComplete restate this without
      positions). */
  function ListFriends(users: seq<User>, records: seq<Friendship>, user: User): (r: Response)
    requires RefsResolve(users, records)
    ensures r.status == HttpOk && r.body.UsersBody?
    ensures |r.body.users| == |Indices(records, FriendshipOf(user.id))|
    ensures forall k :: 0 <= k < |r.body.users| ==>
              var i := Indices(records, FriendshipOf(user.id))[k];
              i < |records| && FriendshipOf(user.id)(records[i]) && r.body.users[k] == FriendEntry(users, records[i], user.id)
  {
    var idx := Indices(records, FriendshipOf(user.id));
    Response(HttpOk, UsersBody(FriendEntries(users, records, idx, user.id)))
  }

  /** The friend-list entries of the rows at positions `idx`, in that order.
      It only names the comprehension of ListFriends, which keeps that
      function's proof small; what the list means is stated by ListFriends
      and by FriendsSound and FriendsComplete. */
  function FriendEntries(users: seq<User>, records: seq<Friendship>, idx: seq<nat>, uid: UserId): (entries: seq<UserSummary>)
    requires RefsResolve(users, records)
    requires forall k :: 0 <= k < |idx| ==> idx[k] < |records|
    ensures |entries| == |idx|
    ensures forall k :: 0 <= k < |idx| ==> entries[k] == FriendEntry(users, records[idx[k]], uid)
  {
    seq(|idx|, k requires 0 <= k < |idx| => FriendEntry(users, records[idx[k]], uid))
  }

  /** `to_user=uid, status="pending"`. */
  function PendingFor(uid: UserId): Friendship -> bool
  {
    (f: Friendship) => f.toUser == uid && f.status == Pending
  }

  function PendingEntry(users: seq<User>, f: Friendship): (e: PendingItem)
    requires UserById(users, f.fromUser).Some?
    ensures e.id == f.id && e.senderId == f.fromUser && e.timestamp == f.createdAt
    ensures exists u :: u in users && u.id == f.fromUser && e.senderName == u.name && e.senderEmail == u.email
  {
    var sender := UserById(users, f.fromUser).value;
    PendingItem(f.id, sender.id, sender.name, sender.email, f.createdAt)
  }

  /** The pending requests addressed to the user, in table order, each
      naming its sender: the k-th entry comes from the k-th row the filter
      selects (PendingSound and PendingComplete restate this without positions). */
  function ListPending(users: seq<User>, records: seq<Friendship>, user: User): (r: Response)
    requires RefsResolve(users, records)
    ensures r.status == HttpOk && r.body.PendingBody?
    ensures |r.body.requests| == |Indices(records, PendingFor(user.id))|
    ensures forall k :: 0 <= k < |r.body.requests| ==>
              var i := Indices(records, PendingFor(user.id))[k];
              i < |records| && PendingFor(user.id)(records[i]) && r.body.requests[k] == PendingEntry(users, records[i])
  {
    var idx := Indices(records, PendingFor(user.id));
    Response(HttpOk, PendingBody(PendingEntries(users, records, idx)))
  }

  /** The pending entries of the rows at positions `idx`, in that order.
      It only names the comprehension of ListPending, which keeps that
      function's proof small; what the list means is stated by ListPending
      and by PendingSound and PendingComplete. */
  function PendingEntries(users: seq<User>, records: seq<Friendship>, idx: seq<nat>): (items: seq<PendingItem>)
    requires RefsResolve(users, records)
    requires forall k :: 0 <= k < |idx| ==> idx[k] < |records|
    ensures |items| == |idx|
    ensures forall k :: 0 <= k < |idx| ==> items[k] == PendingEntry(users, records[idx[k]])
  {
    seq(|idx|, k requires 0 <= k < |idx| => PendingEntry(users, records[idx[k]]))
  }

  // ---------------------------------------------------------------------
  // The friendship table

  class FriendshipStore {
    var records: seq<Friendship>
    var nextId: nat

    ghost predicate Valid()
      reads this
    {
      StoreInvariant(records, nextId)
    }

    constructor ()
      ensures Valid() && records == [] && nextId == 1
    {
      records := [];
      nextId := 1;
    }

    /** `SendFriendRequestView.post`: the guards in the source's order, then
        the insert of one pending row. */
    method SendFriendRequest(users: seq<User>, sender: User, receiverEmail: Option<string>, now: int)
      returns (response: Response)
      requires Valid()
      modifies this
      ensures Valid()
      ensures Outcome(response, records, nextId) == SendStep(users, old(records), old(nextId), sender, receiverEmail, now)
    {
      if receiverEmail.None? || receiverEmail.value == "" {
        return Error(HttpBadRequest, ReceiverEmailRequired);
      }
      var lookup := GetIndex(users, EmailIs(receiverEmail.value));
      if lookup.DoesNotExist? {
        return Error(HttpNotFound, NoSuchUser);
      }
      if lookup.MultipleObjectsReturned? {
        return AmbiguousLookup;
      }
      var receiver := users[lookup.value];
      if sender.id == receiver.id {
        return Error(HttpBadRequest, SelfRequest);
      }
      var existing := First(records, Linking(sender.id, receiver.id));
      if existing.Some? {
        var friendship := records[existing.value];
        if friendship.status == Accepted {
          return Error(HttpBadRequest, AlreadyFriends);
        } else if friendship.fromUser == sender.id {
          return Error(HttpBadRequest, AlreadySent);
        } else {
          return Error(HttpBadRequest, AlreadyReceived);
        }
      }
      var recent := RecentRequests(records, sender.id, now);
      if recent >= RateLimit {
        return Error(HttpTooManyRequests, TooManyRequests);
      }
      var request := NewRequest(nextId, sender.id, receiver.id, now);
      records := records + [request];
      nextId := nextId + 1;
      response := Response(HttpCreated, RequestBody(request, sender, receiver));
    }

    /** The body shared by the accept and reject views: find the one pending
        request addressed to the actor from that email, set its status, save. */
    method Respond(users: seq<User>, actor: User, senderEmail: Option<string>, d: Decision, now: int)
      returns (response: Response)
      requires Valid()
      modifies this
      ensures Valid()
      ensures Outcome(response, records, nextId) == RespondStep(users, old(records), old(nextId), actor, senderEmail, d, now)
    {
      if senderEmail.None? || senderEmail.value == "" {
        return Error(HttpBadRequest, SenderEmailRequired);
      }
      var lookup := GetIndex(records, IncomingPending(users, actor.id, senderEmail.value));
      if lookup.DoesNotExist? {
        return Error(HttpNotFound, RequestNotFound);
      }
      if lookup.MultipleObjectsReturned? {
        return AmbiguousLookup;
      }
      var k := lookup.value;
      records := records[k := SavedWithStatus(records[k], Target(d), now)];
      response := Response(HttpOk, MessageBody(Confirmation(d)));
    }

    /** `AcceptFriendRequestView.post`. */
    method AcceptFriendRequest(users: seq<User>, actor: User, senderEmail: Option<string>, now: int)
      returns (response: Response)
      requires Valid()
      modifies this
      ensures Valid()
      ensures Outcome(response, records, nextId) == RespondStep(users, old(records), old(nextId), actor, senderEmail, Accept, now)
    {
      response := Respond(users, actor, senderEmail, Accept, now);
    }

    /** `RejectFriendRequestView.post`. */
    method RejectFriendRequest(users: seq<User>, actor: User, senderEmail: Option<string>, now: int)
      returns (response: Response)
      requires Valid()
      modifies this
      ensures Valid()
      ensures Outcome(response, records, nextId) == RespondStep(users, old(records), old(nextId), actor, senderEmail, Reject, now)
    {
      response := Respond(users, actor, senderEmail, Reject, now);
    }
  }
}
