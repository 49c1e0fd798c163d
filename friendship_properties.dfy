/** Properties of the friendship views that relate several calls, or that
    restate a view's result without positions: what the lists contain, what
    a refusal depends on, what a second request meets, how accepting moves a
    request between the two lists, and when the uncaught `get()` exception
    can and cannot happen. */
module FriendshipProperties {
  import opened Util
  import opened Text
  import opened Accounts
  import opened FriendshipModels
  import opened FriendshipViews

  // ---------------------------------------------------------------------
  // Search

  /** Every user the search returns matches the query: its email equals the
      stripped, lower-cased query ignoring case, or its name contains it. */
  lemma SearchSound(users: seq<User>, search: Option<string>)
    ensures SearchUsers(users, search).body.UsersBody? ==>
      forall e :: e in SearchUsers(users, search).body.users ==>
        exists u :: u in users && SearchHit(SearchQuery(search))(u) && e == Summary(u)
  {
    var r := SearchUsers(users, search);
    if r.body.UsersBody? {
      var hit := SearchHit(SearchQuery(search));
      var m := MatchingUsers(users, SearchQuery(search));
      forall e | e in r.body.users ensures exists u :: u in users && hit(u) && e == Summary(u) {
        var k :| 0 <= k < |r.body.users| && r.body.users[k] == e;
        var u := m[k];
        assert u in users && hit(u) && e == Summary(u);
      }
    }
  }

  /** When no more than ten users match, every matching user is returned. */
  lemma SearchComplete(users: seq<User>, search: Option<string>)
    ensures var r := SearchUsers(users, search);
      r.body.UsersBody? && |MatchingUsers(users, SearchQuery(search))| <= SearchLimit ==>
        forall u :: u in users && SearchHit(SearchQuery(search))(u) ==> Summary(u) in r.body.users
  {
    var r := SearchUsers(users, search);
    var q := SearchQuery(search);
    var m := MatchingUsers(users, q);
    if r.body.UsersBody? && |m| <= SearchLimit {
      var idx := Indices(users, SearchHit(q));
      forall u | u in users && SearchHit(q)(u) ensures Summary(u) in r.body.users {
        var i :| 0 <= i < |users| && users[i] == u;
        var k :| 0 <= k < |idx| && idx[k] == i;
        assert r.body.users[k] == Summary(m[k]);
      }
    }
  }

  /** No user is returned twice (`distinct()`), given that ids are keys. */
  lemma SearchDistinct(users: seq<User>, search: Option<string>)
    requires UniqueIds(users)
    ensures var r := SearchUsers(users, search);
      r.body.UsersBody? ==>
        forall j, k :: 0 <= j < k < |r.body.users| ==> r.body.users[j].id != r.body.users[k].id
  {
    var r := SearchUsers(users, search);
    if r.body.UsersBody? {
      var q := SearchQuery(search);
      var m := MatchingUsers(users, q);
      var idx := Indices(users, SearchHit(q));
      forall j, k | 0 <= j < k < |r.body.users| ensures r.body.users[j].id != r.body.users[k].id {
        assert r.body.users[j] == Summary(m[j]) && r.body.users[k] == Summary(m[k]);
        assert m[j] == users[idx[j]] && m[k] == users[idx[k]];
        assert idx[j] < idx[k];
      }
    }
  }

  // ---------------------------------------------------------------------
  // Send

  /** The first three guards (missing email, unknown receiver, the sender's
      own email) are decided before the friendship table is read: their
      answer does not depend on the table, and the table is left as it was. */
  lemma SendGuardsIgnoreTable(users: seq<User>, records: seq<Friendship>, nextId: nat,
                              others: seq<Friendship>, otherNextId: nat,
                              sender: User, receiverEmail: Option<string>, now: int)
    requires || receiverEmail.None? || receiverEmail.value == ""
             || !GetIndex(users, EmailIs(receiverEmail.value)).Found?
             || users[GetIndex(users, EmailIs(receiverEmail.value)).value].id == sender.id
    ensures var o := SendStep(users, records, nextId, sender, receiverEmail, now);
      && o.response.status != HttpCreated
      && o.response == SendStep(users, others, otherNextId, sender, receiverEmail, now).response
      && o.records == records && o.nextId == nextId
  {
  }

  /** Sending succeeds exactly when every guard passes: the email names one
      user (ignoring case) who is not the sender, no row links the two users
      in either direction, and the sender created fewer than three requests
      in the last minute. */
  lemma SendSucceedsIff(users: seq<User>, records: seq<Friendship>, nextId: nat, sender: User,
                        receiverEmail: Option<string>, now: int)
    ensures SendStep(users, records, nextId, sender, receiverEmail, now).response.status == HttpCreated <==>
      && receiverEmail.Some? && receiverEmail.value != ""
      && GetIndex(users, EmailIs(receiverEmail.value)).Found?
      && var receiver := users[GetIndex(users, EmailIs(receiverEmail.value)).value];
         && receiver.id != sender.id
         && (forall i :: 0 <= i < |records| ==> !Links(records[i], sender.id, receiver.id))
         && RecentRequests(records, sender.id, now) < RateLimit
  {
  }

  /** The message of the fourth guard comes from the row linking the two
      users: "already friends" when it is accepted, otherwise "already sent"
      when the sender sent it, otherwise "already sent you" -- also when that
      row was rejected. With one row per pair, that row is the one found. */
  lemma AdmitExistingLink(records: seq<Friendship>, nextId: nat, sender: User, receiver: User, now: int, k: nat)
    requires sender.id != receiver.id
    requires PairsUnique(records)
    requires k < |records| && Links(records[k], sender.id, receiver.id)
    ensures Admit(records, nextId, sender, receiver, now) ==
      var message :=
        if records[k].status == Accepted then AlreadyFriends
        else if records[k].fromUser == sender.id then AlreadySent
        else AlreadyReceived;
      Outcome(Error(HttpBadRequest, message), records, nextId)
  {
    var first := First(records, Linking(sender.id, receiver.id));
    assert Linking(sender.id, receiver.id)(records[k]);
  }

  /** A rejected request still blocks the pair: neither side can send again. */
  lemma RejectedRequestBlocks(records: seq<Friendship>, nextId: nat, sender: User, receiver: User, now: int, k: nat)
    requires sender.id != receiver.id
    requires PairsUnique(records)
    requires k < |records| && Links(records[k], sender.id, receiver.id) && records[k].status == Rejected
    ensures var o := Admit(records, nextId, sender, receiver, now);
      && o.response.status == HttpBadRequest
      && o.response.body.error == (if records[k].fromUser == sender.id then AlreadySent else AlreadyReceived)
      && o.records == records
  {
    AdmitExistingLink(records, nextId, sender, receiver, now, k);
  }

  /** Once a pending request from A to B is the only row linking them, A
      asking again is told it was already sent, and B asking A is told A
      already sent one. */
  lemma AdmitAfterRequest(records: seq<Friendship>, nextId: nat, a: User, b: User, now: int, later: int)
    requires a.id != b.id
    requires forall i :: 0 <= i < |records| ==> !Links(records[i], a.id, b.id)
    ensures var rows := records + [NewRequest(nextId, a.id, b.id, now)];
      && Admit(rows, nextId + 1, a, b, later).response == Error(HttpBadRequest, AlreadySent)
      && Admit(rows, nextId + 1, b, a, later).response == Error(HttpBadRequest, AlreadyReceived)
  {
    var rows := records + [NewRequest(nextId, a.id, b.id, now)];
    var n := |records|;
    assert forall i :: 0 <= i < n ==> rows[i] == records[i];
    assert Linking(a.id, b.id)(rows[n]) && Linking(b.id, a.id)(rows[n]);
    assert First(rows, Linking(a.id, b.id)) == Some(n);
    assert First(rows, Linking(b.id, a.id)) == Some(n);
  }

  /** After a successful request from A to B, A asking again (at any later
      time) is told the request was already sent, and B asking A is told A
      already sent one. */
  lemma SendThenResend(users: seq<User>, records: seq<Friendship>, nextId: nat, sender: User,
                       receiverEmail: Option<string>, senderEmail: string, now: int, later: int)
    requires SendStep(users, records, nextId, sender, receiverEmail, now).response.status == HttpCreated
    requires senderEmail != "" && GetIndex(users, EmailIs(senderEmail)).Found?
    requires users[GetIndex(users, EmailIs(senderEmail)).value] == sender
    ensures var o := SendStep(users, records, nextId, sender, receiverEmail, now);
      var receiver := o.response.body.toUser;
      && SendStep(users, o.records, o.nextId, sender, receiverEmail, later).response == Error(HttpBadRequest, AlreadySent)
      && SendStep(users, o.records, o.nextId, receiver, Some(senderEmail), later).response == Error(HttpBadRequest, AlreadyReceived)
  {
    var o := SendStep(users, records, nextId, sender, receiverEmail, now);
    var receiver := users[GetIndex(users, EmailIs(receiverEmail.value)).value];
    assert o == Admit(records, nextId, sender, receiver, now);
    assert o.response.body.toUser == receiver;
    var rows := records + [NewRequest(nextId, sender.id, receiver.id, now)];
    assert o.records == rows && o.nextId == nextId + 1;
    assert SendStep(users, rows, nextId + 1, sender, receiverEmail, later) == Admit(rows, nextId + 1, sender, receiver, later);
    assert SendStep(users, rows, nextId + 1, receiver, Some(senderEmail), later) == Admit(rows, nextId + 1, receiver, sender, later);
    AdmitAfterRequest(records, nextId, sender, receiver, now, later);
  }

  /** A successful request counts towards the sender's limit for the next minute. */
  lemma SendCountsTowardLimit(users: seq<User>, records: seq<Friendship>, nextId: nat, sender: User,
                              receiverEmail: Option<string>, now: int, later: int)
    requires now <= later < now + OneMinute
    requires SendStep(users, records, nextId, sender, receiverEmail, now).response.status == HttpCreated
    ensures var o := SendStep(users, records, nextId, sender, receiverEmail, now);
      RecentRequests(o.records, sender.id, later) == RecentRequests(records, sender.id, later) + 1
  {
    var o := SendStep(users, records, nextId, sender, receiverEmail, now);
    var receiver := users[GetIndex(users, EmailIs(receiverEmail.value)).value];
    var request := NewRequest(nextId, sender.id, receiver.id, now);
    assert o.records == records + [request];
    assert SentSince(sender.id, later - OneMinute)(request);
    IndicesAppend(records, SentSince(sender.id, later - OneMinute), request);
  }

  /** Requests older than a minute no longer count, whatever their status. */
  lemma RateWindowExpires(records: seq<Friendship>, uid: UserId, now: int)
    requires forall i :: 0 <= i < |records| && records[i].fromUser == uid ==> records[i].createdAt < now - OneMinute
    ensures RecentRequests(records, uid, now) == 0
  {
    IndicesNone(records, SentSince(uid, now - OneMinute));
  }

  /** Appending a row whose two users exist keeps every key resolving. */
  lemma AppendKeepsRefsResolve(users: seq<User>, records: seq<Friendship>, f: Friendship)
    requires RefsResolve(users, records)
    requires UserById(users, f.fromUser).Some? && UserById(users, f.toUser).Some?
    ensures RefsResolve(users, records + [f])
  {
    forall i | 0 <= i < |records| + 1
      ensures UserById(users, (records + [f])[i].fromUser).Some? && UserById(users, (records + [f])[i].toUser).Some?
    {
      if i < |records| {
        assert (records + [f])[i] == records[i];
      }
    }
  }

  /** A successful request adds only rows whose users exist. */
  lemma SendKeepsRefsResolve(users: seq<User>, records: seq<Friendship>, nextId: nat, sender: User,
                             receiverEmail: Option<string>, now: int)
    requires RefsResolve(users, records) && UserById(users, sender.id).Some?
    ensures RefsResolve(users, SendStep(users, records, nextId, sender, receiverEmail, now).records)
  {
    var o := SendStep(users, records, nextId, sender, receiverEmail, now);
    if o.response.status == HttpCreated {
      var receiver := users[GetIndex(users, EmailIs(receiverEmail.value)).value];
      var request := NewRequest(nextId, sender.id, receiver.id, now);
      assert o == Admit(records, nextId, sender, receiver, now);
      assert UserById(users, receiver.id).Some?;
      AppendKeepsRefsResolve(users, records, request);
    }
  }

  // ---------------------------------------------------------------------
  // Accept and reject

  /** Accepting or rejecting cannot be repeated: the request is no longer
      pending, so the same call (either decision) finds nothing. */
  lemma RespondNotRepeatable(users: seq<User>, records: seq<Friendship>, nextId: nat, actor: User,
                             senderEmail: Option<string>, d: Decision, d2: Decision, now: int, later: int)
    requires RespondStep(users, records, nextId, actor, senderEmail, d, now).response.status == HttpOk
    ensures var o := RespondStep(users, records, nextId, actor, senderEmail, d, now);
      RespondStep(users, o.records, o.nextId, actor, senderEmail, d2, later) ==
        Outcome(Error(HttpNotFound, RequestNotFound), o.records, o.nextId)
  {
    var o := RespondStep(users, records, nextId, actor, senderEmail, d, now);
    var p := IncomingPending(users, actor.id, senderEmail.value);
    var k := GetIndex(records, p).value;
    forall i | 0 <= i < |o.records| ensures !p(o.records[i]) {
      if i != k {
        assert o.records[i] == records[i];
      }
    }
  }

  /** Accepting and rejecting leave the rate-limit count of every user as it
      was: the count reads only the sender and the creation time. */
  lemma RespondKeepsRecentRequests(users: seq<User>, records: seq<Friendship>, nextId: nat, actor: User,
                                   senderEmail: Option<string>, d: Decision, now: int, uid: UserId, t: int)
    ensures RecentRequests(RespondStep(users, records, nextId, actor, senderEmail, d, now).records, uid, t) ==
            RecentRequests(records, uid, t)
  {
    var o := RespondStep(users, records, nextId, actor, senderEmail, d, now);
    if o.response.status == HttpOk {
      var k :| 0 <= k < |records| && IncomingPending(users, actor.id, senderEmail.value)(records[k])
               && o.records == records[k := SavedWithStatus(records[k], Target(d), now)];
      IndicesUpdateCount(records, SentSince(uid, t - OneMinute), k, SavedWithStatus(records[k], Target(d), now));
    }
  }

  /** Accepting or rejecting changes no row's users, so they still exist. */
  lemma RespondKeepsRefsResolve(users: seq<User>, records: seq<Friendship>, nextId: nat, actor: User,
                                senderEmail: Option<string>, d: Decision, now: int)
    requires RefsResolve(users, records)
    ensures RefsResolve(users, RespondStep(users, records, nextId, actor, senderEmail, d, now).records)
  {
    var o := RespondStep(users, records, nextId, actor, senderEmail, d, now);
    forall i | 0 <= i < |o.records|
      ensures UserById(users, o.records[i].fromUser).Some? && UserById(users, o.records[i].toUser).Some?
    {
      assert o.records[i].fromUser == records[i].fromUser && o.records[i].toUser == records[i].toUser;
    }
  }

  /** Accepting moves one request out of the actor's pending list and adds
      one friend to the actor's friend list. */
  lemma AcceptMovesRequest(users: seq<User>, records: seq<Friendship>, nextId: nat, actor: User,
                           senderEmail: Option<string>, now: int)
    requires RefsResolve(users, records)
    requires RespondStep(users, records, nextId, actor, senderEmail, Accept, now).response.status == HttpOk
    ensures var o := RespondStep(users, records, nextId, actor, senderEmail, Accept, now);
      && RefsResolve(users, o.records)
      && |ListPending(users, o.records, actor).body.requests| == |ListPending(users, records, actor).body.requests| - 1
      && |ListFriends(users, o.records, actor).body.users| == |ListFriends(users, records, actor).body.users| + 1
  {
    var o := RespondStep(users, records, nextId, actor, senderEmail, Accept, now);
    RespondKeepsRefsResolve(users, records, nextId, actor, senderEmail, Accept, now);
    var k :| 0 <= k < |records| && IncomingPending(users, actor.id, senderEmail.value)(records[k])
             && o.records == records[k := SavedWithStatus(records[k], Accepted, now)];
    var f := SavedWithStatus(records[k], Accepted, now);
    IndicesUpdateCount(records, PendingFor(actor.id), k, f);
    IndicesUpdateCount(records, FriendshipOf(actor.id), k, f);
  }

  // ---------------------------------------------------------------------
  // The two lists

  /** Row `i` is an accepted friendship of `uid` and `e` is its friend-list entry. */
  predicate FriendRow(users: seq<User>, records: seq<Friendship>, uid: UserId, i: int, e: UserSummary)
  {
    && 0 <= i < |records| && records[i].status == Accepted
    && (records[i].fromUser == uid || records[i].toUser == uid)
    && UserById(users, records[i].fromUser).Some? && UserById(users, records[i].toUser).Some?
    && e == FriendEntry(users, records[i], uid)
  }

  /** Every friend listed comes from an accepted row with the user on one
      side, and names the other side: pending and rejected rows never appear. */
  lemma FriendsSound(users: seq<User>, records: seq<Friendship>, user: User)
    requires RefsResolve(users, records)
    ensures forall e :: e in ListFriends(users, records, user).body.users ==>
              exists i :: FriendRow(users, records, user.id, i, e)
  {
    var entries := ListFriends(users, records, user).body.users;
    var idx := Indices(records, FriendshipOf(user.id));
    forall e | e in entries ensures exists i :: FriendRow(users, records, user.id, i, e) {
      var k :| 0 <= k < |entries| && entries[k] == e;
      assert FriendshipOf(user.id)(records[idx[k]]);
      assert FriendRow(users, records, user.id, idx[k], e);
    }
  }

  /** Every accepted row with the user on one side is listed, naming the other side. */
  lemma FriendsComplete(users: seq<User>, records: seq<Friendship>, user: User)
    requires RefsResolve(users, records)
    ensures var entries := ListFriends(users, records, user).body.users;
      forall i ::
        && 0 <= i < |records| && records[i].status == Accepted
        && (records[i].fromUser == user.id || records[i].toUser == user.id)
        ==> FriendEntry(users, records[i], user.id) in entries
  {
    var entries := ListFriends(users, records, user).body.users;
    var idx := Indices(records, FriendshipOf(user.id));
    forall i | && 0 <= i < |records| && records[i].status == Accepted
               && (records[i].fromUser == user.id || records[i].toUser == user.id)
      ensures FriendEntry(users, records[i], user.id) in entries
    {
      assert FriendshipOf(user.id)(records[i]);
      var k :| 0 <= k < |idx| && idx[k] == i;
      assert entries[k] == FriendEntry(users, records[i], user.id);
    }
  }

  /** Row `i` is a pending request to `uid` and `e` is its pending-list entry. */
  predicate PendingRow(users: seq<User>, records: seq<Friendship>, uid: UserId, i: int, e: PendingItem)
  {
    && 0 <= i < |records| && records[i].toUser == uid && records[i].status == Pending
    && UserById(users, records[i].fromUser).Some?
    && e == PendingEntry(users, records[i])
  }

  /** Every pending entry listed comes from a pending row addressed to the
      user and names that row's sender. */
  lemma PendingSound(users: seq<User>, records: seq<Friendship>, user: User)
    requires RefsResolve(users, records)
    ensures forall e :: e in ListPending(users, records, user).body.requests ==>
              exists i :: PendingRow(users, records, user.id, i, e)
  {
    var items := ListPending(users, records, user).body.requests;
    var idx := Indices(records, PendingFor(user.id));
    forall e | e in items ensures exists i :: PendingRow(users, records, user.id, i, e) {
      var k :| 0 <= k < |items| && items[k] == e;
      assert PendingFor(user.id)(records[idx[k]]);
      assert PendingRow(users, records, user.id, idx[k], e);
    }
  }

  /** Every pending row addressed to the user is listed. */
  lemma PendingComplete(users: seq<User>, records: seq<Friendship>, user: User)
    requires RefsResolve(users, records)
    ensures var items := ListPending(users, records, user).body.requests;
      forall i :: 0 <= i < |records| && records[i].toUser == user.id && records[i].status == Pending ==>
        PendingEntry(users, records[i]) in items
  {
    var items := ListPending(users, records, user).body.requests;
    var idx := Indices(records, PendingFor(user.id));
    forall i | 0 <= i < |records| && records[i].toUser == user.id && records[i].status == Pending
      ensures PendingEntry(users, records[i]) in items
    {
      assert PendingFor(user.id)(records[i]);
      var k :| 0 <= k < |idx| && idx[k] == i;
      assert items[k] == PendingEntry(users, records[i]);
    }
  }

  /** `entries` names the user `id` at exactly one position. */
  predicate ListedOnce(entries: seq<UserSummary>, id: UserId)
  {
    exists p :: 0 <= p < |entries| && entries[p].id == id &&
      forall q :: 0 <= q < |entries| && entries[q].id == id ==> q == p
  }

  /** With one row per pair, row `k` between `a` and `b` is the only row
      whose other party, seen from `a`, is `b`. */
  lemma OnlyLinkingRow(records: seq<Friendship>, a: UserId, b: UserId, k: nat)
    requires PairsUnique(records)
    requires a != b && k < |records| && Links(records[k], a, b)
    ensures forall j :: 0 <= j < |records| && FriendshipOf(a)(records[j]) && OtherParty(records[j], a) == b ==> j == k
  {
    forall j | 0 <= j < |records| && FriendshipOf(a)(records[j]) && OtherParty(records[j], a) == b ensures j == k {
      assert Links(records[j], a, b);
    }
  }

  /** With one row per pair, an accepted row between `a` and `b` puts `b`
      exactly once on `a`'s friend list. */
  lemma FriendListedOnce(users: seq<User>, records: seq<Friendship>, a: User, b: UserId, k: nat)
    requires RefsResolve(users, records) && PairsUnique(records)
    requires a.id != b
    requires k < |records| && records[k].status == Accepted && Links(records[k], a.id, b)
    ensures ListedOnce(ListFriends(users, records, a).body.users, b)
  {
    OnlyLinkingRow(records, a.id, b, k);
    var entries := ListFriends(users, records, a).body.users;
    var idx := Indices(records, FriendshipOf(a.id));
    assert FriendshipOf(a.id)(records[k]);
    var p :| 0 <= p < |idx| && idx[p] == k;
    assert entries[p].id == OtherParty(records[k], a.id) == b;
    forall q | 0 <= q < |entries| && entries[q].id == b ensures q == p {
      var j := idx[q];
      assert FriendshipOf(a.id)(records[j]) && entries[q].id == OtherParty(records[j], a.id);
      assert j == k;
    }
  }

  /** Accepting makes the two users friends of each other: each appears
      exactly once on the other's friend list. */
  lemma AcceptMakesFriends(users: seq<User>, records: seq<Friendship>, nextId: nat, actor: User,
                           senderEmail: Option<string>, now: int)
    requires RefsResolve(users, records) && StoreInvariant(records, nextId)
    requires RespondStep(users, records, nextId, actor, senderEmail, Accept, now).response.status == HttpOk
    ensures var o := RespondStep(users, records, nextId, actor, senderEmail, Accept, now);
      && RefsResolve(users, o.records)
      && exists k :: 0 <= k < |o.records| && o.records[k].toUser == actor.id &&
           var sender := UserById(users, o.records[k].fromUser);
           && sender.Some?
           && SenderEmailIs(users, o.records[k].fromUser, senderEmail.value)
           && ListedOnce(ListFriends(users, o.records, actor).body.users, sender.value.id)
           && ListedOnce(ListFriends(users, o.records, sender.value).body.users, actor.id)
  {
    var o := RespondStep(users, records, nextId, actor, senderEmail, Accept, now);
    RespondKeepsRefsResolve(users, records, nextId, actor, senderEmail, Accept, now);
    var k :| 0 <= k < |records| && IncomingPending(users, actor.id, senderEmail.value)(records[k])
             && o.records == records[k := SavedWithStatus(records[k], Accepted, now)];
    var f := o.records[k];
    var sender := UserById(users, f.fromUser).value;
    assert f.fromUser != f.toUser;
    FriendListedOnce(users, o.records, actor, sender.id, k);
    FriendListedOnce(users, o.records, sender, actor.id, k);
  }

  /** `entries` names the user `id` nowhere. */
  predicate NotListed(entries: seq<UserSummary>, id: UserId)
  {
    forall q :: 0 <= q < |entries| ==> entries[q].id != id
  }

  /** With one row per pair, a row between `a` and `b` that is not accepted
      leaves no accepted row whose other party, seen from `a`, is `b`. */
  lemma NoAcceptedLink(records: seq<Friendship>, a: UserId, b: UserId, k: nat)
    requires PairsUnique(records)
    requires k < |records| && records[k].status != Accepted && Links(records[k], a, b)
    ensures forall j :: 0 <= j < |records| && FriendshipOf(a)(records[j]) ==> OtherParty(records[j], a) != b
  {
    forall j | 0 <= j < |records| && FriendshipOf(a)(records[j]) ensures OtherParty(records[j], a) != b {
      assert j != k;
    }
  }

  /** With one row per pair, a row between `a` and `b` that is not accepted
      keeps `b` off `a`'s friend list. */
  lemma FriendNotListed(users: seq<User>, records: seq<Friendship>, a: User, b: UserId, k: nat)
    requires RefsResolve(users, records) && PairsUnique(records)
    requires k < |records| && records[k].status != Accepted && Links(records[k], a.id, b)
    ensures NotListed(ListFriends(users, records, a).body.users, b)
  {
    NoAcceptedLink(records, a.id, b, k);
    var entries := ListFriends(users, records, a).body.users;
    var idx := Indices(records, FriendshipOf(a.id));
    forall q | 0 <= q < |entries| ensures entries[q].id != b {
      var j := idx[q];
      assert FriendshipOf(a.id)(records[j]) && entries[q].id == OtherParty(records[j], a.id);
    }
  }

  /** Rejecting leaves the two users apart: the request is kept with the
      rejected status, and neither appears on the other's friend list. */
  lemma RejectKeepsApart(users: seq<User>, records: seq<Friendship>, nextId: nat, actor: User,
                         senderEmail: Option<string>, now: int)
    requires RefsResolve(users, records) && StoreInvariant(records, nextId)
    requires RespondStep(users, records, nextId, actor, senderEmail, Reject, now).response.status == HttpOk
    ensures var o := RespondStep(users, records, nextId, actor, senderEmail, Reject, now);
      && RefsResolve(users, o.records)
      && exists k :: 0 <= k < |o.records| && o.records[k].toUser == actor.id &&
           var sender := UserById(users, o.records[k].fromUser);
           && o.records[k].status == Rejected
           && sender.Some?
           && SenderEmailIs(users, o.records[k].fromUser, senderEmail.value)
           && NotListed(ListFriends(users, o.records, actor).body.users, sender.value.id)
           && NotListed(ListFriends(users, o.records, sender.value).body.users, actor.id)
  {
    var o := RespondStep(users, records, nextId, actor, senderEmail, Reject, now);
    RespondKeepsRefsResolve(users, records, nextId, actor, senderEmail, Reject, now);
    var k :| 0 <= k < |records| && IncomingPending(users, actor.id, senderEmail.value)(records[k])
             && o.records == records[k := SavedWithStatus(records[k], Rejected, now)];
    var f := o.records[k];
    var sender := UserById(users, f.fromUser).value;
    FriendNotListed(users, o.records, actor, sender.id, k);
    FriendNotListed(users, o.records, sender, actor.id, k);
  }

  // ---------------------------------------------------------------------
  // The uncaught `get()` exception

  /** When no two users' emails differ only in case, the receiver lookup of
      Send never raises, so Send never answers 500. */
  lemma SendNeverRaises(users: seq<User>, records: seq<Friendship>, nextId: nat, sender: User,
                        receiverEmail: Option<string>, now: int)
    requires UniqueEmailsIgnoringCase(users)
    ensures SendStep(users, records, nextId, sender, receiverEmail, now).response.status != HttpServerError
  {
    if receiverEmail.Some? {
      var p := EmailIs(receiverEmail.value);
      forall i, j | 0 <= i < j < |users| && p(users[i]) ensures !p(users[j]) {
        assert !EqualsIgnoreCase(users[i].email, users[j].email);
      }
    }
  }

  /** Two different users of a table whose emails are unique ignoring case
      have emails that differ ignoring case. */
  lemma DistinctUsersDistinctEmails(users: seq<User>, a: User, b: User)
    requires UniqueEmailsIgnoringCase(users) && UniqueIds(users)
    requires a in users && b in users && a.id != b.id
    ensures !EqualsIgnoreCase(a.email, b.email)
  {
    var x :| 0 <= x < |users| && users[x] == a;
    var y :| 0 <= y < |users| && users[y] == b;
    if x < y {
      assert !EqualsIgnoreCase(users[x].email, users[y].email);
    } else {
      assert !EqualsIgnoreCase(users[y].email, users[x].email);
    }
  }

  /** When, besides, ids are keys and there is one row per pair, the lookup
      of accept and reject never raises either. */
  lemma RespondNeverRaises(users: seq<User>, records: seq<Friendship>, nextId: nat, actor: User,
                           senderEmail: Option<string>, d: Decision, now: int)
    requires UniqueEmailsIgnoringCase(users) && UniqueIds(users) && PairsUnique(records)
    ensures RespondStep(users, records, nextId, actor, senderEmail, d, now).response.status != HttpServerError
  {
    if senderEmail.Some? {
      var p := IncomingPending(users, actor.id, senderEmail.value);
      forall i, j | 0 <= i < j < |records| && p(records[i]) ensures !p(records[j]) {
        var a := UserById(users, records[i].fromUser).value;
        var other := UserById(users, records[j].fromUser);
        if records[j].fromUser != records[i].fromUser && other.Some? {
          DistinctUsersDistinctEmails(users, a, other.value);
        }
        assert !Links(records[i], records[j].fromUser, records[j].toUser);
      }
    }
  }

  /** The email column is unique only exactly, so two users whose emails
      differ only in case can both exist, and a request to either email then
      fails with the uncaught exception. */
  lemma CaseVariantEmailsRaise(now: int)
    ensures var users := [
        NewUser(1, "Ann@example.com", "Ann", NoExtraFields, now),
        NewUser(2, "ann@example.com", "Ann", NoExtraFields, now)];
      var sender := NewUser(3, "bob@example.com", "Bob", NoExtraFields, now);
      && UniqueIds(users) && UniqueEmails(users)
      && SendStep(users, [], 1, sender, Some("ann@example.com"), now).response == AmbiguousLookup
      && SendStep(users, [], 1, sender, Some("Ann@example.com"), now).response == AmbiguousLookup
  {
    var users := [
        NewUser(1, "Ann@example.com", "Ann", NoExtraFields, now),
        NewUser(2, "ann@example.com", "Ann", NoExtraFields, now)];
    assert users[0].email[0] != users[1].email[0];
    assert LowerStr(users[0].email) == LowerStr("ann@example.com");
    assert LowerStr(users[1].email) == LowerStr("ann@example.com");
    assert EmailIs("ann@example.com")(users[0]) && EmailIs("ann@example.com")(users[1]);
    assert LowerStr("Ann@example.com") == LowerStr("ann@example.com");
    assert EmailIs("Ann@example.com")(users[0]) && EmailIs("Ann@example.com")(users[1]);
  }
}
