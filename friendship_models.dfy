/** The `Friendship` record of apps/friendships/models.py: its status
    choices and default, its two timestamps, the declared uniqueness of the
    ordered pair, and its string form. */
module FriendshipModels {
  import opened Util
  import opened Accounts

  datatype Status = Pending | Accepted | Rejected

  const StatusMaxLength := 10

  /** The value stored in the `status` column for each choice. */
  function StatusValue(s: Status): (v: string)
    ensures |v| <= StatusMaxLength
  {
    match s
    case Pending => "pending"
    case Accepted => "accepted"
    case Rejected => "rejected"
  }

  /** The choice a stored status string stands for, if any: the inverse of StatusValue. */
  function ParseStatus(v: string): (r: Option<Status>)
    ensures r.Some? ==> StatusValue(r.value) == v
    ensures forall s :: StatusValue(s) == v ==> r == Some(s)
  {
    if v == "pending" then Some(Pending)
    else if v == "accepted" then Some(Accepted)
    else if v == "rejected" then Some(Rejected)
    else None
  }

  /** One row of the friendship table. `id` is the auto-increment key;
      `fromUser` sent the request to `toUser`. */
  datatype Friendship = Friendship(
    id: nat,
    fromUser: UserId,
    toUser: UserId,
    status: Status,
    createdAt: int,
    updatedAt: int)

  /** `Friendship(from_user=..., to_user=...).save()`: the status takes its
      default, and `auto_now_add` / `auto_now` both stamp the save time. */
  function NewRequest(id: nat, fromUser: UserId, toUser: UserId, now: int): (f: Friendship)
    ensures f.status == Pending
    ensures f.createdAt == now && f.updatedAt == now
    ensures f.id == id && f.fromUser == fromUser && f.toUser == toUser
  {
    Friendship(id, fromUser, toUser, Pending, now, now)
  }

  /** Assigning `status` and calling `save()`: `auto_now` refreshes
      `updated_at`; `created_at` and everything else are kept. */
  function SavedWithStatus(f: Friendship, s: Status, now: int): (g: Friendship)
    ensures g.status == s && g.updatedAt == now
    ensures g.createdAt == f.createdAt
    ensures g.id == f.id && g.fromUser == f.fromUser && g.toUser == f.toUser
  {
    f.(status := s, updatedAt := now)
  }

  /** `__str__`: the row's two users, reached through its foreign keys, each
      render as their email. */
  function Describe(f: Friendship, fromUser: User, toUser: User): string
    requires fromUser.id == f.fromUser && toUser.id == f.toUser
  {
    fromUser.email + " -> " + toUser.email + " (" + StatusValue(f.status) + ")"
  }

  /** The string form is the sender's email, an arrow, the receiver's
      email, and the status, which can be read back from the parenthesised tail. */
  lemma DescribeShowsParties(f: Friendship, fromUser: User, toUser: User)
    requires fromUser.id == f.fromUser && toUser.id == f.toUser
    ensures var d := Describe(f, fromUser, toUser);
      var v := StatusValue(f.status);
      && d[..|fromUser.email|] == fromUser.email
      && |d| >= |fromUser.email| + 4 + |toUser.email| + |v| + 3
      && d[|fromUser.email|..|d| - |v| - 3] == " -> " + toUser.email
      && d[|d| - |v| - 3..] == " (" + v + ")"
      && ParseStatus(d[|d| - |v| - 1..|d| - 1]) == Some(f.status)
  {
    var d := Describe(f, fromUser, toUser);
    var v := StatusValue(f.status);
    var head := fromUser.email + " -> " + toUser.email;
    var tail := " (" + v + ")";
    assert d == head + tail;
    assert d[..|fromUser.email|] == fromUser.email;
    assert d[|fromUser.email|..|d| - |v| - 3] == head[|fromUser.email|..];
    assert head[|fromUser.email|..] == " -> " + toUser.email;
    assert d[|d| - |v| - 3..] == tail;
    assert d[|d| - |v| - 1..|d| - 1] == tail[2..|tail| - 1] == v;
  }

  /** Whether `f` connects `a` and `b`, in either direction. */
  predicate Links(f: Friendship, a: UserId, b: UserId)
  {
    (f.fromUser == a && f.toUser == b) || (f.fromUser == b && f.toUser == a)
  }

  /** `unique_together = ("from_user", "to_user")`: the ordered pair is unique. */
  predicate OrderedPairsUnique(records: seq<Friendship>)
  {
    forall i, j :: 0 <= i < j < |records| ==>
      !(records[i].fromUser == records[j].fromUser && records[i].toUser == records[j].toUser)
  }

  /** At most one row per unordered pair of users. */
  predicate PairsUnique(records: seq<Friendship>)
  {
    forall i, j :: 0 <= i < j < |records| ==> !Links(records[i], records[j].fromUser, records[j].toUser)
  }

  predicate NoSelfRequests(records: seq<Friendship>)
  {
    forall i :: 0 <= i < |records| ==> records[i].fromUser != records[i].toUser
  }

  lemma PairsUniqueIsStronger(records: seq<Friendship>)
    requires PairsUnique(records)
    ensures OrderedPairsUnique(records)
  {
  }

  /** The schema alone admits a request and its reverse side by side. */
  lemma SchemaAdmitsReversePair(a: UserId, b: UserId, now: int)
    requires a != b
    ensures var rows := [NewRequest(1, a, b, now), NewRequest(2, b, a, now)];
      OrderedPairsUnique(rows) && !PairsUnique(rows)
  {
    var rows := [NewRequest(1, a, b, now), NewRequest(2, b, a, now)];
    assert Links(rows[0], rows[1].fromUser, rows[1].toUser);
  }
}
