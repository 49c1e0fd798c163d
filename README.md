# Friend requests and user records, modelled in Dafny

This project models the friend-request service of a Django REST application:

- the six views of `apps/friendships/views.py`:
  - searching users;
  - sending a friend request;
  - accepting a request;
  - rejecting a request;
  - listing friends;
  - listing pending requests;
- the `Friendship` record they act on;
- the `User` record and its manager in `apps/accounts/models.py`.

The database is two sequences in primary-key order: the user table and the friendship table. A queryset `filter` is the list of positions whose row satisfies a predicate (`Util.Indices`). `.first()` is the first such position (`Util.First`). `.get()` gives one position, `DoesNotExist`, or `MultipleObjectsReturned` (`Util.GetIndex`). The authenticated user is an argument of each view, and `timezone.now()` is an integer argument `now` in microseconds.

Searching and listing are functions of the tables.

Sending, accepting and rejecting change the friendship table. They are methods of the class `FriendshipStore`, whose fields are the table and the next key. Each method is proved to produce exactly the response and the table given by a step function:

- `SendStep` for sending. It checks the lookup guards, then hands over to `Admit` for the guards that read the table.
- `RespondStep` for accepting and rejecting.

The lemmas that relate several calls are stated on these step functions. Examples:

- a second request meets the "already sent" message;
- accepting cannot be repeated;
- accepting moves a request from the pending list to the friend list.

The key invariant of the friendship table is `StoreInvariant`. It requires:

- at most one row per *unordered* pair of users;
- no row from a user to themself;
- keys increasing along the table.

The schema itself enforces only the ordered pair (`SchemaAdmitsReversePair`). The send guards are what keep the unordered one, and every operation preserves it.

The user table holds the fields of `User`. `UserTable.CreateUser` and `UserTable.CreateSuperuser` model the manager methods. `normalize_email` is passed in as a function. The database rejects a second row with the same key or exactly the same email (`IntegrityError`).

The field validators are modelled as predicates: the phone pattern with its length cap, the role choices, and the name length. Django does not run validators on `save()`, so `create_user` does not enforce them, and neither does the model. The model also treats the column lengths as unenforced, as SQLite does. Under that assumption `CreateUserSkipsValidation` inserts a user that breaks all three. PostgreSQL and MySQL in strict mode would reject the over-long name with `DataError` (see "## Left out").

The email uniqueness constraint is case-sensitive under the usual collations of PostgreSQL and SQLite, but the views look emails up ignoring case. Two users whose emails differ only in case can therefore both exist, and a lookup of either email then raises an uncaught exception, which becomes a 500 (`CaseVariantEmailsRaise`). When emails are unique ignoring case, sending never raises (`SendNeverRaises`). When, besides, user keys are unique and the friendship table has at most one row per unordered pair, accepting and rejecting never raise either (`RespondNeverRaises`).

## Model

| member | source | states |
|---|---|---|
| Util.Indices | apps/friendships/views.py:28-30 | the rows a filter yields are exactly the positions whose row satisfies it, each once, in table order |
| Util.First | apps/friendships/views.py:65-68 | `.first()` is empty iff no row matches, and otherwise is the lowest matching position |
| Util.GetIndex | apps/friendships/views.py:119-127 | `.get()` raises `DoesNotExist` iff no row matches, finds the only matching row, and raises `MultipleObjectsReturned` iff two rows match |
| Util.IndicesCount | apps/friendships/views.py:87-90 | a filter yields exactly as many rows as there are matching elements |
| Util.CountUpdate | apps/friendships/views.py:129-130 | replacing one element changes the number of matching elements by what the filter says about the old and the new element |
| Util.IndicesUpdateCount | apps/friendships/views.py:129-130 | replacing one row changes a filter's count by exactly what the filter says about the old and the new row |
| Util.IndicesAppend | apps/friendships/views.py:100-101 | appending a row adds it to a filter's result exactly when it matches |
| Util.IndicesNone | apps/friendships/views.py:88-90 | a filter no row satisfies yields nothing |
| Text.Lower | apps/friendships/views.py:20 | lower-casing maps each upper-case ASCII letter to the letter 32 code points above it, which is its lower-case form, and keeps every other character |
| Text.LowerStr | apps/friendships/views.py:20 | `str.lower()` keeps the length and lower-cases each character |
| Text.LowerStrIdempotent | apps/friendships/views.py:20 | lower-casing twice is lower-casing once |
| Text.LeadingSpaces | apps/friendships/views.py:20 | counts the whitespace run that starts the string: all of it is whitespace, and the next character is not |
| Text.TrailingSpaces | apps/friendships/views.py:20 | counts the whitespace run that ends the string: all of it is whitespace, and the character before it is not |
| Text.Strip | apps/friendships/views.py:20 | `str.strip()` is empty iff the string is blank; otherwise it neither starts nor ends with whitespace and sits inside the string with only whitespace around it |
| Accounts.ParseRole | apps/accounts/models.py:32-36 | reading a stored role is the inverse of the stored value of each of the three choices |
| Accounts.RoleFitsColumn | apps/accounts/models.py:53 | every role choice round-trips and fits the 10-character column |
| Accounts.PhoneValidIff | apps/accounts/models.py:43-51 | a phone number is valid iff it is 9 to 15 digits, or a `+` and 9 to 14 digits |
| Accounts.SixteenDigitPhone | apps/accounts/models.py:44-47 | sixteen digits match the pattern iff the first is `1`, and the length cap rejects them all |
| Accounts.PhoneAsWrittenIff | apps/accounts/models.py:43-51 | the validator as written accepts exactly the valid numbers plus a valid number followed by one newline, within 15 characters |
| Accounts.TrailingNewlineAccepted | apps/accounts/models.py:47 | `"123456789\n"` passes the validator as written but is not a valid phone number |
| Accounts.IgnoringCaseIsStronger | apps/accounts/models.py:42 | emails unique ignoring case are unique as the column requires |
| Accounts.NewUser | apps/accounts/models.py:57-62 | a new user has the given key, email and name, no last login, an empty `receiver_id`, and is created and updated now; each extra field given is stored as given, and each one omitted takes its default: active, not staff, not admin, empty phone and role |
| Accounts.CreateUserOutcome | apps/accounts/models.py:9-17 | an empty or missing email raises `ValueError` and adds no user; otherwise the user is built from the normalised email and inserted unless key or email collide; the table keeps unique keys and emails |
| Accounts.CreateUserSkipsValidation | apps/accounts/models.py:14-16 | with column lengths unenforced, as under SQLite, `create_user` inserts a user whose name is too long, whose phone does not match the pattern and whose role is not a choice |
| Accounts.UserTable.CreateUser | apps/accounts/models.py:9-17 | the method leaves exactly the result and table of CreateUserOutcome and keeps the table valid |
| Accounts.UserTable.CreateSuperuser | apps/accounts/models.py:19-28 | flags not given default to True; a staff flag other than True raises first, then an admin flag other than True; otherwise it is `create_user` with both flags True, so a created superuser is staff and admin |
| FriendshipModels.StatusValue | apps/friendships/models.py:14-20 | every stored status fits the 10-character column |
| FriendshipModels.ParseStatus | apps/friendships/models.py:14-20 | reading a stored status is the inverse of the stored value of each of the three choices |
| FriendshipModels.NewRequest | apps/friendships/models.py:21-24 | a new row is pending, and both timestamps are its creation time |
| FriendshipModels.SavedWithStatus | apps/friendships/models.py:23-24 | saving a new status refreshes `updated_at` and keeps `created_at`, the key and both users |
| FriendshipModels.DescribeShowsParties | apps/friendships/models.py:29-30 | for the row's own two users, the string form is the sender's email, then ` -> ` and the receiver's email, then the parenthesised status, which reads back to the row's status |
| FriendshipModels.PairsUniqueIsStronger | apps/friendships/models.py:26-27 | one row per unordered pair implies the declared uniqueness of the ordered pair |
| FriendshipModels.SchemaAdmitsReversePair | apps/friendships/models.py:26-27 | a request and its reverse satisfy the declared constraint but not one row per unordered pair |
| FriendshipViews.UserById | apps/friendships/views.py:171-174 | following a foreign key finds a user with that key iff one exists |
| FriendshipViews.AppendKeepsInvariant | apps/friendships/views.py:65-101 | a new row between two distinct users that no row links, with the next key, keeps the table invariant |
| FriendshipViews.StatusChangeKeepsInvariant | apps/friendships/views.py:129-130 | changing only status and timestamp of one row keeps the table invariant |
| FriendshipViews.MatchingUsers | apps/friendships/views.py:28-30 | the k-th matching user is the user at the k-th position the search filter selects |
| FriendshipViews.SearchUsers | apps/friendships/views.py:19-35 | a query blank after stripping gives 400 with its message; otherwise 200 with the first ten matching users, summarised |
| FriendshipViews.Admit | apps/friendships/views.py:65-104 | 400 iff a row links the pair in either direction; 429 with the rate-limit message iff none does and the sender made three or more requests in the last minute; otherwise 201 and exactly one pending row from sender to receiver stamped now is appended; refusals leave the table; the invariant is kept |
| FriendshipViews.SendStep | apps/friendships/views.py:41-104 | a missing or empty email gives 400; 404 iff no user has the email ignoring case; 500 iff several do; the sender's own email gives 400; otherwise Admit decides; only 201 changes the table; the invariant is kept |
| FriendshipViews.RespondStep | apps/friendships/views.py:110-164 | 400 with the missing-email message iff the email is missing or empty; 404 with the not-found message iff no pending row to the actor from a sender with that email exists; 500 iff two or more such rows exist; 200 iff exactly one does, and then exactly that row gets the decided status and updated timestamp and no other row changes; the invariant is kept |
| FriendshipViews.FriendEntry | apps/friendships/views.py:177-193 | an entry of the friend list is the key, name and email of a user in the table: the party of the row that is not the user |
| FriendshipViews.ListFriends | apps/friendships/views.py:170-196 | 200 with one entry per accepted row with the user on either side, in table order |
| FriendshipViews.PendingEntry | apps/friendships/views.py:207-214 | a pending entry carries the row's key, its creation time, and the key, name and email of the sender, a user in the table |
| FriendshipViews.ListPending | apps/friendships/views.py:202-217 | 200 with one entry per pending row addressed to the user, in table order |
| FriendshipViews.FriendshipStore.constructor | apps/friendships/models.py:5-27 | an empty table satisfies the invariant |
| FriendshipViews.FriendshipStore.SendFriendRequest | apps/friendships/views.py:41-104 | the method leaves exactly the response and table of SendStep and keeps the invariant |
| FriendshipViews.FriendshipStore.Respond | apps/friendships/views.py:111-134 | the method leaves exactly the response and table of RespondStep and keeps the invariant |
| FriendshipViews.FriendshipStore.AcceptFriendRequest | apps/friendships/views.py:110-134 | accepting is RespondStep with the accepted status |
| FriendshipViews.FriendshipStore.RejectFriendRequest | apps/friendships/views.py:140-164 | rejecting is RespondStep with the rejected status |
| FriendshipProperties.SearchSound | apps/friendships/views.py:28-33 | every returned user has an email equal to the query or a name containing it, ignoring case |
| FriendshipProperties.SearchComplete | apps/friendships/views.py:28-35 | when at most ten users match, every matching user is returned |
| FriendshipProperties.SearchDistinct | apps/friendships/views.py:30 | no user is returned twice |
| FriendshipProperties.SendGuardsIgnoreTable | apps/friendships/views.py:45-63 | the missing-email, unknown-receiver and self-request answers do not depend on the friendship table and leave it unchanged |
| FriendshipProperties.SendSucceedsIff | apps/friendships/views.py:45-104 | sending succeeds iff every guard passes |
| FriendshipProperties.AdmitExistingLink | apps/friendships/views.py:65-85 | a row linking the pair chooses the message: already friends if accepted, else already sent if the sender sent it, else already received; the table is unchanged |
| FriendshipProperties.RejectedRequestBlocks | apps/friendships/views.py:70-85 | a rejected row still refuses a new request in either direction |
| FriendshipProperties.AdmitAfterRequest | apps/friendships/views.py:65-85 | after a pending request A to B, A again gets "already sent" and B gets "already received" |
| FriendshipProperties.SendThenResend | apps/friendships/views.py:65-104 | after a successful send, the same send gets "already sent" and the reverse send gets "already received" |
| FriendshipProperties.SendCountsTowardLimit | apps/friendships/views.py:87-101 | a successful request raises the sender's count for the following minute by one |
| FriendshipProperties.RateWindowExpires | apps/friendships/views.py:87-90 | requests older than a minute, of any status, do not count |
| FriendshipProperties.AppendKeepsRefsResolve | apps/friendships/views.py:100-101 | appending a row whose two users exist keeps every row's users resolving |
| FriendshipProperties.SendKeepsRefsResolve | apps/friendships/views.py:100-101 | a new row refers only to existing users |
| FriendshipProperties.RespondNotRepeatable | apps/friendships/views.py:119-127 | after accepting or rejecting, the same call with either decision gets 404 and changes nothing |
| FriendshipProperties.RespondKeepsRefsResolve | apps/friendships/views.py:129-130 | accepting or rejecting changes only a status, so every row still refers to existing users |
| FriendshipProperties.RespondKeepsRecentRequests | apps/friendships/views.py:87-90 | accepting or rejecting changes no user's rate-limit count |
| FriendshipProperties.FriendsSound | apps/friendships/views.py:171-195 | every entry on the friend list comes from an accepted row with the user on one side, naming the other side |
| FriendshipProperties.FriendsComplete | apps/friendships/views.py:171-195 | every accepted row with the user on one side gives an entry |
| FriendshipProperties.PendingSound | apps/friendships/views.py:203-216 | every entry on the pending list comes from a pending row addressed to the user and names its sender |
| FriendshipProperties.PendingComplete | apps/friendships/views.py:203-216 | every pending row addressed to the user gives an entry |
| FriendshipProperties.AcceptMovesRequest | apps/friendships/views.py:129-130 | accepting shortens the actor's pending list by one and lengthens the friend list by one |
| FriendshipProperties.OnlyLinkingRow | apps/friendships/views.py:176-195 | with one row per pair, the row linking two users is the only accepted row naming the second as the first's friend |
| FriendshipProperties.FriendListedOnce | apps/friendships/views.py:171-195 | with one row per pair, an accepted row puts the other user exactly once on the friend list |
| FriendshipProperties.AcceptMakesFriends | apps/friendships/views.py:110-134 | after accepting, sender and actor each appear exactly once on the other's friend list |
| FriendshipProperties.NoAcceptedLink | apps/friendships/views.py:176-195 | with one row per pair, a row linking two users that is not accepted leaves no accepted row naming one as the other's friend |
| FriendshipProperties.FriendNotListed | apps/friendships/views.py:171-195 | with one row per pair, a row between two users that is not accepted keeps each off the other's friend list |
| FriendshipProperties.RejectKeepsApart | apps/friendships/views.py:140-164 | after rejecting, the request stays in the table as rejected, and neither the actor nor the sender appears on the other's friend list |
| FriendshipProperties.SendNeverRaises | apps/friendships/views.py:51-57 | with emails unique ignoring case, sending never answers 500 |
| FriendshipProperties.DistinctUsersDistinctEmails | apps/accounts/models.py:42 | two different users have emails that differ ignoring case, when the table keeps them so |
| FriendshipProperties.RespondNeverRaises | apps/friendships/views.py:118-127 | with emails unique ignoring case, unique keys and one row per pair, accepting and rejecting never answer 500 |
| FriendshipProperties.CaseVariantEmailsRaise | apps/friendships/views.py:51-57 | two users whose emails differ only in case satisfy the column constraint, and sending to either of the two spellings answers 500 |

## Left out

- Password handling: `set_password` and the password column are not modelled, since hashing is library code outside this model.
- `normalize_email` is an arbitrary function argument and not Django's implementation.
- Text.Lower: case folding is ASCII only, while `__iexact`, `__icontains` and `str.lower()` fold other alphabets too.
- Accounts.PhoneValid: `\d` is taken as the ASCII digits, while Python's pattern also accepts other Unicode decimal digits.
- Time is one integer per request. The rate window and `created_at` both use the same `now`, and time zones are ignored.
- Keys: user keys are UUIDs in the source and numbers here. Only equality of keys is used.
- Database collation: the email column's unique constraint is taken as case-sensitive, as it is under PostgreSQL and SQLite. Under a case-insensitive collation (MySQL's default), the table of `CaseVariantEmailsRaise` could not be stored. The source does not say which database it uses.
- Concurrency is not modelled. Requests run one at a time, so the check-then-insert race in sending and the accept/reject race are not modelled.
- Request bodies: an email field is absent or a string. Other JSON types are not modelled.
- Authentication: the 401 answer for an unauthenticated request is not modelled.
- Rendering: the serializer output of a created request is the row with its two users, and the serializer fields are not modelled.
- Ordering: the order of query results is key order, as `.first()` uses. The views specify no other order, and none is claimed.
- Validators: they are predicates that no operation enforces, matching `save()`.
- Accounts.CreateUserOutcome: column lengths (`max_length` of name 100, phone 15, role 10 and `receiver_id` 10, and 254 for the email) are treated as unenforced, as under SQLite. PostgreSQL, and MySQL in strict mode, store these fields as `varchar(n)` and raise `DataError` on a longer value. That error is not modelled, because which one applies depends on the database, which the source does not fix. `CreateUserSkipsValidation` holds under this assumption only.
- Role labels: the human-readable labels of `USER_ROLES` are not modelled, since only the stored value reaches the table.
- Out of scope:
  - the account views (sign-up, login, health check);
  - JWT issuance;
  - `authentication.py`;
  - the serializers;
  - URL routing.

## Findings

| source | as written | input that shows it | evidently intended | confidence | as-written member | corrected member |
|---|---|---|---|---|---|---|
| apps/accounts/models.py:47 | `re.search` with `$` also matches just before a final newline, so the validator accepts a number followed by `\n` | `"123456789\n"` (10 characters, within `max_length=15`) | only 9–15 digits, or `+` and 9–14 digits, with nothing after them | medium; not executed (an API caller whose serializer trims whitespace never reaches the validator with the newline) | Accounts.TrailingNewlineAccepted | Accounts.PhoneValidIff |
