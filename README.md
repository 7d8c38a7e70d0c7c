# Sanquin-API service core in Dafny

A model of the relational logic under the Sanquin blood-donation platform's
HTTP API. The platform lets donors befriend each other, join donation
challenges, book and share donations at donation centres, and post to a social
feed with kudos. This model keeps the services and leaves out the web layer.
The database session becomes one `Tables.Database` object with one table per
entity. Each table is a `seq` of rows in storage order. The class invariant
`Valid()` states every primary-key and unique constraint of the schema.

- `relational.dfy` (module `Relational`): operations on table values and
  lemmas about them. `Filter` is SELECT … WHERE. `DeleteWhere` is DELETE …
  WHERE. `UpdateWhere` is UPDATE … WHERE. `Find` is `.first()`. `Window` is
  OFFSET/LIMIT. `Patch`/`Apply` model the partial-update loop
  (`dict(exclude_unset=True)` followed by `setattr`) that every update
  service shares. Results come back as `Result`/`Outcome` with the errors
  `NotFound` (HTTP 404) and `Conflict` (a key or unique constraint that
  fails at commit).
- `tables.dfy` (module `Tables`): the row datatypes, their keys, the
  constraints, and the `Database` class. The class has per-table
  DELETE WHERE primitives.
- `user_service.dfy`, `challenge_service.dfy`, `donation_service.dfy`,
  `post_service.dfy`: one module per service file. Queries are functions of
  the tables. Operations that change the database are methods on
  `db: Database`. Their `modifies` clauses name the changed tables, so every
  other table is unchanged.
- `contribution.dfy` (module `Contribution`): the `total` aggregate of a
  challenge participation.

The clock is a parameter `now`. Timestamps are integers, in seconds since the
epoch.

## Model

| member | source | states |
|---|---|---|
| Relational.ApplyIdempotent | api/services/user.py:47-49 | copying the set fields of a partial update twice gives the same row as copying them once |
| Relational.Window | api/services/post.py:78 | OFFSET is applied before LIMIT: at most `limit` rows, exactly min(limit, n - offset) of them when offset < n, row i taken from position offset + i |
| Relational.ConsecutivePages | api/services/post.py:78 | two consecutive pages together are the page of their combined length, so paging loses and repeats no row |
| UserService.CheckUserExists | api/services/user.py:8-12 | true iff some user has the id |
| UserService.GetUserById | api/services/user.py:31-35 | the user with that id, or NotFound when none has it |
| UserService.GetUserByUsername | api/services/user.py:38-42 | the user with that username, or NotFound when none has it |
| UserService.PatchUser | api/services/user.py:45-49 | the id and role are never changed; an empty patch changes nothing |
| UserService.PatchUserFields | api/services/user.py:47-49 | each set field among username, email, password, birthdate, city and creation time takes the sent value, and each unset one keeps its stored value; a sent `points` never changes the stored row, because `users` has no such column (api/models/user.py:7-25) |
| UserService.PatchUserIdempotent | api/services/user.py:47-49 | sending the same user update twice equals sending it once |
| UserService.UpdateUser | api/services/user.py:45-52 | NotFound exactly for an unknown id; Conflict only when the patched row would share a username or email with another user; on success, only that row changes, it becomes the patched row, and the constraints still hold |
| UserService.DeleteUser | api/services/user.py:55-58 | NotFound (no change) exactly for an unknown id; otherwise the user goes with its donations, participations, sent and received friend rows, posts, its kudos and the kudos on its posts (cascades at api/models/user.py:28-39, api/models/post.py:17) |
| UserService.SendFriendRequest | api/services/user.py:61-66 | succeeds iff no row has the ordered pair (sender, receiver); it then appends exactly Friend(sender, receiver, now, Pending); otherwise Conflict and no change (key and default at api/models/friend.py:10-13) |
| UserService.EditFriendRequest | api/services/user.py:69-76 | NotFound (no change) exactly when the (user, friend) row is missing; otherwise only that row's status changes |
| UserService.GetFriends | api/services/user.py:79-83 | exactly the accepted rows the user sent; NotFound iff there are none |
| UserService.GetFriendRequests | api/services/user.py:86-90 | exactly the pending rows the user received; NotFound iff there are none |
| UserService.GetSentRequests | api/services/user.py:93-97 | exactly the pending rows the user sent; NotFound iff there are none |
| UserService.AcceptedRowListsOnlyForSender | api/services/user.py:79-83 | an accepted row is listed among the sender's friends and never among the receiver's |
| UserService.RequestIsPending | api/services/user.py:61-97 | a new request is listed as sent for the sender and received for the receiver, and leaves the sender's friend list unchanged |
| UserService.AcceptListsFriend | api/services/user.py:69-83 | after a request is accepted, the sender's friend list contains it and the sender's pending requests no longer do |
| UserService.DeleteFriend | api/services/user.py:100-105 | NotFound (no change) exactly when the (user, friend) row is missing; otherwise exactly that row goes and every other row stays, the reverse row included |
| ChallengeService.CheckChallengeExists | api/services/challenge.py:10-14 | true iff some challenge has the id |
| ChallengeService.GetChallenges | api/services/challenge.py:31-37 | the whole table; NotFound iff it is empty |
| ChallengeService.GetChallengeById | api/services/challenge.py:39-45 | the challenge with that id, or NotFound when none has it |
| ChallengeService.PatchChallenge | api/services/challenge.py:53-55 | the id and reward points are never changed; an empty patch changes nothing |
| ChallengeService.PatchChallengeIdempotent | api/services/challenge.py:53-55 | sending the same challenge update twice equals sending it once |
| ChallengeService.UpdateChallenge | api/services/challenge.py:47-59 | NotFound (no change) exactly for an unknown id; otherwise only that row changes, into the patched row |
| ChallengeService.DeleteChallenge | api/services/challenge.py:61-69 | NotFound (no change) exactly for an unknown id; otherwise exactly that challenge goes, with all its participation rows (cascade at api/models/challenge.py:22) |
| ChallengeService.AddUserToChallenge | api/services/challenge.py:71-84 | succeeds iff the pair (challenge, user) is new, and then appends exactly that row; otherwise Conflict and no change, so a user joins a challenge at most once (key at api/models/challenge_user.py:11-12) |
| ChallengeService.GetUsersByChallengeId | api/services/challenge.py:86-92 | exactly the participations of the challenge; NotFound iff there are none |
| ChallengeService.DeleteUserFromChallenge | api/services/challenge.py:94-102 | NotFound (no change) exactly when the pair is not a participation; otherwise exactly that row goes and every other row stays |
| ChallengeService.GetChallengesByUserId | api/services/challenge.py:104-110 | exactly the participations of the user; NotFound iff there are none |
| ChallengeService.JoinThenLeave | api/services/challenge.py:71-102 | joining a challenge and then leaving it restores the participation table |
| Contribution.SqlSum | api/models/challenge_user.py:24-29 | SUM is NULL exactly over no rows |
| Contribution.Total | api/models/challenge_user.py:19-31 | 0 when no donation of the participant lies in the window, and always 0 when start > end |
| Contribution.ParticipantTotal | api/models/challenge_user.py:20-31 | the total read through the participation's challenge window; NotFound iff the challenge is missing |
| Contribution.TotalIsMatchingSum | api/models/challenge_user.py:23-31 | the total is the sum of the amounts of the participant's donations with start <= appointment <= end |
| Contribution.AddCountingDonation | api/models/challenge_user.py:23-31 | a new donation of the participant inside the window raises the total by exactly its amount |
| Contribution.AddOtherDonation | api/models/challenge_user.py:23-31 | a new donation outside the window, or of another user, leaves the total unchanged |
| Contribution.OnlyOwnDonationsCount | api/models/challenge_user.py:26 | dropping every other user's donations leaves the total unchanged |
| Contribution.TotalIgnoresOtherFields | api/models/challenge_user.py:24-29 | the total depends only on donor, appointment and amount, with no status filter |
| Contribution.StatusDoesNotCount | api/models/challenge_user.py:24-29 | changing a donation's status never changes a total, so pending and cancelled donations count |
| Contribution.AdjacentWindowsAdd | api/models/challenge_user.py:27 | the totals of two adjacent windows add up to the total of their union: both ends are inclusive and nothing is counted twice |
| Contribution.JanuaryChallengeExample | api/models/challenge_user.py:19-31 | donations of 50 on 2024-01-15 and 100 on 2024-02-05 give a January challenge a total of 50 |
| DonationService.CheckDonationExists | api/services/donation.py:16-17 | true iff some donation has the id |
| DonationService.CheckLocationExists | api/services/donation.py:19-20 | true iff some location has the id |
| DonationService.GetDonationsByUserId | api/services/donation.py:41-48 | exactly the user's donations; NotFound iff there are none |
| DonationService.GetDonationById | api/services/donation.py:103-114 | the donation with that id, or NotFound when none has it |
| DonationService.Linked | api/services/donation.py:58-61 | true iff an accepted friend row has both the requester and the donor among its two ends |
| DonationService.GetFriendsDonations | api/services/donation.py:53-66 | d is listed iff it is stored, joining is enabled, its appointment is after now, and one accepted friend row has both the requester and d's donor among its ends |
| DonationService.FriendsDonationsListedOnce | api/services/donation.py:56-65 | each eligible donation is listed once, however many friend rows join it |
| DonationService.OwnDonationsListed | api/services/donation.py:58-60 | as written, the requester's own joinable future donations are listed whenever the requester has any accepted friend row |
| DonationService.EligibilityIsSymmetric | api/services/donation.py:58-60 | swapping sender and receiver in every friend row gives the same list |
| DonationService.OnlyAcceptedRowsCount | api/services/donation.py:61 | dropping all pending and blocked friend rows gives the same list |
| DonationService.FriendsDonationsExample | api/services/donation.py:53-66 | with one accepted friend and one pending friend, the list holds the requester's own and the accepted friend's future donations only |
| DonationService.DeleteDonation | api/services/donation.py:71-79 | NotFound (no change) exactly when no row has the id; otherwise exactly that row goes |
| DonationService.PatchDonation | api/services/donation.py:92-95 | the id is never changed and updatedAt becomes now; an empty patch changes only updatedAt |
| DonationService.PatchDonationIdempotent | api/services/donation.py:92-95 | re-sending the same donation update at the same time changes nothing more |
| DonationService.PatchKeepsTotals | api/services/donation.py:81-98 | a donation update that leaves owner, amount and appointment unset changes no challenge total |
| DonationService.UpdateDonation | api/services/donation.py:81-101 | NotFound (no change) exactly for an unknown id; otherwise only that row changes, into the patched row stamped with now |
| DonationService.GetAllLocationInfo | api/services/donation.py:118-128 | the whole table; NotFound iff it is empty |
| DonationService.Contains | api/services/donation.py:132 | true iff the city occurs in the address as a contiguous substring |
| DonationService.GetLocationInfoByCity | api/services/donation.py:130-139 | exactly the locations whose address contains the city; NotFound iff there are none |
| DonationService.EmptyCityListsAll | api/services/donation.py:130-137 | the empty city matches every address, so the search then answers like the unfiltered listing |
| DonationService.CitySearchExample | api/services/donation.py:132 | "Amsterdam" is found in "Plesmanlaan 125, Amsterdam" |
| DonationService.GetLocationNameById | api/services/donation.py:141-150 | the name of the location with that id; NotFound iff it is missing |
| DonationService.GetTimeslotsByLocationId | api/services/donation.py:152-161 | exactly the location's timeslots; NotFound iff there are none |
| DonationService.PatchLocation | api/services/donation.py:193-195 | the id is never changed, an unset address is kept, and an empty patch changes nothing |
| DonationService.PatchLocationFields | api/services/donation.py:193-195 | each set field among name, address, opening hours, latitude and longitude takes the sent value, and each unset one keeps its stored value |
| DonationService.PatchLocationIdempotent | api/services/donation.py:193-195 | sending the same location update twice equals sending it once |
| DonationService.UpdateLocationInfo | api/services/donation.py:186-202 | NotFound (no change) exactly for an unknown id; otherwise only that row changes, into the patched row, which is also the row returned (api/services/donation.py:198-199) |
| DonationService.DeleteLocationInfo | api/services/donation.py:204-216 | NotFound (no change) exactly for an unknown id; otherwise the location goes, with its timeslots (cascade at api/models/location_info.py:15,25) |
| PostService.GetPostsByUserId | api/services/post.py:26-32 | exactly the user's posts; NotFound iff there are none |
| PostService.DeletePost | api/services/post.py:34-42 | NotFound (no change) exactly for an unknown id; otherwise exactly that post goes, with all its kudos (cascade at api/models/post.py:17) |
| PostService.AddKudos | api/services/post.py:44-57 | appends exactly one kudos, whose id is the next value of the id sequence; nothing is checked |
| PostService.GetKudosByPostId | api/services/post.py:59-65 | exactly the post's kudos; NotFound iff there are none |
| PostService.DeleteKudos | api/services/post.py:67-75 | NotFound (no change) exactly when the user gave the post no kudos; otherwise the first such kudos is removed and returned, and the table loses exactly that one row |
| PostService.SortByNewest | api/services/post.py:78 | ORDER BY time_created DESC gives a newest-first permutation of its input |
| PostService.Feed | api/services/post.py:78 | the posts owned by the listed users, newest first, each exactly once |
| PostService.WindowKeepsOrder | api/services/post.py:78 | a page of a newest-first feed is newest first |
| PostService.GetFriendsPosts | api/services/post.py:77-83 | the page holds at most `limit` posts, all owned by listed users and newest first; it is the window [offset, offset + limit) of a newest-first ordering of all their posts; NotFound iff limit is 0 or offset is past the last post |
| PostService.FirstPageStartsNewest | api/services/post.py:78 | the first page opens with a post no older than any post of the listed users |
| PostService.FirstPageExample | api/services/post.py:77-83 | with pages of length one, the first page holds the newer friend post and never a stranger's newer post |
| PostService.SecondPageExample | api/services/post.py:77-83 | with pages of length one, the second page holds the older friend post |

## Left out

- Routers, response envelopes, authentication, JWT and bcrypt, the Redis and
  zlib caching and the `@cache` decorator: HTTP and library plumbing. The
  routers also call the services with other signatures; the model follows
  the service signatures.
- The `SQLAlchemyError` → rollback → HTTP 500 paths: database failures are
  not modelled. The one failure the model does keep is a commit that breaks a
  primary-key or unique constraint. The services do not catch that error,
  and the model reports it as `Conflict` with the database unchanged.
- The `if not new_x` → HTTP 400 branches after `db.refresh`: the ORM object
  is never empty there, so those branches are dead.
- create_user, create_challenge, create_donation, create_post and
  create_location_info are not part of this model. It has no constructors
  for users, challenges, donations, posts or locations, only the operations
  of the service core.
- Foreign keys are not enforced. The program runs on PostgreSQL
  (api/database.py:13-17), which checks the foreign keys of
  api/models/friend.py:10-11, api/models/challenge_user.py:11-12 and
  api/models/kudos.py:9-10 at commit. So when the referenced user,
  challenge or post is missing, UserService.SendFriendRequest,
  ChallengeService.AddUserToChallenge and PostService.AddKudos succeed in
  the model and append the row, where the program raises at commit and
  stores nothing. Orphans are removed only by the ORM cascades.
- Deleting a location: the ORM would set `location_id` to NULL on the loaded
  donations of that location. The model leaves donations untouched.
- Row shapes. Where the models and the services disagree, the service
  representation wins:
  - a donation has `location_id`, `enable_joining` and `updated_at`;
  - posts are ordered by `time_created`;
  - a kudos row has its creation time;
  - a participation row has `time_created` and no `status` column.
  The `status` column of api/models/challenge_user.py:13 is NOT NULL, but
  add_user_to_challenge never sets it. The model follows the service.
- A user row has only the columns the update schema can reach and the
  services read: username, email, password, birthdate, city, role, creation
  time. The other columns of api/models/user.py are not modelled (first and
  last name, blood type, nationality, gender, eligibility, `current_points`
  and `total_points`).
- `points`: the update schema (api/schemas/user.py:53) and the services
  call this field `points`, but the `users` table has no such column, only
  `current_points` and `total_points` (api/models/user.py:22-23). The model
  follows the table: `UserPatch` accepts `points`, and `PatchUser` leaves
  the stored row as it was for it, as the `setattr` of an unmapped
  attribute at api/services/user.py:49 does.
- Status literals: `"ACCEPTED"`, `"PENDING"` and `"accepted"` in the
  services all read as the one `FriendshipStatus` datatype. The model gives
  each literal its intended meaning and does not model how the database
  compares a string with the stored enum value.
- Float amounts and goals are integers here. Timestamps are integers.
- `total`: `user_donations or 0.0` also maps a SUM of exactly 0 to 0.0. That
  is the same number, so the model reads only NULL as 0.
- `.first()` without ORDER BY depends on the database. The model takes the
  first row in storage order.
- DonationService.GetLocationInfoByCity: does not model SQL LIKE wildcards
  (`%`, `_`) inside the city string, nor database collation such as case
  folding. The match is plain substring containment.
- DonationService.GetFriendsDonations: the model lists each donation once, in
  storage order. This follows the ORM's de-duplication of single-entity
  results. The ordering of the SQL join is unspecified.
- DonationService.UpdateLocationInfo: the update schema `LocationInfoBase`
  named by the router is not part of this model, because it does not exist
  among the schemas. The model lets a patch set name, address, opening
  hours, latitude and longitude, every column of api/models/location_info.py
  except the id.
- DonationService.UpdateDonation: the update schema `DonationUpdate` is not
  part of this model, because it does not exist among the schemas. The model
  lets a patch set every column the service writes except the id.
- UserService.UpdateUser: a partial update cannot change the role, because the update
  schema has no role field. The model likewise does not let an update change
  the id.
- PostService.GetFriendsPosts: `limit` and `offset` are natural numbers. A negative value
  is a database error, and database errors are left out.
- Concurrency between sessions, transactions spanning several calls, and the
  notification tables are not modelled.
