/**
 * The user and friendship service (api/services/user.py): user lookup,
 * partial update and cascading delete, and the friend-request state machine
 * over rows keyed by the ordered pair (sender, receiver).
 */
module UserService {
  import opened Relational
  import opened Tables

  function HasUserId(userId: int): User -> bool
  {
    (u: User) => u.id == userId
  }

  function HasUsername(username: string): User -> bool
  {
    (u: User) => u.username == username
  }

  /** True iff some user row has this id. */
  function CheckUserExists(users: seq<User>, userId: int): (b: bool)
    ensures b <==> exists u :: u in users && u.id == userId
  {
    Find(users, HasUserId(userId)) >= 0
  }

  /** The user with this id, or NotFound. */
  function GetUserById(users: seq<User>, userId: int): (r: Result<User>)
    ensures r.Ok? ==> r.value in users && r.value.id == userId
    ensures r.Err? ==> r.error == NotFound && forall u :: u in users ==> u.id != userId
  {
    var i := Find(users, HasUserId(userId));
    if i < 0 then Err(NotFound) else Ok(users[i])
  }

  /** The user with this username, or NotFound. */
  function GetUserByUsername(users: seq<User>, username: string): (r: Result<User>)
    ensures r.Ok? ==> r.value in users && r.value.username == username
    ensures r.Err? ==> r.error == NotFound && forall u :: u in users ==> u.username != username
  {
    var i := Find(users, HasUsername(username));
    if i < 0 then Err(NotFound) else Ok(users[i])
  }

  /** The fields of a user that a partial update may set. `points` is accepted
      but names no column of `users`: setting it changes no stored value. */
  datatype UserPatch = UserPatch(
    username: Patch<string>,
    email: Patch<string>,
    password: Patch<string>,
    birthdate: Patch<Time>,
    city: Patch<string>,
    points: Patch<int>,
    createdAt: Patch<Time>)

  const NoUserChange := UserPatch(Unset, Unset, Unset, Unset, Unset, Unset, Unset)

  /** The row after copying the set fields of p onto u. */
  function PatchUser(u: User, p: UserPatch): (r: User)
    ensures r.id == u.id && r.role == u.role
    ensures p == NoUserChange ==> r == u
  {
    u.(username := Apply(p.username, u.username),
       email := Apply(p.email, u.email),
       password := Apply(p.password, u.password),
       birthdate := Apply(p.birthdate, u.birthdate),
       city := Apply(p.city, u.city),
       createdAt := Apply(p.createdAt, u.createdAt))
  }

  /** A set field takes the sent value; an unset field keeps the stored one;
      the sent `points` never reaches the stored row. */
  lemma PatchUserFields(u: User, p: UserPatch)
    ensures p.username.Set? ==> PatchUser(u, p).username == p.username.value
    ensures p.username.Unset? ==> PatchUser(u, p).username == u.username
    ensures p.email.Set? ==> PatchUser(u, p).email == p.email.value
    ensures p.email.Unset? ==> PatchUser(u, p).email == u.email
    ensures p.city.Set? ==> PatchUser(u, p).city == p.city.value
    ensures p.city.Unset? ==> PatchUser(u, p).city == u.city
    ensures p.password.Set? ==> PatchUser(u, p).password == p.password.value
    ensures p.password.Unset? ==> PatchUser(u, p).password == u.password
    ensures p.birthdate.Set? ==> PatchUser(u, p).birthdate == p.birthdate.value
    ensures p.birthdate.Unset? ==> PatchUser(u, p).birthdate == u.birthdate
    ensures p.createdAt.Set? ==> PatchUser(u, p).createdAt == p.createdAt.value
    ensures p.createdAt.Unset? ==> PatchUser(u, p).createdAt == u.createdAt
    ensures PatchUser(u, p.(points := Unset)) == PatchUser(u, p)
  {
  }

  lemma PatchUserIdempotent(u: User, p: UserPatch)
    ensures PatchUser(PatchUser(u, p), p) == PatchUser(u, p)
  {
  }

  /** True iff a user other than `candidate` already holds its username or email. */
  predicate Clashes(users: seq<User>, candidate: User)
  {
    exists u :: u in users && u.id != candidate.id
           && (u.username == candidate.username || u.email == candidate.email)
  }

  /** update_user: NotFound for an unknown id; Conflict when the new username or
      email is taken (the commit fails); otherwise only that row changes, and
      only in the fields the patch sets. */
  method UpdateUser(db: Database, userId: int, patch: UserPatch) returns (r: Result<User>)
    requires db.Valid()
    modifies db`users
    ensures db.Valid()
    ensures r == Err(NotFound) <==> !CheckUserExists(old(db.users), userId)
    ensures r.Err? ==> db.users == old(db.users)
    ensures r == Err(Conflict) ==>
              Clashes(old(db.users), PatchUser(GetUserById(old(db.users), userId).value, patch))
    ensures r.Ok? ==> r.value == PatchUser(GetUserById(old(db.users), userId).value, patch)
    ensures r.Ok? ==> !Clashes(old(db.users), r.value)
    ensures r.Ok? ==> db.users == UpdateWhere(old(db.users), HasUserId(userId), (u: User) => PatchUser(u, patch))
  {
    var i := Find(db.users, HasUserId(userId));
    if i < 0 {
      return Err(NotFound);
    }
    var updated := PatchUser(db.users[i], patch);
    if Clashes(db.users, updated) {
      return Err(Conflict);
    }
    UpdateByKey(db.users, UserId, HasUserId(userId), (u: User) => PatchUser(u, patch), i);
    ReplaceKeepsUnique(db.users, UserId, i, updated);
    ghost var before := db.users;
    db.users := db.users[i := updated];
    forall a, b | 0 <= a < b < |db.users|
      ensures Username(db.users[a]) != Username(db.users[b]) && UserEmail(db.users[a]) != UserEmail(db.users[b])
    {
      if a == i {
        assert before[b] in before && before[b].id != updated.id;
      } else if b == i {
        assert before[a] in before && before[a].id != updated.id;
      }
    }
    r := Ok(updated);
  }

  /** The friendship rows that disappear with a user: those it sent or received. */
  function Involves(userId: int): Friend -> bool
  {
    (f: Friend) => f.senderId == userId || f.receiverId == userId
  }

  /** Kudos given by the user, and kudos on the user's posts (they go with the posts). */
  function KudosGoneWith(posts: seq<Post>, userId: int): Kudos -> bool
  {
    (k: Kudos) => k.userId == userId || exists p :: p in posts && p.userId == userId && p.id == k.postId
  }

  /** delete_user: NotFound for an unknown id; otherwise the user is removed
      together with its donations, participations, sent and received friend
      rows, posts, its kudos and the kudos on its posts. */
  method DeleteUser(db: Database, userId: int) returns (r: Outcome)
    requires db.Valid()
    modifies db`users, db`donations, db`participants, db`friends, db`posts, db`kudos
    ensures db.Valid()
    ensures r == Fail(NotFound) <==> !CheckUserExists(old(db.users), userId)
    ensures r.Fail? ==> unchanged(db)
    ensures r.Done? ==> |db.users| == |old(db.users)| - 1
    ensures r.Done? ==> db.users == DeleteWhere(old(db.users), HasUserId(userId))
    ensures r.Done? ==> db.donations == DeleteWhere(old(db.donations), DonatedBy(userId))
    ensures r.Done? ==> db.participants == DeleteWhere(old(db.participants), ParticipantIs(userId))
    ensures r.Done? ==> db.friends == DeleteWhere(old(db.friends), Involves(userId))
    ensures r.Done? ==> db.posts == DeleteWhere(old(db.posts), PostedBy(userId))
    ensures r.Done? ==> db.kudos == DeleteWhere(old(db.kudos), KudosGoneWith(old(db.posts), userId))
  {
    var i := Find(db.users, HasUserId(userId));
    if i < 0 {
      return Fail(NotFound);
    }
    assert CheckUserExists(db.users, userId) by {
      assert db.users[i] in db.users;
    }
    DeleteByKey(db.users, UserId, HasUserId(userId), i);
    var posts := db.posts;
    db.DeleteKudosWhere(KudosGoneWith(posts, userId));
    db.DeletePostsWhere(PostedBy(userId));
    db.DeleteFriendsWhere(Involves(userId));
    db.DeleteParticipantsWhere(ParticipantIs(userId));
    db.DeleteDonationsWhere(DonatedBy(userId));
    db.DeleteUsersWhere(HasUserId(userId));
    r := Done;
  }

  function HasFriendKey(userId: int, friendId: int): Friend -> bool
  {
    (f: Friend) => f.senderId == userId && f.receiverId == friendId
  }

  /** send_friend_request: inserts the row (userId -> friendId) with the
      default status Pending; a second request for the same ordered pair
      violates the primary key and is rejected. */
  method SendFriendRequest(db: Database, userId: int, friendId: int, now: Time) returns (r: Result<Friend>)
    requires db.Valid()
    modifies db`friends
    ensures db.Valid()
    ensures r.Ok? <==> forall f :: f in old(db.friends) ==> FriendKey(f) != (userId, friendId)
    ensures r.Ok? ==> r.value == Friend(userId, friendId, now, Pending)
    ensures r.Ok? ==> db.friends == old(db.friends) + [r.value]
    ensures r.Err? ==> r.error == Conflict && db.friends == old(db.friends)
  {
    if Find(db.friends, HasFriendKey(userId, friendId)) >= 0 {
      return Err(Conflict);
    }
    var row := Friend(userId, friendId, now, Pending);
    AppendKeepsUnique(db.friends, FriendKey, row);
    db.friends := db.friends + [row];
    r := Ok(row);
  }

  /** edit_friend_request: NotFound (and no change) when the row (userId ->
      friendId) is missing; otherwise that row's status becomes `status` and
      nothing else changes. */
  method EditFriendRequest(db: Database, userId: int, friendId: int, status: FriendshipStatus)
    returns (r: Result<Friend>)
    requires db.Valid()
    modifies db`friends
    ensures db.Valid()
    ensures r.Err? <==> forall f :: f in old(db.friends) ==> FriendKey(f) != (userId, friendId)
    ensures r.Err? ==> r.error == NotFound && db.friends == old(db.friends)
    ensures r.Ok? ==> r.value in db.friends && FriendKey(r.value) == (userId, friendId) && r.value.status == status
    ensures r.Ok? ==> db.friends == UpdateWhere(old(db.friends), HasFriendKey(userId, friendId),
                                                (f: Friend) => f.(status := status))
  {
    var i := Find(db.friends, HasFriendKey(userId, friendId));
    if i < 0 {
      return Err(NotFound);
    }
    var row := db.friends[i].(status := status);
    UpdateByKey(db.friends, FriendKey, HasFriendKey(userId, friendId), (f: Friend) => f.(status := status), i);
    ReplaceKeepsUnique(db.friends, FriendKey, i, row);
    db.friends := db.friends[i := row];
    r := Ok(row);
  }

  function AcceptedSentBy(userId: int): Friend -> bool
  {
    (f: Friend) => f.senderId == userId && f.status == Accepted
  }

  function PendingTo(userId: int): Friend -> bool
  {
    (f: Friend) => f.receiverId == userId && f.status == Pending
  }

  function PendingFrom(userId: int): Friend -> bool
  {
    (f: Friend) => f.senderId == userId && f.status == Pending
  }

  /** get_friends: exactly the accepted rows the user SENT (rows where the user
      is only the receiver are not returned); NotFound when there are none. */
  function GetFriends(friends: seq<Friend>, userId: int): (r: Result<seq<Friend>>)
    ensures r.Ok? ==> forall f :: f in r.value <==> f in friends && f.senderId == userId && f.status == Accepted
    ensures r.Err? <==> forall f :: f in friends ==> !(f.senderId == userId && f.status == Accepted)
    ensures r.Err? ==> r.error == NotFound
  {
    var rows := Filter(friends, AcceptedSentBy(userId));
    if rows == [] then Err(NotFound) else assert rows[0] in rows; Ok(rows)
  }

  /** get_friend_requests: the pending rows the user received; NotFound when there are none. */
  function GetFriendRequests(friends: seq<Friend>, userId: int): (r: Result<seq<Friend>>)
    ensures r.Ok? ==> forall f :: f in r.value <==> f in friends && f.receiverId == userId && f.status == Pending
    ensures r.Err? <==> forall f :: f in friends ==> !(f.receiverId == userId && f.status == Pending)
    ensures r.Err? ==> r.error == NotFound
  {
    var rows := Filter(friends, PendingTo(userId));
    if rows == [] then Err(NotFound) else assert rows[0] in rows; Ok(rows)
  }

  /** get_sent_requests: the pending rows the user sent; NotFound when there are none. */
  function GetSentRequests(friends: seq<Friend>, userId: int): (r: Result<seq<Friend>>)
    ensures r.Ok? ==> forall f :: f in r.value <==> f in friends && f.senderId == userId && f.status == Pending
    ensures r.Err? <==> forall f :: f in friends ==> !(f.senderId == userId && f.status == Pending)
    ensures r.Err? ==> r.error == NotFound
  {
    var rows := Filter(friends, PendingFrom(userId));
    if rows == [] then Err(NotFound) else assert rows[0] in rows; Ok(rows)
  }

  /** A request does not show in the receiver's friend list until the
      receiver sends one of its own: acceptance is one-directional here. */
  lemma {:induction false} AcceptedRowListsOnlyForSender(friends: seq<Friend>, f: Friend)
    requires f in friends && f.status == Accepted && f.senderId != f.receiverId
    ensures GetFriends(friends, f.senderId) == Ok(Filter(friends, AcceptedSentBy(f.senderId)))
    ensures f in GetFriends(friends, f.senderId).value
    ensures GetFriends(friends, f.receiverId).Ok? ==> f !in GetFriends(friends, f.receiverId).value
  {
    assert f in Filter(friends, AcceptedSentBy(f.senderId));
  }

  /** A new request is listed as sent for the sender and as received for the
      receiver, and leaves the sender's friend list as it was. */
  lemma {:induction false} RequestIsPending(friends: seq<Friend>, userId: int, friendId: int, now: Time)
    ensures GetSentRequests(friends + [Friend(userId, friendId, now, Pending)], userId).Ok?
    ensures Friend(userId, friendId, now, Pending) in GetSentRequests(friends + [Friend(userId, friendId, now, Pending)], userId).value
    ensures Friend(userId, friendId, now, Pending) in GetFriendRequests(friends + [Friend(userId, friendId, now, Pending)], friendId).value
    ensures GetFriends(friends + [Friend(userId, friendId, now, Pending)], userId) == GetFriends(friends, userId)
  {
    var row := Friend(userId, friendId, now, Pending);
    assert row in friends + [row];
    FilterAppend(friends, [row], AcceptedSentBy(userId));
    assert Filter([row], AcceptedSentBy(userId)) == [];
    assert Filter(friends, AcceptedSentBy(userId)) + [] == Filter(friends, AcceptedSentBy(userId));
  }

  /** Accepting a pending request moves the row from the sender's sent
      requests to the sender's friend list. */
  lemma AcceptListsFriend(friends: seq<Friend>, userId: int, friendId: int)
    requires UniqueBy(friends, FriendKey)
    requires exists f :: f in friends && FriendKey(f) == (userId, friendId)
    ensures var after := UpdateWhere(friends, HasFriendKey(userId, friendId), (f: Friend) => f.(status := Accepted));
            && GetFriends(after, userId).Ok?
            && (exists f :: f in GetFriends(after, userId).value && f.receiverId == friendId)
            && (GetSentRequests(after, userId).Ok? ==>
                  forall f :: f in GetSentRequests(after, userId).value ==> f.receiverId != friendId)
  {
    var after := UpdateWhere(friends, HasFriendKey(userId, friendId), (f: Friend) => f.(status := Accepted));
    var f :| f in friends && FriendKey(f) == (userId, friendId);
    var i :| 0 <= i < |friends| && friends[i] == f;
    assert after[i] in after && AcceptedSentBy(userId)(after[i]);
    forall g | g in after && g.senderId == userId && g.status == Pending ensures g.receiverId != friendId {
      var j :| 0 <= j < |after| && after[j] == g;
    }
  }

  /** delete_friend: NotFound (and no change) when the row (userId -> friendId)
      is missing; otherwise exactly that row is removed, and every other row,
      the reverse row (friendId -> userId) included, is kept. */
  method DeleteFriend(db: Database, userId: int, friendId: int) returns (r: Outcome)
    requires db.Valid()
    modifies db`friends
    ensures db.Valid()
    ensures r.Fail? <==> forall f :: f in old(db.friends) ==> FriendKey(f) != (userId, friendId)
    ensures r.Fail? ==> r.error == NotFound && db.friends == old(db.friends)
    ensures r.Done? ==> |db.friends| == |old(db.friends)| - 1
    ensures r.Done? ==> db.friends == DeleteWhere(old(db.friends), HasFriendKey(userId, friendId))
    ensures forall f :: f in old(db.friends) && FriendKey(f) != (userId, friendId) ==> f in db.friends
  {
    var i := Find(db.friends, HasFriendKey(userId, friendId));
    if i < 0 {
      return Fail(NotFound);
    }
    DeleteByKey(db.friends, FriendKey, HasFriendKey(userId, friendId), i);
    db.DeleteFriendsWhere(HasFriendKey(userId, friendId));
    r := Done;
  }
}
