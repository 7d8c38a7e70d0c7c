/**
 * The rows of the platform's relational schema and the in-memory database
 * that holds one table per entity. Timestamps are integers (seconds since
 * the epoch); the Float amount and goal columns are integers.
 */
module Tables {
  import opened Relational

  type Time = int

  /** Stored as one enumeration; the services' "ACCEPTED"/"accepted" literals all mean Accepted. */
  datatype FriendshipStatus = Pending | Accepted | Blocked

  datatype UserRole = RegularUser | Admin

  datatype DonationType = Blood | Plasma

  /** `users`: id is the primary key, username and email are unique. */
  datatype User = User(
    id: int,
    username: string,
    email: string,
    password: string,
    birthdate: Time,
    city: string,
    role: UserRole,
    createdAt: Time)

  /** `friends`: a directed request, keyed by the ordered pair (senderId, receiverId). */
  datatype Friend = Friend(senderId: int, receiverId: int, createdAt: Time, status: FriendshipStatus)

  /** `challenges`: a donation goal over the window [start, end]. */
  datatype Challenge = Challenge(
    id: int,
    title: string,
    description: string,
    location: string,
    goal: int,
    start: Time,
    end: Time,
    rewardPoints: int)

  /** `challenge_users`: a participation, keyed by (challengeId, userId). */
  datatype ChallengeUser = ChallengeUser(challengeId: int, userId: int, timeCreated: Time)

  /** `donations`: id is the primary key; `updatedAt` is None until the first update. */
  datatype Donation = Donation(
    id: int,
    userId: int,
    locationId: int,
    donationType: DonationType,
    amount: int,
    appointment: Time,
    status: string,
    enableJoining: bool,
    updatedAt: Option<Time>)

  /** `location_info`: a donation centre. */
  datatype LocationInfo = LocationInfo(
    id: int,
    name: string,
    address: string,
    openingHours: string,
    latitude: string,
    longitude: string)

  /** `timeslots`: bookable slots of one location. */
  datatype Timeslot = Timeslot(
    id: int,
    locationId: int,
    startTime: Time,
    endTime: Time,
    totalCapacity: int,
    remainingCapacity: int)

  /** `posts`: ordered in feeds by `timeCreated`. */
  datatype Post = Post(id: int, userId: int, title: string, content: string, timeCreated: Time, postType: string)

  /** `kudos`: a like of a post; id is a surrogate primary key. */
  datatype Kudos = Kudos(id: int, postId: int, userId: int, timeCreated: Time)

  function UserId(u: User): int { u.id }
  function Username(u: User): string { u.username }
  function UserEmail(u: User): string { u.email }
  function FriendKey(f: Friend): (int, int) { (f.senderId, f.receiverId) }
  function ChallengeId(c: Challenge): int { c.id }
  function ParticipationKey(cu: ChallengeUser): (int, int) { (cu.challengeId, cu.userId) }
  function DonationId(d: Donation): int { d.id }
  function LocationId(l: LocationInfo): int { l.id }
  function TimeslotId(t: Timeslot): int { t.id }
  function PostId(p: Post): int { p.id }
  function KudosId(k: Kudos): int { k.id }

  /** The donation with this primary key. */
  function HasDonationId(donationId: int): Donation -> bool
  {
    (d: Donation) => d.id == donationId
  }

  /** Rows that belong to one user, selected by the owner's id. */
  function DonatedBy(userId: int): Donation -> bool
  {
    (d: Donation) => d.userId == userId
  }

  function ParticipantIs(userId: int): ChallengeUser -> bool
  {
    (cu: ChallengeUser) => cu.userId == userId
  }

  function PostedBy(userId: int): Post -> bool
  {
    (p: Post) => p.userId == userId
  }

  /** The primary-key and unique constraints of the schema, over table values. */
  ghost predicate ValidTables(
    users: seq<User>, friends: seq<Friend>, challenges: seq<Challenge>, participants: seq<ChallengeUser>,
    donations: seq<Donation>, locations: seq<LocationInfo>, timeslots: seq<Timeslot>, posts: seq<Post>,
    kudos: seq<Kudos>, nextKudosId: int)
  {
    && UniqueBy(users, UserId)
    && UniqueBy(users, Username)
    && UniqueBy(users, UserEmail)
    && UniqueBy(friends, FriendKey)
    && UniqueBy(challenges, ChallengeId)
    && UniqueBy(participants, ParticipationKey)
    && UniqueBy(donations, DonationId)
    && UniqueBy(locations, LocationId)
    && UniqueBy(timeslots, TimeslotId)
    && UniqueBy(posts, PostId)
    && UniqueBy(kudos, KudosId)
    && (forall k :: k in kudos ==> k.id < nextKudosId)
  }

  /** One session's view of the whole database. */
  class Database {
    var users: seq<User>
    var friends: seq<Friend>
    var challenges: seq<Challenge>
    var participants: seq<ChallengeUser>
    var donations: seq<Donation>
    var locations: seq<LocationInfo>
    var timeslots: seq<Timeslot>
    var posts: seq<Post>
    var kudos: seq<Kudos>
    /** The next value of the kudos id sequence. */
    var nextKudosId: int

    /** The primary-key and unique constraints of the schema. */
    ghost predicate Valid()
      reads this
    {
      ValidTables(users, friends, challenges, participants, donations, locations, timeslots, posts, kudos, nextKudosId)
    }

    constructor ()
      ensures Valid()
      ensures users == [] && friends == [] && challenges == [] && participants == []
      ensures donations == [] && locations == [] && timeslots == [] && posts == [] && kudos == []
    {
      users, friends, challenges, participants := [], [], [], [];
      donations, locations, timeslots, posts, kudos := [], [], [], [], [];
      nextKudosId := 1;
    }

    /** DELETE FROM users WHERE p. */
    method DeleteUsersWhere(p: User -> bool)
      requires Valid()
      modifies this`users
      ensures Valid()
      ensures users == DeleteWhere(old(users), p)
    {
      DeleteWhereKeepsUnique(users, p, UserId);
      DeleteWhereKeepsUnique(users, p, Username);
      DeleteWhereKeepsUnique(users, p, UserEmail);
      users := DeleteWhere(users, p);
    }

    /** DELETE FROM friends WHERE p. */
    method DeleteFriendsWhere(p: Friend -> bool)
      requires Valid()
      modifies this`friends
      ensures Valid()
      ensures friends == DeleteWhere(old(friends), p)
    {
      DeleteWhereKeepsUnique(friends, p, FriendKey);
      friends := DeleteWhere(friends, p);
    }

    /** DELETE FROM challenges WHERE p. */
    method DeleteChallengesWhere(p: Challenge -> bool)
      requires Valid()
      modifies this`challenges
      ensures Valid()
      ensures challenges == DeleteWhere(old(challenges), p)
    {
      DeleteWhereKeepsUnique(challenges, p, ChallengeId);
      challenges := DeleteWhere(challenges, p);
    }

    /** DELETE FROM participants WHERE p. */
    method DeleteParticipantsWhere(p: ChallengeUser -> bool)
      requires Valid()
      modifies this`participants
      ensures Valid()
      ensures participants == DeleteWhere(old(participants), p)
    {
      DeleteWhereKeepsUnique(participants, p, ParticipationKey);
      participants := DeleteWhere(participants, p);
    }

    /** DELETE FROM donations WHERE p. */
    method DeleteDonationsWhere(p: Donation -> bool)
      requires Valid()
      modifies this`donations
      ensures Valid()
      ensures donations == DeleteWhere(old(donations), p)
    {
      DeleteWhereKeepsUnique(donations, p, DonationId);
      donations := DeleteWhere(donations, p);
    }

    /** DELETE FROM locations WHERE p. */
    method DeleteLocationsWhere(p: LocationInfo -> bool)
      requires Valid()
      modifies this`locations
      ensures Valid()
      ensures locations == DeleteWhere(old(locations), p)
    {
      DeleteWhereKeepsUnique(locations, p, LocationId);
      locations := DeleteWhere(locations, p);
    }

    /** DELETE FROM timeslots WHERE p. */
    method DeleteTimeslotsWhere(p: Timeslot -> bool)
      requires Valid()
      modifies this`timeslots
      ensures Valid()
      ensures timeslots == DeleteWhere(old(timeslots), p)
    {
      DeleteWhereKeepsUnique(timeslots, p, TimeslotId);
      timeslots := DeleteWhere(timeslots, p);
    }

    /** DELETE FROM posts WHERE p. */
    method DeletePostsWhere(p: Post -> bool)
      requires Valid()
      modifies this`posts
      ensures Valid()
      ensures posts == DeleteWhere(old(posts), p)
    {
      DeleteWhereKeepsUnique(posts, p, PostId);
      posts := DeleteWhere(posts, p);
    }

    /** DELETE FROM kudos WHERE p. */
    method DeleteKudosWhere(p: Kudos -> bool)
      requires Valid()
      modifies this`kudos
      ensures Valid()
      ensures kudos == DeleteWhere(old(kudos), p)
    {
      DeleteWhereKeepsUnique(kudos, p, KudosId);
      kudos := DeleteWhere(kudos, p);
    }
  }
}
