/**
 * The challenge service (api/services/challenge.py): challenge lookup,
 * partial update and cascading delete, and the participation table keyed by
 * (challengeId, userId).
 */
module ChallengeService {
  import opened Relational
  import opened Tables

  function HasChallengeId(challengeId: int): Challenge -> bool
  {
    (c: Challenge) => c.id == challengeId
  }

  function OfChallenge(challengeId: int): ChallengeUser -> bool
  {
    (cu: ChallengeUser) => cu.challengeId == challengeId
  }

  function HasParticipationKey(challengeId: int, userId: int): ChallengeUser -> bool
  {
    (cu: ChallengeUser) => cu.challengeId == challengeId && cu.userId == userId
  }

  /** True iff a challenge with this id is in the table. */
  function CheckChallengeExists(challenges: seq<Challenge>, challengeId: int): (b: bool)
    ensures b <==> exists c :: c in challenges && c.id == challengeId
  {
    Find(challenges, HasChallengeId(challengeId)) >= 0
  }

  /** get_challenges: the whole table, or NotFound when it is empty. */
  function GetChallenges(challenges: seq<Challenge>): (r: Result<seq<Challenge>>)
    ensures r.Ok? <==> |challenges| > 0
    ensures r.Ok? ==> r.value == challenges
    ensures r.Err? ==> r.error == NotFound
  {
    if challenges == [] then Err(NotFound) else Ok(challenges)
  }

  /** The challenge with this id, or NotFound. */
  function GetChallengeById(challenges: seq<Challenge>, challengeId: int): (r: Result<Challenge>)
    ensures r.Ok? ==> r.value in challenges && r.value.id == challengeId
    ensures r.Err? ==> r.error == NotFound && forall c :: c in challenges ==> c.id != challengeId
  {
    var i := Find(challenges, HasChallengeId(challengeId));
    if i < 0 then Err(NotFound) else Ok(challenges[i])
  }

  /** The fields of a challenge that a partial update may set. */
  datatype ChallengePatch = ChallengePatch(
    title: Patch<string>,
    description: Patch<string>,
    location: Patch<string>,
    goal: Patch<int>,
    start: Patch<Time>,
    end: Patch<Time>)

  const NoChallengeChange := ChallengePatch(Unset, Unset, Unset, Unset, Unset, Unset)

  /** The row after copying the set fields of p onto c. */
  function PatchChallenge(c: Challenge, p: ChallengePatch): (r: Challenge)
    ensures r.id == c.id && r.rewardPoints == c.rewardPoints
    ensures p == NoChallengeChange ==> r == c
  {
    c.(title := Apply(p.title, c.title),
       description := Apply(p.description, c.description),
       location := Apply(p.location, c.location),
       goal := Apply(p.goal, c.goal),
       start := Apply(p.start, c.start),
       end := Apply(p.end, c.end))
  }

  lemma PatchChallengeIdempotent(c: Challenge, p: ChallengePatch)
    ensures PatchChallenge(PatchChallenge(c, p), p) == PatchChallenge(c, p)
  {
  }

  /** update_challenge: NotFound (and no change) for an unknown id; otherwise
      only that row changes, and only in the fields the patch sets. */
  method UpdateChallenge(db: Database, challengeId: int, patch: ChallengePatch) returns (r: Result<Challenge>)
    requires db.Valid()
    modifies db`challenges
    ensures db.Valid()
    ensures r.Err? <==> !CheckChallengeExists(old(db.challenges), challengeId)
    ensures r.Err? ==> r.error == NotFound && db.challenges == old(db.challenges)
    ensures r.Ok? ==> r.value == PatchChallenge(GetChallengeById(old(db.challenges), challengeId).value, patch)
    ensures r.Ok? ==> db.challenges == UpdateWhere(old(db.challenges), HasChallengeId(challengeId),
                                                   (c: Challenge) => PatchChallenge(c, patch))
  {
    var i := Find(db.challenges, HasChallengeId(challengeId));
    if i < 0 {
      return Err(NotFound);
    }
    var updated := PatchChallenge(db.challenges[i], patch);
    UpdateByKey(db.challenges, ChallengeId, HasChallengeId(challengeId), (c: Challenge) => PatchChallenge(c, patch), i);
    ReplaceKeepsUnique(db.challenges, ChallengeId, i, updated);
    db.challenges := db.challenges[i := updated];
    r := Ok(updated);
  }

  /** delete_challenge: NotFound (and no change) for an unknown id; otherwise
      the challenge and all its participation rows are removed. */
  method DeleteChallenge(db: Database, challengeId: int) returns (r: Result<Challenge>)
    requires db.Valid()
    modifies db`challenges, db`participants
    ensures db.Valid()
    ensures r.Err? <==> !CheckChallengeExists(old(db.challenges), challengeId)
    ensures r.Err? ==> r.error == NotFound && unchanged(db)
    ensures r.Ok? ==> r == GetChallengeById(old(db.challenges), challengeId)
    ensures r.Ok? ==> |db.challenges| == |old(db.challenges)| - 1
    ensures r.Ok? ==> db.challenges == DeleteWhere(old(db.challenges), HasChallengeId(challengeId))
    ensures r.Ok? ==> db.participants == DeleteWhere(old(db.participants), OfChallenge(challengeId))
  {
    var i := Find(db.challenges, HasChallengeId(challengeId));
    if i < 0 {
      return Err(NotFound);
    }
    r := Ok(db.challenges[i]);
    DeleteByKey(db.challenges, ChallengeId, HasChallengeId(challengeId), i);
    db.DeleteParticipantsWhere(OfChallenge(challengeId));
    db.DeleteChallengesWhere(HasChallengeId(challengeId));
  }

  /** add_user_to_challenge: inserts the participation (challengeId, userId);
      the pair is the primary key, so a user joins a challenge at most once. */
  method AddUserToChallenge(db: Database, challengeId: int, userId: int, now: Time) returns (r: Result<ChallengeUser>)
    requires db.Valid()
    modifies db`participants
    ensures db.Valid()
    ensures r.Ok? <==> forall cu :: cu in old(db.participants) ==> ParticipationKey(cu) != (challengeId, userId)
    ensures r.Ok? ==> r.value == ChallengeUser(challengeId, userId, now)
    ensures r.Ok? ==> db.participants == old(db.participants) + [r.value]
    ensures r.Err? ==> r.error == Conflict && db.participants == old(db.participants)
  {
    if Find(db.participants, HasParticipationKey(challengeId, userId)) >= 0 {
      return Err(Conflict);
    }
    var row := ChallengeUser(challengeId, userId, now);
    AppendKeepsUnique(db.participants, ParticipationKey, row);
    db.participants := db.participants + [row];
    r := Ok(row);
  }

  /** get_users_by_challenge_id: exactly the participations of the challenge; NotFound when there are none. */
  function GetUsersByChallengeId(participants: seq<ChallengeUser>, challengeId: int): (r: Result<seq<ChallengeUser>>)
    ensures r.Ok? ==> forall cu :: cu in r.value <==> cu in participants && cu.challengeId == challengeId
    ensures r.Err? <==> forall cu :: cu in participants ==> cu.challengeId != challengeId
    ensures r.Err? ==> r.error == NotFound
  {
    var rows := Filter(participants, OfChallenge(challengeId));
    if rows == [] then Err(NotFound) else assert rows[0] in rows; Ok(rows)
  }

  /** get_challenges_by_user_id: exactly the participations of the user; NotFound when there are none. */
  function GetChallengesByUserId(participants: seq<ChallengeUser>, userId: int): (r: Result<seq<ChallengeUser>>)
    ensures r.Ok? ==> forall cu :: cu in r.value <==> cu in participants && cu.userId == userId
    ensures r.Err? <==> forall cu :: cu in participants ==> cu.userId != userId
    ensures r.Err? ==> r.error == NotFound
  {
    var rows := Filter(participants, ParticipantIs(userId));
    if rows == [] then Err(NotFound) else assert rows[0] in rows; Ok(rows)
  }

  /** delete_user_from_challenge: NotFound (and no change) when the pair is not
      a participation; otherwise exactly that row goes and all others stay. */
  method DeleteUserFromChallenge(db: Database, challengeId: int, userId: int) returns (r: Result<ChallengeUser>)
    requires db.Valid()
    modifies db`participants
    ensures db.Valid()
    ensures r.Err? <==> forall cu :: cu in old(db.participants) ==> ParticipationKey(cu) != (challengeId, userId)
    ensures r.Err? ==> r.error == NotFound && db.participants == old(db.participants)
    ensures r.Ok? ==> r.value in old(db.participants) && ParticipationKey(r.value) == (challengeId, userId)
    ensures r.Ok? ==> |db.participants| == |old(db.participants)| - 1
    ensures r.Ok? ==> db.participants == DeleteWhere(old(db.participants), HasParticipationKey(challengeId, userId))
    ensures forall cu :: cu in old(db.participants) && ParticipationKey(cu) != (challengeId, userId) ==> cu in db.participants
  {
    var i := Find(db.participants, HasParticipationKey(challengeId, userId));
    if i < 0 {
      return Err(NotFound);
    }
    r := Ok(db.participants[i]);
    DeleteByKey(db.participants, ParticipationKey, HasParticipationKey(challengeId, userId), i);
    db.DeleteParticipantsWhere(HasParticipationKey(challengeId, userId));
  }

  /** Joining and then leaving a challenge restores the participation table. */
  lemma {:induction false} JoinThenLeave(participants: seq<ChallengeUser>, challengeId: int, userId: int, now: Time)
    requires forall cu :: cu in participants ==> ParticipationKey(cu) != (challengeId, userId)
    ensures DeleteWhere(participants + [ChallengeUser(challengeId, userId, now)], HasParticipationKey(challengeId, userId))
            == participants
  {
    var row := ChallengeUser(challengeId, userId, now);
    FilterAppend(participants, [row], Not(HasParticipationKey(challengeId, userId)));
    DeleteWhereNone(participants, HasParticipationKey(challengeId, userId));
    assert Filter([row], Not(HasParticipationKey(challengeId, userId))) == [];
  }
}
