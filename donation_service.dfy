/**
 * The donation and location service (api/services/donation.py): donation
 * lookup, partial update and delete, the friend-scoped listing of joinable
 * donations, and the donation centres with their timeslots.
 */
module DonationService {
  import opened Relational
  import opened Tables
  import Contribution

  function HasLocationId(locationId: int): LocationInfo -> bool
  {
    (l: LocationInfo) => l.id == locationId
  }

  function AtLocation(locationId: int): Timeslot -> bool
  {
    (t: Timeslot) => t.locationId == locationId
  }

  /** True iff a donation with this id is in the table. */
  function CheckDonationExists(donations: seq<Donation>, donationId: int): (b: bool)
    ensures b <==> exists d :: d in donations && d.id == donationId
  {
    Find(donations, HasDonationId(donationId)) >= 0
  }

  /** True iff a location with this id is in the table. */
  function CheckLocationExists(locations: seq<LocationInfo>, locationId: int): (b: bool)
    ensures b <==> exists l :: l in locations && l.id == locationId
  {
    Find(locations, HasLocationId(locationId)) >= 0
  }

  /** get_donations_by_user_id: exactly the user's donations; NotFound when there are none. */
  function GetDonationsByUserId(donations: seq<Donation>, userId: int): (r: Result<seq<Donation>>)
    ensures r.Ok? ==> forall d :: d in r.value <==> d in donations && d.userId == userId
    ensures r.Err? <==> forall d :: d in donations ==> d.userId != userId
    ensures r.Err? ==> r.error == NotFound
  {
    var rows := Filter(donations, DonatedBy(userId));
    if rows == [] then Err(NotFound) else assert rows[0] in rows; Ok(rows)
  }

  /** The donation with this id, or NotFound. */
  function GetDonationById(donations: seq<Donation>, donationId: int): (r: Result<Donation>)
    ensures r.Ok? ==> r.value in donations && r.value.id == donationId
    ensures r.Err? ==> r.error == NotFound && forall d :: d in donations ==> d.id != donationId
  {
    var i := Find(donations, HasDonationId(donationId));
    if i < 0 then Err(NotFound) else Ok(donations[i])
  }

  // ---------------------------------------------------------------------------
  // get_friends_donations: donations JOIN friends ON the donor being either end
  // of the friend row, WHERE the requester is either end, the row is accepted,
  // joining is enabled and the appointment lies strictly after `now`.

  /** Friend row f is an accepted row with both a and b among its two ends. */
  predicate AcceptedLink(f: Friend, a: int, b: int)
  {
    f.status == Accepted
    && (f.senderId == a || f.receiverId == a)
    && (f.senderId == b || f.receiverId == b)
  }

  /** Some friend row joins the requester to the donor under the WHERE clause. */
  function Linked(friends: seq<Friend>, userId: int, donorId: int): (b: bool)
    ensures b <==> exists f :: f in friends && AcceptedLink(f, userId, donorId)
  {
    Find(friends, (f: Friend) => AcceptedLink(f, userId, donorId)) >= 0
  }

  function Joinable(friends: seq<Friend>, userId: int, now: Time): Donation -> bool
  {
    (d: Donation) => d.enableJoining && d.appointment > now && Linked(friends, userId, d.userId)
  }

  /** The donations the requester may join, each once, in storage order (the
      ORM returns each Donation entity once however many friend rows match). */
  function GetFriendsDonations(donations: seq<Donation>, friends: seq<Friend>, userId: int, now: Time)
    : (r: seq<Donation>)
    ensures forall d :: d in r <==>
      && d in donations
      && d.enableJoining
      && d.appointment > now
      && exists f :: f in friends && AcceptedLink(f, userId, d.userId)
  {
    Filter(donations, Joinable(friends, userId, now))
  }

  /** Under the primary key, each eligible donation is listed once however
      many friend rows join it. */
  lemma FriendsDonationsListedOnce(donations: seq<Donation>, friends: seq<Friend>, userId: int, now: Time)
    requires UniqueBy(donations, DonationId)
    ensures UniqueBy(GetFriendsDonations(donations, friends, userId, now), DonationId)
  {
    FilterKeepsUnique(donations, Joinable(friends, userId, now), DonationId);
  }

  /** As written the requester is not excluded: once they have any accepted
      friend row, their own joinable future donations are listed too. */
  lemma OwnDonationsListed(donations: seq<Donation>, friends: seq<Friend>, userId: int, now: Time, d: Donation)
    requires d in donations && d.userId == userId && d.enableJoining && d.appointment > now
    requires exists f :: f in friends && f.status == Accepted && (f.senderId == userId || f.receiverId == userId)
    ensures d in GetFriendsDonations(donations, friends, userId, now)
  {
    var f :| f in friends && f.status == Accepted && (f.senderId == userId || f.receiverId == userId);
    assert AcceptedLink(f, userId, d.userId);
  }

  /** A friend row read the other way round. */
  function Swapped(f: Friend): Friend
  {
    f.(senderId := f.receiverId, receiverId := f.senderId)
  }

  /** Which end sent the request does not matter: reversing every friend row
      gives the same listing. */
  lemma EligibilityIsSymmetric(donations: seq<Donation>, friends: seq<Friend>, userId: int, now: Time)
    ensures GetFriendsDonations(donations, seq(|friends|, i requires 0 <= i < |friends| => Swapped(friends[i])), userId, now)
            == GetFriendsDonations(donations, friends, userId, now)
  {
    var swapped := seq(|friends|, i requires 0 <= i < |friends| => Swapped(friends[i]));
    forall d: Donation | d in donations
      ensures Joinable(swapped, userId, now)(d) == Joinable(friends, userId, now)(d)
    {
      if Linked(friends, userId, d.userId) {
        var f :| f in friends && AcceptedLink(f, userId, d.userId);
        var i :| 0 <= i < |friends| && friends[i] == f;
        assert swapped[i] in swapped && AcceptedLink(swapped[i], userId, d.userId);
      }
      if Linked(swapped, userId, d.userId) {
        var g :| g in swapped && AcceptedLink(g, userId, d.userId);
        var i :| 0 <= i < |swapped| && swapped[i] == g;
        assert friends[i] in friends && AcceptedLink(friends[i], userId, d.userId);
      }
    }
    FilterSameOn(donations, Joinable(swapped, userId, now), Joinable(friends, userId, now));
  }

  function IsAccepted(): Friend -> bool
  {
    (f: Friend) => f.status == Accepted
  }

  /** Pending and blocked friend rows never make a donation eligible:
      dropping them changes nothing. */
  lemma OnlyAcceptedRowsCount(donations: seq<Donation>, friends: seq<Friend>, userId: int, now: Time)
    ensures GetFriendsDonations(donations, Filter(friends, IsAccepted()), userId, now)
            == GetFriendsDonations(donations, friends, userId, now)
  {
    var accepted := Filter(friends, IsAccepted());
    forall d: Donation | d in donations
      ensures Joinable(accepted, userId, now)(d) == Joinable(friends, userId, now)(d)
    {
      if Linked(friends, userId, d.userId) {
        var f :| f in friends && AcceptedLink(f, userId, d.userId);
        assert f in accepted;
      }
    }
    FilterSameOn(donations, Joinable(accepted, userId, now), Joinable(friends, userId, now));
  }

  /** Users 1 and 2 are accepted friends, 1 and 3 only pending; at time 100
      user 1 sees their own open donation and user 2's, but not user 3's, nor
      user 2's past one. */
  lemma FriendsDonationsExample(own: Donation, friend: Donation, pending: Donation, past: Donation)
    requires own.userId == 1 && friend.userId == 2 && pending.userId == 3 && past.userId == 2
    requires own.enableJoining && friend.enableJoining && pending.enableJoining && past.enableJoining
    requires own.appointment > 100 && friend.appointment > 100 && pending.appointment > 100 && past.appointment <= 100
    ensures GetFriendsDonations([own, friend, pending, past], [Friend(2, 1, 0, Accepted), Friend(1, 3, 0, Pending)], 1, 100)
            == [own, friend]
  {
    var friends := [Friend(2, 1, 0, Accepted), Friend(1, 3, 0, Pending)];
    var ds := [own, friend, pending, past];
    var p := Joinable(friends, 1, 100);
    assert friends[0] in friends && AcceptedLink(friends[0], 1, 1) && AcceptedLink(friends[0], 1, 2);
    assert !Linked(friends, 1, 3);
    assert ds[1..] == [friend, pending, past] && ds[1..][1..] == [pending, past] && ds[1..][1..][1..] == [past];
    assert Filter([past], p) == [];
    assert Filter([pending, past], p) == [];
    assert Filter([friend, pending, past], p) == [friend];
  }

  // ---------------------------------------------------------------------------
  // Donation updates.

  /** delete_donation: DELETE WHERE id; NotFound, and no change, when no row was removed. */
  method DeleteDonation(db: Database, donationId: int) returns (r: Outcome)
    requires db.Valid()
    modifies db`donations
    ensures db.Valid()
    ensures r.Fail? <==> !CheckDonationExists(old(db.donations), donationId)
    ensures r.Fail? ==> r.error == NotFound && db.donations == old(db.donations)
    ensures r.Done? ==> |db.donations| == |old(db.donations)| - 1
    ensures db.donations == DeleteWhere(old(db.donations), HasDonationId(donationId))
  {
    var i := Find(db.donations, HasDonationId(donationId));
    if i < 0 {
      DeleteWhereNone(db.donations, HasDonationId(donationId));
      return Fail(NotFound);
    }
    DeleteByKey(db.donations, DonationId, HasDonationId(donationId), i);
    db.DeleteDonationsWhere(HasDonationId(donationId));
    r := Done;
  }

  /** The fields of a donation that a partial update may set. */
  datatype DonationPatch = DonationPatch(
    userId: Patch<int>,
    locationId: Patch<int>,
    donationType: Patch<DonationType>,
    amount: Patch<int>,
    appointment: Patch<Time>,
    status: Patch<string>,
    enableJoining: Patch<bool>)

  const NoDonationChange := DonationPatch(Unset, Unset, Unset, Unset, Unset, Unset, Unset)

  /** The row after copying the set fields of p onto d and stamping `updatedAt`. */
  function PatchDonation(d: Donation, p: DonationPatch, now: Time): (r: Donation)
    ensures r.id == d.id && r.updatedAt == Some(now)
    ensures p == NoDonationChange ==> r == d.(updatedAt := Some(now))
    ensures p.status.Set? ==> r.status == p.status.value
    ensures p.amount.Unset? ==> r.amount == d.amount
  {
    d.(userId := Apply(p.userId, d.userId),
       locationId := Apply(p.locationId, d.locationId),
       donationType := Apply(p.donationType, d.donationType),
       amount := Apply(p.amount, d.amount),
       appointment := Apply(p.appointment, d.appointment),
       status := Apply(p.status, d.status),
       enableJoining := Apply(p.enableJoining, d.enableJoining),
       updatedAt := Some(now))
  }

  /** Re-sending the same update at the same time changes nothing more. */
  lemma PatchDonationIdempotent(d: Donation, p: DonationPatch, now: Time)
    ensures PatchDonation(PatchDonation(d, p, now), p, now) == PatchDonation(d, p, now)
  {
  }

  /** An update that leaves owner, appointment and amount unset never changes
      a challenge contribution total. */
  lemma {:induction false} PatchKeepsTotals(
    donations: seq<Donation>, donationId: int, p: DonationPatch, now: Time, userId: int, start: Time, end: Time)
    requires p.userId.Unset? && p.appointment.Unset? && p.amount.Unset?
    ensures Contribution.Total(UpdateWhere(donations, HasDonationId(donationId), (d: Donation) => PatchDonation(d, p, now)),
                               userId, start, end)
            == Contribution.Total(donations, userId, start, end)
  {
    var updated := UpdateWhere(donations, HasDonationId(donationId), (d: Donation) => PatchDonation(d, p, now));
    assert Contribution.SameContributions(updated, donations);
    Contribution.TotalIgnoresOtherFields(updated, donations, userId, start, end);
  }

  /** update_donation: NotFound (and no change) for an unknown id; otherwise
      only that row changes, in the set fields and `updatedAt`. */
  method UpdateDonation(db: Database, donationId: int, patch: DonationPatch, now: Time) returns (r: Result<Donation>)
    requires db.Valid()
    modifies db`donations
    ensures db.Valid()
    ensures r.Err? <==> !CheckDonationExists(old(db.donations), donationId)
    ensures r.Err? ==> r.error == NotFound && db.donations == old(db.donations)
    ensures r.Ok? ==> r.value == PatchDonation(GetDonationById(old(db.donations), donationId).value, patch, now)
    ensures r.Ok? ==> db.donations == UpdateWhere(old(db.donations), HasDonationId(donationId),
                                                  (d: Donation) => PatchDonation(d, patch, now))
  {
    var i := Find(db.donations, HasDonationId(donationId));
    if i < 0 {
      return Err(NotFound);
    }
    var updated := PatchDonation(db.donations[i], patch, now);
    UpdateByKey(db.donations, DonationId, HasDonationId(donationId), (d: Donation) => PatchDonation(d, patch, now), i);
    ReplaceKeepsUnique(db.donations, DonationId, i, updated);
    db.donations := db.donations[i := updated];
    r := Ok(updated);
  }

  // ---------------------------------------------------------------------------
  // Locations and timeslots.

  /** get_all_location_info: the whole table, or NotFound when it is empty. */
  function GetAllLocationInfo(locations: seq<LocationInfo>): (r: Result<seq<LocationInfo>>)
    ensures r.Ok? <==> |locations| > 0
    ensures r.Ok? ==> r.value == locations
    ensures r.Err? ==> r.error == NotFound
  {
    if locations == [] then Err(NotFound) else Ok(locations)
  }

  /** t occurs in s starting at index i. */
  ghost predicate OccursAt(s: string, t: string, i: int)
  {
    0 <= i <= |s| - |t| && s[i..i + |t|] == t
  }

  lemma ShiftOccurs(s: string, t: string, i: nat)
    requires |s| > 0
    ensures OccursAt(s[1..], t, i) <==> OccursAt(s, t, i + 1)
  {
    if i <= |s| - 1 - |t| {
      assert s[1..][i..i + |t|] == s[i + 1..i + 1 + |t|];
    }
  }

  /** SQL `address LIKE '%' || city || '%'` with no wildcard in `city`:
      t occurs in s as a contiguous substring. */
  function Contains(s: string, t: string): (b: bool)
    ensures b <==> exists i :: OccursAt(s, t, i)
    decreases |s|
  {
    if |t| > |s| then false
    else if s[..|t|] == t then assert OccursAt(s, t, 0); true
    else
      var b := Contains(s[1..], t);
      assert b ==> exists i :: OccursAt(s, t, i) by {
        if b {
          var i :| OccursAt(s[1..], t, i);
          ShiftOccurs(s, t, i);
        }
      }
      assert (exists i :: OccursAt(s, t, i)) ==> b by {
        if exists i :: OccursAt(s, t, i) {
          var i :| OccursAt(s, t, i);
          ShiftOccurs(s, t, i - 1);
        }
      }
      b
  }

  function AddressContains(city: string): LocationInfo -> bool
  {
    (l: LocationInfo) => Contains(l.address, city)
  }

  /** get_location_info_by_city: exactly the locations whose address contains
      `city`; NotFound when there are none. */
  function GetLocationInfoByCity(locations: seq<LocationInfo>, city: string): (r: Result<seq<LocationInfo>>)
    ensures r.Ok? ==> forall l :: l in r.value <==> l in locations && Contains(l.address, city)
    ensures r.Err? <==> forall l :: l in locations ==> !Contains(l.address, city)
    ensures r.Err? ==> r.error == NotFound
  {
    var rows := Filter(locations, AddressContains(city));
    if rows == [] then Err(NotFound) else assert rows[0] in rows; Ok(rows)
  }

  /** The empty city matches every address: the query then lists the whole table. */
  lemma EmptyCityListsAll(locations: seq<LocationInfo>)
    ensures GetLocationInfoByCity(locations, "") == GetAllLocationInfo(locations)
  {
    forall l: LocationInfo | l in locations ensures AddressContains("")(l) {
      assert OccursAt(l.address, "", 0);
    }
    FilterKeepsAll(locations, AddressContains(""));
  }

  /** An address "Plesmanlaan 125, Amsterdam" is found by the city "Amsterdam". */
  lemma CitySearchExample()
    ensures Contains("Plesmanlaan 125, Amsterdam", "Amsterdam")
  {
    assert OccursAt("Plesmanlaan 125, Amsterdam", "Amsterdam", 17);
  }

  /** get_location_name_by_id: the name of the location with this id, or NotFound. */
  function GetLocationNameById(locations: seq<LocationInfo>, locationId: int): (r: Result<string>)
    ensures r.Ok? ==> exists l :: l in locations && l.id == locationId && l.name == r.value
    ensures r.Err? <==> !CheckLocationExists(locations, locationId)
    ensures r.Err? ==> r.error == NotFound
  {
    var i := Find(locations, HasLocationId(locationId));
    if i < 0 then Err(NotFound) else assert locations[i] in locations; Ok(locations[i].name)
  }

  /** get_timeslots_by_location_id: exactly the location's timeslots; NotFound when there are none. */
  function GetTimeslotsByLocationId(timeslots: seq<Timeslot>, locationId: int): (r: Result<seq<Timeslot>>)
    ensures r.Ok? ==> forall t :: t in r.value <==> t in timeslots && t.locationId == locationId
    ensures r.Err? <==> forall t :: t in timeslots ==> t.locationId != locationId
    ensures r.Err? ==> r.error == NotFound
  {
    var rows := Filter(timeslots, AtLocation(locationId));
    if rows == [] then Err(NotFound) else assert rows[0] in rows; Ok(rows)
  }

  /** The fields of a location that a partial update may set. */
  datatype LocationPatch = LocationPatch(
    name: Patch<string>,
    address: Patch<string>,
    openingHours: Patch<string>,
    latitude: Patch<string>,
    longitude: Patch<string>)

  const NoLocationChange := LocationPatch(Unset, Unset, Unset, Unset, Unset)

  /** The row after copying the set fields of p onto l. */
  function PatchLocation(l: LocationInfo, p: LocationPatch): (r: LocationInfo)
    ensures r.id == l.id
    ensures p == NoLocationChange ==> r == l
    ensures p.address.Unset? ==> r.address == l.address
  {
    l.(name := Apply(p.name, l.name),
       address := Apply(p.address, l.address),
       openingHours := Apply(p.openingHours, l.openingHours),
       latitude := Apply(p.latitude, l.latitude),
       longitude := Apply(p.longitude, l.longitude))
  }

  /** A set field takes the sent value; an unset field keeps the stored one. */
  lemma PatchLocationFields(l: LocationInfo, p: LocationPatch)
    ensures p.name.Set? ==> PatchLocation(l, p).name == p.name.value
    ensures p.name.Unset? ==> PatchLocation(l, p).name == l.name
    ensures p.address.Set? ==> PatchLocation(l, p).address == p.address.value
    ensures p.openingHours.Set? ==> PatchLocation(l, p).openingHours == p.openingHours.value
    ensures p.openingHours.Unset? ==> PatchLocation(l, p).openingHours == l.openingHours
    ensures p.latitude.Set? ==> PatchLocation(l, p).latitude == p.latitude.value
    ensures p.latitude.Unset? ==> PatchLocation(l, p).latitude == l.latitude
    ensures p.longitude.Set? ==> PatchLocation(l, p).longitude == p.longitude.value
    ensures p.longitude.Unset? ==> PatchLocation(l, p).longitude == l.longitude
  {
  }

  lemma PatchLocationIdempotent(l: LocationInfo, p: LocationPatch)
    ensures PatchLocation(PatchLocation(l, p), p) == PatchLocation(l, p)
  {
  }

  /** update_location_info: NotFound (and no change) for an unknown id;
      otherwise only that row changes, and only in the set fields. */
  method UpdateLocationInfo(db: Database, locationId: int, patch: LocationPatch) returns (r: Result<LocationInfo>)
    requires db.Valid()
    modifies db`locations
    ensures db.Valid()
    ensures r.Err? <==> !CheckLocationExists(old(db.locations), locationId)
    ensures r.Err? ==> r.error == NotFound && db.locations == old(db.locations)
    ensures r.Ok? ==> r.value.id == locationId
    ensures r.Ok? ==> r.value == PatchLocation(old(db.locations)[Find(old(db.locations), HasLocationId(locationId))], patch)
    ensures r.Ok? ==> db.locations == UpdateWhere(old(db.locations), HasLocationId(locationId),
                                                  (l: LocationInfo) => PatchLocation(l, patch))
  {
    var i := Find(db.locations, HasLocationId(locationId));
    if i < 0 {
      return Err(NotFound);
    }
    var updated := PatchLocation(db.locations[i], patch);
    UpdateByKey(db.locations, LocationId, HasLocationId(locationId), (l: LocationInfo) => PatchLocation(l, patch), i);
    ReplaceKeepsUnique(db.locations, LocationId, i, updated);
    db.locations := db.locations[i := updated];
    r := Ok(updated);
  }

  /** delete_location_info: NotFound (and no change) for an unknown id;
      otherwise the location goes, and its timeslots with it. */
  method DeleteLocationInfo(db: Database, locationId: int) returns (r: Result<LocationInfo>)
    requires db.Valid()
    modifies db`locations, db`timeslots
    ensures db.Valid()
    ensures r.Err? <==> !CheckLocationExists(old(db.locations), locationId)
    ensures r.Err? ==> r.error == NotFound && unchanged(db)
    ensures r.Ok? ==> r.value in old(db.locations) && r.value.id == locationId
    ensures r.Ok? ==> |db.locations| == |old(db.locations)| - 1
    ensures r.Ok? ==> db.locations == DeleteWhere(old(db.locations), HasLocationId(locationId))
    ensures r.Ok? ==> db.timeslots == DeleteWhere(old(db.timeslots), AtLocation(locationId))
  {
    var i := Find(db.locations, HasLocationId(locationId));
    if i < 0 {
      return Err(NotFound);
    }
    r := Ok(db.locations[i]);
    DeleteByKey(db.locations, LocationId, HasLocationId(locationId), i);
    db.DeleteTimeslotsWhere(AtLocation(locationId));
    db.DeleteLocationsWhere(HasLocationId(locationId));
  }
}
