/**
 * The contribution aggregate of a challenge participation
 * (api/models/challenge_user.py, the `total` hybrid property): the sum of
 * the participant's donation amounts whose appointment lies in the
 * challenge window, both ends included as SQL BETWEEN includes them, and 0
 * when no donation matches.
 */
module Contribution {
  import opened Relational
  import opened Tables

  /** The donations `total` adds up: the participant's own, with the appointment in [start, end]. */
  function CountsToward(userId: int, start: Time, end: Time): Donation -> bool
  {
    (d: Donation) => d.userId == userId && start <= d.appointment <= end
  }

  function SumAmounts(ds: seq<Donation>): int
  {
    if ds == [] then 0 else ds[0].amount + SumAmounts(ds[1..])
  }

  /** SQL SUM: NULL over no rows, the sum of the amounts otherwise. */
  function SqlSum(ds: seq<Donation>): (r: Option<int>)
    ensures r.None? <==> ds == []
  {
    if ds == [] then None else Some(SumAmounts(ds))
  }

  /** `total`: SUM(amount) over the matching donations, with a NULL sum read as 0. */
  function Total(donations: seq<Donation>, userId: int, start: Time, end: Time): (r: int)
    ensures (forall d :: d in donations ==> !(d.userId == userId && start <= d.appointment <= end)) ==> r == 0
    ensures start > end ==> r == 0
  {
    var matching := Filter(donations, CountsToward(userId, start, end));
    assert matching != [] ==> matching[0] in matching;
    match SqlSum(matching)
    case None => 0
    case Some(s) => s
  }

  /** The total of a participation, read through its challenge's window;
      NotFound (never a silent 0) when the challenge is missing. */
  function ParticipantTotal(donations: seq<Donation>, challenges: seq<Challenge>, cu: ChallengeUser): (r: Result<int>)
    ensures r.Err? <==> forall c :: c in challenges ==> c.id != cu.challengeId
    ensures r.Ok? ==> exists c :: c in challenges && c.id == cu.challengeId
                                && r.value == Total(donations, cu.userId, c.start, c.end)
  {
    var i := Find(challenges, (c: Challenge) => c.id == cu.challengeId);
    if i < 0 then Err(NotFound)
    else assert challenges[i] in challenges; Ok(Total(donations, cu.userId, challenges[i].start, challenges[i].end))
  }

  lemma {:induction false} SumAppend(a: seq<Donation>, b: seq<Donation>)
    ensures SumAmounts(a + b) == SumAmounts(a) + SumAmounts(b)
  {
    if a == [] {
      assert a + b == b;
    } else {
      assert (a + b)[1..] == a[1..] + b;
      SumAppend(a[1..], b);
    }
  }

  /** With the NULL default, `total` is exactly the sum over the matching donations. */
  lemma TotalIsMatchingSum(donations: seq<Donation>, userId: int, start: Time, end: Time)
    ensures Total(donations, userId, start, end) == SumAmounts(Filter(donations, CountsToward(userId, start, end)))
  {
  }

  /** A new donation of the participant inside the window raises `total` by exactly its amount. */
  lemma AddCountingDonation(donations: seq<Donation>, d: Donation, userId: int, start: Time, end: Time)
    requires d.userId == userId && start <= d.appointment <= end
    ensures Total(donations + [d], userId, start, end) == Total(donations, userId, start, end) + d.amount
  {
    var p := CountsToward(userId, start, end);
    FilterAppend(donations, [d], p);
    assert Filter([d], p) == [d];
    SumAppend(Filter(donations, p), [d]);
  }

  /** A new donation outside the window, or of another user, leaves `total` unchanged. */
  lemma AddOtherDonation(donations: seq<Donation>, d: Donation, userId: int, start: Time, end: Time)
    requires !(d.userId == userId && start <= d.appointment <= end)
    ensures Total(donations + [d], userId, start, end) == Total(donations, userId, start, end)
  {
    var p := CountsToward(userId, start, end);
    FilterAppend(donations, [d], p);
    assert Filter([d], p) == [];
    assert Filter(donations, p) + [] == Filter(donations, p);
  }

  /** Other users' donations never affect a participant's `total`. */
  lemma {:induction false} OnlyOwnDonationsCount(donations: seq<Donation>, userId: int, start: Time, end: Time)
    ensures Total(donations, userId, start, end) == Total(Filter(donations, DonatedBy(userId)), userId, start, end)
  {
    if donations != [] {
      var d := donations[0];
      OnlyOwnDonationsCount(donations[1..], userId, start, end);
      var mine := Filter(donations, DonatedBy(userId));
      var p := CountsToward(userId, start, end);
      if d.userId == userId {
        assert mine == [d] + Filter(donations[1..], DonatedBy(userId));
        assert mine[1..] == Filter(donations[1..], DonatedBy(userId));
        assert Filter(mine, p) == (if p(d) then [d] else []) + Filter(mine[1..], p);
      } else {
        assert mine == Filter(donations[1..], DonatedBy(userId));
      }
      SumAppend(if p(d) then [d] else [], Filter(donations[1..], p));
      if d.userId == userId {
        SumAppend(if p(d) then [d] else [], Filter(mine[1..], p));
      }
    }
  }

  /** Which donations count, and how much, depends only on owner, appointment
      and amount: there is no status filter, so pending or cancelled
      donations in the window count too. */
  ghost predicate SameContributions(a: seq<Donation>, b: seq<Donation>)
  {
    |a| == |b| && forall i :: 0 <= i < |a| ==>
      a[i].userId == b[i].userId && a[i].appointment == b[i].appointment && a[i].amount == b[i].amount
  }

  lemma {:induction false} TotalIgnoresOtherFields(a: seq<Donation>, b: seq<Donation>, userId: int, start: Time, end: Time)
    requires SameContributions(a, b)
    ensures Total(a, userId, start, end) == Total(b, userId, start, end)
  {
    if a != [] {
      assert SameContributions(a[1..], b[1..]) by {
        forall i | 0 <= i < |a[1..]|
          ensures a[1..][i].userId == b[1..][i].userId && a[1..][i].appointment == b[1..][i].appointment
               && a[1..][i].amount == b[1..][i].amount
        {
          assert a[1..][i] == a[i + 1] && b[1..][i] == b[i + 1];
        }
      }
      TotalIgnoresOtherFields(a[1..], b[1..], userId, start, end);
      var p := CountsToward(userId, start, end);
      SumAppend(if p(a[0]) then [a[0]] else [], Filter(a[1..], p));
      SumAppend(if p(b[0]) then [b[0]] else [], Filter(b[1..], p));
    }
  }

  /** Changing a donation's status never changes any total. */
  lemma StatusDoesNotCount(donations: seq<Donation>, id: int, status: string, userId: int, start: Time, end: Time)
    ensures Total(UpdateWhere(donations, HasDonationId(id), (d: Donation) => d.(status := status)), userId, start, end)
            == Total(donations, userId, start, end)
  {
    TotalIgnoresOtherFields(
      UpdateWhere(donations, HasDonationId(id), (d: Donation) => d.(status := status)), donations, userId, start, end);
  }

  /** Splitting a window into two adjacent windows splits the total: no
      donation is counted twice or lost. */
  lemma {:induction false} AdjacentWindowsAdd(donations: seq<Donation>, userId: int, start: Time, mid: Time, end: Time)
    requires start <= mid < end
    ensures Total(donations, userId, start, mid) + Total(donations, userId, mid + 1, end)
            == Total(donations, userId, start, end)
  {
    if donations != [] {
      AdjacentWindowsAdd(donations[1..], userId, start, mid, end);
      var d := donations[0];
      var p1, p2, p := CountsToward(userId, start, mid), CountsToward(userId, mid + 1, end), CountsToward(userId, start, end);
      SumAppend(if p1(d) then [d] else [], Filter(donations[1..], p1));
      SumAppend(if p2(d) then [d] else [], Filter(donations[1..], p2));
      SumAppend(if p(d) then [d] else [], Filter(donations[1..], p));
    }
  }

  /** A participant with a donation of 50 on 2024-01-15 and one of 100 on
      2024-02-05 has contributed 50 to a challenge running 2024-01-01 to
      2024-01-31 (timestamps in seconds since the epoch). */
  lemma JanuaryChallengeExample()
    ensures Total([Donation(1, 7, 1, Blood, 50, 1705276800, "completed", false, None),
                   Donation(2, 7, 1, Plasma, 100, 1707091200, "completed", false, None)],
                  7, 1704067200, 1706659200) == 50
  {
    var ds := [Donation(1, 7, 1, Blood, 50, 1705276800, "completed", false, None),
               Donation(2, 7, 1, Plasma, 100, 1707091200, "completed", false, None)];
    var p := CountsToward(7, 1704067200, 1706659200);
    assert ds[1..][1..] == [];
    assert Filter(ds, p) == [ds[0]];
  }
}
