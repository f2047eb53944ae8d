/**
 * src/pages/Landing.tsx: the three figures on the landing page, counted over
 * the whole store.
 */
module Landing {
  import opened Types
  import opened Seqs
  import opened ReceiverDashboard
  import opened OrgDashboard

  function IsDonor(): User -> bool {
    (u: User) => u.role.Donor?
  }

  function IsOrganization(): User -> bool {
    (u: User) => u.role.Organization?
  }

  function IsReceiver(): User -> bool {
    (u: User) => u.role.Receiver?
  }

  datatype LandingStats = LandingStats(activeRequests: nat, availableDonors: nat, organizations: nat)

  /**
   * The landing figures: pending requests, donors available now (the same
   * test as the organization dashboard's), and organizations.
   */
  function Stats(requests: seq<BloodRequest>, users: seq<User>, now: Time): (s: LandingStats)
    ensures s.activeRequests <= |requests|
    ensures s.availableDonors + s.organizations <= |users|
  {
    CountMono(users, AvailableAt(now), IsDonor());
    RolesSplitUsers(users);
    LandingStats(StatusCount(requests, Pending), Count(users, AvailableAt(now)), Count(users, IsOrganization()))
  }

  /**
   * Only donors are ever counted as available, so the figure never exceeds the
   * number of donors; and donors, organizations and receivers make up all users.
   */
  lemma {:induction false} StatsBounds(requests: seq<BloodRequest>, users: seq<User>, now: Time)
    ensures Stats(requests, users, now).availableDonors <= Count(users, IsDonor())
    ensures Count(users, IsDonor()) + Count(users, IsOrganization()) + Count(users, IsReceiver()) == |users|
    ensures Stats(requests, users, now).activeRequests <= |requests|
  {
    CountMono(users, AvailableAt(now), IsDonor());
    RolesSplitUsers(users);
    StatusCountsSum(requests);
  }

  lemma {:induction false} RolesSplitUsers(users: seq<User>)
    ensures Count(users, IsDonor()) + Count(users, IsOrganization()) + Count(users, IsReceiver()) == |users|
  {
    if users != [] {
      RolesSplitUsers(users[1..]);
    }
  }

  function AvailableIn(city: string, now: Time): User -> bool {
    (u: User) => IsAvailableDonor(u, now) && u.city == city
  }

  /**
   * The landing page's available donors of one city are the organization
   * dashboard's available figure for that city.
   */
  lemma {:induction false} AvailableAgreesWithDashboard(users: seq<User>, city: string, now: Time)
    ensures Count(Filter(users, DonorIn(city)), AvailableAt(now))
         == Count(users, AvailableIn(city, now))
    ensures DonorStatsOf(users, city, now).available
         == Count(users, AvailableIn(city, now))
  {
    FilterFilter(users, DonorIn(city), AvailableAt(now), AvailableIn(city, now));
  }
}
