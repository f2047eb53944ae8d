/**
 * src/pages/dashboard/OrganizationDashboard.tsx: what an organization sees
 * of its city (`loadData`): the area's requests and their status counts, the
 * local donors split into available and cooling down, and its own stock
 * totals per blood group.
 */
module OrgDashboard {
  import opened Types
  import opened Seqs
  import opened Storage
  import opened Auth
  import opened ReceiverDashboard

  // ---------------------------------------------------------------------------
  // Area requests

  function RequestIn(city: string): BloodRequest -> bool {
    (r: BloodRequest) => r.city == city
  }

  /** `localRequests`: every request of the organization's city, whatever its status, in store order. */
  function AreaRequests(all: seq<BloodRequest>, city: string): (r: seq<BloodRequest>)
    ensures forall q :: q in r <==> q in all && q.city == city
  {
    var r := Filter(all, RequestIn(city));
    FilterMultiset(all, RequestIn(city));
    assert forall q :: q in r <==> multiset(r)[q] > 0;
    r
  }

  /** The "recent requests" card: the first five pending area requests. */
  function RecentPending(area: seq<BloodRequest>): (r: seq<BloodRequest>)
    ensures |r| <= 5
    ensures forall i :: 0 <= i < |r| ==> r[i].status == Pending
  {
    var pending := Filter(area, WithStatus(Pending));
    if |pending| <= 5 then pending else pending[..5]
  }

  /**
   * The card shows at most five requests, all pending, and they are exactly
   * the pending requests among the first `n` area requests for some `n`, in
   * area order; it is empty exactly when no area request is pending.
   */
  lemma RecentPendingCorrect(area: seq<BloodRequest>)
    ensures var r := RecentPending(area);
      && |r| <= 5
      && |r| == (if StatusCount(area, Pending) < 5 then StatusCount(area, Pending) else 5)
      && (forall i :: 0 <= i < |r| ==> r[i].status == Pending)
      && (exists n :: 0 <= n <= |area| && r == Filter(area[..n], WithStatus(Pending)))
      && (r == [] <==> forall i :: 0 <= i < |area| ==> area[i].status != Pending)
  {
    var pending := Filter(area, WithStatus(Pending));
    FilterMultiset(area, WithStatus(Pending));
    FilterPrefix(area, WithStatus(Pending), |RecentPending(area)|);
    if pending == [] {
      forall i | 0 <= i < |area| ensures area[i].status != Pending {
        assert multiset(pending)[area[i]] == 0;
      }
    } else {
      assert pending[0] in multiset(pending);
    }
  }

  // ---------------------------------------------------------------------------
  // Local donors

  function DonorIn(city: string): User -> bool {
    (u: User) => u.role.Donor? && u.city == city
  }

  /**
   * The dashboards' "available" test: a donor with no cooldown end or one
   * strictly in the past (`end < now`).
   */
  predicate IsAvailableDonor(u: User, now: Time) {
    u.role.Donor? && (u.role.cooldownEndDate.None? || u.role.cooldownEndDate.value < now)
  }

  /** The "on cooldown" test of this dashboard: a cooldown end at or after `now`. */
  predicate IsCoolingDown(u: User, now: Time) {
    u.role.Donor? && u.role.cooldownEndDate.Some? && u.role.cooldownEndDate.value >= now
  }

  function AvailableAt(now: Time): User -> bool {
    (u: User) => IsAvailableDonor(u, now)
  }

  function CoolingDownAt(now: Time): User -> bool {
    (u: User) => IsCoolingDown(u, now)
  }

  datatype DonorStats = DonorStats(total: nat, available: nat, cooldown: nat)

  /** `donorStats`: the local donors, and how many of them are available or cooling down. */
  function DonorStatsOf(users: seq<User>, city: string, now: Time): (s: DonorStats)
    ensures s.available <= s.total && s.cooldown <= s.total && s.total <= |users|
  {
    var local := Filter(users, DonorIn(city));
    DonorStats(|local|, Count(local, AvailableAt(now)), Count(local, CoolingDownAt(now)))
  }

  /**
   * Available and cooling down split the local donors: every local donor is
   * counted in exactly one of the two.
   */
  lemma DonorStatsPartition(users: seq<User>, city: string, now: Time)
    ensures var s := DonorStatsOf(users, city, now);
      s.available + s.cooldown == s.total && s.total == Count(users, DonorIn(city))
  {
    var local := Filter(users, DonorIn(city));
    FilterPartition(local, AvailableAt(now), CoolingDownAt(now));
  }

  /**
   * This test and the donor's own cooldown check (`now < end`) disagree at
   * exactly one instant: when the cooldown ends at `now`, the dashboard counts
   * the donor as cooling down while the donor may already accept a request.
   * At every other time they agree.
   */
  lemma AvailabilityBoundary(u: User, now: Time)
    requires u.role.Donor?
    ensures CooldownEnd(u) == Some(now) ==>
      IsCoolingDown(u, now) && !IsAvailableDonor(u, now) && !IsOnCooldown(CooldownEnd(u), now)
    ensures CooldownEnd(u) != Some(now) ==>
      (IsAvailableDonor(u, now) <==> !IsOnCooldown(CooldownEnd(u), now))
    ensures IsCoolingDown(u, now) <==> !IsAvailableDonor(u, now)
  {
  }

  // ---------------------------------------------------------------------------
  // Stock totals per blood group

  /** Units of group `g` summed over `items`. */
  function SumUnits(items: seq<InventoryItem>, g: BloodGroup): int {
    if items == [] then 0
    else
      var last := items[|items| - 1];
      SumUnits(items[..|items| - 1], g) + (if last.bloodGroup == g then last.units else 0)
  }

  /** Units summed over all items, whatever their group. */
  function TotalUnits(items: seq<InventoryItem>): int {
    if items == [] then 0 else TotalUnits(items[..|items| - 1]) + items[|items| - 1].units
  }

  /** A group with no item totals 0. */
  lemma {:induction false} NoItemsMeansZero(items: seq<InventoryItem>, g: BloodGroup)
    requires forall i :: 0 <= i < |items| ==> items[i].bloodGroup != g
    ensures SumUnits(items, g) == 0
  {
    if items != [] {
      NoItemsMeansZero(items[..|items| - 1], g);
    }
  }

  function GroupsTotal(items: seq<InventoryItem>): int {
    SumUnits(items, APos) + SumUnits(items, ANeg) + SumUnits(items, BPos) + SumUnits(items, BNeg)
    + SumUnits(items, ABPos) + SumUnits(items, ABNeg) + SumUnits(items, OPos) + SumUnits(items, ONeg)
  }

  /** The eight per-group totals account for every unit exactly once. */
  lemma {:induction false} GroupTotalsCoverAll(items: seq<InventoryItem>)
    ensures GroupsTotal(items) == TotalUnits(items)
  {
    if items != [] {
      GroupTotalsCoverAll(items[..|items| - 1]);
    }
  }

  /**
   * `inventoryStats`: one counter per group, starting at 0, to which each of
   * the organization's items adds its units.
   */
  method InventoryTotals(inventory: seq<InventoryItem>, orgId: Id) returns (stats: map<BloodGroup, int>)
    ensures forall g :: g in stats
    ensures forall g :: g in stats ==> stats[g] == SumUnits(GetInventoryByOrganization(inventory, orgId), g)
  {
    var items := GetInventoryByOrganization(inventory, orgId);
    stats := map[APos := 0, ANeg := 0, BPos := 0, BNeg := 0, ABPos := 0, ABNeg := 0, OPos := 0, ONeg := 0];
    forall g ensures g in stats {
      match g
      case APos => case ANeg => case BPos => case BNeg =>
      case ABPos => case ABNeg => case OPos => case ONeg =>
    }
    var i := 0;
    while i < |items|
      invariant 0 <= i <= |items|
      invariant forall g :: g in stats
      invariant forall g :: g in stats ==> stats[g] == SumUnits(items[..i], g)
    {
      var item := items[i];
      assert items[..i + 1][..i] == items[..i];
      stats := stats[item.bloodGroup := stats[item.bloodGroup] + item.units];
      i := i + 1;
    }
    assert items[..|items|] == items;
  }
}
