/**
 * src/pages/dashboard/DonorDashboard.tsx: the list of requests a donor may
 * accept (`loadCompatibleRequests`) and the accept handler
 * (`handleAcceptRequest`), which writes the request, a donation record and
 * the donor's cooldown, in that order, then reloads the session user.
 */
module DonorDashboard {
  import opened Types
  import opened Seqs
  import opened Sorting
  import opened Storage
  import opened Auth

  // ---------------------------------------------------------------------------
  // Matching

  /** Rank used as the primary sort key (`urgencyOrder`). */
  function UrgencyRank(u: UrgencyLevel): int {
    match u
    case Emergency => 0
    case Within24Hours => 1
    case Planned => 2
  }

  /** Pending, in the donor's city (exact string equality) and of a group the donor can supply. */
  predicate IsCandidate(donorCity: string, donorGroup: BloodGroup, r: BloodRequest) {
    r.status == Pending && r.city == donorCity && CanSupply(donorGroup, r.bloodGroup)
  }

  function CandidateFilter(donorCity: string, donorGroup: BloodGroup): BloodRequest -> bool {
    r => IsCandidate(donorCity, donorGroup, r)
  }

  /** Urgency rank ascending, then creation time descending (the comparator of the sort). */
  function UrgencyThenNewest(r: BloodRequest): SortKey {
    SortKey(UrgencyRank(r.urgencyLevel), -r.createdAt)
  }

  /**
   * `loadCompatibleRequests` for a donor of `donorCity` and group `donorGroup`:
   * the candidates among all requests, stably sorted by urgency, newest first.
   */
  function CompatibleRequests(donorCity: string, donorGroup: BloodGroup, all: seq<BloodRequest>): (r: seq<BloodRequest>)
    ensures |r| <= |all|
    ensures forall i :: 0 <= i < |r| ==> IsCandidate(donorCity, donorGroup, r[i])
  {
    var f := Filter(all, CandidateFilter(donorCity, donorGroup));
    var r := SortBy(f, UrgencyThenNewest);
    assert forall i :: 0 <= i < |r| ==> IsCandidate(donorCity, donorGroup, r[i]) by {
      forall i | 0 <= i < |r| ensures IsCandidate(donorCity, donorGroup, r[i]) {
        assert r[i] in multiset(f);
        var j :| 0 <= j < |f| && f[j] == r[i];
      }
    }
    r
  }

  /**
   * What the list promises: only candidates; exactly the candidates of the
   * pool, each as many times as it occurs there; ordered by urgency rank,
   * and within a rank newest first.
   */
  lemma CompatibleRequestsCorrect(donorCity: string, donorGroup: BloodGroup, all: seq<BloodRequest>)
    ensures var r := CompatibleRequests(donorCity, donorGroup, all);
      && (forall i :: 0 <= i < |r| ==>
            r[i].status == Pending && r[i].city == donorCity && r[i].bloodGroup in CanDonateTo(donorGroup))
      && (forall x :: multiset(r)[x] == if IsCandidate(donorCity, donorGroup, x) then multiset(all)[x] else 0)
      && (forall i, j :: 0 <= i < j < |r| ==>
            UrgencyRank(r[i].urgencyLevel) <= UrgencyRank(r[j].urgencyLevel))
      && (forall i, j :: 0 <= i < j < |r| && r[i].urgencyLevel == r[j].urgencyLevel ==>
            r[i].createdAt >= r[j].createdAt)
  {
    var p := CandidateFilter(donorCity, donorGroup);
    var f := Filter(all, p);
    var r := CompatibleRequests(donorCity, donorGroup, all);
    FilterMultiset(all, p);
    assert multiset(r) == multiset(f);
    forall i | 0 <= i < |r|
      ensures r[i].status == Pending && r[i].city == donorCity && r[i].bloodGroup in CanDonateTo(donorGroup)
    {
      assert r[i] in multiset(r);
      assert p(r[i]);
    }
    forall i, j | 0 <= i < j < |r| && r[i].urgencyLevel == r[j].urgencyLevel
      ensures r[i].createdAt >= r[j].createdAt
    {
      assert KeyLe(UrgencyThenNewest(r[i]), UrgencyThenNewest(r[j]));
    }
  }

  /** Requests of a blood group the donor cannot supply never appear, whatever their urgency or city. */
  lemma IncompatibleNeverListed(donorCity: string, donorGroup: BloodGroup, all: seq<BloodRequest>, x: BloodRequest)
    requires !CanSupply(donorGroup, x.bloodGroup) || x.city != donorCity || x.status != Pending
    ensures x !in CompatibleRequests(donorCity, donorGroup, all)
  {
    CompatibleRequestsCorrect(donorCity, donorGroup, all);
    assert multiset(CompatibleRequests(donorCity, donorGroup, all))[x] == 0;
  }

  /** Requests with the same urgency and creation time keep the order they have in the store. */
  lemma CompatibleRequestsStable(donorCity: string, donorGroup: BloodGroup, all: seq<BloodRequest>, k: SortKey)
    ensures Filter(CompatibleRequests(donorCity, donorGroup, all), KeyIs(UrgencyThenNewest, k))
         == Filter(Filter(all, CandidateFilter(donorCity, donorGroup)), KeyIs(UrgencyThenNewest, k))
  {
    SortIsStable(Filter(all, CandidateFilter(donorCity, donorGroup)), UrgencyThenNewest, k);
  }

  // ---------------------------------------------------------------------------
  // Accepting a request

  /**
   * `addMonths(now, 3)`. Calendar arithmetic is not modelled: the cooldown is a
   * fixed 91 days, and the proofs rely only on it ending after `now`.
   */
  function AddMonths3(t: Time): (r: Time)
    ensures t < r
  {
    t + 91 * DayMs
  }

  /** The request as saved by accept: matched to the donor, stamped `now`. */
  function MatchedTo(r: BloodRequest, donor: User, now: Time): (m: BloodRequest)
    ensures m.status == Matched && HasDonor(m) && WellFormedRequest(m)
    ensures m.donorId == Some(donor.id) && m.updatedAt == now
    ensures m.(status := r.status, donorId := r.donorId, donorName := r.donorName,
               donorContact := r.donorContact, updatedAt := r.updatedAt) == r
  {
    r.(status := Matched,
       donorId := Some(donor.id),
       donorName := Some(donor.name),
       donorContact := Some(donor.contactNumber),
       updatedAt := now)
  }

  /** The donation record created by accept. */
  function DonationFor(r: BloodRequest, donor: User, now: Time, id: Id): (d: DonationRecord)
    ensures d.id == id && d.donorId == donor.id && d.requestId == r.id
    ensures d.donationDate == now < d.cooldownEndDate
  {
    DonationRecord(id, donor.id, r.id, r.receiverName, r.bloodGroup, r.hospitalName, now, AddMonths3(now))
  }

  /** The donor as saved by accept: last donation `now`, cooldown until three months later. */
  function WithCooldown(donor: User, now: Time): (u: User)
    requires donor.role.Donor?
    ensures u.role.Donor? && u.role.bloodGroup == donor.role.bloodGroup
    ensures u.role.lastDonationDate == Some(now) && IsOnCooldown(CooldownEnd(u), now)
    ensures u.(role := donor.role) == donor
  {
    donor.(role := donor.role.(lastDonationDate := Some(now), cooldownEndDate := Some(AddMonths3(now))))
  }

  /** The three records written by accept agree with each other and with the inputs. */
  lemma AcceptRecordsAgree(r: BloodRequest, donor: User, now: Time, id: Id)
    requires donor.role.Donor?
    ensures var m := MatchedTo(r, donor, now);
      && m.status == Matched && HasDonor(m) && WellFormedRequest(m)
      && m.donorId == Some(donor.id) && m.donorName == Some(donor.name) && m.donorContact == Some(donor.contactNumber)
      && m.(status := r.status, donorId := r.donorId, donorName := r.donorName,
            donorContact := r.donorContact, updatedAt := r.updatedAt) == r
    ensures var d := DonationFor(r, donor, now, id);
      && d.requestId == r.id && d.donorId == donor.id
      && d.receiverName == r.receiverName && d.bloodGroup == r.bloodGroup && d.hospitalName == r.hospitalName
      && d.donationDate == now && Some(d.cooldownEndDate) == CooldownEnd(WithCooldown(donor, now))
    ensures IsOnCooldown(CooldownEnd(WithCooldown(donor, now)), now)
    ensures WithCooldown(donor, now).id == donor.id
    ensures WithCooldown(donor, now).role.lastDonationDate == Some(now)
    ensures WithCooldown(donor, now).role.lastDonationDate.value < WithCooldown(donor, now).role.cooldownEndDate.value
  {
  }

  /** Accepting a pending request keeps every stored request well formed. */
  lemma AcceptKeepsStoreWellFormed(requests: seq<BloodRequest>, r: BloodRequest, donor: User, now: Time)
    requires forall i :: 0 <= i < |requests| ==> WellFormedRequest(requests[i])
    ensures var s := Upsert(requests, MatchedTo(r, donor, now), RequestId);
      forall i :: 0 <= i < |s| ==> WellFormedRequest(s[i])
  {
    UpsertKeepsAll(requests, MatchedTo(r, donor, now), RequestId, (q: BloodRequest) => WellFormedRequest(q));
  }

  /** Accepting a pending request is a lifecycle step. */
  lemma AcceptIsStep(r: BloodRequest, donor: User, now: Time)
    requires r.status == Pending
    ensures RequestStep(r.status, MatchedTo(r, donor, now).status)
  {
  }

  /**
   * `handleAcceptRequest`. Does nothing without a session user or while the
   * session donor is on cooldown; otherwise saves the matched request,
   * appends the donation record, saves the donor with its new cooldown and
   * reloads the session user. The handler does not check the request's
   * status: the page only offers it for listed (pending) requests.
   */
  method HandleAcceptRequest(session: Session, request: BloodRequest, now: Time, donationId: Id)
    returns (accepted: bool)
    requires session.store.Valid()
    requires session.user.Some? ==> session.user.value.role.Donor?
    modifies session, session.store
    ensures session.store.Valid()
    ensures accepted <==> old(session.user).Some? && !IsOnCooldown(CooldownEnd(old(session.user).value), now)
    ensures !accepted ==>
      && session.user == old(session.user)
      && session.store.users == old(session.store.users)
      && session.store.requests == old(session.store.requests)
      && session.store.donations == old(session.store.donations)
    ensures accepted ==>
      var donor := old(session.user).value;
      && session.store.requests == Upsert(old(session.store.requests), MatchedTo(request, donor, now), RequestId)
      && session.store.donations == old(session.store.donations) + [DonationFor(request, donor, now, donationId)]
      && session.store.users == Upsert(old(session.store.users), WithCooldown(donor, now), UserId)
      && session.user == Some(WithCooldown(donor, now))
      && IsOnCooldown(CooldownEnd(session.user.value), now)
    ensures session.store.inventory == old(session.store.inventory)
    ensures session.store.verifications == old(session.store.verifications)
  {
    if session.user.None? || IsOnCooldown(CooldownEnd(session.user.value), now) {
      return false;
    }
    var donor := session.user.value;
    var store := session.store;
    store.SaveRequest(MatchedTo(request, donor, now));
    store.SaveDonation(DonationFor(request, donor, now, donationId));
    var updated := WithCooldown(donor, now);
    store.SaveUser(updated);
    SavedUserIsFound(old(store.users), updated);
    session.RefreshUser();
    accepted := true;
  }
}
