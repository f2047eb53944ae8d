/**
 * src/pages/dashboard/OrganizationVerifications.tsx: an organization reviews
 * the hospital verification requests of its own city. Approving marks the
 * hospital's receiver account verified; rejecting only records the review.
 */
module OrgVerifications {
  import opened Types
  import opened Seqs
  import opened Storage

  // ---------------------------------------------------------------------------
  // What the page lists

  function VerificationIn(city: string): VerificationRequest -> bool {
    (v: VerificationRequest) => v.city == city
  }

  function IsProcessed(): VerificationRequest -> bool {
    (v: VerificationRequest) => v.status != PendingReview
  }

  /** `loadVerifications`: the verifications of the organization's city (exact match), in store order. */
  function LocalVerifications(all: seq<VerificationRequest>, city: string): (r: seq<VerificationRequest>)
    ensures forall v :: v in r <==> v in all && v.city == city
  {
    var r := Filter(all, VerificationIn(city));
    FilterMultiset(all, VerificationIn(city));
    assert forall v :: v in r <==> multiset(r)[v] > 0;
    r
  }

  /** `pendingVerifications`: the listed ones still awaiting review. */
  function PendingOf(listed: seq<VerificationRequest>): seq<VerificationRequest> {
    Filter(listed, IsVerificationPending())
  }

  /** `processedVerifications`: the listed ones already approved or rejected. */
  function ProcessedOf(listed: seq<VerificationRequest>): seq<VerificationRequest> {
    Filter(listed, IsProcessed())
  }

  /**
   * The pending and processed lists split the listed verifications: together
   * they hold each one exactly as often as it is listed, and their lengths add up.
   */
  lemma PendingProcessedPartition(listed: seq<VerificationRequest>)
    ensures multiset(PendingOf(listed)) + multiset(ProcessedOf(listed)) == multiset(listed)
    ensures |PendingOf(listed)| + |ProcessedOf(listed)| == |listed|
    ensures forall i :: 0 <= i < |PendingOf(listed)| ==> PendingOf(listed)[i].status == PendingReview
    ensures forall i :: 0 <= i < |ProcessedOf(listed)| ==> ProcessedOf(listed)[i].status != PendingReview
  {
    FilterPartition(listed, IsVerificationPending(), IsProcessed());
  }

  // ---------------------------------------------------------------------------
  // Reviewing

  /** `{ ...verification, status, reviewedBy: org.id, reviewedAt: now, notes }`. */
  function Reviewed(v: VerificationRequest, status: VerificationStatus, orgId: Id, now: Time, notes: string): (w: VerificationRequest)
    ensures w.id == v.id && w.status == status && w.reviewedBy == Some(orgId) && w.reviewedAt == Some(now)
    ensures w.hospitalEmail == v.hospitalEmail && w.city == v.city
  {
    v.(status := status, reviewedBy := Some(orgId), reviewedAt := Some(now), notes := Some(notes))
  }

  /**
   * A review keeps the identity and the hospital's details, records who
   * reviewed it and when, and takes the verification out of the pending list.
   */
  lemma ReviewKeepsHospitalFields(v: VerificationRequest, status: VerificationStatus, orgId: Id, now: Time, notes: string)
    requires status != PendingReview
    ensures var w := Reviewed(v, status, orgId, now, notes);
      && w.(status := v.status, reviewedBy := v.reviewedBy, reviewedAt := v.reviewedAt, notes := v.notes) == v
      && w.status == status && w.reviewedBy == Some(orgId) && w.reviewedAt == Some(now) && w.notes == Some(notes)
      && PendingOf([w]) == [] && ProcessedOf([w]) == [w]
  {
  }

  /** The account approval looks for: a receiver with exactly this e-mail (case matters here). */
  function ReceiverWithEmail(email: string): User -> bool {
    (u: User) => u.email == email && u.role.Receiver?
  }

  /** `{ ...hospital, isVerified: true }`. */
  function AsVerified(u: User): (w: User)
    requires u.role.Receiver?
    ensures w.role.Receiver? && w.role.isVerified && w.role.receiverType == u.role.receiverType
    ensures w.(role := u.role) == u
  {
    u.(role := u.role.(isVerified := true))
  }

  /**
   * `handleApprove`: saves the approved verification; then, if some user is a
   * receiver with exactly the hospital's e-mail, saves the first such user
   * marked verified. The handler does not check that the verification is
   * still pending: the page offers it only for pending ones.
   */
  method HandleApprove(store: Store, orgId: Id, v: VerificationRequest, notes: string, now: Time)
    returns (hospital: Option<User>)
    requires store.Valid()
    modifies store`verifications, store`users
    ensures store.Valid()
    ensures store.verifications == Upsert(old(store.verifications), Reviewed(v, Approved, orgId, now, notes), VerificationId)
    ensures hospital == Find(old(store.users), ReceiverWithEmail(v.hospitalEmail))
    ensures hospital.None? ==> store.users == old(store.users)
    ensures hospital.Some? ==>
      && hospital.value.role.Receiver?
      && store.users == Upsert(old(store.users), AsVerified(hospital.value), UserId)
  {
    store.SaveVerification(Reviewed(v, Approved, orgId, now, notes));
    var i := FindIndex(store.users, ReceiverWithEmail(v.hospitalEmail));
    if i < 0 {
      return None;
    }
    hospital := Some(store.users[i]);
    store.SaveUser(AsVerified(store.users[i]));
  }

  /**
   * Approval changes exactly one user, the first receiver with the hospital's
   * e-mail, in place: it becomes verified and nothing else about it or any
   * other user changes.
   */
  lemma ApproveChangesOnlyTheHospital(users: seq<User>, email: string)
    requires UniqueKeys(users, UserId)
    requires Find(users, ReceiverWithEmail(email)).Some?
    ensures var k := IndexWhere(users, ReceiverWithEmail(email));
      && 0 <= k < |users| && users[k].email == email && users[k].role.Receiver?
      && Upsert(users, AsVerified(users[k]), UserId) == users[k := AsVerified(users[k])]
      && AsVerified(users[k]).role.isVerified
      && AsVerified(users[k]).(role := users[k].role) == users[k]
      && GetUserById(Upsert(users, AsVerified(users[k]), UserId), users[k].id) == Some(AsVerified(users[k]))
  {
    var k := IndexWhere(users, ReceiverWithEmail(email));
    SaveOverExistingId(users, AsVerified(users[k]), UserId, k);
    SavedUserIsFound(users, AsVerified(users[k]));
  }

  /** `handleReject`: saves the rejected verification; the users are never touched. */
  method HandleReject(store: Store, orgId: Id, v: VerificationRequest, notes: string, now: Time)
    requires store.Valid()
    modifies store`verifications
    ensures store.Valid()
    ensures store.verifications == Upsert(old(store.verifications), Reviewed(v, Rejected, orgId, now, notes), VerificationId)
  {
    store.SaveVerification(Reviewed(v, Rejected, orgId, now, notes));
  }

  /**
   * Reviewing a verification that is listed as pending replaces it in place;
   * afterwards the city's pending list no longer holds anything with its id.
   */
  lemma ReviewLeavesPending(all: seq<VerificationRequest>, k: int, status: VerificationStatus, orgId: Id, now: Time, notes: string)
    requires UniqueKeys(all, VerificationId) && 0 <= k < |all|
    requires status != PendingReview
    ensures var after := Upsert(all, Reviewed(all[k], status, orgId, now, notes), VerificationId);
      && |after| == |all|
      && forall w :: w in PendingOf(after) ==> w.id != all[k].id
  {
    var w := Reviewed(all[k], status, orgId, now, notes);
    var after := Upsert(all, w, VerificationId);
    SaveOverExistingId(all, w, VerificationId, k);
    var p := PendingOf(after);
    FilterMultiset(after, IsVerificationPending());
    forall x | x in p ensures x.id != all[k].id {
      assert multiset(p)[x] > 0;
      assert x in after;
      var j :| 0 <= j < |after| && after[j] == x;
      assert after[k] == w;
      assert j != k;
      assert after[j] == all[j];
    }
  }
}
