/**
 * The record store of src/lib/storage.ts: five collections held as sequences.
 * Every `save*` except `saveDonation` is an upsert by id (first index with the
 * id is overwritten, otherwise the record is appended); `saveDonation` always
 * appends. The getters are filters and finds over the collections.
 */
module Storage {
  import opened Types
  import opened Seqs

  // ---------------------------------------------------------------------------
  // Case-insensitive e-mail comparison (`toLowerCase`, ASCII letters only).

  function LowerChar(c: char): char {
    if 'A' <= c <= 'Z' then (c as int + 32) as char else c
  }

  function Lower(s: string): (r: string)
    ensures |r| == |s|
    ensures forall i :: 0 <= i < |s| ==> r[i] == LowerChar(s[i])
  {
    if s == [] then [] else [LowerChar(s[0])] + Lower(s[1..])
  }

  function EmailKey(u: User): string {
    Lower(u.email)
  }

  // ---------------------------------------------------------------------------
  // Query helpers, as pure functions of a collection.

  /** `getUserByEmail`: first user whose e-mail equals `email` ignoring case. */
  function GetUserByEmail(users: seq<User>, email: string): (r: Option<User>)
    ensures r.Some? ==> r.value in users && Lower(r.value.email) == Lower(email)
    ensures r.None? <==> forall u :: u in users ==> Lower(u.email) != Lower(email)
  {
    var r := Find(users, HasKey(EmailKey, Lower(email)));
    assert r.None? ==> forall i :: 0 <= i < |users| ==> !HasKey(EmailKey, Lower(email))(users[i]);
    r
  }

  /** `getUserById`: first user with this id. */
  function GetUserById(users: seq<User>, id: Id): (r: Option<User>)
    ensures r.Some? ==> r.value in users && r.value.id == id
    ensures r.None? <==> forall u :: u in users ==> u.id != id
  {
    var p := HasKey(UserId, id);
    var r := Find(users, p);
    assert forall u :: p(u) <==> u.id == id;
    r
  }

  /** `getRequestById`: first request with this id. */
  function GetRequestById(requests: seq<BloodRequest>, id: Id): (r: Option<BloodRequest>)
    ensures r.Some? ==> r.value in requests && r.value.id == id
    ensures r.None? <==> forall q :: q in requests ==> q.id != id
  {
    var p := HasKey(RequestId, id);
    var r := Find(requests, p);
    assert forall q :: p(q) <==> q.id == id;
    r
  }

  function ByReceiver(receiverId: Id): BloodRequest -> bool {
    (r: BloodRequest) => r.receiverId == receiverId
  }

  function PendingIn(city: string): BloodRequest -> bool {
    (r: BloodRequest) => r.city == city && r.status == Pending
  }

  function ByDonor(donorId: Id): DonationRecord -> bool {
    (d: DonationRecord) => d.donorId == donorId
  }

  function ByOrganization(orgId: Id): InventoryItem -> bool {
    (i: InventoryItem) => i.organizationId == orgId
  }

  function IsVerificationPending(): VerificationRequest -> bool {
    (v: VerificationRequest) => v.status == PendingReview
  }

  /** `getRequestsByReceiver`. */
  function GetRequestsByReceiver(requests: seq<BloodRequest>, receiverId: Id): (r: seq<BloodRequest>)
    ensures forall q :: q in r <==> q in requests && q.receiverId == receiverId
    ensures forall q :: multiset(r)[q] == if q.receiverId == receiverId then multiset(requests)[q] else 0
  {
    var r := Filter(requests, ByReceiver(receiverId));
    FilterMultiset(requests, ByReceiver(receiverId));
    assert forall q :: q in r <==> multiset(r)[q] > 0;
    r
  }

  /** `getRequestsByCity`: only pending requests of that city, in store order. */
  function GetRequestsByCity(requests: seq<BloodRequest>, city: string): (r: seq<BloodRequest>)
    ensures forall q :: q in r <==> q in requests && q.city == city && q.status == Pending
    ensures forall q :: multiset(r)[q] == if q.city == city && q.status == Pending then multiset(requests)[q] else 0
  {
    var r := Filter(requests, PendingIn(city));
    FilterMultiset(requests, PendingIn(city));
    assert forall q :: q in r <==> multiset(r)[q] > 0;
    r
  }

  /** `getDonationsByDonor`. */
  function GetDonationsByDonor(donations: seq<DonationRecord>, donorId: Id): (r: seq<DonationRecord>)
    ensures forall d :: d in r <==> d in donations && d.donorId == donorId
    ensures forall d :: multiset(r)[d] == if d.donorId == donorId then multiset(donations)[d] else 0
  {
    var r := Filter(donations, ByDonor(donorId));
    FilterMultiset(donations, ByDonor(donorId));
    assert forall d :: d in r <==> multiset(r)[d] > 0;
    r
  }

  /** `getInventoryByOrganization`. */
  function GetInventoryByOrganization(inventory: seq<InventoryItem>, orgId: Id): (r: seq<InventoryItem>)
    ensures forall i :: i in r <==> i in inventory && i.organizationId == orgId
    ensures forall i :: multiset(r)[i] == if i.organizationId == orgId then multiset(inventory)[i] else 0
  {
    var r := Filter(inventory, ByOrganization(orgId));
    FilterMultiset(inventory, ByOrganization(orgId));
    assert forall i :: i in r <==> multiset(r)[i] > 0;
    r
  }

  function IsOrganizationIn(city: string): User -> bool {
    (u: User) => u.role.Organization? && u.city == city
  }

  /** Ids of the organization-role users of a city (`filter(...).map(u => u.id)`). */
  function OrganizationIdsIn(users: seq<User>, city: string): seq<Id> {
    var orgs := Filter(users, IsOrganizationIn(city));
    seq(|orgs|, k requires 0 <= k < |orgs| => orgs[k].id)
  }

  function OwnedByAny(orgIds: seq<Id>): InventoryItem -> bool {
    (i: InventoryItem) => i.organizationId in orgIds
  }

  /** An item's owner is an organization-role user of the city exactly when its id is among those ids. */
  lemma OrganizationIdsInCity(users: seq<User>, city: string, orgId: Id)
    ensures orgId in OrganizationIdsIn(users, city) <==>
      exists u :: u in users && u.role.Organization? && u.city == city && u.id == orgId
  {
    var orgs := Filter(users, IsOrganizationIn(city));
    var ids := OrganizationIdsIn(users, city);
    FilterMultiset(users, IsOrganizationIn(city));
    if orgId in ids {
      var k :| 0 <= k < |ids| && ids[k] == orgId;
      assert orgs[k] in orgs;
      assert multiset(orgs)[orgs[k]] > 0;
    }
    if u :| u in users && u.role.Organization? && u.city == city && u.id == orgId {
      assert multiset(orgs)[u] > 0;
      var k :| 0 <= k < |orgs| && orgs[k] == u;
      assert ids[k] == u.id;
    }
  }

  /** `getInventoryByCity`: items owned by an organization-role user of that city. */
  function GetInventoryByCity(users: seq<User>, inventory: seq<InventoryItem>, city: string): (r: seq<InventoryItem>)
    ensures forall i :: i in r <==>
      i in inventory && exists u :: u in users && u.role.Organization? && u.city == city && u.id == i.organizationId
    ensures forall i ::
              multiset(r)[i] == if exists u :: u in users && u.role.Organization? && u.city == city && u.id == i.organizationId
                                then multiset(inventory)[i] else 0
  {
    var ids := OrganizationIdsIn(users, city);
    var r := Filter(inventory, OwnedByAny(ids));
    FilterMultiset(inventory, OwnedByAny(ids));
    assert forall i :: i in r <==> multiset(r)[i] > 0;
    forall i: InventoryItem ensures (i.organizationId in ids) <==>
        exists u :: u in users && u.role.Organization? && u.city == city && u.id == i.organizationId
    {
      OrganizationIdsInCity(users, city, i.organizationId);
    }
    r
  }

  /** `getPendingVerifications`. */
  function GetPendingVerifications(verifications: seq<VerificationRequest>): (r: seq<VerificationRequest>)
    ensures forall v :: v in r <==> v in verifications && v.status == PendingReview
    ensures forall v :: multiset(r)[v] == if v.status == PendingReview then multiset(verifications)[v] else 0
  {
    var r := Filter(verifications, IsVerificationPending());
    FilterMultiset(verifications, IsVerificationPending());
    assert forall v :: v in r <==> multiset(r)[v] > 0;
    r
  }

  /**
   * The query results follow store order: a record appended to the store
   * joins the end of every list it qualifies for and leaves the others as
   * they were.
   */
  lemma AppendedRequestJoinsLists(requests: seq<BloodRequest>, q: BloodRequest, city: string, receiverId: Id)
    ensures GetRequestsByCity(requests + [q], city)
      == GetRequestsByCity(requests, city) + (if q.city == city && q.status == Pending then [q] else [])
    ensures GetRequestsByReceiver(requests + [q], receiverId)
      == GetRequestsByReceiver(requests, receiverId) + (if q.receiverId == receiverId then [q] else [])
  {
    FilterSnoc(requests, q, PendingIn(city));
    FilterSnoc(requests, q, ByReceiver(receiverId));
  }

  lemma AppendedDonationJoinsHistory(donations: seq<DonationRecord>, d: DonationRecord, donorId: Id)
    ensures GetDonationsByDonor(donations + [d], donorId)
      == GetDonationsByDonor(donations, donorId) + (if d.donorId == donorId then [d] else [])
  {
    FilterSnoc(donations, d, ByDonor(donorId));
  }

  lemma AppendedItemJoinsInventory(inventory: seq<InventoryItem>, i: InventoryItem, orgId: Id)
    ensures GetInventoryByOrganization(inventory + [i], orgId)
      == GetInventoryByOrganization(inventory, orgId) + (if i.organizationId == orgId then [i] else [])
  {
    FilterSnoc(inventory, i, ByOrganization(orgId));
  }

  // ---------------------------------------------------------------------------
  // The store.

  class Store {
    var users: seq<User>
    var requests: seq<BloodRequest>
    var donations: seq<DonationRecord>
    var inventory: seq<InventoryItem>
    var verifications: seq<VerificationRequest>

    /** Ids are unique in every upserted collection (donations are append-only and not keyed). */
    ghost predicate Valid()
      reads this
    {
      && UniqueKeys(users, UserId)
      && UniqueKeys(requests, RequestId)
      && UniqueKeys(inventory, ItemId)
      && UniqueKeys(verifications, VerificationId)
    }

    constructor ()
      ensures Valid()
      ensures users == [] && requests == [] && donations == [] && inventory == [] && verifications == []
    {
      users, requests, donations, inventory, verifications := [], [], [], [], [];
    }

    /** `saveUser`. */
    method SaveUser(u: User)
      requires Valid()
      modifies this`users
      ensures Valid()
      ensures users == Upsert(old(users), u, UserId)
    {
      var i := FindIndex(users, HasKey(UserId, u.id));
      if i >= 0 {
        users := users[i := u];
      } else {
        users := users + [u];
      }
      UpsertKeepsUnique(old(users), u, UserId);
    }

    /** `saveRequest`. */
    method SaveRequest(r: BloodRequest)
      requires Valid()
      modifies this`requests
      ensures Valid()
      ensures requests == Upsert(old(requests), r, RequestId)
    {
      var i := FindIndex(requests, HasKey(RequestId, r.id));
      if i >= 0 {
        requests := requests[i := r];
      } else {
        requests := requests + [r];
      }
      UpsertKeepsUnique(old(requests), r, RequestId);
    }

    /** `saveDonation`: always appends, even when the id is already present. */
    method SaveDonation(d: DonationRecord)
      modifies this`donations
      ensures donations == old(donations) + [d]
    {
      donations := donations + [d];
    }

    /** `saveInventoryItem`. */
    method SaveInventoryItem(item: InventoryItem)
      requires Valid()
      modifies this`inventory
      ensures Valid()
      ensures inventory == Upsert(old(inventory), item, ItemId)
    {
      var i := FindIndex(inventory, HasKey(ItemId, item.id));
      if i >= 0 {
        inventory := inventory[i := item];
      } else {
        inventory := inventory + [item];
      }
      UpsertKeepsUnique(old(inventory), item, ItemId);
    }

    /** `saveVerification`. */
    method SaveVerification(v: VerificationRequest)
      requires Valid()
      modifies this`verifications
      ensures Valid()
      ensures verifications == Upsert(old(verifications), v, VerificationId)
    {
      var i := FindIndex(verifications, HasKey(VerificationId, v.id));
      if i >= 0 {
        verifications := verifications[i := v];
      } else {
        verifications := verifications + [v];
      }
      UpsertKeepsUnique(old(verifications), v, VerificationId);
    }
  }

  // ---------------------------------------------------------------------------
  // Properties of saves and lookups.

  /** After `saveUser(u)`, `getUserById(u.id)` returns `u`. */
  lemma SavedUserIsFound(users: seq<User>, u: User)
    ensures GetUserById(Upsert(users, u, UserId), u.id) == Some(u)
  {
    FindAfterUpsert(users, u, UserId);
  }

  /** After `saveRequest(r)`, `getRequestById(r.id)` returns `r`. */
  lemma SavedRequestIsFound(requests: seq<BloodRequest>, r: BloodRequest)
    ensures GetRequestById(Upsert(requests, r, RequestId), r.id) == Some(r)
  {
    FindAfterUpsert(requests, r, RequestId);
  }

  /** Saving a record over an existing id keeps the length and every other position. */
  lemma SaveOverExistingId<T>(s: seq<T>, x: T, key: T -> Id, k: int)
    requires UniqueKeys(s, key) && 0 <= k < |s| && key(s[k]) == key(x)
    ensures Upsert(s, x, key) == s[k := x]
  {
    IndexOfUniqueKey(s, key, k);
  }

  /** Saving a record with a new id appends it and keeps every earlier position. */
  lemma SaveWithNewId<T>(s: seq<T>, x: T, key: T -> Id)
    requires forall i :: 0 <= i < |s| ==> key(s[i]) != key(x)
    ensures Upsert(s, x, key) == s + [x]
  {
    UpsertNew(s, x, key);
  }

  /** `getUserByEmail` returns the first case-insensitive match. */
  lemma UserByEmailIsFirst(users: seq<User>, email: string, k: int)
    requires 0 <= k < |users| && Lower(users[k].email) == Lower(email)
    requires forall j :: 0 <= j < k ==> Lower(users[j].email) != Lower(email)
    ensures GetUserByEmail(users, email) == Some(users[k])
  {
    var p := HasKey(EmailKey, Lower(email));
    assert p(users[k]);
    assert forall j :: 0 <= j < k ==> !p(users[j]);
    var i := IndexWhere(users, p);
    assert i == k;
  }
}
