/**
 * src/pages/dashboard/ReceiverDashboard.tsx: the request form and its bounds,
 * request creation (`onSubmit`), cancellation (`handleCancelRequest`), the
 * mark-fulfilled action, the receiver's own list (`loadRequests`) and the
 * status counters.
 */
module ReceiverDashboard {
  import opened Types
  import opened Seqs
  import opened Sorting
  import opened Storage
  import opened Auth

  // ---------------------------------------------------------------------------
  // The request form

  /** What the request form submits; `notes` may be left out. */
  datatype RequestForm = RequestForm(
    bloodGroup: BloodGroup,
    unitsNeeded: int,
    hospitalName: string,
    city: string,
    urgencyLevel: UrgencyLevel,
    notes: Option<string>)

  /** The bounds of `requestSchema`: 1..10 units, hospital name 2..100, a city, notes at most 500. */
  predicate RequestFormValid(f: RequestForm) {
    && 1 <= f.unitsNeeded <= 10
    && 2 <= |f.hospitalName| <= 100
    && 1 <= |f.city|
    && (f.notes.Some? ==> |f.notes.value| <= 500)
  }

  /** The request `onSubmit` builds for the session user from a submitted form. */
  function NewRequest(user: User, f: RequestForm, id: Id, now: Time): (r: BloodRequest)
    ensures r.id == id && r.status == Pending
    ensures r.receiverId == user.id && r.receiverName == user.name && r.receiverContact == user.contactNumber
    ensures r.createdAt == now && r.updatedAt == r.createdAt
    ensures r.bloodGroup == f.bloodGroup && r.unitsNeeded == f.unitsNeeded && r.hospitalName == f.hospitalName
    ensures r.city == f.city && r.urgencyLevel == f.urgencyLevel && r.notes == f.notes
    ensures WellFormedRequest(r) && !HasDonor(r)
    ensures RequestFormValid(f) ==> 1 <= r.unitsNeeded <= 10
  {
    BloodRequest(id, user.id, user.name, user.contactNumber, f.bloodGroup, f.unitsNeeded,
                 f.hospitalName, f.city, f.urgencyLevel, f.notes, Pending, now, now, None, None, None)
  }

  /** A new request is offered to every matching donor of its city. */
  lemma NewRequestIsListedForDonors(user: User, f: RequestForm, id: Id, now: Time, requests: seq<BloodRequest>)
    ensures NewRequest(user, f, id, now) in GetRequestsByCity(requests + [NewRequest(user, f, id, now)], f.city)
    ensures NewRequest(user, f, id, now) in GetRequestsByReceiver(requests + [NewRequest(user, f, id, now)], user.id)
  {
  }

  /**
   * `onSubmit`: without a session user nothing happens; otherwise one new
   * pending request with the fresh id `newId` is appended to the store.
   * The form has been checked against the schema before the handler runs.
   */
  method OnSubmit(session: Session, f: RequestForm, now: Time, newId: Id) returns (created: Option<BloodRequest>)
    requires session.store.Valid()
    requires forall i :: 0 <= i < |session.store.requests| ==> session.store.requests[i].id != newId
    modifies session.store`requests
    ensures session.store.Valid()
    ensures session.user.None? ==> created.None? && session.store.requests == old(session.store.requests)
    ensures session.user.Some? ==>
      && created == Some(NewRequest(session.user.value, f, newId, now))
      && session.store.requests == old(session.store.requests) + [created.value]
  {
    if session.user.None? {
      return None;
    }
    var r := NewRequest(session.user.value, f, newId, now);
    SaveWithNewId(session.store.requests, r, RequestId);
    session.store.SaveRequest(r);
    created := Some(r);
  }

  // ---------------------------------------------------------------------------
  // Cancel and mark fulfilled

  /** `{ ...request, status: 'cancelled', updatedAt: now }`. */
  function AsCancelled(r: BloodRequest, now: Time): (c: BloodRequest)
    ensures IsTerminal(c.status) && c.id == r.id && c.updatedAt == now
    ensures c.(status := r.status, updatedAt := r.updatedAt) == r
  {
    r.(status := Cancelled, updatedAt := now)
  }

  /** `{ ...request, status: 'fulfilled', updatedAt: now }`. */
  function AsFulfilled(r: BloodRequest, now: Time): (c: BloodRequest)
    ensures IsTerminal(c.status) && c.id == r.id && c.updatedAt == now
    ensures c.(status := r.status, updatedAt := r.updatedAt) == r
  {
    r.(status := Fulfilled, updatedAt := now)
  }

  /**
   * Cancelling changes only the status and the update time; from pending, the
   * only status it is offered for, it is a lifecycle step into a terminal
   * status that keeps the request well formed.
   */
  lemma CancelChangesOnlyStatus(r: BloodRequest, now: Time)
    ensures AsCancelled(r, now).(status := r.status, updatedAt := r.updatedAt) == r
    ensures AsCancelled(r, now).status == Cancelled && IsTerminal(AsCancelled(r, now).status)
    ensures r.status == Pending ==> RequestStep(r.status, AsCancelled(r, now).status)
    ensures r.status == Pending && WellFormedRequest(r) ==> WellFormedRequest(AsCancelled(r, now))
  {
  }

  /**
   * Fulfilling changes only the status and the update time; from matched, the
   * only status it is offered for, it is a lifecycle step into a terminal
   * status that keeps the request well formed.
   */
  lemma FulfilChangesOnlyStatus(r: BloodRequest, now: Time)
    ensures AsFulfilled(r, now).(status := r.status, updatedAt := r.updatedAt) == r
    ensures AsFulfilled(r, now).status == Fulfilled && IsTerminal(AsFulfilled(r, now).status)
    ensures r.status == Matched ==> RequestStep(r.status, AsFulfilled(r, now).status)
    ensures r.status == Matched && WellFormedRequest(r) ==> WellFormedRequest(AsFulfilled(r, now))
  {
  }

  /**
   * Fulfilling a request the page would not offer it for breaks the lifecycle:
   * the handler itself does not check that the request is matched.
   */
  lemma FulfilPendingIsNotAStep(r: BloodRequest, now: Time)
    requires r.status == Pending && WellFormedRequest(r)
    ensures !RequestStep(r.status, AsFulfilled(r, now).status)
    ensures !WellFormedRequest(AsFulfilled(r, now))
  {
  }

  /**
   * `handleCancelRequest`: looks the id up among the listed requests and
   * saves the cancelled copy only when that request is pending; otherwise
   * the store is left as it was.
   */
  method HandleCancelRequest(store: Store, listed: seq<BloodRequest>, requestId: Id, now: Time)
    returns (cancelled: bool)
    requires store.Valid()
    modifies store`requests
    ensures store.Valid()
    ensures var found := Find(listed, HasKey(RequestId, requestId));
      && (cancelled <==> found.Some? && found.value.status == Pending)
      && (cancelled ==> store.requests == Upsert(old(store.requests), AsCancelled(found.value, now), RequestId))
      && (!cancelled ==> store.requests == old(store.requests))
  {
    var i := FindIndex(listed, HasKey(RequestId, requestId));
    if i < 0 || listed[i].status != Pending {
      return false;
    }
    store.SaveRequest(AsCancelled(listed[i], now));
    cancelled := true;
  }

  /** The mark-fulfilled action: saves the fulfilled copy of the request, whatever its status. */
  method MarkFulfilled(store: Store, request: BloodRequest, now: Time)
    requires store.Valid()
    modifies store`requests
    ensures store.Valid()
    ensures store.requests == Upsert(old(store.requests), AsFulfilled(request, now), RequestId)
  {
    store.SaveRequest(AsFulfilled(request, now));
  }

  /** Cancelling a pending request keeps every stored request well formed. */
  lemma CancelKeepsStoreWellFormed(requests: seq<BloodRequest>, r: BloodRequest, now: Time)
    requires forall i :: 0 <= i < |requests| ==> WellFormedRequest(requests[i])
    requires WellFormedRequest(r) && r.status == Pending
    ensures var s := Upsert(requests, AsCancelled(r, now), RequestId);
      forall i :: 0 <= i < |s| ==> WellFormedRequest(s[i])
  {
    UpsertKeepsAll(requests, AsCancelled(r, now), RequestId, (q: BloodRequest) => WellFormedRequest(q));
  }

  /** Fulfilling a matched request keeps every stored request well formed. */
  lemma FulfilKeepsStoreWellFormed(requests: seq<BloodRequest>, r: BloodRequest, now: Time)
    requires forall i :: 0 <= i < |requests| ==> WellFormedRequest(requests[i])
    requires WellFormedRequest(r) && r.status == Matched
    ensures var s := Upsert(requests, AsFulfilled(r, now), RequestId);
      forall i :: 0 <= i < |s| ==> WellFormedRequest(s[i])
  {
    UpsertKeepsAll(requests, AsFulfilled(r, now), RequestId, (q: BloodRequest) => WellFormedRequest(q));
  }

  // ---------------------------------------------------------------------------
  // The receiver's list and its counters

  /** Newest first: a single class ordered by decreasing creation time. */
  function NewestFirst(r: BloodRequest): SortKey {
    SortKey(0, -r.createdAt)
  }

  /** `loadRequests`: the receiver's own requests, newest first. */
  function OwnRequests(requests: seq<BloodRequest>, receiverId: Id): (r: seq<BloodRequest>)
    ensures |r| == Count(requests, ByReceiver(receiverId))
    ensures forall i, j :: 0 <= i < j < |r| ==> r[i].createdAt >= r[j].createdAt
  {
    var r := SortBy(GetRequestsByReceiver(requests, receiverId), NewestFirst);
    assert forall i, j :: 0 <= i < j < |r| ==> r[i].createdAt >= r[j].createdAt by {
      forall i, j | 0 <= i < j < |r| ensures r[i].createdAt >= r[j].createdAt {
        assert KeyLe(NewestFirst(r[i]), NewestFirst(r[j]));
      }
    }
    r
  }

  /** The list holds exactly the receiver's requests, each as often as stored, newest first. */
  lemma OwnRequestsCorrect(requests: seq<BloodRequest>, receiverId: Id)
    ensures var r := OwnRequests(requests, receiverId);
      && (forall q :: q in r <==> q in requests && q.receiverId == receiverId)
      && (forall q :: multiset(r)[q] == if q.receiverId == receiverId then multiset(requests)[q] else 0)
      && (forall i, j :: 0 <= i < j < |r| ==> r[i].createdAt >= r[j].createdAt)
  {
    var r := OwnRequests(requests, receiverId);
    var f := GetRequestsByReceiver(requests, receiverId);
    assert multiset(r) == multiset(f);
    forall q ensures q in r <==> q in f {
      assert q in r <==> q in multiset(r);
      assert q in f <==> q in multiset(f);
    }
  }

  function WithStatus(s: RequestStatus): BloodRequest -> bool {
    (r: BloodRequest) => r.status == s
  }

  /** A status counter: `requests.filter(r => r.status === s).length`. */
  function StatusCount(rs: seq<BloodRequest>, s: RequestStatus): (n: nat)
    ensures n <= |rs|
    ensures n == 0 <==> forall i :: 0 <= i < |rs| ==> rs[i].status != s
  {
    var f := Filter(rs, WithStatus(s));
    FilterMultiset(rs, WithStatus(s));
    assert |f| > 0 ==> f[0] in multiset(f);
    assert forall i :: 0 <= i < |rs| && rs[i].status == s ==> multiset(f)[rs[i]] > 0;
    |f|
  }

  /**
   * The four statuses split the list, so the pending, matched and fulfilled
   * counters never exceed the total; they reach it exactly when nothing is cancelled.
   */
  lemma {:induction false} StatusCountsSum(rs: seq<BloodRequest>)
    ensures StatusCount(rs, Pending) + StatusCount(rs, Matched) + StatusCount(rs, Fulfilled)
          + StatusCount(rs, Cancelled) == |rs|
    ensures StatusCount(rs, Pending) + StatusCount(rs, Matched) + StatusCount(rs, Fulfilled) <= |rs|
    ensures StatusCount(rs, Pending) + StatusCount(rs, Matched) + StatusCount(rs, Fulfilled) == |rs|
      <==> StatusCount(rs, Cancelled) == 0
  {
    if rs != [] {
      StatusCountsSum(rs[1..]);
    }
  }
}
