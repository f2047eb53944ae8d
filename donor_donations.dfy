/**
 * src/pages/dashboard/DonorDonations.tsx: a donor's donation history, newest
 * first, and the impact figures shown beside it.
 */
module DonorDonations {
  import opened Types
  import opened Seqs
  import opened Sorting
  import opened Storage
  import opened DonorDashboard

  /** Newest donation first: a single class ordered by decreasing donation time. */
  function NewestDonationFirst(d: DonationRecord): SortKey {
    SortKey(0, -d.donationDate)
  }

  /** The history list: the donor's donations sorted by donation date, newest first. */
  function History(donations: seq<DonationRecord>, donorId: Id): (h: seq<DonationRecord>)
    ensures |h| == Count(donations, ByDonor(donorId))
    ensures forall i, j :: 0 <= i < j < |h| ==> h[i].donationDate >= h[j].donationDate
  {
    var h := SortBy(GetDonationsByDonor(donations, donorId), NewestDonationFirst);
    assert forall i, j :: 0 <= i < j < |h| ==> h[i].donationDate >= h[j].donationDate by {
      forall i, j | 0 <= i < j < |h| ensures h[i].donationDate >= h[j].donationDate {
        assert KeyLe(NewestDonationFirst(h[i]), NewestDonationFirst(h[j]));
      }
    }
    h
  }

  /** "Lives potentially saved": three per donation listed. */
  function LivesSaved(history: seq<DonationRecord>): (n: nat)
    ensures n == 0 <==> history == []
    ensures n >= |history|
  {
    |history| * 3
  }

  /**
   * The history holds exactly the donor's donations, each as often as it is
   * stored, newest first; so the donation count is the number of the donor's
   * records and the lives figure is three times that.
   */
  lemma HistoryCorrect(donations: seq<DonationRecord>, donorId: Id)
    ensures var h := History(donations, donorId);
      && (forall d :: d in h <==> d in donations && d.donorId == donorId)
      && (forall d :: multiset(h)[d] == if d.donorId == donorId then multiset(donations)[d] else 0)
      && (forall i, j :: 0 <= i < j < |h| ==> h[i].donationDate >= h[j].donationDate)
      && |h| == Count(donations, ByDonor(donorId))
      && LivesSaved(h) == 3 * Count(donations, ByDonor(donorId))
  {
    var h := History(donations, donorId);
    var f := GetDonationsByDonor(donations, donorId);
    FilterMultiset(donations, ByDonor(donorId));
    assert multiset(h) == multiset(f);
    forall d ensures d in h <==> d in f {
      assert d in h <==> d in multiset(h);
      assert d in f <==> d in multiset(f);
    }
    forall i, j | 0 <= i < j < |h| ensures h[i].donationDate >= h[j].donationDate {
      assert KeyLe(NewestDonationFirst(h[i]), NewestDonationFirst(h[j]));
    }
  }

  /**
   * Accepting a request adds exactly one donation to the accepting donor's
   * history and none to anyone else's.
   */
  lemma AcceptAddsOneDonation(donations: seq<DonationRecord>, r: BloodRequest, donor: User, now: Time, id: Id, other: Id)
    requires other != donor.id
    ensures var after := donations + [DonationFor(r, donor, now, id)];
      && Count(after, ByDonor(donor.id)) == Count(donations, ByDonor(donor.id)) + 1
      && Count(after, ByDonor(other)) == Count(donations, ByDonor(other))
  {
    var d := DonationFor(r, donor, now, id);
    FilterAppend(donations, [d], ByDonor(donor.id));
    FilterAppend(donations, [d], ByDonor(other));
    FilterSingleton(d, ByDonor(donor.id));
    FilterSingleton(d, ByDonor(other));
  }
}
