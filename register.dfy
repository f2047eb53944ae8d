/**
 * src/pages/Register.tsx: the three registration forms, their schema bounds,
 * and what each submit handler passes to `register`. A hospital that
 * registers successfully also gets a pending verification record.
 */
module Register {
  import opened Types
  import opened Seqs
  import opened Storage
  import opened Auth
  import opened OrgVerifications

  // ---------------------------------------------------------------------------
  // Forms and their bounds

  /** The fields every registration form shares. */
  datatype BaseForm = BaseForm(name: string, email: string, password: string, city: string, contactNumber: string)

  /** `baseSchema`: name 2..100, e-mail at most 255, password at least 6, a city, contact 10..15. */
  predicate BaseFormValid(f: BaseForm) {
    && 2 <= |f.name| <= 100
    && |f.email| <= 255
    && 6 <= |f.password|
    && 1 <= |f.city|
    && 10 <= |f.contactNumber| <= 15
  }

  datatype ReceiverForm = ReceiverForm(base: BaseForm, receiverType: ReceiverType)

  /** `lastDonationDate` is the raw text of an optional date field; empty means not given. */
  datatype DonorForm = DonorForm(base: BaseForm, bloodGroup: BloodGroup, lastDonationDate: string)

  datatype OrganizationForm = OrganizationForm(base: BaseForm, organizationType: OrganizationType, licenseId: string)

  predicate ReceiverFormValid(f: ReceiverForm) { BaseFormValid(f.base) }

  predicate DonorFormValid(f: DonorForm) { BaseFormValid(f.base) }

  /** `organizationSchema` adds a licence id of at least 3 characters. */
  predicate OrganizationFormValid(f: OrganizationForm) {
    BaseFormValid(f.base) && 3 <= |f.licenseId|
  }

  function WithRole(b: BaseForm, role: RoleData): RegisterData {
    RegisterData(b.name, b.email, b.password, b.city, b.contactNumber, role)
  }

  // ---------------------------------------------------------------------------
  // What each form registers

  /** Receivers: individuals are verified at once, hospitals wait for an organization's approval. */
  function ReceiverData(f: ReceiverForm): (d: RegisterData)
    ensures d.role.Receiver? && d.role.receiverType == f.receiverType
    ensures d.role.isVerified <==> f.receiverType == Individual
    ensures d.name == f.base.name && d.email == f.base.email && d.city == f.base.city
  {
    WithRole(f.base, Receiver(f.receiverType, f.receiverType == Individual))
  }

  /**
   * Donors: no cooldown end; an empty last-donation field becomes absent,
   * anything else is read as a date by `parseDate`.
   */
  function DonorData(f: DonorForm, parseDate: string -> Time): (d: RegisterData)
    ensures d.role.Donor? && d.role.bloodGroup == f.bloodGroup
    ensures d.role.cooldownEndDate.None?
    ensures d.role.lastDonationDate.None? <==> f.lastDonationDate == ""
    ensures f.lastDonationDate != "" ==> d.role.lastDonationDate == Some(parseDate(f.lastDonationDate))
  {
    var last := if f.lastDonationDate == "" then None else Some(parseDate(f.lastDonationDate));
    WithRole(f.base, Donor(f.bloodGroup, last, None))
  }

  function OrganizationData(f: OrganizationForm): (d: RegisterData)
    ensures d.role == Organization(f.organizationType, f.licenseId)
    ensures d.name == f.base.name && d.email == f.base.email && d.city == f.base.city
  {
    WithRole(f.base, Organization(f.organizationType, f.licenseId))
  }

  /**
   * An organization registered from a form the schema accepts is saved as an
   * organization whose licence id and shared fields keep the schema's bounds.
   */
  lemma RegisteredOrganizationKeepsSchema(f: OrganizationForm, id: Id, now: Time)
    requires OrganizationFormValid(f)
    ensures var u := NewUser(OrganizationData(f), id, now);
      && u.role.Organization? && u.role.organizationType == f.organizationType
      && 3 <= |u.role.licenseId|
      && 2 <= |u.name| <= 100 && |u.email| <= 255 && 6 <= |u.password|
      && 1 <= |u.city| && 10 <= |u.contactNumber| <= 15
  {
  }

  /** A newly registered donor can accept requests straight away. */
  lemma NewDonorNotOnCooldown(f: DonorForm, parseDate: string -> Time, id: Id, now: Time, later: Time)
    ensures !IsOnCooldown(CooldownEnd(NewUser(DonorData(f, parseDate), id, now)), later)
    ensures DaysRemaining(CooldownEnd(NewUser(DonorData(f, parseDate), id, now)), later) == 0
  {
  }

  /** The verification record saved for a newly registered hospital. */
  function HospitalVerification(f: ReceiverForm, id: Id, now: Time): (v: VerificationRequest)
    ensures v.id == id && v.status == PendingReview && v.hospitalId == ""
    ensures v.hospitalName == f.base.name && v.hospitalEmail == f.base.email && v.city == f.base.city
    ensures v.createdAt == now && v.reviewedBy.None? && v.reviewedAt.None? && v.notes.None?
  {
    VerificationRequest(id, "", f.base.name, f.base.email, f.base.city, PendingReview, None, None, None, now)
  }

  // ---------------------------------------------------------------------------
  // Submit handlers

  /**
   * `handleReceiverSubmit`: registers the receiver; only when that succeeds
   * and the receiver is a hospital, saves a pending verification record.
   */
  method HandleReceiverSubmit(session: Session, f: ReceiverForm, now: Time, userId: Id, verificationId: Id)
    returns (res: AuthResult)
    requires session.store.Valid()
    requires forall i :: 0 <= i < |session.store.users| ==> session.store.users[i].id != userId
    requires forall i :: 0 <= i < |session.store.verifications| ==> session.store.verifications[i].id != verificationId
    modifies session, session.store`users, session.store`verifications
    ensures session.store.Valid()
    ensures res == RegisterOutcome(old(session.store.users), ReceiverData(f))
    ensures res != Ok ==> session.store.users == old(session.store.users)
    ensures res == Ok ==> session.store.users == old(session.store.users) + [NewUser(ReceiverData(f), userId, now)]
    ensures res == Ok ==> session.user == Some(NewUser(ReceiverData(f), userId, now))
    ensures res != Ok ==> session.user == old(session.user)
    ensures res == Ok && f.receiverType == Hospital ==>
      session.store.verifications == old(session.store.verifications) + [HospitalVerification(f, verificationId, now)]
    ensures res != Ok || f.receiverType == Individual ==>
      session.store.verifications == old(session.store.verifications)
  {
    res := session.Register(ReceiverData(f), now, userId);
    if res == Ok && f.receiverType == Hospital {
      var v := HospitalVerification(f, verificationId, now);
      SaveWithNewId(session.store.verifications, v, VerificationId);
      session.store.SaveVerification(v);
    }
  }

  /** `handleDonorSubmit`: registers the donor, with no cooldown. */
  method HandleDonorSubmit(session: Session, f: DonorForm, parseDate: string -> Time, now: Time, userId: Id)
    returns (res: AuthResult)
    requires session.store.Valid()
    requires forall i :: 0 <= i < |session.store.users| ==> session.store.users[i].id != userId
    modifies session, session.store`users
    ensures session.store.Valid()
    ensures res == RegisterOutcome(old(session.store.users), DonorData(f, parseDate))
    ensures res != Ok ==> session.store.users == old(session.store.users)
    ensures res == Ok ==> session.store.users == old(session.store.users) + [NewUser(DonorData(f, parseDate), userId, now)]
    ensures res == Ok ==> session.user == Some(NewUser(DonorData(f, parseDate), userId, now))
    ensures res != Ok ==> session.user == old(session.user)
  {
    res := session.Register(DonorData(f, parseDate), now, userId);
  }

  /** `handleOrgSubmit`: registers the organization. */
  method HandleOrgSubmit(session: Session, f: OrganizationForm, now: Time, userId: Id)
    returns (res: AuthResult)
    requires session.store.Valid()
    requires forall i :: 0 <= i < |session.store.users| ==> session.store.users[i].id != userId
    modifies session, session.store`users
    ensures session.store.Valid()
    ensures res == RegisterOutcome(old(session.store.users), OrganizationData(f))
    ensures res != Ok ==> session.store.users == old(session.store.users)
    ensures res == Ok ==> session.store.users == old(session.store.users) + [NewUser(OrganizationData(f), userId, now)]
    ensures res == Ok ==> session.user == Some(NewUser(OrganizationData(f), userId, now))
    ensures res != Ok ==> session.user == old(session.user)
  {
    res := session.Register(OrganizationData(f), now, userId);
  }

  /**
   * The verification record carries no hospital id, so approval finds the
   * account by e-mail. Right after a successful registration that lookup
   * finds exactly the new hospital account: no earlier user can have the
   * same e-mail, since registration refuses it even up to case.
   */
  lemma ApprovalFindsRegisteredHospital(users: seq<User>, f: ReceiverForm, id: Id, now: Time, verificationId: Id)
    requires RegisterOutcome(users, ReceiverData(f)) == Ok
    ensures var u := NewUser(ReceiverData(f), id, now);
      Find(users + [u], ReceiverWithEmail(HospitalVerification(f, verificationId, now).hospitalEmail)) == Some(u)
  {
    var u := NewUser(ReceiverData(f), id, now);
    var p := ReceiverWithEmail(f.base.email);
    forall j | 0 <= j < |users| ensures !p(users[j]) {
      assert users[j] in users;
      assert Lower(users[j].email) != Lower(f.base.email);
    }
    assert IndexWhere(users, p) < 0;
    IndexWhereAppend(users, [u], p);
    assert p(u);
    assert IndexWhere([u], p) == 0;
  }
}
