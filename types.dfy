/**
 * Entity types of BloodLink and the donor-to-receiver blood compatibility table.
 * Timestamps are integer milliseconds since the epoch; ids are strings.
 */
module Types {

  datatype Option<+T> = None | Some(value: T) {
    function GetOr(default: T): T {
      match this
      case Some(v) => v
      case None => default
    }
  }

  type Id = string
  /** Milliseconds since the epoch. */
  type Time = int

  /** One day in milliseconds (1000 * 60 * 60 * 24). */
  const DayMs: int := 86400000

  datatype BloodGroup = APos | ANeg | BPos | BNeg | ABPos | ABNeg | OPos | ONeg
  datatype UrgencyLevel = Emergency | Within24Hours | Planned
  datatype RequestStatus = Pending | Matched | Fulfilled | Cancelled
  datatype StockLevel = Critical | Low | Adequate | Full
  datatype VerificationStatus = PendingReview | Approved | Rejected
  datatype ReceiverType = Individual | Hospital
  datatype OrganizationType = BloodBank | Ngo

  /** The role-specific part of a user: the role tag together with the fields only that role has. */
  datatype RoleData =
    | Receiver(receiverType: ReceiverType, isVerified: bool)
    | Donor(bloodGroup: BloodGroup, lastDonationDate: Option<Time>, cooldownEndDate: Option<Time>)
    | Organization(organizationType: OrganizationType, licenseId: string)

  datatype User = User(
    id: Id,
    name: string,
    email: string,
    password: string,
    city: string,
    contactNumber: string,
    createdAt: Time,
    role: RoleData)

  datatype BloodRequest = BloodRequest(
    id: Id,
    receiverId: Id,
    receiverName: string,
    receiverContact: string,
    bloodGroup: BloodGroup,
    unitsNeeded: int,
    hospitalName: string,
    city: string,
    urgencyLevel: UrgencyLevel,
    notes: Option<string>,
    status: RequestStatus,
    createdAt: Time,
    updatedAt: Time,
    donorId: Option<Id>,
    donorName: Option<string>,
    donorContact: Option<string>)

  datatype DonationRecord = DonationRecord(
    id: Id,
    donorId: Id,
    requestId: Id,
    receiverName: string,
    bloodGroup: BloodGroup,
    hospitalName: string,
    donationDate: Time,
    cooldownEndDate: Time)

  datatype InventoryItem = InventoryItem(
    id: Id,
    organizationId: Id,
    bloodGroup: BloodGroup,
    units: int,
    stockLevel: StockLevel,
    expiryDate: string,
    lastUpdated: Time)

  datatype VerificationRequest = VerificationRequest(
    id: Id,
    hospitalId: Id,
    hospitalName: string,
    hospitalEmail: string,
    city: string,
    status: VerificationStatus,
    notes: Option<string>,
    reviewedBy: Option<Id>,
    reviewedAt: Option<Time>,
    createdAt: Time)

  // Id selectors, used as the identity key of each collection.
  function UserId(u: User): Id { u.id }
  function RequestId(r: BloodRequest): Id { r.id }
  function DonationId(d: DonationRecord): Id { d.id }
  function ItemId(i: InventoryItem): Id { i.id }
  function VerificationId(v: VerificationRequest): Id { v.id }

  /** The cooldown end of a user: only donors carry one. */
  function CooldownEnd(u: User): Option<Time> {
    if u.role.Donor? then u.role.cooldownEndDate else None
  }

  // ---------------------------------------------------------------------------
  // Request lifecycle: pending -> matched -> fulfilled, or pending -> cancelled.

  predicate RequestStep(from: RequestStatus, to: RequestStatus) {
    (from == Pending && (to == Matched || to == Cancelled)) || (from == Matched && to == Fulfilled)
  }

  predicate IsTerminal(s: RequestStatus) {
    s == Fulfilled || s == Cancelled
  }

  /** No transition leaves a terminal status, and every other status has a way forward. */
  lemma TerminalHasNoStep(s: RequestStatus)
    ensures IsTerminal(s) <==> forall t :: !RequestStep(s, t)
  {
    if !IsTerminal(s) {
      assert RequestStep(s, if s == Pending then Cancelled else Fulfilled);
    }
  }

  /** Donor fields are populated exactly when a donor has been matched. */
  predicate HasDonor(r: BloodRequest) {
    r.donorId.Some? && r.donorName.Some? && r.donorContact.Some?
  }

  predicate WellFormedRequest(r: BloodRequest) {
    && (r.status == Matched || r.status == Fulfilled ==> HasDonor(r))
    && (r.status == Pending || r.status == Cancelled ==> r.donorId.None? && r.donorName.None? && r.donorContact.None?)
  }

  // ---------------------------------------------------------------------------
  // Compatibility table (donor group -> receiver groups it can supply).

  function CanDonateTo(donor: BloodGroup): seq<BloodGroup> {
    match donor
    case ONeg => [ONeg, OPos, ANeg, APos, BNeg, BPos, ABNeg, ABPos]
    case OPos => [OPos, APos, BPos, ABPos]
    case ANeg => [ANeg, APos, ABNeg, ABPos]
    case APos => [APos, ABPos]
    case BNeg => [BNeg, BPos, ABNeg, ABPos]
    case BPos => [BPos, ABPos]
    case ABNeg => [ABNeg, ABPos]
    case ABPos => [ABPos]
  }

  predicate CanSupply(donor: BloodGroup, receiver: BloodGroup) {
    receiver in CanDonateTo(donor)
  }

  // Antigens carried by each group.
  predicate HasA(g: BloodGroup) { g in {APos, ANeg, ABPos, ABNeg} }
  predicate HasB(g: BloodGroup) { g in {BPos, BNeg, ABPos, ABNeg} }
  predicate RhPositive(g: BloodGroup) { g in {APos, BPos, ABPos, OPos} }

  /** Red-cell compatibility rule: the donor carries no antigen the receiver lacks. */
  predicate AntigenCompatible(donor: BloodGroup, receiver: BloodGroup) {
    && (HasA(donor) ==> HasA(receiver))
    && (HasB(donor) ==> HasB(receiver))
    && (RhPositive(donor) ==> RhPositive(receiver))
  }

  /** The table is exactly the ABO/Rh antigen rule, entry by entry. */
  lemma TableIsAntigenRule(donor: BloodGroup, receiver: BloodGroup)
    ensures CanSupply(donor, receiver) <==> AntigenCompatible(donor, receiver)
  {
    match donor
    case ONeg =>
    case OPos =>
    case ANeg =>
    case APos =>
    case BNeg =>
    case BPos =>
    case ABNeg =>
    case ABPos =>
  }

  /** No list names a group twice. */
  lemma TableListsDistinct(donor: BloodGroup)
    ensures forall i, j :: 0 <= i < j < |CanDonateTo(donor)| ==> CanDonateTo(donor)[i] != CanDonateTo(donor)[j]
  {
  }

  /** Every donor can supply its own group. */
  lemma SuppliesOwnGroup(g: BloodGroup)
    ensures CanSupply(g, g)
  {
    TableIsAntigenRule(g, g);
  }

  /** O- supplies all eight groups. */
  lemma ONegUniversalDonor(receiver: BloodGroup)
    ensures CanSupply(ONeg, receiver)
  {
    TableIsAntigenRule(ONeg, receiver);
  }

  /** AB+ appears in every list, and an AB+ donor supplies only AB+. */
  lemma ABPosUniversalReceiver(donor: BloodGroup, receiver: BloodGroup)
    ensures CanSupply(donor, ABPos)
    ensures CanSupply(ABPos, receiver) <==> receiver == ABPos
  {
    TableIsAntigenRule(donor, ABPos);
    TableIsAntigenRule(ABPos, receiver);
  }

  /** Rh-positive donors never supply an Rh-negative group. */
  lemma RhPositiveNeverToNegative(donor: BloodGroup, receiver: BloodGroup)
    requires RhPositive(donor) && !RhPositive(receiver)
    ensures !CanSupply(donor, receiver)
  {
    TableIsAntigenRule(donor, receiver);
  }

  /** A receiver lacking antigen A (resp. B) is listed only under donors lacking it. */
  lemma AboAntigenRule(donor: BloodGroup, receiver: BloodGroup)
    requires CanSupply(donor, receiver)
    ensures !HasA(receiver) ==> !HasA(donor)
    ensures !HasB(receiver) ==> !HasB(donor)
  {
    TableIsAntigenRule(donor, receiver);
  }
}
