# BloodLink donation-coordination rules in Dafny

BloodLink connects blood receivers (individuals and hospitals), donors and
organizations (blood banks and NGOs) of one city. Its rules are scattered
across React pages, a `localStorage` helper and a type module. This project
models those rules with the browser removed and proves what they promise:

- the donor-to-receiver compatibility table;
- which pending requests a donor is shown, and in what order;
- the request lifecycle: pending, then matched and fulfilled, or cancelled.
  Accepting a request writes three records in order: the request, a donation
  record and the donor's cooldown;
- the donor cooldown check and the days remaining;
- registration, login and profile updates;
- hospital verification: it is created at registration and reviewed by an
  organization of the same city;
- the stock-level classifier, and saving inventory items;
- the record store: upsert by id for users, requests, inventory and
  verifications; append only for donations;
- the counts, partitions and per-group sums on the dashboards and the landing page.

There is one module per source file:

| file | module | source |
|---|---|---|
| `types.dfy` | `Types` | `src/types/index.ts` |
| `storage.dfy` | `Storage` | `src/lib/storage.ts` |
| `auth.dfy` | `Auth` | `src/contexts/AuthContext.tsx` |
| `donor_dashboard.dfy` | `DonorDashboard` | `src/pages/dashboard/DonorDashboard.tsx` |
| `receiver_dashboard.dfy` | `ReceiverDashboard` | `src/pages/dashboard/ReceiverDashboard.tsx` |
| `org_verifications.dfy` | `OrgVerifications` | `src/pages/dashboard/OrganizationVerifications.tsx` |
| `org_inventory.dfy` | `OrgInventory` | `src/pages/dashboard/OrganizationInventory.tsx` |
| `register.dfy` | `Register` | `src/pages/Register.tsx` |
| `org_dashboard.dfy` | `OrgDashboard` | `src/pages/dashboard/OrganizationDashboard.tsx` |
| `landing.dfy` | `Landing` | `src/pages/Landing.tsx` |
| `donor_donations.dfy` | `DonorDonations` | `src/pages/dashboard/DonorDonations.tsx` |

Two modules are shared:

- `Seqs` (`seqs.dfy`) provides `filter`, `findIndex`/`find` and upsert by key.
- `Sorting` (`sorting.dfy`) is a stable insertion sort by a two-level integer key. It stands in for `Array.prototype.sort` with the pages' comparators.

Modelling choices:

- **Store.** The store is a class, `Storage.Store`, with one `seq` field per collection. Each `save*` method is a `findIndex` loop followed by an overwrite or an append. It is proved against the function `Seqs.Upsert`. `Store.Valid()` says ids are unique in every upserted collection.
- **Session.** The signed-in user is `Auth.Session.user`. A session holds the store it reads and writes.
- **Time.** Time is an integer number of milliseconds. Each handler uses a single `now`.
- **Cooldown length.** `addMonths(now, 3)` is `DonorDashboard.AddMonths3`, a fixed 91 days. The proofs use only the fact that it ends after `now`.
- **Ids.** `generateId()` becomes an id parameter. The handler requires that the id is not yet used in the collection it is saved to.
- **Unguarded handlers.** Accept, mark fulfilled, approve and reject do not check the status of the record they act on; the page offers them only for eligible records. The model keeps them unguarded. Separate lemmas state what happens when they are used as the page offers them (`AcceptIsStep`, `FulfilChangesOnlyStatus`, `ReviewLeavesPending`), and `FulfilPendingIsNotAStep` shows what happens otherwise.
- **Accept and the cooldown check.** Accept is refused while the donor is on cooldown. In the page, that flag comes from `useDonorCooldown`; here it is the same test, `Auth.IsOnCooldown`, evaluated at the handler's `now`.
- **Form schemas.** The forms' zod schemas are plain predicates: `RequestFormValid`, `InventoryFormValid`, `BaseFormValid` and `OrganizationFormValid`. The handlers run only after the schema has accepted the form.

Four behaviours of the code worth knowing:

- Approving a verification a second time is not refused. `HandleApprove` has no status check; the page simply does not offer the button again.
- An organization may hold several inventory items of the same blood group. The inventory grid shows only the first of them (`GridUnits`), and the dashboard totals add them all (`InventoryTotals`).
- A verification record's `hospitalId` is always saved empty. Approval finds the hospital account by exact e-mail instead (`ApprovalFindsRegisteredHospital`).
- The "available donor" test of the landing page and the organization dashboard (`end < now`) disagrees with the donor's own cooldown check (`now < end`) at `end == now`. `OrgDashboard.AvailabilityBoundary` states exactly where they disagree.

## Model

| member | source | states |
|---|---|---|
| Types.TableIsAntigenRule | src/types/index.ts:129-138 | a donor group lists a receiver group exactly when the donor carries no A, B or Rh antigen the receiver lacks |
| Types.TableListsDistinct | src/types/index.ts:129-138 | no compatibility list names a group twice |
| Types.SuppliesOwnGroup | src/types/index.ts:130-137 | every group's list contains the group itself |
| Types.ONegUniversalDonor | src/types/index.ts:130 | O- supplies all eight groups |
| Types.ABPosUniversalReceiver | src/types/index.ts:130-137 | AB+ is in every list, and an AB+ donor supplies AB+ and nothing else |
| Types.RhPositiveNeverToNegative | src/types/index.ts:131-137 | an Rh-positive donor never supplies an Rh-negative group |
| Types.AboAntigenRule | src/types/index.ts:129-138 | a receiver without antigen A (or B) is listed only under donors without it |
| Types.TerminalHasNoStep | src/types/index.ts:7 | a status is terminal (fulfilled or cancelled) exactly when no lifecycle step leaves it |
| Seqs.FindIndex | src/lib/storage.ts:31 | the `findIndex` loop returns the first index satisfying the condition, or -1 when none does |
| Seqs.Filter | src/lib/storage.ts:87 | the `filter` result is no longer than its input and every element satisfies the condition |
| Seqs.UpsertExisting | src/lib/storage.ts:31-33 | with an id already present, save overwrites the first record with that id; the length and every other position are unchanged |
| Seqs.UpsertNew | src/lib/storage.ts:34-35 | with a new id, save appends the record at the end |
| Seqs.FindAfterUpsert | src/lib/storage.ts:29-38 | after a save, the first record with the saved id is the saved record |
| Seqs.UpsertKeepsUnique | src/lib/storage.ts:29-38 | saving keeps ids unique |
| Seqs.Upsert | src/lib/storage.ts:29-38 | the saved record is always present afterwards, and the list either keeps its length or grows by exactly the record at the end |
| Sorting.SortBy | src/pages/dashboard/DonorDashboard.tsx:44-48 | the sort's result is ordered by the key and is a permutation of its input |
| Sorting.SortIsStable | src/pages/dashboard/DonorDashboard.tsx:44-48 | records with equal keys keep their input order |
| Sorting.SortSorted | src/pages/dashboard/DonorDonations.tsx:19-21 | sorting an already ordered list leaves it unchanged |
| Storage.GetUserByEmail | src/lib/storage.ts:40-42 | finds a user whose e-mail equals the given one ignoring case; none exactly when no stored e-mail matches ignoring case |
| Storage.UserByEmailIsFirst | src/lib/storage.ts:40-42 | the e-mail lookup returns the first matching user in store order |
| Storage.GetUserById | src/lib/storage.ts:44-46 | returns a stored user with the id; none exactly when no user has it |
| Storage.GetRequestById | src/lib/storage.ts:82-84 | returns a stored request with the id; none exactly when no request has it |
| Storage.GetRequestsByReceiver | src/lib/storage.ts:86-88 | holds exactly the stored requests of that receiver, each as often as it is stored |
| Storage.GetRequestsByCity | src/lib/storage.ts:90-92 | holds exactly the stored requests that are pending and in that city, each as often as it is stored |
| Storage.GetDonationsByDonor | src/lib/storage.ts:105-107 | holds exactly the stored donations of that donor, each as often as it is stored |
| Storage.GetInventoryByOrganization | src/lib/storage.ts:125-127 | holds exactly the stored items of that organization, each as often as it is stored |
| Storage.GetInventoryByCity | src/lib/storage.ts:129-135 | holds exactly the stored items owned by an organization-role user of that city, each as often as it is stored |
| Storage.GetPendingVerifications | src/lib/storage.ts:153-155 | holds exactly the stored verifications still pending, each as often as it is stored |
| Storage.AppendedRequestJoinsLists | src/lib/storage.ts:86-92 | the request lists follow store order: an appended request joins the end of its city's pending list and of its receiver's list when it qualifies, and leaves both unchanged otherwise |
| Storage.AppendedDonationJoinsHistory | src/lib/storage.ts:99-107 | an appended donation joins the end of its donor's list, and no other donor's list changes |
| Storage.AppendedItemJoinsInventory | src/lib/storage.ts:114-127 | an appended item joins the end of its organization's list, and no other organization's list changes |
| Storage.Store.SaveUser | src/lib/storage.ts:29-38 | the users become the upsert of the user by id; ids stay unique |
| Storage.Store.SaveRequest | src/lib/storage.ts:71-80 | the requests become the upsert of the request by id; ids stay unique |
| Storage.Store.SaveDonation | src/lib/storage.ts:99-103 | the donation is appended, even when its id is already stored |
| Storage.Store.SaveInventoryItem | src/lib/storage.ts:114-123 | the inventory becomes the upsert of the item by id; ids stay unique |
| Storage.Store.SaveVerification | src/lib/storage.ts:142-151 | the verifications become the upsert of the record by id; ids stay unique |
| Storage.SavedUserIsFound | src/lib/storage.ts:29-46 | after saving a user, looking up its id returns that user |
| Storage.SavedRequestIsFound | src/lib/storage.ts:71-84 | after saving a request, looking up its id returns that request |
| Storage.SaveOverExistingId | src/lib/storage.ts:31-33 | with unique ids, saving over the id at position k replaces position k alone |
| Storage.SaveWithNewId | src/lib/storage.ts:34-35 | saving a record whose id is absent appends it |
| Auth.CeilDiv | src/contexts/AuthContext.tsx:136-137 | the integer ceiling q of a/b satisfies (q-1)·b < a ≤ q·b |
| Auth.IsOnCooldown | src/contexts/AuthContext.tsx:123-133 | a donor is on cooldown exactly when a cooldown end is recorded and `now` is strictly before it |
| Auth.DaysRemaining | src/contexts/AuthContext.tsx:123-141 | 0 without a cooldown end or once `now` has reached it; otherwise at least 1 and the ceiling of the remaining time in days |
| Auth.LastPartialDayCountsAsOne | src/contexts/AuthContext.tsx:135-138 | less than a day left still shows one day |
| Auth.DaysRemainingMonotone | src/contexts/AuthContext.tsx:135-141 | the days remaining never increase as time passes |
| Auth.LoginOutcome | src/contexts/AuthContext.tsx:58-69 | "No account" exactly when the e-mail is unknown, "Incorrect password" exactly when the password differs, success otherwise |
| Auth.RegisterOutcome | src/contexts/AuthContext.tsx:76-80 | registration is refused, with the e-mail-taken message, exactly when a stored e-mail matches ignoring case |
| Auth.NewUser | src/contexts/AuthContext.tsx:82-86 | the new user carries the fresh id, the creation time and every supplied field |
| Auth.RegisterThenLogin | src/contexts/AuthContext.tsx:58-92 | after a successful registration, logging in with the same e-mail and password succeeds as the new user |
| Auth.LoginNeedsStoredPassword | src/contexts/AuthContext.tsx:63-65 | when login succeeds, every other password is refused as incorrect |
| Auth.Overlay | src/contexts/AuthContext.tsx:96 | updated fields take the new value, absent ones keep the old one; id, role and creation time never change |
| Auth.OverlayIdempotent | src/contexts/AuthContext.tsx:96 | applying an update twice equals applying it once; the empty update changes nothing |
| Auth.Session.Login | src/contexts/AuthContext.tsx:58-69 | returns the login outcome; on success the session user is the user found, otherwise the session is unchanged |
| Auth.Session.Logout | src/contexts/AuthContext.tsx:71-74 | the session user becomes absent |
| Auth.Session.Register | src/contexts/AuthContext.tsx:76-92 | a taken e-mail saves nothing; otherwise exactly one new user is appended and becomes the session user |
| Auth.Session.UpdateUser | src/contexts/AuthContext.tsx:94-100 | nothing without a session user; otherwise the overlaid user is saved by id and kept in the session |
| Auth.Session.RefreshUser | src/contexts/AuthContext.tsx:26-34 | the session user is reloaded by id when still stored, and kept as it was otherwise |
| Auth.UpdatedUserIsFound | src/contexts/AuthContext.tsx:94-100 | after an update, looking up the user's id returns the updated user |
| DonorDashboard.CompatibleRequests | src/pages/dashboard/DonorDashboard.tsx:19-51 | the list is no longer than the store's requests and every listed request is a candidate: pending, in the donor's city and of a group the donor can supply |
| DonorDashboard.CompatibleRequestsCorrect | src/pages/dashboard/DonorDashboard.tsx:19-51 | every listed request is pending, in the donor's city and of a group in the donor's list; the list is a permutation of exactly those requests; urgency rank never decreases, and within a rank creation time never increases |
| DonorDashboard.IncompatibleNeverListed | src/pages/dashboard/DonorDashboard.tsx:25-35 | a request of another city, not pending, or of a group the donor cannot supply is never listed |
| DonorDashboard.CompatibleRequestsStable | src/pages/dashboard/DonorDashboard.tsx:44-48 | requests with equal urgency and creation time keep their store order |
| DonorDashboard.AddMonths3 | src/pages/dashboard/DonorDashboard.tsx:64 | the cooldown ends strictly after it starts |
| DonorDashboard.MatchedTo | src/pages/dashboard/DonorDashboard.tsx:65-73 | the saved request is matched, carries the donor's id and is stamped `now`; it is well formed, and only status, donor fields and update time differ from the original |
| DonorDashboard.DonationFor | src/pages/dashboard/DonorDashboard.tsx:76-85 | the donation links the donor and the request under the fresh id, is dated `now` and ends its cooldown strictly later |
| DonorDashboard.WithCooldown | src/pages/dashboard/DonorDashboard.tsx:88-93 | the saved donor keeps its blood group and every non-role field, records `now` as its last donation and is on cooldown at `now` |
| DonorDashboard.AcceptRecordsAgree | src/pages/dashboard/DonorDashboard.tsx:64-93 | the matched request carries the donor's id, name and contact and differs from the original only in status, donor fields and update time; the donation copies the request's id, receiver name, group and hospital, and its cooldown end is the donor's new one; the donor's last donation is `now`, before its cooldown end, and the donor is then on cooldown |
| DonorDashboard.AcceptIsStep | src/pages/dashboard/DonorDashboard.tsx:65-73 | accepting a pending request is the pending-to-matched step |
| DonorDashboard.AcceptKeepsStoreWellFormed | src/pages/dashboard/DonorDashboard.tsx:65-73 | saving the matched request keeps every stored request's donor fields consistent with its status |
| DonorDashboard.HandleAcceptRequest | src/pages/dashboard/DonorDashboard.tsx:60-101 | without a session donor, or while it is on cooldown, nothing is written; otherwise the matched request is saved, one donation is appended and the donor is saved with its cooldown, and the reloaded session donor is on cooldown; inventory and verifications are untouched |
| ReceiverDashboard.RequestFormValid | src/pages/dashboard/ReceiverDashboard.tsx:21-28 | the request schema: 1 to 10 units, a hospital name of 2 to 100 characters, a city, notes of at most 500 characters |
| ReceiverDashboard.NewRequest | src/pages/dashboard/ReceiverDashboard.tsx:69-83 | a new request is pending, belongs to the session user, has equal creation and update times, copies the form and has no donor |
| ReceiverDashboard.NewRequestIsListedForDonors | src/pages/dashboard/ReceiverDashboard.tsx:69-85 | once saved, the new request is among its city's pending requests and among the receiver's own |
| ReceiverDashboard.OnSubmit | src/pages/dashboard/ReceiverDashboard.tsx:65-91 | nothing without a session user; otherwise exactly the new request is appended |
| ReceiverDashboard.AsCancelled | src/pages/dashboard/ReceiverDashboard.tsx:96 | the cancelled copy keeps the id, is terminal, is stamped `now`, and differs from the request only in status and update time |
| ReceiverDashboard.AsFulfilled | src/pages/dashboard/ReceiverDashboard.tsx:392 | the fulfilled copy keeps the id, is terminal, is stamped `now`, and differs from the request only in status and update time |
| ReceiverDashboard.CancelChangesOnlyStatus | src/pages/dashboard/ReceiverDashboard.tsx:96 | cancelling changes only the status, to cancelled, and the update time; from pending it is a lifecycle step that keeps the request well formed |
| ReceiverDashboard.FulfilChangesOnlyStatus | src/pages/dashboard/ReceiverDashboard.tsx:392 | fulfilling changes only the status, to fulfilled, and the update time; from matched it is a lifecycle step that keeps the request well formed |
| ReceiverDashboard.FulfilPendingIsNotAStep | src/pages/dashboard/ReceiverDashboard.tsx:387-396 | fulfilling a pending request, which the page never offers, would not be a lifecycle step and would leave a fulfilled request without a donor |
| ReceiverDashboard.HandleCancelRequest | src/pages/dashboard/ReceiverDashboard.tsx:93-101 | saves the cancelled copy exactly when the listed request with that id is pending; otherwise the store is unchanged |
| ReceiverDashboard.MarkFulfilled | src/pages/dashboard/ReceiverDashboard.tsx:387-396 | saves the fulfilled copy of the request, whatever its status |
| ReceiverDashboard.CancelKeepsStoreWellFormed | src/pages/dashboard/ReceiverDashboard.tsx:93-101 | cancelling a pending request keeps every stored request well formed |
| ReceiverDashboard.FulfilKeepsStoreWellFormed | src/pages/dashboard/ReceiverDashboard.tsx:387-396 | fulfilling a matched request keeps every stored request well formed |
| ReceiverDashboard.OwnRequests | src/pages/dashboard/ReceiverDashboard.tsx:51-56 | the list has one entry per stored request of the receiver, newest first |
| ReceiverDashboard.OwnRequestsCorrect | src/pages/dashboard/ReceiverDashboard.tsx:51-56 | the list holds exactly the receiver's requests, each as often as stored, newest first |
| ReceiverDashboard.StatusCount | src/pages/dashboard/ReceiverDashboard.tsx:289-307 | a counter never exceeds the number of requests, and is 0 exactly when no request has that status |
| ReceiverDashboard.StatusCountsSum | src/pages/dashboard/ReceiverDashboard.tsx:289-307 | the four status counts add up to the total, so pending, matched and fulfilled together never exceed it, reaching it exactly when nothing is cancelled |
| OrgVerifications.LocalVerifications | src/pages/dashboard/OrganizationVerifications.tsx:22-29 | holds exactly the verifications whose city equals the organization's |
| OrgVerifications.PendingProcessedPartition | src/pages/dashboard/OrganizationVerifications.tsx:86-87 | the pending and processed lists split the listed verifications with nothing lost or duplicated |
| OrgVerifications.Reviewed | src/pages/dashboard/OrganizationVerifications.tsx:39-46 | the reviewed record keeps its id, hospital e-mail and city, and records the new status, the reviewing organization and the review time |
| OrgVerifications.ReviewKeepsHospitalFields | src/pages/dashboard/OrganizationVerifications.tsx:37-84 | a review changes only status, reviewer, review time and notes, and moves the record from pending to processed |
| OrgVerifications.HandleApprove | src/pages/dashboard/OrganizationVerifications.tsx:37-65 | the approved record is saved; the first receiver with exactly the hospital's e-mail, if any, is saved verified, and without one no user changes |
| OrgVerifications.AsVerified | src/pages/dashboard/OrganizationVerifications.tsx:49-56 | the hospital stays a receiver of the same type and becomes verified; nothing outside its role changes |
| OrgVerifications.ApproveChangesOnlyTheHospital | src/pages/dashboard/OrganizationVerifications.tsx:49-56 | approval replaces only the first matching receiver, in place, changing only its verified flag to true |
| OrgVerifications.HandleReject | src/pages/dashboard/OrganizationVerifications.tsx:67-84 | the rejected record is saved and the users are never touched |
| OrgVerifications.ReviewLeavesPending | src/pages/dashboard/OrganizationVerifications.tsx:37-87 | after a review, nothing with the reviewed id remains in the pending list |
| OrgInventory.GetStockLevel | src/pages/dashboard/OrganizationInventory.tsx:56-61 | exactly 0 is critical, other values below 5 are low, 5..19 adequate, 20 and above full |
| OrgInventory.StockLevelMonotone | src/pages/dashboard/OrganizationInventory.tsx:56-61 | for non-negative units, more units never give a lower level |
| OrgInventory.NegativeUnitsAreLow | src/pages/dashboard/OrganizationInventory.tsx:56-61 | negative units, which the form refuses, would be classed low, above the critical level of 0 |
| OrgInventory.InventoryFormValid | src/pages/dashboard/OrganizationInventory.tsx:20-24 | the inventory schema: 0 to 1000 units and a non-empty expiry date |
| OrgInventory.ItemIdFor | src/pages/dashboard/OrganizationInventory.tsx:81 | an edit keeps the edited item's id unless that id is empty; otherwise the fresh id is used |
| OrgInventory.FormItem | src/pages/dashboard/OrganizationInventory.tsx:80-88 | the saved item belongs to the organization, copies the form, and its level is the one its units give |
| OrgInventory.OnSubmit | src/pages/dashboard/OrganizationInventory.tsx:76-100 | nothing without an organization in session; otherwise the built item is upserted by id |
| OrgInventory.SubmitEditsOrAdds | src/pages/dashboard/OrganizationInventory.tsx:80-90 | an edit replaces the edited item at its own position and leaves every other item and the length unchanged; adding with an unused id appends; every stored level stays consistent with its units |
| OrgInventory.CriticalItems | src/pages/dashboard/OrganizationInventory.tsx:122 | the alert list is no longer than the inventory and holds only items recorded as critical or low |
| OrgInventory.CriticalItemsAreUnderFive | src/pages/dashboard/OrganizationInventory.tsx:122 | with consistent levels and non-negative units, the alert list is exactly the items with fewer than 5 units |
| OrgInventory.GridUnits | src/pages/dashboard/OrganizationInventory.tsx:238-241 | a card shows the units of the group's first item, or 0 when there is none |
| OrgInventory.GridLevelAgrees | src/pages/dashboard/OrganizationInventory.tsx:238-241 | a card's level is the stored level of the group's first item, and critical for a group without items |
| Register.BaseFormValid | src/pages/Register.tsx:18-24 | the shared schema: name 2 to 100 characters, e-mail at most 255, password at least 6, a city, contact number 10 to 15 |
| Register.OrganizationFormValid | src/pages/Register.tsx:37-41 | the organization schema adds a licence id of at least 3 characters |
| Register.RegisteredOrganizationKeepsSchema | src/pages/Register.tsx:37-41 | an organization registered from a form the schema accepts is saved as an organization of the chosen type with a licence id of at least 3 characters and the shared fields within the schema's bounds |
| Register.ReceiverData | src/pages/Register.tsx:74-83 | a receiver is registered verified exactly when it is an individual |
| Register.DonorData | src/pages/Register.tsx:108-118 | a donor is registered with no cooldown end; an empty last-donation field becomes absent |
| Register.OrganizationData | src/pages/Register.tsx:131-140 | an organization is registered with its type and licence id |
| Register.NewDonorNotOnCooldown | src/pages/Register.tsx:116-117 | a newly registered donor is never on cooldown and has 0 days remaining |
| Register.HospitalVerification | src/pages/Register.tsx:89-97 | the verification record is pending, has an empty hospital id, copies name, e-mail and city, and carries no review |
| Register.HandleReceiverSubmit | src/pages/Register.tsx:72-104 | registers the receiver, and on success the new user becomes the session user while a refusal leaves the session alone; a verification record is appended exactly when registration succeeded for a hospital |
| Register.HandleDonorSubmit | src/pages/Register.tsx:106-127 | registers the donor with the outcome of `register`; on success the new user becomes the session user, a refusal changes neither the users nor the session |
| Register.HandleOrgSubmit | src/pages/Register.tsx:129-149 | registers the organization with the outcome of `register`; on success the new user becomes the session user, a refusal changes neither the users nor the session |
| Register.ApprovalFindsRegisteredHospital | src/pages/Register.tsx:86-97 | right after a hospital registers, the approval lookup by its e-mail finds exactly the new account |
| OrgDashboard.AreaRequests | src/pages/dashboard/OrganizationDashboard.tsx:22-25 | holds exactly the requests of the organization's city, whatever their status |
| OrgDashboard.RecentPending | src/pages/dashboard/OrganizationDashboard.tsx:186 | the card holds at most five requests, all pending |
| OrgDashboard.RecentPendingCorrect | src/pages/dashboard/OrganizationDashboard.tsx:186 | the card shows at most five requests, all pending, and they are exactly the pending requests among some leading part of the area list, in area order; it is empty exactly when none is pending |
| OrgDashboard.DonorStatsOf | src/pages/dashboard/OrganizationDashboard.tsx:27-44 | the available and cooling-down counts never exceed the local donors, who never exceed the users |
| OrgDashboard.DonorStatsPartition | src/pages/dashboard/OrganizationDashboard.tsx:27-44 | every local donor is counted as available or cooling down, never both, so the two counts add up to the total |
| OrgDashboard.AvailabilityBoundary | src/pages/dashboard/OrganizationDashboard.tsx:31-38 | at a cooldown end equal to `now` the dashboard counts the donor as cooling down while the donor's own check lets it accept; at every other time the two agree |
| OrgDashboard.NoItemsMeansZero | src/pages/dashboard/OrganizationDashboard.tsx:48-53 | a group without items totals 0 |
| OrgDashboard.GroupTotalsCoverAll | src/pages/dashboard/OrganizationDashboard.tsx:48-53 | the eight group totals add up to all the organization's units |
| OrgDashboard.InventoryTotals | src/pages/dashboard/OrganizationDashboard.tsx:46-54 | every group has a total, and it is the sum of units over the organization's items of that group |
| Landing.Stats | src/pages/Landing.tsx:12-25 | the active-request figure never exceeds the requests, and available donors plus organizations never exceed the users |
| Landing.StatsBounds | src/pages/Landing.tsx:12-25 | available donors never exceed the donors, and active requests never exceed the requests |
| Landing.RolesSplitUsers | src/pages/Landing.tsx:17-22 | donors, organizations and receivers together are all the users |
| Landing.AvailableAgreesWithDashboard | src/pages/Landing.tsx:17-21 | the landing test restricted to one city gives the organization dashboard's available count |
| DonorDonations.History | src/pages/dashboard/DonorDonations.tsx:16-23 | the history has one entry per stored donation of the donor, newest first |
| DonorDonations.LivesSaved | src/pages/dashboard/DonorDonations.tsx:117 | the lives figure is 0 exactly when the history is empty, and otherwise at least the number of donations |
| DonorDonations.HistoryCorrect | src/pages/dashboard/DonorDonations.tsx:16-23 | the history holds exactly the donor's donations, each as often as stored, newest first; its count is the donor's number of records and the lives figure is three times that |
| DonorDonations.AcceptAddsOneDonation | src/pages/dashboard/DonorDashboard.tsx:76-85 | an accept adds one donation to the accepting donor's count and none to any other donor's |

## Left out

- Browser storage: `localStorage`, JSON (de)serialisation and the fall-back to an empty list on a parse error (src/lib/storage.ts:11-22). The collections are in-memory sequences, and the session is the `user` field of `Auth.Session` rather than a stored copy.
- Polling with `setInterval`, the cross-tab `storage` event, React state setters, `toast`, `navigate` and all JSX. These are timers, concurrency and presentation.
- Two donors accepting the same request at once: the last `saveRequest` wins. This is a concurrency effect.
- Calendar arithmetic. `addMonths(now, 3)` is a fixed 91 days (`AddMonths3`), and only its being later than `now` is used.
- Date strings and their parsing. Times are integer milliseconds. The donor form's last-donation text is read by a `parseDate` parameter.
- `Auth.DaysRemaining`: computes the ceiling of an integer division instead of `Math.ceil` on a floating-point quotient. The two agree for whole-millisecond times.
- `Storage.Lower`: lower-cases ASCII letters only. `toLowerCase` also folds other Unicode letters.
- Units and counts are integers. The forms accept non-integer numbers, which the model does not represent.
- The e-mail format check of the registration schema. Only its length bound is kept.
- `Auth.Session.UpdateUser`: updates only the shared fields (name, e-mail, password, city, contact). The role-specific fields a `Partial<User>` could carry are not modelled.
- The request fields `fulfilledBy` and `organizationId`. No core code sets or reads them.
- `generateId` is replaced by id parameters that are required to be fresh.
- The session user's role is not checked by the handlers, and the model does not check it either. Accept is given a donor session.
