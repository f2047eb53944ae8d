/**
 * src/contexts/AuthContext.tsx: the donor cooldown check (`useDonorCooldown`)
 * and the session operations `login`, `register`, `updateUser`, `refreshUser`.
 * The session (React state mirrored to local storage) is the `user` field of
 * a `Session`; the store it reads and writes is its `store`.
 */
module Auth {
  import opened Types
  import opened Seqs
  import opened Storage

  // ---------------------------------------------------------------------------
  // Cooldown

  /** `isOnCooldown`: a cooldown end is present and `now < end` (strict). */
  predicate IsOnCooldown(cooldownEnd: Option<Time>, now: Time) {
    cooldownEnd.Some? && now < cooldownEnd.value
  }

  /** Ceiling of `a / b` for `a >= 0`, `b > 0`. */
  function CeilDiv(a: int, b: int): (q: int)
    requires a >= 0 && b > 0
    ensures (q - 1) * b < a <= q * b
  {
    (a + b - 1) / b
  }

  /** `daysRemaining`: whole days left, rounded up; 0 when not on cooldown. */
  function DaysRemaining(cooldownEnd: Option<Time>, now: Time): (days: int)
    ensures !IsOnCooldown(cooldownEnd, now) ==> days == 0
    ensures IsOnCooldown(cooldownEnd, now) ==>
      days >= 1 && (days - 1) * DayMs < cooldownEnd.value - now <= days * DayMs
  {
    if cooldownEnd.None? then 0
    else if now < cooldownEnd.value then CeilDiv(cooldownEnd.value - now, DayMs)
    else 0
  }

  /** A fraction of a day left still counts as one whole day. */
  lemma LastPartialDayCountsAsOne(endTime: Time, now: Time)
    requires now < endTime <= now + DayMs
    ensures DaysRemaining(Some(endTime), now) == 1
  {
    var d := DaysRemaining(Some(endTime), now);
    assert (d - 1) * DayMs < DayMs;
  }

  /** The days remaining never grow as time passes. */
  lemma DaysRemainingMonotone(cooldownEnd: Option<Time>, now: Time, later: Time)
    requires now <= later
    ensures DaysRemaining(cooldownEnd, later) <= DaysRemaining(cooldownEnd, now)
  {
    if IsOnCooldown(cooldownEnd, later) {
      var a, b := DaysRemaining(cooldownEnd, now), DaysRemaining(cooldownEnd, later);
      assert (b - 1) * DayMs < a * DayMs;
    }
  }

  // ---------------------------------------------------------------------------
  // Results and messages

  datatype AuthResult = Ok | Err(error: string)

  const NoAccountMessage: string := "No account found with this email"
  const WrongPasswordMessage: string := "Incorrect password"
  const EmailTakenMessage: string := "An account with this email already exists"

  /** What `register` receives: a user without `id` and `createdAt`. */
  datatype RegisterData = RegisterData(
    name: string,
    email: string,
    password: string,
    city: string,
    contactNumber: string,
    role: RoleData)

  function NewUser(data: RegisterData, id: Id, now: Time): (u: User)
    ensures u.id == id && u.createdAt == now
    ensures u.name == data.name && u.email == data.email && u.password == data.password
    ensures u.city == data.city && u.contactNumber == data.contactNumber && u.role == data.role
  {
    User(id, data.name, data.email, data.password, data.city, data.contactNumber, now, data.role)
  }

  /** The outcome of `login` against the users of the store. */
  function LoginOutcome(users: seq<User>, email: string, password: string): (r: AuthResult)
    ensures r == Err(NoAccountMessage) <==> GetUserByEmail(users, email).None?
    ensures r == Err(WrongPasswordMessage) <==>
      GetUserByEmail(users, email).Some? && GetUserByEmail(users, email).value.password != password
    ensures r == Ok <==>
      GetUserByEmail(users, email).Some? && GetUserByEmail(users, email).value.password == password
  {
    match GetUserByEmail(users, email)
    case None => Err(NoAccountMessage)
    case Some(u) => if u.password != password then Err(WrongPasswordMessage) else Ok
  }

  /** The outcome of `register`: refused exactly when the e-mail is taken, ignoring case. */
  function RegisterOutcome(users: seq<User>, data: RegisterData): (r: AuthResult)
    ensures r == Ok <==> forall u :: u in users ==> Lower(u.email) != Lower(data.email)
    ensures r != Ok ==> r == Err(EmailTakenMessage)
  {
    if GetUserByEmail(users, data.email).Some? then Err(EmailTakenMessage) else Ok
  }

  /** Registering and then logging in with the same credentials succeeds, as the new user. */
  lemma RegisterThenLogin(users: seq<User>, data: RegisterData, id: Id, now: Time)
    requires RegisterOutcome(users, data) == Ok
    ensures GetUserByEmail(users + [NewUser(data, id, now)], data.email) == Some(NewUser(data, id, now))
    ensures LoginOutcome(users + [NewUser(data, id, now)], data.email, data.password) == Ok
  {
    var u := NewUser(data, id, now);
    var p := HasKey(EmailKey, Lower(data.email));
    assert IndexWhere(users, p) < 0;
    IndexWhereAppend(users, [u], p);
    assert p(u);
    assert IndexWhere([u], p) == 0;
  }

  /** Login is refused for every password other than the stored one. */
  lemma LoginNeedsStoredPassword(users: seq<User>, email: string, password: string)
    requires LoginOutcome(users, email, password) == Ok
    ensures forall other :: other != password ==> LoginOutcome(users, email, other) == Err(WrongPasswordMessage)
  {
  }

  // ---------------------------------------------------------------------------
  // Profile updates (`{ ...user, ...updates }`)

  /** The fields a profile update may carry; absent fields are left as they are. */
  datatype UserUpdate = UserUpdate(
    name: Option<string>,
    email: Option<string>,
    password: Option<string>,
    city: Option<string>,
    contactNumber: Option<string>)

  function Overlay(u: User, upd: UserUpdate): (r: User)
    ensures r.id == u.id && r.role == u.role && r.createdAt == u.createdAt
    ensures upd.name.Some? ==> r.name == upd.name.value
    ensures upd.name.None? ==> r.name == u.name
    ensures upd.email.Some? ==> r.email == upd.email.value
    ensures upd.email.None? ==> r.email == u.email
    ensures upd.password.Some? ==> r.password == upd.password.value
    ensures upd.password.None? ==> r.password == u.password
    ensures upd.city.Some? ==> r.city == upd.city.value
    ensures upd.city.None? ==> r.city == u.city
    ensures upd.contactNumber.Some? ==> r.contactNumber == upd.contactNumber.value
    ensures upd.contactNumber.None? ==> r.contactNumber == u.contactNumber
  {
    u.(name := upd.name.GetOr(u.name),
       email := upd.email.GetOr(u.email),
       password := upd.password.GetOr(u.password),
       city := upd.city.GetOr(u.city),
       contactNumber := upd.contactNumber.GetOr(u.contactNumber))
  }

  /** Applying the same update twice is the same as applying it once; the empty update changes nothing. */
  lemma OverlayIdempotent(u: User, upd: UserUpdate)
    ensures Overlay(Overlay(u, upd), upd) == Overlay(u, upd)
    ensures Overlay(u, UserUpdate(None, None, None, None, None)) == u
  {
  }

  // ---------------------------------------------------------------------------
  // The session

  class Session {
    const store: Store
    var user: Option<User>

    constructor (store: Store)
      ensures this.store == store && user == None
    {
      this.store := store;
      user := None;
    }

    /** `login`: on success the found user becomes the session user. */
    method Login(email: string, password: string) returns (res: AuthResult)
      modifies this
      ensures res == LoginOutcome(store.users, email, password)
      ensures res == Ok ==> user == GetUserByEmail(store.users, email)
      ensures res != Ok ==> user == old(user)
    {
      var existing := GetUserByEmail(store.users, email);
      if existing.None? {
        return Err(NoAccountMessage);
      }
      if existing.value.password != password {
        return Err(WrongPasswordMessage);
      }
      user := existing;
      res := Ok;
    }

    /** `logout`. */
    method Logout()
      modifies this
      ensures user == None
    {
      user := None;
    }

    /**
     * `register`: refuses a taken e-mail and saves nothing; otherwise saves one new user
     * with the fresh id `newId` and makes it the session user.
     */
    method Register(data: RegisterData, now: Time, newId: Id) returns (res: AuthResult)
      requires store.Valid()
      requires forall i :: 0 <= i < |store.users| ==> store.users[i].id != newId
      modifies this, store`users
      ensures store.Valid()
      ensures res == RegisterOutcome(old(store.users), data)
      ensures res != Ok ==> store.users == old(store.users) && user == old(user)
      ensures res == Ok ==> store.users == old(store.users) + [NewUser(data, newId, now)]
      ensures res == Ok ==> user == Some(NewUser(data, newId, now))
    {
      var existing := GetUserByEmail(store.users, data.email);
      if existing.Some? {
        return Err(EmailTakenMessage);
      }
      var u := NewUser(data, newId, now);
      SaveWithNewId(store.users, u, UserId);
      store.SaveUser(u);
      user := Some(u);
      res := Ok;
    }

    /** `updateUser`: nothing without a session user; otherwise the overlaid user is saved and kept. */
    method UpdateUser(upd: UserUpdate)
      requires store.Valid()
      modifies this, store`users
      ensures store.Valid()
      ensures old(user).None? ==> user == None && store.users == old(store.users)
      ensures old(user).Some? ==>
        && user == Some(Overlay(old(user).value, upd))
        && store.users == Upsert(old(store.users), Overlay(old(user).value, upd), UserId)
    {
      if user.None? {
        return;
      }
      var updated := Overlay(user.value, upd);
      store.SaveUser(updated);
      user := Some(updated);
    }

    /** `refreshUser`: reload the session user from the store by id, when it is still there. */
    method RefreshUser()
      modifies this
      ensures old(user).Some? && GetUserById(store.users, old(user).value.id).Some? ==>
        user == GetUserById(store.users, old(user).value.id)
      ensures old(user).None? || GetUserById(store.users, old(user).value.id).None? ==>
        user == old(user)
    {
      if user.Some? {
        var found := GetUserById(store.users, user.value.id);
        if found.Some? {
          user := found;
        }
      }
    }
  }

  /** After `updateUser`, looking the user up by id gives the updated record. */
  lemma UpdatedUserIsFound(users: seq<User>, u: User, upd: UserUpdate)
    ensures GetUserById(Upsert(users, Overlay(u, upd), UserId), u.id) == Some(Overlay(u, upd))
  {
    SavedUserIsFound(users, Overlay(u, upd));
  }
}
