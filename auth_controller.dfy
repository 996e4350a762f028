/** Account creation and sign-in (server/src/controllers/authController.js).
    The password hash is the parameter `hash`, bcrypt's check the parameter
    `compare`, and the clock the parameters `now` (the NOW() of the insert)
    and `nowMs` (the Date.now of the token). */
module AuthController {
  import opened Relational
  import opened Text
  import opened Store
  import opened AuthMiddleware

  /** The user fields a reply carries: never the password hash or status. */
  datatype PublicUser = PublicUser(id: nat, name: string, email: string, role: string)

  /** A successful register or login reply. */
  datatype Session = Session(user: PublicUser, token: string)

  const UserAlreadyExists := "User already exists"
  const RegistrationFailed := "Registration failed"
  const InvalidCredentials := "Invalid credentials"
  const NotApprovedYet := "Doctor account not approved yet"
  const LoginFailed := "Login failed"

  /** The row register inserts; the status column takes its schema default, active. */
  function NewUser(name: string, email: string, hashed: string, role: string, phone: string, now: nat): User {
    User(name, email, hashed, OrDefault(role, "user"), OrDefault(phone, ""), AccountStatus.Active, now)
  }

  function Public(id: nat, u: User): PublicUser {
    PublicUser(id, u.name, u.email, u.role)
  }

  function SessionFor(id: nat, u: User, nowMs: nat, encode: Claims -> string): Session {
    Session(Public(id, u), GenerateToken(id, u.email, u.role, nowMs, encode))
  }

  /** register. A body field that is absent (None) reaches the driver or the
      hash as undefined, which throws: the reply is 500. In order: a missing
      email is 500; an email already present is 400; a missing password or
      name is 500; in each of these cases nothing is written. Otherwise
      exactly one users row is added, and the reply is 201 with that row's
      public fields and a token for it. */
  method Register(db: Database, name: Option<string>, email: Option<string>, password: Option<string>,
                  role: string, phone: string,
                  hash: string -> string, now: nat, nowMs: nat, encode: Claims -> string)
      returns (reply: Reply<Session>)
    modifies db
    ensures email.None? ==> reply == Fail(500, RegistrationFailed) && db.State() == old(db.State())
    ensures email.Some? && EmailTaken(old(db.users), email.value) ==>
              reply == Fail(400, UserAlreadyExists) && db.State() == old(db.State())
    ensures email.Some? && !EmailTaken(old(db.users), email.value) && (password.None? || name.None?) ==>
              reply == Fail(500, RegistrationFailed) && db.State() == old(db.State())
    ensures email.Some? && !EmailTaken(old(db.users), email.value) && password.Some? && name.Some? ==>
              var row := NewUser(name.value, email.value, hash(password.value), role, phone, now);
              db.State() == old(db.State()).(users := Insert(old(db.users), row)) &&
              reply == Ok(201, SessionFor(old(db.users).next, row, nowMs, encode))
    ensures UniqueEmails(old(db.users)) ==> UniqueEmails(db.users)
  {
    if email.None? {
      return Fail(500, RegistrationFailed);
    }
    var existing := UsersWithEmail(db.users, email.value);
    UsersWithEmailHead(db.users, email.value);
    if |existing| > 0 {
      return Fail(400, UserAlreadyExists);
    }
    if password.None? || name.None? {
      return Fail(500, RegistrationFailed);
    }
    var row := NewUser(name.value, email.value, hash(password.value), role, phone, now);
    reply := AddUser(db, row, nowMs, encode);
  }

  /** register's INSERT and the re-read by email that follows it. */
  method AddUser(db: Database, row: User, nowMs: nat, encode: Claims -> string) returns (reply: Reply<Session>)
    requires !EmailTaken(db.users, row.email)
    modifies db
    ensures db.State() == old(db.State()).(users := Insert(old(db.users), row))
    ensures reply == Ok(201, SessionFor(old(db.users).next, row, nowMs, encode))
    ensures UniqueEmails(old(db.users)) ==> UniqueEmails(db.users)
  {
    InsertedIsFirst(db.users, row);
    InsertKeepsEmailsUnique(db.users, row);
    db.users := Insert(db.users, row);
    var user := FirstUserByEmail(db.users, row.email).value;
    reply := Ok(201, SessionFor(user.0, user.1, nowMs, encode));
  }

  /** After inserting a row with a fresh email, looking that email up finds
      the new row. */
  lemma InsertedIsFirst(users: Table<User>, row: User)
    requires !EmailTaken(users, row.email)
    ensures FirstUserByEmail(Insert(users, row), row.email) == Some((users.next, row))
  {
    var users' := Insert(users, row);
    assert users'.rows[users.next].email == row.email;
    var first := FirstUserByEmail(users', row.email);
    assert first.value.0 == users.next;
  }

  /** Inserting a row with a fresh email keeps emails unique. */
  lemma InsertKeepsEmailsUnique(users: Table<User>, row: User)
    requires !EmailTaken(users, row.email)
    ensures UniqueEmails(users) ==> UniqueEmails(Insert(users, row))
  {
  }

  /** login. A missing email or password is 500 (the driver or bcrypt
      throws); a user found by email whose password checks out gets a 200
      session, unless it is a doctor account whose first doctor row is not
      approved (403); an unknown email and a wrong password both get the same
      401. The users.status column is never consulted. */
  function Login(t: Tables, email: Option<string>, password: Option<string>,
                 compare: (string, string) -> bool, nowMs: nat, encode: Claims -> string): (r: Reply<Session>)
    ensures r.Fail? ==> (r.status == 401 && r.error == InvalidCredentials) ||
                        (r.status == 403 && r.error == NotApprovedYet) ||
                        (r.status == 500 && r.error == LoginFailed)
    ensures email.None? ==> r == Fail(500, LoginFailed)
    ensures email.Some? && !EmailTaken(t.users, email.value) ==> r == Fail(401, InvalidCredentials)
    ensures email.Some? && EmailTaken(t.users, email.value) ==>
              var (id, u) := FirstUserByEmail(t.users, email.value).value;
              (password.None? ==> r == Fail(500, LoginFailed)) &&
              (password.Some? ==>
                (!compare(password.value, u.password) ==> r == Fail(401, InvalidCredentials)) &&
                (r.Fail? && r.status == 403 <==>
                   compare(password.value, u.password) && u.role == "doctor" &&
                   HasDoctorRow(t.doctors, id) && FirstDoctorOf(t.doctors, id).value.1.status != DoctorStatus.Approved) &&
                (r.Ok? ==> compare(password.value, u.password) && r == Ok(200, SessionFor(id, u, nowMs, encode))) &&
                (compare(password.value, u.password) &&
                 !(u.role == "doctor" && HasDoctorRow(t.doctors, id) &&
                   FirstDoctorOf(t.doctors, id).value.1.status != DoctorStatus.Approved) ==>
                   r == Ok(200, SessionFor(id, u, nowMs, encode))))
  {
    if email.None? then Fail(500, LoginFailed)
    else
      match FirstUserByEmail(t.users, email.value)
      case None => Fail(401, InvalidCredentials)
      case Some((id, u)) =>
        if password.None? then Fail(500, LoginFailed)
        else if !compare(password.value, u.password) then Fail(401, InvalidCredentials)
        else if u.role == "doctor" && Blocked(FirstDoctorOf(t.doctors, id)) then Fail(403, NotApprovedYet)
        else Ok(200, SessionFor(id, u, nowMs, encode))
  }

  /** `doctors.length > 0 && doctors[0].status !== 'approved'`. */
  predicate Blocked(first: Option<(nat, Doctor)>) {
    first.Some? && first.value.1.status != DoctorStatus.Approved
  }

  /** An unknown email and a known email with a wrong password are answered
      identically, so the reply does not reveal which emails are registered. */
  lemma UnknownEmailLooksLikeWrongPassword(t: Tables, unknown: string, known: string, p1: Option<string>, p2: string,
                                           compare: (string, string) -> bool, nowMs: nat, encode: Claims -> string)
    requires !EmailTaken(t.users, unknown)
    requires FirstUserByEmail(t.users, known).Some? && !compare(p2, FirstUserByEmail(t.users, known).value.1.password)
    ensures Login(t, Some(unknown), p1, compare, nowMs, encode) == Login(t, Some(known), Some(p2), compare, nowMs, encode)
    ensures Login(t, Some(unknown), p1, compare, nowMs, encode) == Fail(401, InvalidCredentials)
  {
  }

  /** A doctor account without any doctors row is not held back. */
  lemma DoctorWithoutProfileLogsIn(t: Tables, email: string, password: string,
                                   compare: (string, string) -> bool, nowMs: nat, encode: Claims -> string)
    requires FirstUserByEmail(t.users, email).Some?
    requires var (id, u) := FirstUserByEmail(t.users, email).value;
             compare(password, u.password) && u.role == "doctor" && !HasDoctorRow(t.doctors, id)
    ensures Login(t, Some(email), Some(password), compare, nowMs, encode).Ok?
  {
    var (id, u) := FirstUserByEmail(t.users, email).value;
    assert !Blocked(FirstDoctorOf(t.doctors, id));
  }

  /** Rewriting the status of one account leaves the email lookup finding
      the same id, with the same row apart from its status. */
  lemma FirstUserIgnoresStatus(users: Table<User>, id: nat, status: AccountStatus, email: string)
    requires id in users.rows
    ensures var a, b := FirstUserByEmail(users, email), FirstUserByEmail(SetRow(users, id, users.rows[id].(status := status)), email);
            a.None? == b.None? &&
            (a.Some? ==> b.value.0 == a.value.0 && b.value.1 == a.value.1.(status := b.value.1.status))
  {
    var users' := SetRow(users, id, users.rows[id].(status := status));
    assert forall k :: k in users'.rows ==> users'.rows[k].email == users.rows[k].email;
    var a, b := FirstUserByEmail(users, email), FirstUserByEmail(users', email);
    if a.Some? {
      assert users'.rows[a.value.0].email == email;
      assert b.value.0 == a.value.0;
    } else {
      assert !EmailTaken(users', email);
    }
  }

  /** Suspending or reactivating an account changes nothing about login. */
  lemma LoginIgnoresAccountStatus(t: Tables, id: nat, status: AccountStatus, email: string, password: Option<string>,
                                  compare: (string, string) -> bool, nowMs: nat, encode: Claims -> string)
    requires id in t.users.rows
    ensures var t' := t.(users := SetRow(t.users, id, t.users.rows[id].(status := status)));
            Login(t', Some(email), password, compare, nowMs, encode) == Login(t, Some(email), password, compare, nowMs, encode)
  {
    FirstUserIgnoresStatus(t.users, id, status, email);
  }

  /** An account just created by register (with every field present) signs in with the same email and
      password, provided the hash verifies its own password and the account
      is not a doctor held back by an unapproved doctors row. */
  lemma RegisterThenLogin(t: Tables, name: string, email: string, password: string, role: string, phone: string,
                          hash: string -> string, compare: (string, string) -> bool, now: nat, nowMs: nat, encode: Claims -> string)
    requires !EmailTaken(t.users, email)
    requires compare(password, hash(password))
    requires OrDefault(role, "user") == "doctor" ==> !Blocked(FirstDoctorOf(t.doctors, t.users.next))
    ensures var row := NewUser(name, email, hash(password), role, phone, now);
            Login(t.(users := Insert(t.users, row)), Some(email), Some(password), compare, nowMs, encode) ==
            Ok(200, SessionFor(t.users.next, row, nowMs, encode))
  {
    InsertedIsFirst(t.users, NewUser(name, email, hash(password), role, phone, now));
  }
}
