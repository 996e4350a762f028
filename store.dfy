/** The relational store: one table per relation of the schema, each keyed by
    its auto-increment id, and the object that holds them. */
module Store {
  import opened Relational

  /** users.status. */
  datatype AccountStatus = Active | Suspended

  /** doctors.status. */
  datatype DoctorStatus = Pending | Approved | Suspended

  /** cases.status. */
  datatype CaseStatus = Pending | InProgress | Resolved

  /** A users row; `password` holds the bcrypt hash and `role` the text the
      client sent ('user', 'doctor', 'admin' or anything else). */
  datatype User = User(
    name: string, email: string, password: string, role: string,
    phone: string, status: AccountStatus, createdAt: nat)

  /** A doctors row; `rating` stands for the DECIMAL column as an ordered integer. */
  datatype Doctor = Doctor(
    userId: nat, specialization: string, licenseNumber: string,
    status: DoctorStatus, rating: int, casesHandled: nat,
    approvalDate: Option<nat>, createdAt: nat)

  /** An Animals row. */
  datatype Animal = Animal(animalType: string, age: nat, weight: nat, location: string)

  /** A cases row; the nullable columns are options. */
  datatype Case = Case(
    userId: nat, animalId: nat, assignedDoctorId: Option<nat>,
    symptoms: string, imageUrl: string, diseaseName: Option<string>,
    diagnosis: Option<string>, prescribedMedicine: Option<string>,
    notes: Option<string>, status: CaseStatus, createdAt: nat)

  /** A diseases row. */
  datatype Disease = Disease(name: string, description: string, treatment: string)

  /** A notifications row. */
  datatype Notification = Notification(title: string, message: string, targetRole: string, createdAt: nat)

  /** A messages row. */
  datatype Message = Message(caseId: nat, senderId: nat, recipientId: nat, text: string, createdAt: nat)

  /** A visit_requests row. */
  datatype VisitRequest = VisitRequest(caseId: nat, recommendedDate: string, recommendedTime: string, location: string)

  /** The contents of the whole store at one moment. */
  datatype Tables = Tables(
    users: Table<User>, doctors: Table<Doctor>, animals: Table<Animal>,
    cases: Table<Case>, diseases: Table<Disease>,
    notifications: Table<Notification>, messages: Table<Message>,
    visitRequests: Table<VisitRequest>)

  /** The database the controllers update in place, one field per table. */
  class Database {
    var users: Table<User>
    var doctors: Table<Doctor>
    var animals: Table<Animal>
    var cases: Table<Case>
    var diseases: Table<Disease>
    var notifications: Table<Notification>
    var messages: Table<Message>
    var visitRequests: Table<VisitRequest>

    function State(): Tables
      reads this
    {
      Tables(users, doctors, animals, cases, diseases, notifications, messages, visitRequests)
    }

    /** A store holding the given tables (as the schema bootstrap and seed
        data left them). */
    constructor (initial: Tables)
      ensures State() == initial
    {
      users, doctors, animals, cases := initial.users, initial.doctors, initial.animals, initial.cases;
      diseases, notifications := initial.diseases, initial.notifications;
      messages, visitRequests := initial.messages, initial.visitRequests;
    }
  }

  /** The users rows whose email is `email`, in id order
      (`SELECT * FROM users WHERE email = ?`). */
  function UsersWithEmail(users: Table<User>, email: string): (s: seq<(nat, User)>)
    ensures forall p :: p in s <==> p.0 in users.rows && users.rows[p.0] == p.1 && p.1.email == email
    ensures forall i, j :: 0 <= i < j < |s| ==> s[i].0 < s[j].0
  {
    var all := Rows(users);
    var s := Filter(all, (p: (nat, User)) => p.1.email == email);
    FilterIds(all, (p: (nat, User)) => p.1.email == email);
    s
  }

  /** The doctors rows of one user account, in id order
      (`SELECT * FROM doctors WHERE user_id = ?`). */
  function DoctorRowsOf(doctors: Table<Doctor>, userId: nat): (s: seq<(nat, Doctor)>)
    ensures forall p :: p in s <==> p.0 in doctors.rows && doctors.rows[p.0] == p.1 && p.1.userId == userId
    ensures forall i, j :: 0 <= i < j < |s| ==> s[i].0 < s[j].0
  {
    var all := Rows(doctors);
    var s := Filter(all, (p: (nat, Doctor)) => p.1.userId == userId);
    FilterIds(all, (p: (nat, Doctor)) => p.1.userId == userId);
    s
  }

  /** `users[0]` of that query: the row with the smallest id among those
      with this email, or none. */
  function FirstUserByEmail(users: Table<User>, email: string): (r: Option<(nat, User)>)
    ensures r.None? <==> !EmailTaken(users, email)
    ensures r.Some? ==> r.value.0 in users.rows && users.rows[r.value.0] == r.value.1 && r.value.1.email == email
    ensures r.Some? ==> forall id :: id in users.rows && users.rows[id].email == email ==> r.value.0 <= id
  {
    var s := UsersWithEmail(users, email);
    UsersWithEmailHead(users, email);
    if s == [] then None else Some(s[0])
  }

  lemma UsersWithEmailHead(users: Table<User>, email: string)
    ensures UsersWithEmail(users, email) == [] <==> !EmailTaken(users, email)
    ensures UsersWithEmail(users, email) != [] ==>
              var p := UsersWithEmail(users, email)[0];
              p.0 in users.rows && users.rows[p.0] == p.1 && p.1.email == email &&
              forall id :: id in users.rows && users.rows[id].email == email ==> p.0 <= id
  {
    var s := UsersWithEmail(users, email);
    forall id | id in users.rows && users.rows[id].email == email
      ensures s != [] && s[0].0 <= id
    {
      assert (id, users.rows[id]) in s;
      HeadIsLeast(s, (id, users.rows[id]));
    }
    if s != [] {
      assert s[0] in s;
    }
  }

  /** Some doctors row belongs to this user account. */
  predicate HasDoctorRow(doctors: Table<Doctor>, userId: nat) {
    exists id :: id in doctors.rows && doctors.rows[id].userId == userId
  }

  /** `doctors[0]` of `SELECT * FROM doctors WHERE user_id = ?`: the row with
      the smallest id among the user's doctor rows, or none. */
  function FirstDoctorOf(doctors: Table<Doctor>, userId: nat): (r: Option<(nat, Doctor)>)
    ensures r.None? <==> !HasDoctorRow(doctors, userId)
    ensures r.Some? ==> r.value.0 in doctors.rows && doctors.rows[r.value.0] == r.value.1 && r.value.1.userId == userId
    ensures r.Some? ==> forall id :: id in doctors.rows && doctors.rows[id].userId == userId ==> r.value.0 <= id
  {
    var s := DoctorRowsOf(doctors, userId);
    DoctorRowsOfHead(doctors, userId);
    if s == [] then None else Some(s[0])
  }

  lemma DoctorRowsOfHead(doctors: Table<Doctor>, userId: nat)
    ensures DoctorRowsOf(doctors, userId) == [] <==> !HasDoctorRow(doctors, userId)
    ensures DoctorRowsOf(doctors, userId) != [] ==>
              var p := DoctorRowsOf(doctors, userId)[0];
              p.0 in doctors.rows && doctors.rows[p.0] == p.1 && p.1.userId == userId &&
              forall id :: id in doctors.rows && doctors.rows[id].userId == userId ==> p.0 <= id
  {
    var s := DoctorRowsOf(doctors, userId);
    forall id | id in doctors.rows && doctors.rows[id].userId == userId
      ensures s != [] && s[0].0 <= id
    {
      assert (id, doctors.rows[id]) in s;
      HeadIsLeast(s, (id, doctors.rows[id]));
    }
    if s != [] {
      assert s[0] in s;
    }
  }

  /** Changing doctor rows without moving any to another account keeps
      which row is each account's first. */
  lemma FirstDoctorSameOwners(doctors: Table<Doctor>, doctors': Table<Doctor>, userId: nat)
    requires doctors'.rows.Keys == doctors.rows.Keys
    requires forall k :: k in doctors.rows ==> doctors'.rows[k].userId == doctors.rows[k].userId
    ensures FirstDoctorOf(doctors', userId).None? == FirstDoctorOf(doctors, userId).None?
    ensures FirstDoctorOf(doctors, userId).Some? ==>
              FirstDoctorOf(doctors', userId).value.0 == FirstDoctorOf(doctors, userId).value.0
  {
    var a, b := FirstDoctorOf(doctors, userId), FirstDoctorOf(doctors', userId);
    if a.Some? {
      assert doctors'.rows[a.value.0].userId == userId;
      assert b.Some?;
      assert doctors.rows[b.value.0].userId == userId;
    }
  }

  /** Some users row has this email. */
  predicate EmailTaken(users: Table<User>, email: string) {
    exists id :: id in users.rows && users.rows[id].email == email
  }

  /** No two users rows share an email. */
  predicate UniqueEmails(users: Table<User>) {
    forall a, b :: a in users.rows && b in users.rows && users.rows[a].email == users.rows[b].email ==> a == b
  }
}
