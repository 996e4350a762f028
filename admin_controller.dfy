/** The administrator's statistics, account moderation and catalogue
    (server/src/controllers/adminController.js). `doctorId` and `userId`
    are path parameters; `month` maps a creation time to its calendar month,
    numbered so that later months are larger (the order of the '%Y-%m' text). */
module AdminController {
  import opened Relational
  import opened Text
  import opened Store
  import opened AuthMiddleware
  import opened AuthController
  import opened UserController

  function WithRole(role: string): ((nat, User)) -> bool {
    (p: (nat, User)) => p.1.role == role
  }

  function DoctorWith(status: DoctorStatus): ((nat, Doctor)) -> bool {
    (p: (nat, Doctor)) => p.1.status == status
  }

  function AnyCase(): ((nat, Case)) -> bool {
    (p: (nat, Case)) => true
  }

  function CaseWith(status: CaseStatus): ((nat, Case)) -> bool {
    (p: (nat, Case)) => p.1.status == status
  }

  function InMonth(month: nat -> nat, m: nat): ((nat, Case)) -> bool {
    (p: (nat, Case)) => month(p.1.createdAt) == m
  }

  function WithDisease(name: string): ((nat, Case)) -> bool {
    (p: (nat, Case)) => p.1.diseaseName == Some(name)
  }

  /** The month of every case, in id order. */
  function CaseMonths(t: Tables, month: nat -> nat): seq<nat> {
    Column(Rows(t.cases), (p: (nat, Case)) => month(p.1.createdAt))
  }

  function LaterMonthFirst(): ((nat, nat), (nat, nat)) -> bool {
    (a: (nat, nat), b: (nat, nat)) => a.0 >= b.0
  }

  /** Sorting the groups by month, latest first, keeps every group and puts
      the months in strictly decreasing order. */
  lemma SortedGroups(keys: seq<nat>)
    ensures var g := GroupCount(keys);
            var s := SortBy(g, LaterMonthFirst());
            (forall x :: x in s <==> x in g) &&
            (forall i, j :: 0 <= i < j < |s| ==> s[i].0 > s[j].0)
  {
    SortedByMonth(GroupCount(keys));
  }

  /** The same for any groups whose months are pairwise different. */
  lemma SortedByMonth(g: seq<(nat, nat)>)
    requires forall i, j :: 0 <= i < j < |g| ==> g[i].0 != g[j].0
    ensures var s := SortBy(g, LaterMonthFirst());
            (forall x :: x in s <==> x in g) &&
            (forall i, j :: 0 <= i < j < |s| ==> s[i].0 > s[j].0)
  {
    var before := LaterMonthFirst();
    var s := SortBy(g, before);
    assert forall x :: x in s <==> x in g by {
      forall x ensures x in s <==> x in g {
        assert x in s <==> x in multiset(s);
        assert x in g <==> x in multiset(g);
      }
    }
    SortByOrdered(g, before);
    OrderedPairs(s, before);
    assert NoDup(g);
    PermutationNoDup(g, s);
    forall i, j | 0 <= i < j < |s| ensures s[i].0 > s[j].0 {
      assert before(s[i], s[j]);
      assert s[i] != s[j];
      assert s[i] in g && s[j] in g;
      var a :| 0 <= a < |g| && g[a] == s[i];
      var b :| 0 <= b < |g| && g[b] == s[j];
      assert a != b;
    }
  }

  /** The twelve latest keys with their multiplicities, latest first. */
  lemma LatestKeys(keys: seq<nat>)
    ensures var r := Take(SortBy(GroupCount(keys), LaterMonthFirst()), 12);
            (forall i :: 0 <= i < |r| ==> r[i].1 >= 1 && r[i].1 == multiset(keys)[r[i].0]) &&
            (forall i, j :: 0 <= i < j < |r| ==> r[i].0 > r[j].0)
  {
    var g := GroupCount(keys);
    var s := SortBy(g, LaterMonthFirst());
    var r := Take(s, 12);
    SortedGroups(keys);
    assert forall k :: 0 <= k < |r| ==> r[k] == s[k];
    forall i | 0 <= i < |r| ensures r[i].1 >= 1 && r[i].1 == multiset(keys)[r[i].0] {
      assert r[i] in s;
      assert r[i] in g;
    }
  }

  /** A key left out of the twelve latest is older than every key listed,
      and below twelve no key is left out. */
  lemma LatestKeyPlaced(keys: seq<nat>, m: nat)
    requires m in keys
    ensures var r := Take(SortBy(GroupCount(keys), LaterMonthFirst()), 12);
            ((forall k :: 0 <= k < |r| ==> r[k].0 != m) ==> forall i :: 0 <= i < |r| ==> m < r[i].0) &&
            (|r| < 12 ==> exists k :: 0 <= k < |r| && r[k].0 == m)
  {
    var g := GroupCount(keys);
    var s := SortBy(g, LaterMonthFirst());
    SortedGroups(keys);
    var a :| 0 <= a < |g| && g[a].0 == m;
    assert g[a] in g;
    assert g[a] in s;
    TakePlaced(s, m);
  }

  /** In groups with strictly decreasing months, a month that the first
      twelve leave out is older than each of them, and below twelve groups
      none is left out. */
  lemma TakePlaced(s: seq<(nat, nat)>, m: nat)
    requires forall i, j :: 0 <= i < j < |s| ==> s[i].0 > s[j].0
    requires exists x :: x in s && x.0 == m
    ensures var r := Take(s, 12);
            ((forall k :: 0 <= k < |r| ==> r[k].0 != m) ==> forall i :: 0 <= i < |r| ==> m < r[i].0) &&
            (|r| < 12 ==> exists k :: 0 <= k < |r| && r[k].0 == m)
  {
    var r := Take(s, 12);
    var x :| x in s && x.0 == m;
    var j :| 0 <= j < |s| && s[j] == x;
    if |r| < 12 {
      assert r == s;
      assert r[j].0 == m;
    }
    if (forall k :: 0 <= k < |r| ==> r[k].0 != m) {
      assert forall k :: 0 <= k < |r| ==> s[k].0 != m;
      assert j >= |r|;
      forall i | 0 <= i < |r| ensures m < r[i].0 {
        assert r[i] == s[i];
        assert s[i].0 > s[j].0;
      }
    }
  }

  /** The month column holds a month as often as there are cases in it. */
  lemma MonthTally(t: Tables, month: nat -> nat, m: nat)
    ensures multiset(CaseMonths(t, month))[m] == CasesIn(t, month, m)
  {
    CountColumn(Rows(t.cases), (p: (nat, Case)) => month(p.1.createdAt), m, InMonth(month, m));
  }

  /** The number of cases created in month `m`. */
  function CasesIn(t: Tables, month: nat -> nat, m: nat): nat {
    CountWhere(t.cases, InMonth(month, m))
  }

  /** The latest twelve months with their case counts. */
  function LatestMonths(t: Tables, month: nat -> nat): seq<(nat, nat)> {
    Take(SortBy(GroupCount(CaseMonths(t, month)), LaterMonthFirst()), 12)
  }

  /** Each listed month carries its number of cases, latest month first. */
  lemma LatestMonthsCounted(t: Tables, month: nat -> nat)
    ensures var r := LatestMonths(t, month);
            (forall i :: 0 <= i < |r| ==> r[i].1 >= 1 && r[i].1 == CasesIn(t, month, r[i].0)) &&
            (forall i, j :: 0 <= i < j < |r| ==> r[i].0 > r[j].0)
  {
    var keys: seq<nat> := CaseMonths(t, month);
    var r := LatestMonths(t, month);
    LatestKeys(keys);
    assert r == Take(SortBy(GroupCount(keys), LaterMonthFirst()), 12);
    forall i | 0 <= i < |r| ensures r[i].1 >= 1 && r[i].1 == CasesIn(t, month, r[i].0) {
      assert r[i].1 == multiset(keys)[r[i].0];
      MonthTally(t, month, r[i].0);
    }
  }

  /** A month with cases is listed, or is older than every listed month;
      below twelve it is listed. */
  lemma LatestMonthsComplete(t: Tables, month: nat -> nat, m: nat)
    requires CasesIn(t, month, m) > 0
    ensures var r := LatestMonths(t, month);
            ((forall k :: 0 <= k < |r| ==> r[k].0 != m) ==> forall i :: 0 <= i < |r| ==> m < r[i].0) &&
            (|r| < 12 ==> exists k :: 0 <= k < |r| && r[k].0 == m)
  {
    var keys: seq<nat> := CaseMonths(t, month);
    MonthTally(t, month, m);
    assert m in multiset(keys);
    LatestKeyPlaced(keys, m);
  }

  lemma LatestMonthsCompleteAll(t: Tables, month: nat -> nat)
    ensures var r := LatestMonths(t, month);
            forall m :: CasesIn(t, month, m) > 0 ==>
              ((forall k :: 0 <= k < |r| ==> r[k].0 != m) ==> forall i :: 0 <= i < |r| ==> m < r[i].0) &&
              (|r| < 12 ==> exists k :: 0 <= k < |r| && r[k].0 == m)
  {
    forall m | CasesIn(t, month, m) > 0
      ensures var r := LatestMonths(t, month);
              ((forall k :: 0 <= k < |r| ==> r[k].0 != m) ==> forall i :: 0 <= i < |r| ==> m < r[i].0) &&
              (|r| < 12 ==> exists k :: 0 <= k < |r| && r[k].0 == m)
    {
      LatestMonthsComplete(t, month, m);
    }
  }

  /** GROUP BY month ORDER BY month DESC LIMIT 12: the latest twelve months
      that have cases, latest first, each with its number of cases; a month
      with cases that is left out is older than every month listed. */
  function CasesByMonth(t: Tables, month: nat -> nat): (r: seq<(nat, nat)>)
    ensures |r| <= 12
    ensures forall i :: 0 <= i < |r| ==> r[i].1 >= 1 && r[i].1 == CasesIn(t, month, r[i].0)
    ensures forall i, j :: 0 <= i < j < |r| ==> r[i].0 > r[j].0
    ensures forall m :: CasesIn(t, month, m) > 0 ==>
              ((forall k :: 0 <= k < |r| ==> r[k].0 != m) ==> forall i :: 0 <= i < |r| ==> m < r[i].0) &&
              (|r| < 12 ==> exists k :: 0 <= k < |r| && r[k].0 == m)
  {
    var r := LatestMonths(t, month);
    LatestMonthsSpec(t, month, r);
    r
  }

  /** The twelve latest months have the properties CasesByMonth promises. */
  lemma LatestMonthsSpec(t: Tables, month: nat -> nat, r: seq<(nat, nat)>)
    requires r == LatestMonths(t, month)
    ensures |r| <= 12
    ensures forall i :: 0 <= i < |r| ==> r[i].1 >= 1 && r[i].1 == CasesIn(t, month, r[i].0)
    ensures forall i, j :: 0 <= i < j < |r| ==> r[i].0 > r[j].0
    ensures forall m :: CasesIn(t, month, m) > 0 ==>
              ((forall k :: 0 <= k < |r| ==> r[k].0 != m) ==> forall i :: 0 <= i < |r| ==> m < r[i].0) &&
              (|r| < 12 ==> exists k :: 0 <= k < |r| && r[k].0 == m)
  {
    LatestMonthsCounted(t, month);
    LatestMonthsCompleteAll(t, month);
  }

  /** The names of the cases that have one, in id order; a NULL name is
      dropped by `WHERE disease_name IS NOT NULL`. */
  function DiseaseNames(t: Tables): seq<string> {
    FilterMap(Rows(t.cases), (p: (nat, Case)) => p.1.diseaseName)
  }

  /** The number of cases diagnosed with `name`. */
  function CasesWithDisease(t: Tables, name: string): nat {
    CountWhere(t.cases, WithDisease(name))
  }

  /** The name column holds a name as often as there are cases with it. */
  lemma DiseaseTally(t: Tables, name: string)
    ensures multiset(DiseaseNames(t))[name] == CasesWithDisease(t, name)
  {
    CountFilterMap(Rows(t.cases), (p: (nat, Case)) => p.1.diseaseName, name, WithDisease(name));
  }

  /** The first ten disease groups. */
  function FirstDiseaseGroups(t: Tables): seq<(string, nat)> {
    Take(GroupCount(DiseaseNames(t)), 10)
  }

  lemma DiseaseGroupsCounted(t: Tables)
    ensures var r := FirstDiseaseGroups(t);
            forall i :: 0 <= i < |r| ==> r[i].1 >= 1 && r[i].1 == CasesWithDisease(t, r[i].0)
  {
    var r := FirstDiseaseGroups(t);
    var g := GroupCount(DiseaseNames(t));
    forall i | 0 <= i < |r| ensures r[i].1 >= 1 && r[i].1 == CasesWithDisease(t, r[i].0) {
      assert r[i] == g[i];
      DiseaseTally(t, r[i].0);
    }
  }

  lemma DiseaseGroupsComplete(t: Tables)
    ensures var r := FirstDiseaseGroups(t);
            |r| < 10 ==> forall n :: CasesWithDisease(t, n) > 0 ==> exists k :: 0 <= k < |r| && r[k].0 == n
  {
    var r := FirstDiseaseGroups(t);
    var g := GroupCount(DiseaseNames(t));
    if |r| < 10 {
      forall n | CasesWithDisease(t, n) > 0 ensures exists k :: 0 <= k < |r| && r[k].0 == n {
        DiseaseTally(t, n);
        assert n in DiseaseNames(t);
        var k :| 0 <= k < |g| && g[k].0 == n;
        assert r[k] == g[k];
      }
    }
  }

  /** GROUP BY disease_name LIMIT 10 (no ORDER BY, so which ten groups is
      not fixed): at most ten distinct names, each with its number of cases;
      below ten, every name in use is listed. */
  function DiseaseStats(t: Tables): (r: seq<(string, nat)>)
    ensures |r| <= 10
    ensures forall i, j :: 0 <= i < j < |r| ==> r[i].0 != r[j].0
    ensures forall i :: 0 <= i < |r| ==> r[i].1 >= 1 && r[i].1 == CasesWithDisease(t, r[i].0)
    ensures |r| < 10 ==> forall n :: CasesWithDisease(t, n) > 0 ==> exists k :: 0 <= k < |r| && r[k].0 == n
  {
    DiseaseGroupsCounted(t);
    DiseaseGroupsComplete(t);
    FirstDiseaseGroups(t)
  }

  /** The administrator's dashboard. */
  datatype AdminStats = AdminStats(
    totalUsers: nat, totalDoctors: nat, totalCases: nat, activeCases: nat, resolvedCases: nat,
    casesByMonth: seq<(nat, nat)>, diseaseStats: seq<(string, nat)>)

  /** getDashboardStats: users counts only role 'user', doctors only approved
      rows, active cases are the pending ones, and active and resolved
      together never exceed the total. */
  function DashboardStats(t: Tables, month: nat -> nat): (r: AdminStats)
    ensures r.totalUsers == CountWhere(t.users, WithRole("user"))
    ensures r.totalDoctors == CountWhere(t.doctors, DoctorWith(DoctorStatus.Approved))
    ensures r.totalCases == CountWhere(t.cases, AnyCase())
    ensures r.activeCases == CountWhere(t.cases, CaseWith(CaseStatus.Pending))
    ensures r.resolvedCases == CountWhere(t.cases, CaseWith(CaseStatus.Resolved))
    ensures r.activeCases + r.resolvedCases <= r.totalCases
    ensures r.casesByMonth == CasesByMonth(t, month) && r.diseaseStats == DiseaseStats(t)
  {
    CountDisjoint(t.cases, CaseWith(CaseStatus.Pending), CaseWith(CaseStatus.Resolved), AnyCase());
    AdminStats(CountWhere(t.users, WithRole("user")),
               CountWhere(t.doctors, DoctorWith(DoctorStatus.Approved)),
               CountWhere(t.cases, AnyCase()),
               CountWhere(t.cases, CaseWith(CaseStatus.Pending)),
               CountWhere(t.cases, CaseWith(CaseStatus.Resolved)),
               CasesByMonth(t, month), DiseaseStats(t))
  }

  /** A row of the doctor management list. */
  datatype AdminDoctor = AdminDoctor(
    id: nat, name: string, email: string, phone: string, specialization: string,
    status: DoctorStatus, approvalDate: Option<nat>, createdAt: nat)

  function AdminDoctorRow(t: Tables, id: nat, d: Doctor): Option<AdminDoctor> {
    if d.userId in t.users.rows then
      var u := t.users.rows[d.userId];
      Some(AdminDoctor(id, u.name, u.email, u.phone, d.specialization, d.status, d.approvalDate, d.createdAt))
    else None
  }

  function AdminDoctorOf(t: Tables): ((nat, Doctor)) -> Option<AdminDoctor> {
    (p: (nat, Doctor)) => AdminDoctorRow(t, p.0, p.1)
  }

  function NewestDoctorFirst(): (AdminDoctor, AdminDoctor) -> bool {
    (a: AdminDoctor, b: AdminDoctor) => a.createdAt >= b.createdAt
  }

  /** getDoctors: every doctor row with an existing user, whatever its
      status, each once, newest first. */
  function Doctors(t: Tables): (r: seq<AdminDoctor>)
    ensures forall y :: y in r ==>
              y.id in t.doctors.rows && AdminDoctorRow(t, y.id, t.doctors.rows[y.id]) == Some(y) &&
              y.status == t.doctors.rows[y.id].status
    ensures forall id :: id in t.doctors.rows && t.doctors.rows[id].userId in t.users.rows ==>
              AdminDoctorRow(t, id, t.doctors.rows[id]).value in r
    ensures forall i, j :: 0 <= i < j < |r| ==> r[i].id != r[j].id && r[i].createdAt >= r[j].createdAt
  {
    SelectSpecPairs(t.doctors, AdminDoctorOf(t), NewestDoctorFirst(), (y: AdminDoctor) => y.id);
    Select(t.doctors, AdminDoctorOf(t), NewestDoctorFirst())
  }

  /** UPDATE doctors SET status = 'approved', approval_date = NOW() WHERE id = ?. */
  function DoctorApproved(doctors: Table<Doctor>, doctorId: nat, now: nat): (r: Table<Doctor>)
    ensures r.next == doctors.next && r.rows.Keys == doctors.rows.Keys
    ensures forall id :: id in doctors.rows && id != doctorId ==> r.rows[id] == doctors.rows[id]
    ensures doctorId in doctors.rows ==>
              r.rows[doctorId] == doctors.rows[doctorId].(status := DoctorStatus.Approved, approvalDate := Some(now))
  {
    if doctorId in doctors.rows then
      SetRow(doctors, doctorId, doctors.rows[doctorId].(status := DoctorStatus.Approved, approvalDate := Some(now)))
    else doctors
  }

  /** UPDATE doctors SET status = 'suspended' WHERE id = ?: the approval date
      stays. */
  function DoctorSuspended(doctors: Table<Doctor>, doctorId: nat): (r: Table<Doctor>)
    ensures r.next == doctors.next && r.rows.Keys == doctors.rows.Keys
    ensures forall id :: id in doctors.rows && id != doctorId ==> r.rows[id] == doctors.rows[id]
    ensures doctorId in doctors.rows ==> r.rows[doctorId] == doctors.rows[doctorId].(status := DoctorStatus.Suspended)
  {
    if doctorId in doctors.rows then SetRow(doctors, doctorId, doctors.rows[doctorId].(status := DoctorStatus.Suspended)) else doctors
  }

  /** After approval, the account whose first doctor row it is signs in
      with its password. */
  lemma ApprovedDoctorLogsIn(t: Tables, doctorId: nat, now: nat, email: string, password: string,
                             compare: (string, string) -> bool, nowMs: nat, encode: Claims -> string)
    requires FirstUserByEmail(t.users, email).Some?
    requires var (id, u) := FirstUserByEmail(t.users, email).value;
             u.role == "doctor" && compare(password, u.password) &&
             FirstDoctorOf(t.doctors, id).Some? && FirstDoctorOf(t.doctors, id).value.0 == doctorId
    ensures Login(t.(doctors := DoctorApproved(t.doctors, doctorId, now)), Some(email), Some(password), compare, nowMs, encode).Ok?
  {
    ApprovedFirstRow(t.doctors, doctorId, now, FirstUserByEmail(t.users, email).value.0);
  }

  /** Approving an account's first doctor row unblocks the account. */
  lemma ApprovedFirstRow(doctors: Table<Doctor>, doctorId: nat, now: nat, userId: nat)
    requires FirstDoctorOf(doctors, userId).Some? && FirstDoctorOf(doctors, userId).value.0 == doctorId
    ensures !Blocked(FirstDoctorOf(DoctorApproved(doctors, doctorId, now), userId))
  {
    FirstDoctorSameOwners(doctors, DoctorApproved(doctors, doctorId, now), userId);
  }

  /** After suspension, the same account is refused with 403. */
  lemma SuspendedDoctorRefused(t: Tables, doctorId: nat, email: string, password: string,
                               compare: (string, string) -> bool, nowMs: nat, encode: Claims -> string)
    requires FirstUserByEmail(t.users, email).Some?
    requires var (id, u) := FirstUserByEmail(t.users, email).value;
             u.role == "doctor" && compare(password, u.password) &&
             FirstDoctorOf(t.doctors, id).Some? && FirstDoctorOf(t.doctors, id).value.0 == doctorId
    ensures Login(t.(doctors := DoctorSuspended(t.doctors, doctorId)), Some(email), Some(password), compare, nowMs, encode) ==
            Fail(403, NotApprovedYet)
  {
    SuspendedFirstRow(t.doctors, doctorId, FirstUserByEmail(t.users, email).value.0);
  }

  /** Suspending an account's first doctor row blocks the account. */
  lemma SuspendedFirstRow(doctors: Table<Doctor>, doctorId: nat, userId: nat)
    requires FirstDoctorOf(doctors, userId).Some? && FirstDoctorOf(doctors, userId).value.0 == doctorId
    ensures Blocked(FirstDoctorOf(DoctorSuspended(doctors, doctorId), userId))
  {
    FirstDoctorSameOwners(doctors, DoctorSuspended(doctors, doctorId), userId);
  }

  /** A suspended doctor drops out of the farmers' directory. */
  lemma SuspendedDoctorUnlisted(t: Tables, doctorId: nat)
    ensures forall y :: y in NearbyDoctors(t.(doctors := DoctorSuspended(t.doctors, doctorId))) ==> y.id != doctorId
  {
  }

  const DoctorApprovedMessage := "Doctor approved successfully"
  const DoctorSuspendedMessage := "Doctor suspended successfully"

  /** approveDoctors. */
  method ApproveDoctor(db: Database, doctorId: nat, now: nat) returns (reply: Reply<string>)
    modifies db
    ensures reply == Ok(200, DoctorApprovedMessage)
    ensures db.State() == old(db.State()).(doctors := DoctorApproved(old(db.doctors), doctorId, now))
  {
    db.doctors := DoctorApproved(db.doctors, doctorId, now);
    reply := Ok(200, DoctorApprovedMessage);
  }

  /** suspendDoctor. */
  method SuspendDoctor(db: Database, doctorId: nat) returns (reply: Reply<string>)
    modifies db
    ensures reply == Ok(200, DoctorSuspendedMessage)
    ensures db.State() == old(db.State()).(doctors := DoctorSuspended(old(db.doctors), doctorId))
  {
    db.doctors := DoctorSuspended(db.doctors, doctorId);
    reply := Ok(200, DoctorSuspendedMessage);
  }

  /** A row of the user management list. */
  datatype AdminUser = AdminUser(id: nat, name: string, email: string, phone: string, status: AccountStatus, createdAt: nat)

  function AdminUserRow(id: nat, u: User): Option<AdminUser> {
    if u.role == "user" then Some(AdminUser(id, u.name, u.email, u.phone, u.status, u.createdAt)) else None
  }

  function AdminUserOf(): ((nat, User)) -> Option<AdminUser> {
    (p: (nat, User)) => AdminUserRow(p.0, p.1)
  }

  function NewestUserFirst(): (AdminUser, AdminUser) -> bool {
    (a: AdminUser, b: AdminUser) => a.createdAt >= b.createdAt
  }

  /** getUsers: exactly the accounts with role 'user' (suspended ones
      included), each once, newest first. */
  function Users(t: Tables): (r: seq<AdminUser>)
    ensures forall y :: y in r ==>
              y.id in t.users.rows && t.users.rows[y.id].role == "user" &&
              AdminUserRow(y.id, t.users.rows[y.id]) == Some(y)
    ensures forall id :: id in t.users.rows && t.users.rows[id].role == "user" ==>
              AdminUserRow(id, t.users.rows[id]).value in r
    ensures forall i, j :: 0 <= i < j < |r| ==> r[i].id != r[j].id && r[i].createdAt >= r[j].createdAt
  {
    SelectSpecPairs(t.users, AdminUserOf(), NewestUserFirst(), (y: AdminUser) => y.id);
    Select(t.users, AdminUserOf(), NewestUserFirst())
  }

  /** UPDATE users SET status = 'suspended' WHERE id = ?: the row stays. */
  function UserSuspended(users: Table<User>, userId: nat): (r: Table<User>)
    ensures r.next == users.next && r.rows.Keys == users.rows.Keys
    ensures forall id :: id in users.rows && id != userId ==> r.rows[id] == users.rows[id]
    ensures userId in users.rows ==> r.rows[userId] == users.rows[userId].(status := AccountStatus.Suspended)
  {
    if userId in users.rows then SetRow(users, userId, users.rows[userId].(status := AccountStatus.Suspended)) else users
  }

  /** Suspending twice is suspending once. */
  lemma {:induction false} SuspendUserIdempotent(users: Table<User>, userId: nat)
    ensures UserSuspended(UserSuspended(users, userId), userId) == UserSuspended(users, userId)
  {
    var a, b := UserSuspended(UserSuspended(users, userId), userId), UserSuspended(users, userId);
    assert a.rows == b.rows;
  }

  /** A suspended account still signs in: login never reads the status. */
  lemma SuspendedUserStillLogsIn(t: Tables, userId: nat, email: string, password: Option<string>,
                                 compare: (string, string) -> bool, nowMs: nat, encode: Claims -> string)
    requires userId in t.users.rows
    ensures Login(t.(users := UserSuspended(t.users, userId)), Some(email), password, compare, nowMs, encode) ==
            Login(t, Some(email), password, compare, nowMs, encode)
  {
    LoginIgnoresAccountStatus(t, userId, AccountStatus.Suspended, email, password, compare, nowMs, encode);
    assert UserSuspended(t.users, userId) == SetRow(t.users, userId, t.users.rows[userId].(status := AccountStatus.Suspended));
  }

  const UserSuspendedMessage := "User suspended successfully"

  /** suspendUser. */
  method SuspendUser(db: Database, userId: nat) returns (reply: Reply<string>)
    modifies db
    ensures reply == Ok(200, UserSuspendedMessage)
    ensures db.State() == old(db.State()).(users := UserSuspended(old(db.users), userId))
  {
    db.users := UserSuspended(db.users, userId);
    reply := Ok(200, UserSuspendedMessage);
  }

  function DiseaseOf(): ((nat, Disease)) -> Option<(nat, Disease)> {
    (p: (nat, Disease)) => Some(p)
  }

  function ByName(): ((nat, Disease), (nat, Disease)) -> bool {
    (a: (nat, Disease), b: (nat, Disease)) => StrLe(a.1.name, b.1.name)
  }

  /** getDiseases: every disease row, each once, by name ascending. */
  function Diseases(t: Tables): (r: seq<(nat, Disease)>)
    ensures forall p :: p in r <==> p.0 in t.diseases.rows && t.diseases.rows[p.0] == p.1
    ensures forall i, j :: 0 <= i < j < |r| ==> r[i].0 != r[j].0 && StrLe(r[i].1.name, r[j].1.name)
  {
    StrLeTotalAll();
    StrLeTransitiveAll();
    SelectSpecPairs(t.diseases, DiseaseOf(), ByName(), (p: (nat, Disease)) => p.0);
    Select(t.diseases, DiseaseOf(), ByName())
  }

  const DiseaseAdded := "Disease added successfully"
  const DiseaseFailed := "Failed to add disease"

  /** addDisease: a missing field is 500 with no change; otherwise exactly
      one diseases row is added. */
  method AddDisease(db: Database, name: Option<string>, description: Option<string>, treatment: Option<string>)
      returns (reply: Reply<string>)
    modifies db
    ensures name.None? || description.None? || treatment.None? ==>
              reply == Fail(500, DiseaseFailed) && db.State() == old(db.State())
    ensures name.Some? && description.Some? && treatment.Some? ==>
              reply == Ok(201, DiseaseAdded) &&
              db.State() == old(db.State()).(diseases :=
                Insert(old(db.diseases), Disease(name.value, description.value, treatment.value)))
  {
    if name.None? || description.None? || treatment.None? {
      return Fail(500, DiseaseFailed);
    }
    db.diseases := Insert(db.diseases, Disease(name.value, description.value, treatment.value));
    reply := Ok(201, DiseaseAdded);
  }

  /** An added disease is listed by getDiseases. */
  lemma AddedDiseaseListed(t: Tables, d: Disease)
    ensures (t.diseases.next, d) in Diseases(t.(diseases := Insert(t.diseases, d)))
  {
  }

  const NotificationSent := "Notification sent successfully"
  const NotificationFailed := "Failed to send notification"

  /** broadcastNotification: a missing field is 500 with no change;
      otherwise exactly one notifications row is added. */
  method BroadcastNotification(db: Database, title: Option<string>, message: Option<string>, targetRole: Option<string>, now: nat)
      returns (reply: Reply<string>)
    modifies db
    ensures title.None? || message.None? || targetRole.None? ==>
              reply == Fail(500, NotificationFailed) && db.State() == old(db.State())
    ensures title.Some? && message.Some? && targetRole.Some? ==>
              reply == Ok(201, NotificationSent) &&
              db.State() == old(db.State()).(notifications :=
                Insert(old(db.notifications), Notification(title.value, message.value, targetRole.value, now)))
  {
    if title.None? || message.None? || targetRole.None? {
      return Fail(500, NotificationFailed);
    }
    db.notifications := Insert(db.notifications, Notification(title.value, message.value, targetRole.value, now));
    reply := Ok(201, NotificationSent);
  }
}
