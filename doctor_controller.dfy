/** The doctor's side of the case lifecycle and its queries
    (server/src/controllers/doctorController.js). `userId` is the id the
    token names; `caseId` is the path parameter. */
module DoctorController {
  import opened Relational
  import opened Text
  import opened Store

  /** The value of the scalar subquery `(SELECT id FROM doctors WHERE
      user_id = ?)`: NULL when there is no row, the id when there is one,
      and an error when there are several. */
  datatype SubqueryId = NoRow | OneRow(id: nat) | ManyRows

  function DoctorIdOf(doctors: Table<Doctor>, userId: nat): (r: SubqueryId)
    ensures r.NoRow? <==> !HasDoctorRow(doctors, userId)
    ensures r.OneRow? ==>
              r.id in doctors.rows && doctors.rows[r.id].userId == userId &&
              (forall k :: k in doctors.rows && doctors.rows[k].userId == userId ==> k == r.id) &&
              FirstDoctorOf(doctors, userId) == Some((r.id, doctors.rows[r.id]))
    ensures r.ManyRows? ==>
              exists a, b :: a in doctors.rows && b in doctors.rows && a != b &&
                             doctors.rows[a].userId == userId && doctors.rows[b].userId == userId
  {
    var s := DoctorRowsOf(doctors, userId);
    DoctorRowsOfHead(doctors, userId);
    if |s| == 0 then NoRow
    else if |s| == 1 then
      SingleDoctorRow(doctors, userId);
      OneRow(s[0].0)
    else
      SeveralDoctorRows(doctors, userId);
      ManyRows
  }

  lemma SingleDoctorRow(doctors: Table<Doctor>, userId: nat)
    requires |DoctorRowsOf(doctors, userId)| == 1
    ensures var p := DoctorRowsOf(doctors, userId)[0];
            forall k :: k in doctors.rows && doctors.rows[k].userId == userId ==> k == p.0
  {
    var s := DoctorRowsOf(doctors, userId);
    forall k | k in doctors.rows && doctors.rows[k].userId == userId ensures k == s[0].0 {
      assert (k, doctors.rows[k]) in s;
    }
  }

  lemma SeveralDoctorRows(doctors: Table<Doctor>, userId: nat)
    requires |DoctorRowsOf(doctors, userId)| >= 2
    ensures exists a, b :: a in doctors.rows && b in doctors.rows && a != b &&
                           doctors.rows[a].userId == userId && doctors.rows[b].userId == userId
  {
    var s := DoctorRowsOf(doctors, userId);
    assert s[0] in s && s[1] in s;
    var a, b := s[0].0, s[1].0;
    assert a in doctors.rows && b in doctors.rows && a != b;
  }

  /** `assigned_doctor_id = (subquery)`: NULL compares as unknown, so no
      case matches when the requester has no doctor row. */
  predicate AssignedTo(sub: SubqueryId, c: Case) {
    sub.OneRow? && c.assignedDoctorId == Some(sub.id)
  }

  function Assigned(sub: SubqueryId): ((nat, Case)) -> bool {
    (p: (nat, Case)) => AssignedTo(sub, p.1)
  }

  function AssignedWith(sub: SubqueryId, status: CaseStatus): ((nat, Case)) -> bool {
    (p: (nat, Case)) => AssignedTo(sub, p.1) && p.1.status == status
  }

  function ResolvedInMonth(sub: SubqueryId, month: nat -> nat, m: nat): ((nat, Case)) -> bool {
    (p: (nat, Case)) => AssignedTo(sub, p.1) && p.1.status == CaseStatus.Resolved && month(p.1.createdAt) == m
  }

  /** `Math.round(resolved / assigned * 100)`, or 0 without assigned cases:
      the whole percentage nearest to 100·resolved/assigned, halves
      rounded up. */
  function CureRate(resolved: nat, total: nat): (r: nat)
    ensures total == 0 ==> r == 0
    ensures total > 0 ==> r * (2 * total) <= 200 * resolved + total < (r + 1) * (2 * total)
    ensures resolved <= total ==> r <= 100
  {
    if total > 0 then
      var r := (200 * resolved + total) / (2 * total);
      CureRateBound(resolved, total, r);
      r
    else 0
  }

  lemma CureRateBound(resolved: nat, total: nat, r: nat)
    requires total > 0 && r == (200 * resolved + total) / (2 * total)
    ensures r * (2 * total) <= 200 * resolved + total < (r + 1) * (2 * total)
    ensures resolved <= total ==> r <= 100
  {
    DivBounds(200 * resolved + total, 2 * total);
    if resolved <= total {
      MulCancel(r, 101, 2 * total);
    }
  }

  /** Euclidean division brackets the dividend between two multiples. */
  lemma DivBounds(n: nat, q: nat)
    requires q > 0
    ensures (n / q) * q <= n < (n / q + 1) * q
  {
    var d, m := n / q, n % q;
    assert n == d * q + m;
    assert (d + 1) * q == d * q + q;
  }

  /** Multiplying by the same factor keeps the order. */
  lemma MulMono(a: nat, b: nat, q: nat)
    requires a <= b
    ensures a * q <= b * q
  {
    var d: nat := b - a;
    assert b * q == a * q + d * q;
  }

  /** A common factor can be cancelled from a strict inequality. */
  lemma MulCancel(a: nat, b: nat, q: nat)
    ensures a * q < b * q ==> a < b
  {
    if b <= a {
      MulMono(b, a, q);
    }
  }

  /** The dashboard figures. `monthlyPerformance` pairs a month with the
      number of the doctor's resolved cases created in it. */
  datatype DoctorStats = DoctorStats(
    assignedCases: nat, resolvedCases: nat, pendingCases: nat, cureRate: nat,
    monthlyPerformance: seq<(nat, nat)>)

  /** The months of the doctor's resolved cases, in id order. */
  function ResolvedMonths(t: Tables, sub: SubqueryId, month: nat -> nat): seq<nat> {
    Column(Filter(Rows(t.cases), AssignedWith(sub, CaseStatus.Resolved)), (p: (nat, Case)) => month(p.1.createdAt))
  }

  /** GROUP BY month ... LIMIT 12 over the doctor's resolved cases: at most
      twelve distinct months, each with its true count; below twelve, every
      month with a resolved case of the doctor is listed. */
  function MonthlyPerformance(t: Tables, sub: SubqueryId, month: nat -> nat): (r: seq<(nat, nat)>)
    ensures |r| <= 12
    ensures forall i, j :: 0 <= i < j < |r| ==> r[i].0 != r[j].0
    ensures forall i :: 0 <= i < |r| ==>
              r[i].1 >= 1 && r[i].1 == CountWhere(t.cases, ResolvedInMonth(sub, month, r[i].0))
    ensures |r| < 12 ==> forall m :: CountWhere(t.cases, ResolvedInMonth(sub, month, m)) > 0 ==>
              exists k :: 0 <= k < |r| && r[k].0 == m
  {
    var r := Take(GroupCount(ResolvedMonths(t, sub, month)), 12);
    MonthsListed(t, sub, month, r);
    r
  }

  /** The properties MonthlyPerformance promises, for the query's answer. */
  lemma MonthsListed(t: Tables, sub: SubqueryId, month: nat -> nat, r: seq<(nat, nat)>)
    requires r == Take(GroupCount(ResolvedMonths(t, sub, month)), 12)
    ensures |r| <= 12
    ensures forall i, j :: 0 <= i < j < |r| ==> r[i].0 != r[j].0
    ensures forall i :: 0 <= i < |r| ==>
              r[i].1 >= 1 && r[i].1 == CountWhere(t.cases, ResolvedInMonth(sub, month, r[i].0))
    ensures |r| < 12 ==> forall m :: CountWhere(t.cases, ResolvedInMonth(sub, month, m)) > 0 ==>
              exists k :: 0 <= k < |r| && r[k].0 == m
  {
    var keys := ResolvedMonths(t, sub, month);
    var g := GroupCount(keys);
    MonthCounts(t, sub, month);
    assert forall k :: 0 <= k < |r| ==> r[k] == g[k];
    if |r| < 12 {
      assert r == g;
      forall m | CountWhere(t.cases, ResolvedInMonth(sub, month, m)) > 0
        ensures exists k :: 0 <= k < |r| && r[k].0 == m
      {
        assert multiset(keys)[m] > 0;
        assert m in keys;
      }
    }
  }

  lemma MonthCounts(t: Tables, sub: SubqueryId, month: nat -> nat)
    ensures forall m :: multiset(ResolvedMonths(t, sub, month))[m] == CountWhere(t.cases, ResolvedInMonth(sub, month, m))
  {
    var all := Rows(t.cases);
    var resolved := AssignedWith(sub, CaseStatus.Resolved);
    var s := Filter(all, resolved);
    var key := (p: (nat, Case)) => month(p.1.createdAt);
    forall m ensures multiset(ResolvedMonths(t, sub, month))[m] == CountWhere(t.cases, ResolvedInMonth(sub, month, m)) {
      var q := ResolvedInMonth(sub, month, m);
      CountColumn(s, key, m, q);
      FilterNested(all, q, resolved);
    }
  }

  const DashboardFailed := "Failed to fetch dashboard"

  /** getDoctorDashboard: the counts of the requester's assigned, resolved
      and pending cases, the cure rate and the monthly figures; all zero
      without a doctor row, and 500 when the account has several. */
  function DoctorDashboard(t: Tables, userId: nat, month: nat -> nat): (r: Reply<DoctorStats>)
    ensures r.Fail? <==> DoctorIdOf(t.doctors, userId).ManyRows?
    ensures r.Fail? ==> r == Fail(500, DashboardFailed)
    ensures r.Ok? ==>
              var sub, d := DoctorIdOf(t.doctors, userId), r.value;
              r.status == 200 &&
              d.assignedCases == CountWhere(t.cases, Assigned(sub)) &&
              d.resolvedCases == CountWhere(t.cases, AssignedWith(sub, CaseStatus.Resolved)) &&
              d.pendingCases == CountWhere(t.cases, AssignedWith(sub, CaseStatus.Pending)) &&
              d.resolvedCases + d.pendingCases <= d.assignedCases &&
              d.cureRate == CureRate(d.resolvedCases, d.assignedCases) && d.cureRate <= 100 &&
              d.monthlyPerformance == MonthlyPerformance(t, sub, month)
    ensures DoctorIdOf(t.doctors, userId).NoRow? ==> r == Ok(200, DoctorStats(0, 0, 0, 0, []))
  {
    var sub := DoctorIdOf(t.doctors, userId);
    if sub.ManyRows? then Fail(500, DashboardFailed)
    else
      var total := CountWhere(t.cases, Assigned(sub));
      var resolved := CountWhere(t.cases, AssignedWith(sub, CaseStatus.Resolved));
      var pending := CountWhere(t.cases, AssignedWith(sub, CaseStatus.Pending));
      CountDisjoint(t.cases, AssignedWith(sub, CaseStatus.Resolved), AssignedWith(sub, CaseStatus.Pending), Assigned(sub));
      var monthly := MonthlyPerformance(t, sub, month);
      if sub.NoRow? then
        assert ResolvedMonths(t, sub, month) == [];
        Ok(200, DoctorStats(total, resolved, pending, CureRate(resolved, total), monthly))
      else
        Ok(200, DoctorStats(total, resolved, pending, CureRate(resolved, total), monthly))
  }

  /** A row of the unassigned-case inbox: the case joined with its owner and
      its animal. */
  datatype CaseRequest = CaseRequest(
    id: nat, c: Case, userName: string, phone: string,
    animalType: string, age: nat, weight: nat, location: string)

  /** The inbox row of one case: only unassigned cases whose owner and
      animal rows exist (an inner join drops the rest). */
  function RequestRow(t: Tables, id: nat, c: Case): (r: Option<CaseRequest>)
    ensures r.Some? <==> c.assignedDoctorId.None? && c.userId in t.users.rows && c.animalId in t.animals.rows
    ensures r.Some? ==> r.value.id == id && r.value.c == c
  {
    if c.assignedDoctorId.None? && c.userId in t.users.rows && c.animalId in t.animals.rows then
      var u, a := t.users.rows[c.userId], t.animals.rows[c.animalId];
      Some(CaseRequest(id, c, u.name, u.phone, a.animalType, a.age, a.weight, a.location))
    else None
  }

  function RequestOf(t: Tables): ((nat, Case)) -> Option<CaseRequest> {
    (p: (nat, Case)) => RequestRow(t, p.0, p.1)
  }

  function NewestRequestFirst(): (CaseRequest, CaseRequest) -> bool {
    (a: CaseRequest, b: CaseRequest) => a.c.createdAt >= b.c.createdAt
  }

  /** getCaseRequests: exactly the unassigned cases (with owner and animal),
      each once, newest first, with no regard to the requester. */
  function CaseRequests(t: Tables): (r: seq<CaseRequest>)
    ensures forall y :: y in r ==>
              y.id in t.cases.rows && y.c == t.cases.rows[y.id] && y.c.assignedDoctorId.None? &&
              RequestRow(t, y.id, y.c) == Some(y)
    ensures forall id :: (id in t.cases.rows && t.cases.rows[id].assignedDoctorId.None? &&
                          t.cases.rows[id].userId in t.users.rows && t.cases.rows[id].animalId in t.animals.rows) ==>
              RequestRow(t, id, t.cases.rows[id]).value in r
    ensures forall i, j :: 0 <= i < j < |r| ==> r[i].id != r[j].id && r[i].c.createdAt >= r[j].c.createdAt
  {
    SelectSpecPairs(t.cases, RequestOf(t), NewestRequestFirst(), (y: CaseRequest) => y.id);
    Select(t.cases, RequestOf(t), NewestRequestFirst())
  }

  /** A row of the case history: the case with its owner's name and its
      animal's type. */
  datatype HistoryRow = HistoryRow(id: nat, c: Case, userName: string, animalType: string)

  /** `u.name LIKE %s% OR a.animal_type LIKE %s% OR c.disease_name LIKE %s%`;
      a NULL disease name matches nothing. */
  predicate SearchHit(search: string, userName: string, animalType: string, diseaseName: Option<string>) {
    Contains(userName, search) || Contains(animalType, search) ||
    (diseaseName.Some? && Contains(diseaseName.value, search))
  }

  /** The history row of one case: assigned to the requester's doctor row,
      joined with owner and animal, and matching the search when one is given. */
  function HistoryRowOf(t: Tables, sub: SubqueryId, search: string, id: nat, c: Case): (r: Option<HistoryRow>)
    ensures r.Some? ==>
              r.value.id == id && r.value.c == c && AssignedTo(sub, c) &&
              (search == "" || SearchHit(search, r.value.userName, r.value.animalType, c.diseaseName))
  {
    if AssignedTo(sub, c) && c.userId in t.users.rows && c.animalId in t.animals.rows then
      var u, a := t.users.rows[c.userId], t.animals.rows[c.animalId];
      if search == "" || SearchHit(search, u.name, a.animalType, c.diseaseName) then
        Some(HistoryRow(id, c, u.name, a.animalType))
      else None
    else None
  }

  function HistoryOf(t: Tables, sub: SubqueryId, search: string): ((nat, Case)) -> Option<HistoryRow> {
    (p: (nat, Case)) => HistoryRowOf(t, sub, search, p.0, p.1)
  }

  function NewestHistoryFirst(): (HistoryRow, HistoryRow) -> bool {
    (a: HistoryRow, b: HistoryRow) => a.c.createdAt >= b.c.createdAt
  }

  const HistoryFailed := "Failed to fetch case history"

  /** The rows of the history query once the subquery has a value. */
  function HistoryRows(t: Tables, sub: SubqueryId, search: string): (s: seq<HistoryRow>)
    ensures forall y :: y in s ==>
              y.id in t.cases.rows && y.c == t.cases.rows[y.id] && AssignedTo(sub, y.c) &&
              (search == "" || SearchHit(search, y.userName, y.animalType, y.c.diseaseName)) &&
              HistoryRowOf(t, sub, search, y.id, y.c) == Some(y)
    ensures forall id :: id in t.cases.rows && HistoryRowOf(t, sub, search, id, t.cases.rows[id]).Some? ==>
              HistoryRowOf(t, sub, search, id, t.cases.rows[id]).value in s
    ensures forall i, j :: 0 <= i < j < |s| ==> s[i].id != s[j].id && s[i].c.createdAt >= s[j].c.createdAt
    ensures sub.NoRow? ==> s == []
  {
    var s := Select(t.cases, HistoryOf(t, sub, search), NewestHistoryFirst());
    HistorySelected(t, sub, search, s);
    s
  }

  /** The query's answer has the properties HistoryRows promises. */
  lemma HistorySelected(t: Tables, sub: SubqueryId, search: string, s: seq<HistoryRow>)
    requires s == Select(t.cases, HistoryOf(t, sub, search), NewestHistoryFirst())
    ensures forall y :: y in s ==>
              y.id in t.cases.rows && y.c == t.cases.rows[y.id] && AssignedTo(sub, y.c) &&
              (search == "" || SearchHit(search, y.userName, y.animalType, y.c.diseaseName)) &&
              HistoryRowOf(t, sub, search, y.id, y.c) == Some(y)
    ensures forall id :: id in t.cases.rows && HistoryRowOf(t, sub, search, id, t.cases.rows[id]).Some? ==>
              HistoryRowOf(t, sub, search, id, t.cases.rows[id]).value in s
    ensures forall i, j :: 0 <= i < j < |s| ==> s[i].id != s[j].id && s[i].c.createdAt >= s[j].c.createdAt
    ensures sub.NoRow? ==> s == []
  {
    var f := HistoryOf(t, sub, search);
    SelectSpecPairs(t.cases, f, NewestHistoryFirst(), (y: HistoryRow) => y.id);
    forall y | y in s
      ensures y.id in t.cases.rows && HistoryRowOf(t, sub, search, y.id, t.cases.rows[y.id]) == Some(y)
    {
      assert f((y.id, t.cases.rows[y.id])) == Some(y);
    }
    forall i, j | 0 <= i < j < |s| ensures s[i].c.createdAt >= s[j].c.createdAt {
      assert NewestHistoryFirst()(s[i], s[j]);
    }
    if sub.NoRow? {
      SelectNothing(t.cases, f, NewestHistoryFirst());
    }
  }

  /** getCaseHistory: the cases assigned to the requester, narrowed by the
      search when it is non-empty, each once, newest first; 500 when the
      account has several doctor rows. */
  function CaseHistory(t: Tables, userId: nat, search: string): (r: Reply<seq<HistoryRow>>)
    ensures r.Fail? <==> DoctorIdOf(t.doctors, userId).ManyRows?
    ensures r.Fail? ==> r == Fail(500, HistoryFailed)
    ensures r.Ok? ==> r == Ok(200, HistoryRows(t, DoctorIdOf(t.doctors, userId), search))
    ensures DoctorIdOf(t.doctors, userId).NoRow? ==> r == Ok(200, [])
  {
    var sub := DoctorIdOf(t.doctors, userId);
    if sub.ManyRows? then Fail(500, HistoryFailed) else Ok(200, HistoryRows(t, sub, search))
  }

  /** A search only narrows the history: every row found with a search is a
      row of the unsearched history. */
  lemma SearchNarrowsHistory(t: Tables, userId: nat, search: string)
    requires CaseHistory(t, userId, search).Ok?
    ensures forall y :: y in CaseHistory(t, userId, search).value ==> y in CaseHistory(t, userId, "").value
  {
    var sub := DoctorIdOf(t.doctors, userId);
    forall y | y in CaseHistory(t, userId, search).value
      ensures y in CaseHistory(t, userId, "").value
    {
      assert HistoryRowOf(t, sub, "", y.id, t.cases.rows[y.id]) == Some(y);
    }
  }

  /** UPDATE cases SET assigned_doctor_id = ?, status = 'in_progress'
      WHERE id = ?: those two fields of that row and nothing else, whatever
      the case's status was. */
  function Accepted(cases: Table<Case>, caseId: nat, doctorId: nat): (r: Table<Case>)
    ensures r.next == cases.next && r.rows.Keys == cases.rows.Keys
    ensures forall id :: id in cases.rows && id != caseId ==> r.rows[id] == cases.rows[id]
    ensures caseId in cases.rows ==>
              r.rows[caseId] == cases.rows[caseId].(assignedDoctorId := Some(doctorId), status := CaseStatus.InProgress)
  {
    if caseId in cases.rows then
      SetRow(cases, caseId, cases.rows[caseId].(assignedDoctorId := Some(doctorId), status := CaseStatus.InProgress))
    else cases
  }

  /** Accepting again, by any doctor, overrides the earlier acceptance:
      a taken or resolved case is reassigned and reopened. */
  lemma {:induction false} AcceptOverrides(cases: Table<Case>, caseId: nat, first: nat, second: nat)
    ensures Accepted(Accepted(cases, caseId, first), caseId, second) == Accepted(cases, caseId, second)
  {
    var a, b := Accepted(Accepted(cases, caseId, first), caseId, second), Accepted(cases, caseId, second);
    assert a.rows == b.rows;
  }

  /** An accepted case leaves the inbox. */
  lemma AcceptLeavesInbox(t: Tables, caseId: nat, doctorId: nat)
    requires caseId in t.cases.rows
    ensures forall y :: y in CaseRequests(t.(cases := Accepted(t.cases, caseId, doctorId))) ==> y.id != caseId
  {
  }

  /** A case the requester's only doctor row accepts shows in the
      requester's unsearched history. */
  lemma AcceptJoinsHistory(t: Tables, userId: nat, caseId: nat)
    requires DoctorIdOf(t.doctors, userId).OneRow?
    requires caseId in t.cases.rows
    requires t.cases.rows[caseId].userId in t.users.rows && t.cases.rows[caseId].animalId in t.animals.rows
    ensures var t' := t.(cases := Accepted(t.cases, caseId, FirstDoctorOf(t.doctors, userId).value.0));
            exists y :: y in CaseHistory(t', userId, "").value && y.id == caseId
  {
    var did := FirstDoctorOf(t.doctors, userId).value.0;
    var t' := t.(cases := Accepted(t.cases, caseId, did));
    var sub := DoctorIdOf(t'.doctors, userId);
    assert HistoryRowOf(t', sub, "", caseId, t'.cases.rows[caseId]).Some?;
  }

  const DoctorProfileNotFound := "Doctor profile not found"
  const CaseAccepted := "Case accepted successfully"

  /** acceptCase: 404 and no change without a doctor row; otherwise the
      case takes the first doctor row's id and becomes in progress. */
  method AcceptCase(db: Database, caseId: nat, userId: nat) returns (reply: Reply<string>)
    modifies db
    ensures !HasDoctorRow(old(db.doctors), userId) ==>
              reply == Fail(404, DoctorProfileNotFound) && db.State() == old(db.State())
    ensures HasDoctorRow(old(db.doctors), userId) ==>
              reply == Ok(200, CaseAccepted) &&
              db.State() == old(db.State()).(cases := Accepted(old(db.cases), caseId, FirstDoctorOf(old(db.doctors), userId).value.0))
  {
    var doctor := FirstDoctorOf(db.doctors, userId);
    if doctor.None? {
      return Fail(404, DoctorProfileNotFound);
    }
    db.cases := Accepted(db.cases, caseId, doctor.value.0);
    reply := Ok(200, CaseAccepted);
  }

  /** UPDATE cases SET diagnosis = ?, prescribed_medicine = ?, notes = ?
      WHERE id = ?: the three diagnosis fields of that row and nothing else. */
  function Diagnosed(cases: Table<Case>, caseId: nat, diagnosis: string, medication: string, notes: string): (r: Table<Case>)
    ensures r.next == cases.next && r.rows.Keys == cases.rows.Keys
    ensures forall id :: id in cases.rows && id != caseId ==> r.rows[id] == cases.rows[id]
    ensures caseId in cases.rows ==>
              r.rows[caseId] == cases.rows[caseId].(diagnosis := Some(diagnosis), prescribedMedicine := Some(medication), notes := Some(notes))
  {
    if caseId in cases.rows then
      SetRow(cases, caseId, cases.rows[caseId].(diagnosis := Some(diagnosis), prescribedMedicine := Some(medication), notes := Some(notes)))
    else cases
  }

  /** Adding a diagnosis never moves a case through its lifecycle: every
      status and every assignment stays as it was. */
  lemma DiagnosisKeepsLifecycle(cases: Table<Case>, caseId: nat, diagnosis: string, medication: string, notes: string)
    ensures var r := Diagnosed(cases, caseId, diagnosis, medication, notes);
            forall id :: id in cases.rows ==>
              r.rows[id].status == cases.rows[id].status && r.rows[id].assignedDoctorId == cases.rows[id].assignedDoctorId
  {
  }

  const DiagnosisAdded := "Diagnosis added successfully"
  const DiagnosisFailed := "Failed to add diagnosis"

  /** addDiagnosis: a missing body field reaches the driver as undefined and
      the reply is 500 with no change; otherwise the diagnosis fields are
      written, whatever the case's status or doctor. */
  method AddDiagnosis(db: Database, caseId: nat, diagnosis: Option<string>, medication: Option<string>, notes: Option<string>)
      returns (reply: Reply<string>)
    modifies db
    ensures (diagnosis.None? || medication.None? || notes.None?) ==>
              reply == Fail(500, DiagnosisFailed) && db.State() == old(db.State())
    ensures diagnosis.Some? && medication.Some? && notes.Some? ==>
              reply == Ok(200, DiagnosisAdded) &&
              db.State() == old(db.State()).(cases := Diagnosed(old(db.cases), caseId, diagnosis.value, medication.value, notes.value))
  {
    if diagnosis.None? || medication.None? || notes.None? {
      return Fail(500, DiagnosisFailed);
    }
    db.cases := Diagnosed(db.cases, caseId, diagnosis.value, medication.value, notes.value);
    reply := Ok(200, DiagnosisAdded);
  }

  /** UPDATE cases SET status = 'resolved' WHERE id = ?: that row's status
      and nothing else. */
  function Resolved(cases: Table<Case>, caseId: nat): (r: Table<Case>)
    ensures r.next == cases.next && r.rows.Keys == cases.rows.Keys
    ensures forall id :: id in cases.rows && id != caseId ==> r.rows[id] == cases.rows[id]
    ensures caseId in cases.rows ==> r.rows[caseId] == cases.rows[caseId].(status := CaseStatus.Resolved)
  {
    if caseId in cases.rows then SetRow(cases, caseId, cases.rows[caseId].(status := CaseStatus.Resolved)) else cases
  }

  /** Resolving a resolved case changes nothing, so resolving twice is
      resolving once. */
  lemma {:induction false} ResolveIdempotent(cases: Table<Case>, caseId: nat)
    ensures caseId in cases.rows && cases.rows[caseId].status == CaseStatus.Resolved ==> Resolved(cases, caseId) == cases
    ensures Resolved(Resolved(cases, caseId), caseId) == Resolved(cases, caseId)
  {
    if caseId in cases.rows && cases.rows[caseId].status == CaseStatus.Resolved {
      assert Resolved(cases, caseId).rows == cases.rows;
    }
    var a, b := Resolved(Resolved(cases, caseId), caseId), Resolved(cases, caseId);
    assert a.rows == b.rows;
  }

  const CaseResolved := "Case marked as resolved"

  /** markCaseResolved: the case becomes resolved, from any status and for
      any requester. */
  method MarkCaseResolved(db: Database, caseId: nat) returns (reply: Reply<string>)
    modifies db
    ensures reply == Ok(200, CaseResolved)
    ensures db.State() == old(db.State()).(cases := Resolved(old(db.cases), caseId))
  {
    db.cases := Resolved(db.cases, caseId);
    reply := Ok(200, CaseResolved);
  }

  const VisitRequested := "Physical visit requested"
  const VisitFailed := "Failed to request physical visit"

  /** requestPhysicalVisit: a missing body field is 500 with no change;
      otherwise exactly one visit_requests row is added and the reply is 201. */
  method RequestPhysicalVisit(db: Database, caseId: nat, date: Option<string>, time: Option<string>, location: Option<string>)
      returns (reply: Reply<string>)
    modifies db
    ensures (date.None? || time.None? || location.None?) ==>
              reply == Fail(500, VisitFailed) && db.State() == old(db.State())
    ensures date.Some? && time.Some? && location.Some? ==>
              reply == Ok(201, VisitRequested) &&
              db.State() == old(db.State()).(visitRequests :=
                Insert(old(db.visitRequests), VisitRequest(caseId, date.value, time.value, location.value)))
  {
    if date.None? || time.None? || location.None? {
      return Fail(500, VisitFailed);
    }
    db.visitRequests := Insert(db.visitRequests, VisitRequest(caseId, date.value, time.value, location.value));
    reply := Ok(201, VisitRequested);
  }
}
