/** The farmer's side: case submission, the AI stand-in, profile and
    messages, and the read queries (server/src/controllers/userController.js).
    `userId` is the id the token names. A body field that is absent (None)
    reaches the driver as undefined, which throws: the reply is 500. */
module UserController {
  import opened Relational
  import opened Store

  /** ORDER BY ... DESC on a signed number. */
  function Abs(x: int): nat {
    if x < 0 then -x else x
  }

  /** A doctor on the farmer's dashboard. */
  datatype DashboardDoctor = DashboardDoctor(
    id: nat, name: string, phone: string, specialization: string, rating: int, casesHandled: nat)

  /** The dashboard row of one doctors row: approved, joined with its user. */
  function DashboardDoctorRow(t: Tables, id: nat, d: Doctor): Option<DashboardDoctor> {
    if d.status == DoctorStatus.Approved && d.userId in t.users.rows then
      var u := t.users.rows[d.userId];
      Some(DashboardDoctor(id, u.name, u.phone, d.specialization, d.rating, d.casesHandled))
    else None
  }

  function DashboardDoctorOf(t: Tables): ((nat, Doctor)) -> Option<DashboardDoctor> {
    (p: (nat, Doctor)) => DashboardDoctorRow(t, p.0, p.1)
  }

  function HigherRatingFirst(): (DashboardDoctor, DashboardDoctor) -> bool {
    (a: DashboardDoctor, b: DashboardDoctor) => a.rating >= b.rating
  }

  /** `ORDER BY d.rating DESC LIMIT 5` over approved doctors: at most five,
      each once, best rated first, and no approved doctor left out rates
      higher than one shown; below five, every approved doctor is shown. */
  function DashboardDoctors(t: Tables): (r: seq<DashboardDoctor>)
    ensures |r| <= 5
    ensures forall y :: y in r ==>
              y.id in t.doctors.rows && t.doctors.rows[y.id].status == DoctorStatus.Approved &&
              DashboardDoctorRow(t, y.id, t.doctors.rows[y.id]) == Some(y)
    ensures forall i, j :: 0 <= i < j < |r| ==> r[i].id != r[j].id && r[i].rating >= r[j].rating
    ensures forall i, id :: (0 <= i < |r| && id in t.doctors.rows &&
                             DashboardDoctorRow(t, id, t.doctors.rows[id]).Some? &&
                             (forall k :: 0 <= k < |r| ==> r[k].id != id)) ==>
              t.doctors.rows[id].rating <= r[i].rating
    ensures |r| < 5 ==> forall id :: id in t.doctors.rows && DashboardDoctorRow(t, id, t.doctors.rows[id]).Some? ==>
              DashboardDoctorRow(t, id, t.doctors.rows[id]).value in r
  {
    var r := Take(Select(t.doctors, DashboardDoctorOf(t), HigherRatingFirst()), 5);
    TopRatedOfSelect(t, r);
    r
  }

  /** TopRated for the query's own answer. */
  lemma TopRatedOfSelect(t: Tables, r: seq<DashboardDoctor>)
    requires r == Take(Select(t.doctors, DashboardDoctorOf(t), HigherRatingFirst()), 5)
    ensures |r| <= 5
    ensures forall y :: y in r ==>
              y.id in t.doctors.rows && t.doctors.rows[y.id].status == DoctorStatus.Approved &&
              DashboardDoctorRow(t, y.id, t.doctors.rows[y.id]) == Some(y)
    ensures forall i, j :: 0 <= i < j < |r| ==> r[i].id != r[j].id && r[i].rating >= r[j].rating
    ensures forall i, id :: (0 <= i < |r| && id in t.doctors.rows &&
                             DashboardDoctorRow(t, id, t.doctors.rows[id]).Some? &&
                             (forall k :: 0 <= k < |r| ==> r[k].id != id)) ==>
              t.doctors.rows[id].rating <= r[i].rating
    ensures |r| < 5 ==> forall id :: id in t.doctors.rows && DashboardDoctorRow(t, id, t.doctors.rows[id]).Some? ==>
              DashboardDoctorRow(t, id, t.doctors.rows[id]).value in r
  {
    var full := Select(t.doctors, DashboardDoctorOf(t), HigherRatingFirst());
    SelectSpecPairs(t.doctors, DashboardDoctorOf(t), HigherRatingFirst(), (y: DashboardDoctor) => y.id);
    TopRated(t, full, r);
  }

  lemma TopRated(t: Tables, full: seq<DashboardDoctor>, r: seq<DashboardDoctor>)
    requires forall y :: y in full <==>
               y.id in t.doctors.rows && DashboardDoctorRow(t, y.id, t.doctors.rows[y.id]) == Some(y)
    requires forall i, j :: 0 <= i < j < |full| ==> full[i].id != full[j].id && full[i].rating >= full[j].rating
    requires r == Take(full, 5)
    ensures |r| <= 5
    ensures forall y :: y in r ==>
              y.id in t.doctors.rows && t.doctors.rows[y.id].status == DoctorStatus.Approved &&
              DashboardDoctorRow(t, y.id, t.doctors.rows[y.id]) == Some(y)
    ensures forall i, j :: 0 <= i < j < |r| ==> r[i].id != r[j].id && r[i].rating >= r[j].rating
    ensures forall i, id :: (0 <= i < |r| && id in t.doctors.rows &&
                             DashboardDoctorRow(t, id, t.doctors.rows[id]).Some? &&
                             (forall k :: 0 <= k < |r| ==> r[k].id != id)) ==>
              t.doctors.rows[id].rating <= r[i].rating
    ensures |r| < 5 ==> forall id :: id in t.doctors.rows && DashboardDoctorRow(t, id, t.doctors.rows[id]).Some? ==>
              DashboardDoctorRow(t, id, t.doctors.rows[id]).value in r
  {
    assert forall k :: 0 <= k < |r| ==> r[k] == full[k];
    forall y | y in r
      ensures y in full
    {
      var k :| 0 <= k < |r| && r[k] == y;
    }
    forall i, id | 0 <= i < |r| && id in t.doctors.rows &&
                   DashboardDoctorRow(t, id, t.doctors.rows[id]).Some? &&
                   (forall k :: 0 <= k < |r| ==> r[k].id != id)
      ensures t.doctors.rows[id].rating <= r[i].rating
    {
      var y := DashboardDoctorRow(t, id, t.doctors.rows[id]).value;
      assert y in full;
      LeftOutRatesLower(full, r, i, y);
    }
  }

  /** A doctor past the first five rates no higher than any of them. */
  lemma LeftOutRatesLower(full: seq<DashboardDoctor>, r: seq<DashboardDoctor>, i: nat, y: DashboardDoctor)
    requires forall i, j :: 0 <= i < j < |full| ==> full[i].rating >= full[j].rating
    requires r == Take(full, 5) && i < |r|
    requires y in full && forall k :: 0 <= k < |r| ==> r[k].id != y.id
    ensures y.rating <= r[i].rating
  {
    var j :| 0 <= j < |full| && full[j] == y;
    assert r[i] == full[i];
  }

  /** The farmer's dashboard figures. */
  datatype UserStats = UserStats(totalCases: nat, pendingCases: nat, resolvedCases: nat, nearbyDoctors: seq<DashboardDoctor>)

  function OwnedBy(userId: nat): ((nat, Case)) -> bool {
    (p: (nat, Case)) => p.1.userId == userId
  }

  function OwnedWith(userId: nat, status: CaseStatus): ((nat, Case)) -> bool {
    (p: (nat, Case)) => p.1.userId == userId && p.1.status == status
  }

  /** getUserDashboard: the requester's case counts, pending and resolved
      together never exceeding the total, and the top-rated doctors. */
  function UserDashboard(t: Tables, userId: nat): (r: UserStats)
    ensures r.totalCases == CountWhere(t.cases, OwnedBy(userId))
    ensures r.pendingCases == CountWhere(t.cases, OwnedWith(userId, CaseStatus.Pending))
    ensures r.resolvedCases == CountWhere(t.cases, OwnedWith(userId, CaseStatus.Resolved))
    ensures r.pendingCases <= r.totalCases && r.resolvedCases <= r.totalCases
    ensures r.pendingCases + r.resolvedCases <= r.totalCases
    ensures r.nearbyDoctors == DashboardDoctors(t)
  {
    CountDisjoint(t.cases, OwnedWith(userId, CaseStatus.Pending), OwnedWith(userId, CaseStatus.Resolved), OwnedBy(userId));
    UserStats(CountWhere(t.cases, OwnedBy(userId)),
              CountWhere(t.cases, OwnedWith(userId, CaseStatus.Pending)),
              CountWhere(t.cases, OwnedWith(userId, CaseStatus.Resolved)),
              DashboardDoctors(t))
  }

  /** One entry of the simulated diagnosis. */
  datatype Prediction = Prediction(disease: string, confidence: nat, firstAid: string)

  /** The five fixed entries getAIPrediction picks from. */
  function Predictions(): (r: seq<Prediction>)
    ensures |r| == 5
  {
    [ Prediction("Foot and Mouth Disease", 85, "Isolate animal, apply antiseptic, consult veterinarian"),
      Prediction("Bovine Tuberculosis", 72, "Quarantine, monitor closely, consult doctor"),
      Prediction("Anthrax", 78, "Immediate veterinary care required"),
      Prediction("Mastitis", 88, "Maintain hygiene, apply antibiotics, consult vet"),
      Prediction("Brucellosis", 65, "Isolate animal, wear protective gear") ]
  }

  /** getAIPrediction, with `pick` the value of
      `Math.floor(Math.random() * 5)`; the symptoms play no part. */
  function AIPrediction(pick: nat): (r: Prediction)
    requires pick < 5
    ensures r in Predictions()
    ensures 65 <= r.confidence <= 88
  {
    Predictions()[pick]
  }

  const PlaceholderImage := "https://via.placeholder.com/400"
  const SubmitFailed := "Failed to submit case"

  /** The reply to a successful submission. */
  datatype Submission = Submission(caseId: nat, aiPrediction: Prediction)

  /** The case row submitCase inserts. */
  function NewCase(userId: nat, animalId: nat, symptoms: string, imageUrl: string, now: nat): Case {
    Case(userId, animalId, None, symptoms, if imageUrl == "" then PlaceholderImage else imageUrl,
         None, None, None, None, CaseStatus.Pending, now)
  }

  /** submitCase: the Animals row is inserted first, then the case row, and
      the two statements are not a transaction, so a missing symptoms field
      answers 500 but leaves the new animal behind. A missing animal type or
      location fails before anything is written. On success the new case
      belongs to the requester, points at the new animal, is pending and
      unassigned, and the reply is 201 with its id and a prediction. */
  method SubmitCase(db: Database, userId: nat, animalType: Option<string>, symptoms: Option<string>,
                    age: nat, weight: nat, location: Option<string>, imageUrl: string, now: nat, pick: nat)
      returns (reply: Reply<Submission>)
    requires pick < 5
    modifies db
    ensures animalType.None? || location.None? ==>
              reply == Fail(500, SubmitFailed) && db.State() == old(db.State())
    ensures animalType.Some? && location.Some? ==>
              var animals' := Insert(old(db.animals), Animal(animalType.value, age, weight, location.value));
              (symptoms.None? ==>
                 reply == Fail(500, SubmitFailed) && db.State() == old(db.State()).(animals := animals')) &&
              (symptoms.Some? ==>
                 reply == Ok(201, Submission(old(db.cases).next, AIPrediction(pick))) &&
                 db.State() == old(db.State()).(animals := animals', cases :=
                   Insert(old(db.cases), NewCase(userId, old(db.animals).next, symptoms.value, imageUrl, now))))
  {
    if animalType.None? || location.None? {
      return Fail(500, SubmitFailed);
    }
    var animalId := db.animals.next;
    db.animals := Insert(db.animals, Animal(animalType.value, age, weight, location.value));
    if symptoms.None? {
      return Fail(500, SubmitFailed);
    }
    var caseId := db.cases.next;
    db.cases := Insert(db.cases, NewCase(userId, animalId, symptoms.value, imageUrl, now));
    reply := Ok(201, Submission(caseId, AIPrediction(pick)));
  }

  /** A submitted case is owned by its submitter, linked to an animal that
      exists, pending and unassigned, and carries an image URL. */
  lemma SubmittedCaseShape(t: Tables, userId: nat, animal: Animal, symptoms: string, imageUrl: string, now: nat)
    ensures var animals' := Insert(t.animals, animal);
            var c := NewCase(userId, t.animals.next, symptoms, imageUrl, now);
            c.userId == userId && c.animalId in animals'.rows && animals'.rows[c.animalId] == animal &&
            c.status == CaseStatus.Pending && c.assignedDoctorId.None? && c.imageUrl != "" &&
            (imageUrl != "" ==> c.imageUrl == imageUrl)
  {
  }

  /** A row of the farmer's case list; the left joins leave the animal
      fields and the doctor's user id NULL when there is no match. */
  datatype MyCase = MyCase(
    id: nat, symptoms: string, status: CaseStatus, diseaseName: Option<string>, createdAt: nat,
    animalType: Option<string>, location: Option<string>, doctorUserId: Option<nat>)

  function MyCaseRow(t: Tables, userId: nat, id: nat, c: Case): Option<MyCase> {
    if c.userId == userId then
      var animal := if c.animalId in t.animals.rows then Some(t.animals.rows[c.animalId]) else None;
      var doctor := if c.assignedDoctorId.Some? && c.assignedDoctorId.value in t.doctors.rows
                    then Some(t.doctors.rows[c.assignedDoctorId.value].userId) else None;
      Some(MyCase(id, c.symptoms, c.status, c.diseaseName, c.createdAt,
                  if animal.Some? then Some(animal.value.animalType) else None,
                  if animal.Some? then Some(animal.value.location) else None,
                  doctor))
    else None
  }

  function MyCaseOf(t: Tables, userId: nat): ((nat, Case)) -> Option<MyCase> {
    (p: (nat, Case)) => MyCaseRow(t, userId, p.0, p.1)
  }

  function NewestMyCaseFirst(): (MyCase, MyCase) -> bool {
    (a: MyCase, b: MyCase) => a.createdAt >= b.createdAt
  }

  /** getMyCases: every case of the requester and no other, each once,
      newest first. */
  function MyCases(t: Tables, userId: nat): (r: seq<MyCase>)
    ensures forall y :: y in r ==>
              y.id in t.cases.rows && t.cases.rows[y.id].userId == userId &&
              MyCaseRow(t, userId, y.id, t.cases.rows[y.id]) == Some(y)
    ensures forall id :: id in t.cases.rows && t.cases.rows[id].userId == userId ==>
              MyCaseRow(t, userId, id, t.cases.rows[id]).value in r
    ensures forall i, j :: 0 <= i < j < |r| ==> r[i].id != r[j].id && r[i].createdAt >= r[j].createdAt
  {
    SelectSpecPairs(t.cases, MyCaseOf(t, userId), NewestMyCaseFirst(), (y: MyCase) => y.id);
    Select(t.cases, MyCaseOf(t, userId), NewestMyCaseFirst())
  }

  /** A row of the doctor directory. */
  datatype NearbyDoctor = NearbyDoctor(
    id: nat, name: string, phone: string, specialization: string, rating: int, casesHandled: nat, createdAt: nat)

  function NearbyDoctorRow(t: Tables, id: nat, d: Doctor): Option<NearbyDoctor> {
    if d.status == DoctorStatus.Approved && d.userId in t.users.rows then
      var u := t.users.rows[d.userId];
      Some(NearbyDoctor(id, u.name, u.phone, d.specialization, d.rating, d.casesHandled, d.createdAt))
    else None
  }

  function NearbyDoctorOf(t: Tables): ((nat, Doctor)) -> Option<NearbyDoctor> {
    (p: (nat, Doctor)) => NearbyDoctorRow(t, p.0, p.1)
  }

  function LargerRatingFirst(): (NearbyDoctor, NearbyDoctor) -> bool {
    (a: NearbyDoctor, b: NearbyDoctor) => Abs(a.rating) >= Abs(b.rating)
  }

  /** getNearbyDoctors: exactly the approved doctors, each once, by the
      absolute value of the rating, largest first. */
  function NearbyDoctors(t: Tables): (r: seq<NearbyDoctor>)
    ensures forall y :: y in r ==>
              y.id in t.doctors.rows && t.doctors.rows[y.id].status == DoctorStatus.Approved &&
              NearbyDoctorRow(t, y.id, t.doctors.rows[y.id]) == Some(y)
    ensures forall id :: id in t.doctors.rows && NearbyDoctorRow(t, id, t.doctors.rows[id]).Some? ==>
              NearbyDoctorRow(t, id, t.doctors.rows[id]).value in r
    ensures forall i, j :: 0 <= i < j < |r| ==> r[i].id != r[j].id && Abs(r[i].rating) >= Abs(r[j].rating)
  {
    SelectSpecPairs(t.doctors, NearbyDoctorOf(t), LargerRatingFirst(), (y: NearbyDoctor) => y.id);
    Select(t.doctors, NearbyDoctorOf(t), LargerRatingFirst())
  }

  /** The dashboard shows a subset of the directory: every doctor on the
      dashboard is listed by getNearbyDoctors with the same details. */
  lemma DashboardDoctorsListed(t: Tables)
    ensures forall y :: y in DashboardDoctors(t) ==>
              exists z :: z in NearbyDoctors(t) && z.id == y.id && z.name == y.name && z.rating == y.rating
  {
    forall y | y in DashboardDoctors(t)
      ensures exists z :: z in NearbyDoctors(t) && z.id == y.id && z.name == y.name && z.rating == y.rating
    {
      var z := NearbyDoctorRow(t, y.id, t.doctors.rows[y.id]).value;
      assert z in NearbyDoctors(t);
    }
  }

  /** The profile fields getProfile returns: no password, no role. */
  datatype Profile = Profile(id: nat, name: string, email: string, phone: string, status: AccountStatus, createdAt: nat)

  /** getProfile: the requester's row without its password; when the row is
      gone, `users[0]` is undefined and the reply is 200 with no body. */
  function GetProfile(t: Tables, userId: nat): (r: Reply<Option<Profile>>)
    ensures r.Ok? && r.status == 200
    ensures r.value.Some? <==> userId in t.users.rows
    ensures r.value.Some? ==>
              var u := t.users.rows[userId];
              r.value.value == Profile(userId, u.name, u.email, u.phone, u.status, u.createdAt)
  {
    if userId in t.users.rows then
      var u := t.users.rows[userId];
      Ok(200, Some(Profile(userId, u.name, u.email, u.phone, u.status, u.createdAt)))
    else Ok(200, None)
  }

  /** UPDATE users SET name = ?, phone = ? WHERE id = ?: those two fields of
      that row and nothing else. */
  function ProfileUpdated(users: Table<User>, userId: nat, name: string, phone: string): (r: Table<User>)
    ensures r.next == users.next && r.rows.Keys == users.rows.Keys
    ensures forall id :: id in users.rows && id != userId ==> r.rows[id] == users.rows[id]
    ensures userId in users.rows ==> r.rows[userId] == users.rows[userId].(name := name, phone := phone)
  {
    if userId in users.rows then SetRow(users, userId, users.rows[userId].(name := name, phone := phone)) else users
  }

  /** A profile update never touches credentials: every email, password,
      role and status stays, so emails stay unique. */
  lemma ProfileUpdateKeepsCredentials(users: Table<User>, userId: nat, name: string, phone: string)
    ensures var r := ProfileUpdated(users, userId, name, phone);
            (forall id :: id in users.rows ==>
               r.rows[id].email == users.rows[id].email && r.rows[id].password == users.rows[id].password &&
               r.rows[id].role == users.rows[id].role && r.rows[id].status == users.rows[id].status) &&
            (UniqueEmails(users) ==> UniqueEmails(r))
  {
    var r := ProfileUpdated(users, userId, name, phone);
    assert forall id :: id in users.rows ==> r.rows[id].email == users.rows[id].email;
  }

  const ProfileUpdatedMessage := "Profile updated successfully"
  const ProfileUpdateFailed := "Failed to update profile"

  /** updateProfile: a missing name or phone is 500 with no change; otherwise
      the requester's name and phone are set (nothing, if the row is gone)
      and the reply is 200. */
  method UpdateProfile(db: Database, userId: nat, name: Option<string>, phone: Option<string>) returns (reply: Reply<string>)
    modifies db
    ensures name.None? || phone.None? ==> reply == Fail(500, ProfileUpdateFailed) && db.State() == old(db.State())
    ensures name.Some? && phone.Some? ==>
              reply == Ok(200, ProfileUpdatedMessage) &&
              db.State() == old(db.State()).(users := ProfileUpdated(old(db.users), userId, name.value, phone.value))
  {
    if name.None? || phone.None? {
      return Fail(500, ProfileUpdateFailed);
    }
    db.users := ProfileUpdated(db.users, userId, name.value, phone.value);
    reply := Ok(200, ProfileUpdatedMessage);
  }

  const MessageSent := "Message sent successfully"
  const SendFailed := "Failed to send message"

  /** sendMessage: a missing field is 500 with no change; otherwise one
      messages row is added whose sender is the requester, and the reply is 201. */
  method SendMessage(db: Database, senderId: nat, caseId: Option<nat>, recipientId: Option<nat>, text: Option<string>, now: nat)
      returns (reply: Reply<string>)
    modifies db
    ensures caseId.None? || recipientId.None? || text.None? ==>
              reply == Fail(500, SendFailed) && db.State() == old(db.State())
    ensures caseId.Some? && recipientId.Some? && text.Some? ==>
              reply == Ok(201, MessageSent) &&
              db.State() == old(db.State()).(messages :=
                Insert(old(db.messages), Message(caseId.value, senderId, recipientId.value, text.value, now))) &&
              db.messages.rows[old(db.messages).next].senderId == senderId
  {
    if caseId.None? || recipientId.None? || text.None? {
      return Fail(500, SendFailed);
    }
    db.messages := Insert(db.messages, Message(caseId.value, senderId, recipientId.value, text.value, now));
    reply := Ok(201, MessageSent);
  }

  /** A message of a case's thread, with its sender's name. */
  datatype ThreadMessage = ThreadMessage(id: nat, m: Message, senderName: string)

  function ThreadRow(t: Tables, caseId: nat, id: nat, m: Message): Option<ThreadMessage> {
    if m.caseId == caseId && m.senderId in t.users.rows then
      Some(ThreadMessage(id, m, t.users.rows[m.senderId].name))
    else None
  }

  function ThreadOf(t: Tables, caseId: nat): ((nat, Message)) -> Option<ThreadMessage> {
    (p: (nat, Message)) => ThreadRow(t, caseId, p.0, p.1)
  }

  function OldestFirst(): (ThreadMessage, ThreadMessage) -> bool {
    (a: ThreadMessage, b: ThreadMessage) => a.m.createdAt <= b.m.createdAt
  }

  /** getMessages: every message of the case whose sender exists, each once,
      oldest first. The requester's id is taken but not used, so anyone
      signed in reads any case's thread. */
  function GetMessages(t: Tables, caseId: nat, userId: nat): (r: seq<ThreadMessage>)
    ensures forall y :: y in r ==>
              y.id in t.messages.rows && y.m == t.messages.rows[y.id] && y.m.caseId == caseId &&
              ThreadRow(t, caseId, y.id, y.m) == Some(y)
    ensures forall id :: (id in t.messages.rows && t.messages.rows[id].caseId == caseId &&
                          t.messages.rows[id].senderId in t.users.rows) ==>
              ThreadRow(t, caseId, id, t.messages.rows[id]).value in r
    ensures forall i, j :: 0 <= i < j < |r| ==> r[i].id != r[j].id && r[i].m.createdAt <= r[j].m.createdAt
  {
    SelectSpecPairs(t.messages, ThreadOf(t, caseId), OldestFirst(), (y: ThreadMessage) => y.id);
    Select(t.messages, ThreadOf(t, caseId), OldestFirst())
  }

  /** Two different requesters see the same thread. */
  lemma MessagesIgnoreRequester(t: Tables, caseId: nat, a: nat, b: nat)
    ensures GetMessages(t, caseId, a) == GetMessages(t, caseId, b)
  {
  }

  /** A message just sent by the requester shows in its case's thread when
      the requester's users row exists. */
  lemma SentMessageInThread(t: Tables, senderId: nat, caseId: nat, recipientId: nat, text: string, now: nat, reader: nat)
    requires senderId in t.users.rows
    ensures var t' := t.(messages := Insert(t.messages, Message(caseId, senderId, recipientId, text, now)));
            exists y :: y in GetMessages(t', caseId, reader) && y.id == t.messages.next && y.m.senderId == senderId
  {
    var t' := t.(messages := Insert(t.messages, Message(caseId, senderId, recipientId, text, now)));
    var y := ThreadRow(t', caseId, t.messages.next, t'.messages.rows[t.messages.next]).value;
    assert y in GetMessages(t', caseId, reader);
  }
}
