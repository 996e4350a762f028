/** The doctor's case list (client/src/components/Doctor/MyCases.jsx): a fixed
    list filtered by a search term, three counters, the status badge and the
    severity colour. */
module DoctorCasesScreen {
  import opened Relational
  import opened Text

  datatype CaseCard = CaseCard(
    id: int, caseId: string, patient: string, animal: string, disease: string,
    status: string, date: string, severity: string)

  const InProgress := "in-progress"
  const Pending := "pending"
  const Resolved := "resolved"

  /** The list the screen shows. */
  function SeededCases(): seq<CaseCard> {
    [CaseCard(1, "CASE-001", "Farmer Singh", "Cow", "Foot and Mouth Disease", InProgress, "2024-01-15", "high"),
     CaseCard(2, "CASE-002", "Rajesh Patel", "Buffalo", "Mastitis", Pending, "2024-01-18", "medium"),
     CaseCard(3, "CASE-003", "Priya Sharma", "Goat", "Pneumonia", Resolved, "2024-01-10", "high"),
     CaseCard(4, "CASE-004", "Amit Kumar", "Chicken", "Coccidiosis", InProgress, "2024-01-16", "low")]
  }

  /** The search term occurs, ignoring case, in the patient or the case id. */
  predicate MatchesCase(c: CaseCard, searchTerm: string) {
    MatchesFolded(c.patient, searchTerm) || MatchesFolded(c.caseId, searchTerm)
  }

  function Matching(searchTerm: string): CaseCard -> bool {
    (c: CaseCard) => MatchesCase(c, searchTerm)
  }

  /** filteredCases: exactly the cases whose patient or case id contains the
      term, ignoring case, in their order. */
  function FilteredCases(cases: seq<CaseCard>, searchTerm: string): (r: seq<CaseCard>)
    ensures forall c :: c in r <==> c in cases && MatchesCase(c, searchTerm)
    ensures forall c :: multiset(r)[c] == if MatchesCase(c, searchTerm) then multiset(cases)[c] else 0
    ensures IsSubseq(r, cases)
  {
    FilterIsSubseq(cases, Matching(searchTerm));
    FilterMultiset(cases, Matching(searchTerm));
    Filter(cases, Matching(searchTerm))
  }

  /** An empty search keeps every case, in order. */
  lemma EmptySearchKeepsAll(cases: seq<CaseCard>)
    ensures FilteredCases(cases, "") == cases
  {
    forall c | c in cases ensures Matching("")(c) {
      MatchesFoldedEmpty(c.patient);
    }
    FilterKeepsAll(cases, Matching(""));
  }

  function WithStatus(status: string): CaseCard -> bool {
    (c: CaseCard) => c.status == status
  }

  /** The three counters: total, in progress and resolved. */
  datatype Counters = Counters(total: nat, inProgress: nat, resolved: nat)

  /** `cases.length` and the two `cases.filter(...).length` counters: the
      in-progress and resolved counts never add up to more than the total. */
  function CaseCounters(cases: seq<CaseCard>): (r: Counters)
    ensures r.total == |cases|
    ensures r.inProgress == |Filter(cases, WithStatus(InProgress))|
    ensures r.resolved == |Filter(cases, WithStatus(Resolved))|
    ensures r.inProgress + r.resolved <= r.total
  {
    FilterDisjoint(cases, WithStatus(InProgress), WithStatus(Resolved));
    Counters(|cases|, |Filter(cases, WithStatus(InProgress))|, |Filter(cases, WithStatus(Resolved))|)
  }

  datatype BadgeIcon = ClockIcon | AlertIcon | CheckIcon

  /** A status badge: background and text colour classes, icon and label. */
  datatype Badge = Badge(bg: string, text: string, icon: BadgeIcon, caption: string)

  /** getStatusBadge: the three known statuses have a badge; any other status
      finds no entry in the table, and rendering it fails (`badge.icon` of
      undefined). The label is the status with its first '-' replaced by a
      space. */
  function StatusBadge(status: string): (r: Option<Badge>)
    ensures r.Some? <==> status == Pending || status == InProgress || status == Resolved
    ensures r.Some? ==> r.value.caption == ReplaceFirst(status, '-', ' ')
  {
    var caption := ReplaceFirst(status, '-', ' ');
    if status == Pending then Some(Badge("bg-yellow-100", "text-yellow-800", ClockIcon, caption))
    else if status == InProgress then Some(Badge("bg-blue-100", "text-blue-800", AlertIcon, caption))
    else if status == Resolved then Some(Badge("bg-green-100", "text-green-800", CheckIcon, caption))
    else None
  }

  /** "in-progress" is shown as "in progress". */
  lemma BadgeLabels()
    ensures StatusBadge(InProgress).value.caption == "in progress"
  {
    InProgressWords();
    ReplaceFirstAfter("in", '-', ' ', "progress");
  }

  /** The in-progress status and its caption, each split around its
      separator. */
  lemma InProgressWords()
    ensures InProgress == "in" + ['-'] + "progress"
    ensures "in" + [' '] + "progress" == "in progress"
  {
  }

  /** The statuses without a hyphen are shown as they are. */
  lemma PlainBadgeLabels()
    ensures StatusBadge(Pending).value.caption == Pending
    ensures StatusBadge(Resolved).value.caption == Resolved
  {
    assert '-' !in Pending && '-' !in Resolved;
  }

  /** The three badges are told apart by their icon. */
  lemma BadgeIconsDistinct(a: string, b: string)
    requires StatusBadge(a).Some? && StatusBadge(b).Some? && a != b
    ensures StatusBadge(a).value.icon != StatusBadge(b).value.icon
  {
  }

  /** getSeverityColor: low, medium and high are green, yellow and red; any
      other severity has no colour (undefined). */
  function SeverityColor(severity: string): (r: Option<string>)
    ensures r.Some? <==> severity == "low" || severity == "medium" || severity == "high"
    ensures severity == "low" ==> r == Some("text-green-600")
    ensures severity == "medium" ==> r == Some("text-yellow-600")
    ensures severity == "high" ==> r == Some("text-red-600")
  {
    if severity == "low" then Some("text-green-600")
    else if severity == "medium" then Some("text-yellow-600")
    else if severity == "high" then Some("text-red-600")
    else None
  }

  /** Different severities never share a colour. */
  lemma SeverityColorsDistinct(a: string, b: string)
    requires SeverityColor(a).Some? && SeverityColor(b).Some? && a != b
    ensures SeverityColor(a) != SeverityColor(b)
  {
  }

  /** Every seeded case renders: its status has a badge and its severity a colour. */
  lemma SeededCasesRender()
    ensures forall c :: c in SeededCases() ==> StatusBadge(c.status).Some? && SeverityColor(c.severity).Some?
  {
  }
}
