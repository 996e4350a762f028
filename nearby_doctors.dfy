/** The farmer's veterinarian finder (client/src/components/User/NearbyDoctors.jsx):
    a fixed directory filtered by a free-text search and a specialty choice. */
module NearbyDoctorsScreen {
  import opened Relational
  import opened Text

  datatype ListedDoctor = ListedDoctor(
    id: int, name: string, specialty: string, experience: string, location: string,
    distance: string, rating: real, reviews: nat, phone: string, email: string, availability: string)

  /** The directory the screen shows (photos left out). */
  function Directory(): seq<ListedDoctor> {
    [ListedDoctor(1, "Dr. Rajesh Kumar", "Large Animal Specialist", "12 years", "Indore, MP", "2.5 km", 4.8, 156,
                  "+91 9876543210", "rajesh.kumar@vetclinic.com", "Mon - Sat"),
     ListedDoctor(2, "Dr. Priya Singh", "Dairy & Cattle Expert", "10 years", "Indore, MP", "3.8 km", 4.9, 203,
                  "+91 9876543211", "priya.singh@vetclinic.com", "Mon - Sun"),
     ListedDoctor(3, "Dr. Amit Patel", "Poultry & Small Animals", "8 years", "Indore, MP", "4.2 km", 4.7, 89,
                  "+91 9876543212", "amit.patel@vetclinic.com", "Tue - Sat"),
     ListedDoctor(4, "Dr. Sarah Johnson", "Emergency Veterinary Care", "15 years", "Indore, MP", "5.1 km", 4.9, 342,
                  "+91 9876543213", "sarah.johnson@vetclinic.com", "24/7")]
  }

  const AllSpecialties := "all"

  /** The choices of the specialty dropdown. */
  function Specialties(): seq<string> {
    [AllSpecialties, "Large Animal Specialist", "Dairy & Cattle Expert", "Poultry & Small Animals", "Emergency Veterinary Care"]
  }

  /** Every doctor of the directory can be picked out by some specialty choice. */
  lemma DirectorySpecialtiesOffered()
    ensures forall d :: d in Directory() ==> d.specialty in Specialties()
  {
  }

  /** The search term occurs, ignoring case, in the name, the specialty or the location. */
  predicate MatchesSearch(d: ListedDoctor, searchTerm: string) {
    MatchesFolded(d.name, searchTerm) || MatchesFolded(d.specialty, searchTerm) || MatchesFolded(d.location, searchTerm)
  }

  predicate MatchesSpecialty(d: ListedDoctor, filterSpecialty: string) {
    filterSpecialty == AllSpecialties || d.specialty == filterSpecialty
  }

  function Shown(searchTerm: string, filterSpecialty: string): ListedDoctor -> bool {
    (d: ListedDoctor) => MatchesSearch(d, searchTerm) && MatchesSpecialty(d, filterSpecialty)
  }

  /** filteredDoctors: a doctor stays exactly when the search matches its
      name, specialty or location and the specialty choice is 'all' or its
      own specialty, and the kept doctors keep their order. */
  function FilteredDoctors(doctors: seq<ListedDoctor>, searchTerm: string, filterSpecialty: string): (r: seq<ListedDoctor>)
    ensures forall d :: d in r <==> d in doctors && MatchesSearch(d, searchTerm) && MatchesSpecialty(d, filterSpecialty)
    ensures forall d :: multiset(r)[d] ==
              if MatchesSearch(d, searchTerm) && MatchesSpecialty(d, filterSpecialty) then multiset(doctors)[d] else 0
    ensures IsSubseq(r, doctors)
  {
    FilterIsSubseq(doctors, Shown(searchTerm, filterSpecialty));
    FilterMultiset(doctors, Shown(searchTerm, filterSpecialty));
    Filter(doctors, Shown(searchTerm, filterSpecialty))
  }

  /** With an empty search and 'all', every doctor is shown, in order. */
  lemma UnfilteredShowsAll(doctors: seq<ListedDoctor>)
    ensures FilteredDoctors(doctors, "", AllSpecialties) == doctors
  {
    forall d | d in doctors ensures Shown("", AllSpecialties)(d) {
      MatchesFoldedEmpty(d.name);
    }
    FilterKeepsAll(doctors, Shown("", AllSpecialties));
  }

  /** A specialty other than 'all' keeps only doctors of exactly that specialty. */
  lemma SpecialtyIsExact(doctors: seq<ListedDoctor>, searchTerm: string, filterSpecialty: string)
    requires filterSpecialty != AllSpecialties
    ensures forall d :: d in FilteredDoctors(doctors, searchTerm, filterSpecialty) ==> d.specialty == filterSpecialty
  {
  }

  /** Typing more (the new term contains the old one) can only remove
      doctors from the list, never add or reorder them. */
  lemma LongerSearchNarrows(doctors: seq<ListedDoctor>, shorter: string, longer: string, filterSpecialty: string)
    requires Contains(longer, shorter)
    ensures IsSubseq(FilteredDoctors(doctors, longer, filterSpecialty), FilteredDoctors(doctors, shorter, filterSpecialty))
  {
    forall d | Shown(longer, filterSpecialty)(d) ensures Shown(shorter, filterSpecialty)(d) {
      if MatchesFolded(d.name, longer) {
        MatchesFoldedNarrows(d.name, shorter, longer);
      } else if MatchesFolded(d.specialty, longer) {
        MatchesFoldedNarrows(d.specialty, shorter, longer);
      } else {
        MatchesFoldedNarrows(d.location, shorter, longer);
      }
    }
    FilterStronger(doctors, Shown(longer, filterSpecialty), Shown(shorter, filterSpecialty));
  }

  /** "indore" matches "Indore, MP" although the case differs. */
  lemma IndoreMatchesFolded()
    ensures MatchesFolded("Indore, MP", "indore")
  {
    MatchesFoldedPrefix("Indore, MP", "indore");
  }

  /** Searching ignores case: two terms that lower-case alike give the same
      list, in the same order. */
  lemma SearchIgnoresCase(doctors: seq<ListedDoctor>, a: string, b: string, filterSpecialty: string)
    requires Lower(a) == Lower(b)
    ensures FilteredDoctors(doctors, a, filterSpecialty) == FilteredDoctors(doctors, b, filterSpecialty)
  {
    FilterAgree(doctors, Shown(a, filterSpecialty), Shown(b, filterSpecialty));
  }

  /** In particular, a term gives the same list as its lower-cased form. */
  lemma SearchAsLowered(doctors: seq<ListedDoctor>, searchTerm: string, filterSpecialty: string)
    ensures FilteredDoctors(doctors, searchTerm, filterSpecialty) == FilteredDoctors(doctors, Lower(searchTerm), filterSpecialty)
  {
    LowerIdempotent(searchTerm);
    SearchIgnoresCase(doctors, searchTerm, Lower(searchTerm), filterSpecialty);
  }

  /** An example: the term "indore" finds every doctor located in
      "Indore, MP", whose capital I it does not share. */
  lemma IndoreFindsAll(doctors: seq<ListedDoctor>)
    requires forall d :: d in doctors ==> d.location == "Indore, MP"
    ensures FilteredDoctors(doctors, "indore", AllSpecialties) == doctors
  {
    forall d | d in doctors ensures Shown("indore", AllSpecialties)(d) {
      IndoreDoctorShown(d);
    }
    FilterKeepsAll(doctors, Shown("indore", AllSpecialties));
  }

  lemma IndoreDoctorShown(d: ListedDoctor)
    requires d.location == "Indore, MP"
    ensures Shown("indore", AllSpecialties)(d)
  {
    IndoreMatchesFolded();
  }

  /** So "indore" keeps the whole directory. */
  lemma IndoreFindsDirectory()
    ensures FilteredDoctors(Directory(), "indore", AllSpecialties) == Directory()
  {
    assert forall d :: d in Directory() ==> d.location == "Indore, MP";
    IndoreFindsAll(Directory());
  }
}
