/** The doctor's appointment list (client/src/components/Doctor/Appointments.jsx):
    a list held in component state that Approve and Cancel replace, and the
    two status partitions the screen renders. */
module AppointmentsScreen {
  import opened Relational

  datatype Appointment = Appointment(
    id: int, farmerId: string, farmerName: string, date: string, time: string,
    animal: string, location: string, contact: string, status: string)

  const Scheduled := "scheduled"
  const Completed := "completed"

  /** The list the screen starts with. */
  function SeededAppointments(): seq<Appointment> {
    [Appointment(1, "FARM-001", "Farmer Singh", "2024-02-20", "10:00 AM", "Cow", "123 Village Road, Districts", "9876543210", Scheduled),
     Appointment(2, "FARM-002", "Rajesh Patel", "2024-02-20", "2:00 PM", "Buffalo", "456 Farm Lane, Districts", "9876543211", Scheduled),
     Appointment(3, "FARM-003", "Priya Sharma", "2024-02-21", "11:00 AM", "Goat", "789 Green Field, Districts", "9876543212", Completed)]
  }

  /** `appointments.map(apt => apt.id === id ? {...apt, status: 'completed'} : apt)`:
      the same length and order, the entries with this id completed and every
      other entry untouched. */
  function Approved(s: seq<Appointment>, id: int): (r: seq<Appointment>)
    ensures |r| == |s|
    ensures forall i :: 0 <= i < |s| && s[i].id == id ==> r[i] == s[i].(status := Completed)
    ensures forall i :: 0 <= i < |s| && s[i].id != id ==> r[i] == s[i]
  {
    if s == [] then []
    else [if s[0].id == id then s[0].(status := Completed) else s[0]] + Approved(s[1..], id)
  }

  function Keeps(id: int): Appointment -> bool {
    (a: Appointment) => a.id != id
  }

  /** `appointments.filter(apt => apt.id !== id)`: exactly the entries with
      another id, in their order. */
  function Cancelled(s: seq<Appointment>, id: int): (r: seq<Appointment>)
    ensures forall a :: a in r <==> a in s && a.id != id
    ensures forall a :: multiset(r)[a] == if a.id != id then multiset(s)[a] else 0
    ensures IsSubseq(r, s)
  {
    FilterIsSubseq(s, Keeps(id));
    FilterMultiset(s, Keeps(id));
    Filter(s, Keeps(id))
  }

  function HasStatus(status: string): Appointment -> bool {
    (a: Appointment) => a.status == status
  }

  /** The entries shown under "Upcoming". */
  function Upcoming(s: seq<Appointment>): (r: seq<Appointment>)
    ensures forall a :: a in r <==> a in s && a.status == Scheduled
    ensures forall a :: multiset(r)[a] == if a.status == Scheduled then multiset(s)[a] else 0
    ensures IsSubseq(r, s)
  {
    FilterIsSubseq(s, HasStatus(Scheduled));
    FilterMultiset(s, HasStatus(Scheduled));
    Filter(s, HasStatus(Scheduled))
  }

  /** The entries shown under "Completed". */
  function CompletedOnes(s: seq<Appointment>): (r: seq<Appointment>)
    ensures forall a :: a in r <==> a in s && a.status == Completed
    ensures forall a :: multiset(r)[a] == if a.status == Completed then multiset(s)[a] else 0
    ensures IsSubseq(r, s)
  {
    FilterIsSubseq(s, HasStatus(Completed));
    FilterMultiset(s, HasStatus(Completed));
    Filter(s, HasStatus(Completed))
  }

  /** No entry is both upcoming and completed, so the two lists together
      show at most the whole list. */
  lemma PartitionsDisjoint(s: seq<Appointment>)
    ensures forall a :: !(a in Upcoming(s) && a in CompletedOnes(s))
    ensures |Upcoming(s)| + |CompletedOnes(s)| <= |s|
  {
    FilterDisjoint(s, HasStatus(Scheduled), HasStatus(Completed));
  }

  /** Approving or cancelling an id that is not in the list changes nothing. */
  lemma {:induction false} UnknownIdUnchanged(s: seq<Appointment>, id: int)
    requires forall a :: a in s ==> a.id != id
    ensures Approved(s, id) == s
    ensures Cancelled(s, id) == s
  {
    FilterKeepsAll(s, Keeps(id));
  }

  /** Approving twice is approving once. */
  lemma ApproveIdempotent(s: seq<Appointment>, id: int)
    ensures Approved(Approved(s, id), id) == Approved(s, id)
  {
  }

  /** Approving a scheduled entry takes every entry with that id out of
      Upcoming and shows the entry, completed, under Completed. */
  lemma ApproveMovesToCompleted(s: seq<Appointment>, i: nat)
    requires i < |s| && s[i].status == Scheduled
    ensures var r := Approved(s, s[i].id);
            s[i] in Upcoming(s) &&
            s[i].(status := Completed) in CompletedOnes(r) &&
            forall a :: a in Upcoming(r) ==> a.id != s[i].id
  {
    var id := s[i].id;
    var r := Approved(s, id);
    assert r[i] == s[i].(status := Completed);
    assert r[i] in r;
    forall k | 0 <= k < |r| && r[k].id == id ensures r[k].status == Completed {
      assert s[k].id == id;
    }
    NotUpcoming(r, id);
  }

  /** When every entry with the id is completed, none of them is upcoming. */
  lemma NotUpcoming(r: seq<Appointment>, id: int)
    requires forall k :: 0 <= k < |r| && r[k].id == id ==> r[k].status == Completed
    ensures forall a :: a in Upcoming(r) ==> a.id != id
  {
    StatusesDiffer();
    forall a | a in Upcoming(r) ensures a.id != id {
      var k :| 0 <= k < |r| && r[k] == a;
    }
  }

  lemma StatusesDiffer()
    ensures Scheduled != Completed
  {
  }

  /** The screen's state: the list held in component state. */
  class Screen {
    var appointments: seq<Appointment>

    constructor ()
      ensures appointments == SeededAppointments()
    {
      appointments := SeededAppointments();
    }

    /** handleApprove. */
    method Approve(id: int)
      modifies this
      ensures appointments == Approved(old(appointments), id)
    {
      appointments := Approved(appointments, id);
    }

    /** handleCancel. */
    method Cancel(id: int)
      modifies this
      ensures appointments == Cancelled(old(appointments), id)
    {
      appointments := Cancelled(appointments, id);
    }
  }
}
