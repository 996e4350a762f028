/** The doctor's profile screen (client/src/components/Doctor/Profile.jsx): the
    saved profile, an edit buffer and the edit-mode flag, changed by the
    header button, the inputs, Save and Cancel. */
module DoctorProfileScreen {
  import opened Text

  datatype DoctorProfile = DoctorProfile(
    name: string, email: string, phone: string, specialization: string, licenseNumber: string,
    experience: string, location: string, about: string, rating: real, casesHandled: nat, successRate: nat)

  const Experience := "8 years"
  const Rating: real := 4.8
  const CasesHandled: nat := 156
  const SuccessRate: nat := 92
  const DefaultName := "Dr. Rajesh Kumar"
  const DefaultEmail := "doctor@pashudrishti.com"
  const About := "Experienced veterinarian with a passion for helping animals and farmers. Specialized in treating livestock diseases and providing quality healthcare to animals."

  /** The initial profile; name and email come from the stored session user
      (`user.name || ...`, the empty string standing for a missing value). */
  function InitialProfile(storedName: string, storedEmail: string): (p: DoctorProfile)
    ensures storedName != "" ==> p.name == storedName
    ensures storedEmail != "" ==> p.email == storedEmail
  {
    DoctorProfile(OrDefault(storedName, DefaultName), OrDefault(storedEmail, DefaultEmail),
                  "+91 9988888888", "General Veterinary Medicine", "LIC-2024-001", Experience, "Delhi, India",
                  About, Rating, CasesHandled, SuccessRate)
  }

  /** The fields that have an input; experience, rating, casesHandled and
      successRate have none. */
  datatype EditableField = Name | Specialization | Email | Phone | Location | LicenseNumber | About

  function Get(p: DoctorProfile, field: EditableField): string {
    match field
    case Name => p.name
    case Specialization => p.specialization
    case Email => p.email
    case Phone => p.phone
    case Location => p.location
    case LicenseNumber => p.licenseNumber
    case About => p.about
  }

  /** `setEditData({ ...editData, field: value })`: the field holds the value;
      every other field, the four statistics included, keeps its own. */
  function WithEdit(p: DoctorProfile, field: EditableField, value: string): (r: DoctorProfile)
    ensures Get(r, field) == value
    ensures forall other :: other != field ==> Get(r, other) == Get(p, other)
    ensures r.experience == p.experience && r.rating == p.rating &&
            r.casesHandled == p.casesHandled && r.successRate == p.successRate
  {
    match field
    case Name => p.(name := value)
    case Specialization => p.(specialization := value)
    case Email => p.(email := value)
    case Phone => p.(phone := value)
    case Location => p.(location := value)
    case LicenseNumber => p.(licenseNumber := value)
    case About => p.(about := value)
  }

  /** The fields without an input hold their initial values. */
  predicate StatisticsKept(p: DoctorProfile) {
    p.experience == Experience && p.rating == Rating && p.casesHandled == CasesHandled && p.successRate == SuccessRate
  }

  class Screen {
    var isEditing: bool
    var profile: DoctorProfile
    var editData: DoctorProfile

    /** Neither record ever changes its four statistics. Unlike the farmer's
        screen, the buffer may differ from the profile outside edit mode. */
    predicate Valid()
      reads this
    {
      StatisticsKept(profile) && StatisticsKept(editData)
    }

    constructor (storedName: string, storedEmail: string)
      ensures Valid()
      ensures !isEditing && profile == InitialProfile(storedName, storedEmail) && editData == profile
    {
      isEditing := false;
      profile := InitialProfile(storedName, storedEmail);
      editData := profile;
    }

    /** The header button ("Edit Profile", or "Cancel" while editing): only
        the flag flips, so unsaved edits stay in the buffer. */
    method ToggleEditing()
      requires Valid()
      modifies this
      ensures Valid()
      ensures isEditing == !old(isEditing) && profile == old(profile) && editData == old(editData)
    {
      isEditing := !isEditing;
    }

    /** An input's onChange, shown only in edit mode: one field of the buffer
        changes, never the profile. */
    method EditField(field: EditableField, value: string)
      requires Valid() && isEditing
      modifies this
      ensures Valid()
      ensures editData == WithEdit(old(editData), field, value)
      ensures profile == old(profile) && isEditing
    {
      editData := WithEdit(editData, field, value);
    }

    /** handleSave: the buffer becomes the profile and edit mode ends. */
    method HandleSave()
      requires Valid()
      modifies this
      ensures Valid()
      ensures profile == old(editData) && editData == old(editData) && !isEditing
    {
      profile := editData;
      isEditing := false;
    }

    /** handleCancel (the button under the form): the buffer is reset to the
        profile, which stays, and edit mode ends. */
    method HandleCancel()
      requires Valid()
      modifies this
      ensures Valid()
      ensures editData == old(profile) && profile == old(profile) && !isEditing
    {
      editData := profile;
      isEditing := false;
    }
  }

  /** Leaving edit mode through the header button keeps an unsaved edit: on
      re-entering, the buffer still holds it while the profile never got it. */
  method HeaderCancelKeepsEdit(s: Screen, field: EditableField, value: string)
    requires s.Valid() && !s.isEditing
    modifies s
    ensures s.Valid() && s.isEditing
    ensures s.profile == old(s.profile)
    ensures Get(s.editData, field) == value
  {
    s.ToggleEditing();
    s.EditField(field, value);
    s.ToggleEditing();
    s.ToggleEditing();
  }

  /** The footer Cancel discards the same edit. */
  method FooterCancelDiscardsEdit(s: Screen, field: EditableField, value: string)
    requires s.Valid() && !s.isEditing
    modifies s
    ensures s.Valid() && !s.isEditing
    ensures s.profile == old(s.profile) && s.editData == old(s.profile)
  {
    s.ToggleEditing();
    s.EditField(field, value);
    s.HandleCancel();
  }
}
