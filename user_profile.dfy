/** The farmer's profile screen (client/src/components/User/Profile.jsx): the
    saved profile, an edit buffer and the edit-mode flag, changed by the
    Edit button, the inputs, Save and Cancel. */
module FarmerProfileScreen {

  /** The profile record. animalCount is kept as the text the number input
      yields. */
  datatype FarmerProfile = FarmerProfile(
    name: string, email: string, phone: string, location: string, farmName: string,
    farmSize: string, animalCount: string, primaryAnimals: string, experience: string,
    registrationDate: string, avatar: string)

  const RegistrationDate := "2024-01-15"
  const Avatar := "https://images.unsplash.com/photo-1507003211169-0a1dd7228f2d?w=400&h=400&fit=crop"

  function InitialProfile(): FarmerProfile {
    FarmerProfile("Ramesh Patel", "ramesh.patel@email.com", "+91 9876543210", "Indore, Madhya Pradesh",
                  "Patel Dairy Farms", "25 acres", "45", "Cattle, Buffalo, Goats", "8 years", RegistrationDate, Avatar)
  }

  /** The fields that have an input in edit mode; registrationDate and avatar
      have none. */
  datatype EditableField = Name | FarmName | Location | Email | Phone | FarmSize | AnimalCount | PrimaryAnimals | Experience

  function Get(p: FarmerProfile, field: EditableField): string {
    match field
    case Name => p.name
    case FarmName => p.farmName
    case Location => p.location
    case Email => p.email
    case Phone => p.phone
    case FarmSize => p.farmSize
    case AnimalCount => p.animalCount
    case PrimaryAnimals => p.primaryAnimals
    case Experience => p.experience
  }

  /** `{ ...editFormData, [name]: value }`: the named field holds the value;
      every other field, registrationDate and avatar included, keeps its own. */
  function WithEdit(p: FarmerProfile, field: EditableField, value: string): (r: FarmerProfile)
    ensures Get(r, field) == value
    ensures forall other :: other != field ==> Get(r, other) == Get(p, other)
    ensures r.registrationDate == p.registrationDate && r.avatar == p.avatar
  {
    match field
    case Name => p.(name := value)
    case FarmName => p.(farmName := value)
    case Location => p.(location := value)
    case Email => p.(email := value)
    case Phone => p.(phone := value)
    case FarmSize => p.(farmSize := value)
    case AnimalCount => p.(animalCount := value)
    case PrimaryAnimals => p.(primaryAnimals := value)
    case Experience => p.(experience := value)
  }

  /** Editing a field back to the value it had restores the record. */
  lemma EditBackRestores(p: FarmerProfile, field: EditableField, value: string)
    ensures WithEdit(WithEdit(p, field, value), field, Get(p, field)) == p
  {
  }

  class Screen {
    var isEditing: bool
    var profile: FarmerProfile
    var editFormData: FarmerProfile

    /** Outside edit mode the buffer shows the saved profile, and neither
        record ever changes its registration date or avatar. */
    predicate Valid()
      reads this
    {
      (!isEditing ==> editFormData == profile) &&
      profile.registrationDate == RegistrationDate && profile.avatar == Avatar &&
      editFormData.registrationDate == RegistrationDate && editFormData.avatar == Avatar
    }

    constructor ()
      ensures Valid()
      ensures !isEditing && profile == InitialProfile() && editFormData == InitialProfile()
    {
      isEditing := false;
      profile := InitialProfile();
      editFormData := InitialProfile();
    }

    /** The Edit button: only the flag changes. */
    method StartEditing()
      requires Valid()
      modifies this
      ensures Valid()
      ensures isEditing && profile == old(profile) && editFormData == old(editFormData)
    {
      isEditing := true;
    }

    /** handleEditChange, reachable only through an input, which is shown
        only in edit mode: one field of the buffer changes, never the profile. */
    method HandleEditChange(field: EditableField, value: string)
      requires Valid() && isEditing
      modifies this
      ensures Valid()
      ensures editFormData == WithEdit(old(editFormData), field, value)
      ensures profile == old(profile) && isEditing
    {
      editFormData := WithEdit(editFormData, field, value);
    }

    /** handleSave: the buffer becomes the profile and edit mode ends. */
    method HandleSave()
      requires Valid()
      modifies this
      ensures Valid()
      ensures profile == old(editFormData) && editFormData == old(editFormData) && !isEditing
    {
      profile := editFormData;
      isEditing := false;
    }

    /** handleCancel: the buffer is reset to the profile, which stays, and
        edit mode ends. */
    method HandleCancel()
      requires Valid()
      modifies this
      ensures Valid()
      ensures editFormData == old(profile) && profile == old(profile) && !isEditing
    {
      editFormData := profile;
      isEditing := false;
    }
  }

  /** Editing and then cancelling leaves the screen exactly as it was before
      editing began. */
  method EditThenCancel(s: Screen, field: EditableField, value: string)
    requires s.Valid() && !s.isEditing
    modifies s
    ensures s.Valid()
    ensures s.profile == old(s.profile) && s.editFormData == old(s.editFormData) && !s.isEditing
  {
    s.StartEditing();
    s.HandleEditChange(field, value);
    s.HandleCancel();
  }

  /** Editing one field and saving changes exactly that field of the profile. */
  method EditThenSave(s: Screen, field: EditableField, value: string)
    requires s.Valid() && !s.isEditing
    modifies s
    ensures s.Valid() && !s.isEditing
    ensures s.profile == WithEdit(old(s.profile), field, value)
  {
    s.StartEditing();
    s.HandleEditChange(field, value);
    s.HandleSave();
  }
}
