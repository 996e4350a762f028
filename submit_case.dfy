/** The farmer's case submission form (client/src/components/User/SubmitCase.jsx).
    The component's state is a class; each handler and each of the two
    timer callbacks is a method, and the timers themselves are left to the
    caller, which runs SubmissionCompleted and then FormReset in order. */
module SubmitCaseForm {
  import opened Relational

  datatype Field = AnimalType | Breed | Age | Weight | Symptoms | Duration | Notes

  datatype FormData = FormData(
    animalType: string, breed: string, age: string, weight: string,
    symptoms: string, duration: string, notes: string)

  /** Every field empty, as on mount and after the reset. */
  function EmptyForm(): FormData {
    FormData("", "", "", "", "", "", "")
  }

  /** `formData[name]`. */
  function Get(f: FormData, field: Field): string {
    match field
    case AnimalType => f.animalType
    case Breed => f.breed
    case Age => f.age
    case Weight => f.weight
    case Symptoms => f.symptoms
    case Duration => f.duration
    case Notes => f.notes
  }

  /** `{ ...prev, [name]: value }`: the named field holds the value and every
      other field keeps its own. */
  function WithField(f: FormData, field: Field, value: string): (r: FormData)
    ensures Get(r, field) == value
    ensures forall other :: other != field ==> Get(r, other) == Get(f, other)
  {
    match field
    case AnimalType => f.(animalType := value)
    case Breed => f.(breed := value)
    case Age => f.(age := value)
    case Weight => f.(weight := value)
    case Symptoms => f.(symptoms := value)
    case Duration => f.(duration := value)
    case Notes => f.(notes := value)
  }

  /** The outcome of handleSubmit's two checks. */
  datatype Verdict = MissingFields | MissingImage | Accepted

  /** The toast each refusal shows. */
  function RefusalToast(v: Verdict): string {
    match v
    case MissingFields => "Please fill all required fields"
    case MissingImage => "Please upload an image of the animal"
    case Accepted => ""
  }

  /** The four required fields are non-empty (JavaScript's `!''` is true). */
  predicate RequiredFilled(f: FormData) {
    f.animalType != "" && f.symptoms != "" && f.age != "" && f.weight != ""
  }

  /** `imagePreview` is truthy: present and not the empty string. */
  predicate HasImage(imagePreview: Option<string>) {
    imagePreview.Some? && imagePreview.value != ""
  }

  /** handleSubmit's checks: the required fields are checked first, then the
      image. */
  function Validate(f: FormData, imagePreview: Option<string>): (v: Verdict)
    ensures v == MissingFields <==> !RequiredFilled(f)
    ensures v == MissingImage <==> RequiredFilled(f) && !HasImage(imagePreview)
    ensures v == Accepted <==> RequiredFilled(f) && HasImage(imagePreview)
  {
    if f.animalType == "" || f.symptoms == "" || f.age == "" || f.weight == "" then MissingFields
    else if !HasImage(imagePreview) then MissingImage
    else Accepted
  }

  /** Breed, duration and notes never change the verdict. */
  lemma OptionalFieldsIrrelevant(f: FormData, imagePreview: Option<string>, breed: string, duration: string, notes: string)
    ensures Validate(f.(breed := breed, duration := duration, notes := notes), imagePreview) == Validate(f, imagePreview)
  {
  }

  /** With a required field missing the image is never looked at. */
  lemma FieldsCheckedFirst(f: FormData, p1: Option<string>, p2: Option<string>)
    requires !RequiredFilled(f)
    ensures Validate(f, p1) == Validate(f, p2) == MissingFields
  {
  }

  /** A reset form is refused until it is filled in again. */
  lemma ResetFormRefused(imagePreview: Option<string>)
    ensures Validate(EmptyForm(), imagePreview) == MissingFields
  {
  }

  /** Changes to two different fields can be made in either order. */
  lemma ChangesCommute(f: FormData, a: Field, va: string, b: Field, vb: string)
    requires a != b
    ensures WithField(WithField(f, a, va), b, vb) == WithField(WithField(f, b, vb), a, va)
  {
  }

  class Form {
    var formData: FormData
    var imagePreview: Option<string>
    var submitted: bool
    var loading: bool

    constructor ()
      ensures formData == EmptyForm() && imagePreview == None && !submitted && !loading
    {
      formData := EmptyForm();
      imagePreview := None;
      submitted := false;
      loading := false;
    }

    /** handleChange: only the named field of formData changes. */
    method HandleChange(field: Field, value: string)
      modifies this
      ensures formData == WithField(old(formData), field, value)
      ensures imagePreview == old(imagePreview) && submitted == old(submitted) && loading == old(loading)
    {
      formData := WithField(formData, field, value);
    }

    /** handleImageChange followed by the reader's `onloadend`: a chosen file
        (given here as the data URL the reader produces) becomes the preview;
        no file changes nothing. */
    method HandleImageChange(dataUrl: Option<string>)
      modifies this
      ensures dataUrl.Some? ==> imagePreview == dataUrl
      ensures dataUrl.None? ==> imagePreview == old(imagePreview)
      ensures formData == old(formData) && submitted == old(submitted) && loading == old(loading)
    {
      if dataUrl.Some? {
        imagePreview := dataUrl;
      }
    }

    /** handleSubmit, reached through the submit button, which is disabled
        while loading: a refused form changes nothing; an accepted one starts
        loading. */
    method HandleSubmit() returns (v: Verdict)
      requires !loading
      modifies this
      ensures v == Validate(old(formData), old(imagePreview))
      ensures v != Accepted ==> !loading
      ensures v == Accepted ==> loading
      ensures formData == old(formData) && imagePreview == old(imagePreview) && submitted == old(submitted)
    {
      if formData.animalType == "" || formData.symptoms == "" || formData.age == "" || formData.weight == "" {
        return MissingFields;
      }
      if !HasImage(imagePreview) {
        return MissingImage;
      }
      loading := true;
      v := Accepted;
    }

    /** The first timer: the form is shown as submitted and loading ends. */
    method SubmissionCompleted()
      modifies this
      ensures submitted && !loading
      ensures formData == old(formData) && imagePreview == old(imagePreview)
    {
      submitted := true;
      loading := false;
    }

    /** The second timer: every field is cleared, the preview dropped and
        the submitted screen left. */
    method FormReset()
      modifies this
      ensures formData == EmptyForm() && imagePreview == None && !submitted
      ensures loading == old(loading)
    {
      formData := EmptyForm();
      imagePreview := None;
      submitted := false;
    }
  }

  /** A whole successful round: submit, completion, reset leaves a fresh form
      that is not loading. */
  method SubmitRound(form: Form) returns (v: Verdict)
    requires Validate(form.formData, form.imagePreview) == Accepted && !form.loading
    modifies form
    ensures v == Accepted
    ensures form.formData == EmptyForm() && form.imagePreview == None && !form.submitted && !form.loading
  {
    v := form.HandleSubmit();
    form.SubmissionCompleted();
    form.FormReset();
  }
}
