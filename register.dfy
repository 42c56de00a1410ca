/** The registration page: the form, its ordered validation (the first failing check is the
    message shown) and the error and loading state around the call that creates the account. */
module Register {
  import opened Wrappers
  import opened AuthContext

  datatype RegisterForm = RegisterForm(
    name: string,
    email: string,
    password: string,
    confirmPassword: string,
    phone: string,
    university: string,
    studentId: string,
    course: string,
    role: Role,
    photo: Option<string>)

  /** The text inputs that share the generic change handler, by input name. */
  datatype TextInput = NameInput | EmailInput | PasswordInput | ConfirmPasswordInput
                     | PhoneInput | UniversityInput | StudentIdInput | CourseInput

  /** The arguments the account-creation call receives. */
  datatype RegisterCall = RegisterCall(name: string, email: string, password: string, role: Role)

  const FieldsMissing := "Please fill in all required fields"
  const PasswordsDiffer := "Passwords do not match"
  const PasswordTooShort := "Password must be at least 6 characters"
  const PhotoMissing := "Please upload a photo ID for verification"
  const RegisterFailed := "Failed to register. Please try again."

  const MinPasswordLength := 6

  function EmptyForm(): RegisterForm
  {
    RegisterForm("", "", "", "", "", "", "", "", Student, None)
  }

  /** The generic change handler: the named input takes the typed text, nothing else changes. */
  function WithInput(f: RegisterForm, input: TextInput, value: string): (r: RegisterForm)
    ensures r.role == f.role && r.photo == f.photo
    ensures input == NameInput ==> r == f.(name := value)
    ensures input == EmailInput ==> r == f.(email := value)
    ensures input == PasswordInput ==> r == f.(password := value)
    ensures input == ConfirmPasswordInput ==> r == f.(confirmPassword := value)
    ensures input == PhoneInput ==> r == f.(phone := value)
    ensures input == UniversityInput ==> r == f.(university := value)
    ensures input == StudentIdInput ==> r == f.(studentId := value)
    ensures input == CourseInput ==> r == f.(course := value)
  {
    match input
    case NameInput => f.(name := value)
    case EmailInput => f.(email := value)
    case PasswordInput => f.(password := value)
    case ConfirmPasswordInput => f.(confirmPassword := value)
    case PhoneInput => f.(phone := value)
    case UniversityInput => f.(university := value)
    case StudentIdInput => f.(studentId := value)
    case CourseInput => f.(course := value)
  }

  /** The checks in their order; `None` means the form may be submitted. */
  function Validate(f: RegisterForm): (err: Option<string>)
    ensures err == Some(FieldsMissing) <==> f.name == [] || f.email == [] || f.password == []
    ensures err == Some(PasswordsDiffer) <==>
      f.name != [] && f.email != [] && f.password != [] && f.password != f.confirmPassword
    ensures err == Some(PasswordTooShort) <==>
      f.name != [] && f.email != [] && f.password != [] && f.password == f.confirmPassword
      && |f.password| < MinPasswordLength
    ensures err == Some(PhotoMissing) <==>
      f.name != [] && f.email != [] && f.password == f.confirmPassword
      && |f.password| >= MinPasswordLength && f.photo.None?
    ensures err.None? <==>
      f.name != [] && f.email != [] && f.password == f.confirmPassword
      && |f.password| >= MinPasswordLength && f.photo.Some?
  {
    if f.name == [] || f.email == [] || f.password == [] then Some(FieldsMissing)
    else if f.password != f.confirmPassword then Some(PasswordsDiffer)
    else if |f.password| < 6 then Some(PasswordTooShort)
    else if f.photo.None? then Some(PhotoMissing)
    else None
  }

  /** Once everything else is in order, a form passes exactly when the password has at least six
      characters: six are enough, one to five are too short, and an empty one counts as a
      missing field. */
  lemma SixCharactersSuffice(f: RegisterForm)
    requires f.name != [] && f.email != [] && f.photo.Some? && f.password == f.confirmPassword
    ensures Validate(f).None? <==> |f.password| >= 6
    ensures f.password == [] ==> Validate(f) == Some(FieldsMissing)
    ensures 0 < |f.password| < 6 ==> Validate(f) == Some(PasswordTooShort)
  {
  }

  class RegisterPage {
    var form: RegisterForm
    var error: Option<string>
    var loading: bool

    constructor ()
      ensures form == EmptyForm() && error.None? && !loading
    {
      form, error, loading := EmptyForm(), None, false;
    }

    method HandleChange(input: TextInput, value: string)
      modifies this
      ensures form == WithInput(old(form), input, value)
      ensures error == old(error) && loading == old(loading)
    {
      form := WithInput(form, input, value);
    }

    /** The role select, which offers only student and instructor. */
    method HandleRoleChange(role: Role)
      requires role != Admin
      modifies this
      ensures form == old(form).(role := role)
      ensures error == old(error) && loading == old(loading)
    {
      form := form.(role := role);
    }

    method HandlePhotoChange(file: string)
      modifies this
      ensures form == old(form).(photo := Some(file))
      ensures error == old(error) && loading == old(loading)
    {
      form := form.(photo := Some(file));
    }

    /** Submit: a failed check shows its message and returns before `loading` is touched;
        otherwise the error is cleared, the account-creation call receives the form's name,
        email, password and role unchanged, a rejected call shows the generic failure, and
        `loading` ends false either way. `callRejects` is how that call turns out. */
    method HandleSubmit(callRejects: bool) returns (call: Option<RegisterCall>)
      modifies this
      ensures form == old(form)
      ensures Validate(old(form)).Some? ==>
        call.None? && error == Validate(old(form)) && loading == old(loading)
      ensures Validate(old(form)).None? ==>
        call == Some(RegisterCall(form.name, form.email, form.password, form.role))
        && !loading && error == (if callRejects then Some(RegisterFailed) else None)
    {
      if form.name == [] || form.email == [] || form.password == [] {
        error := Some(FieldsMissing);
        return None;
      }
      if form.password != form.confirmPassword {
        error := Some(PasswordsDiffer);
        return None;
      }
      if |form.password| < 6 {
        error := Some(PasswordTooShort);
        return None;
      }
      if form.photo.None? {
        error := Some(PhotoMissing);
        return None;
      }
      error := None;
      loading := true;
      call := Some(RegisterCall(form.name, form.email, form.password, form.role));
      if callRejects {
        error := Some(RegisterFailed);
      }
      loading := false;
    }
  }

  /** A complete registration: the form is filled in, a mismatch is caught, and once corrected
      the call receives what was typed. */
  method FillAndSubmit()
  {
    var page := new RegisterPage();
    page.HandleChange(NameInput, "Ada");
    page.HandleChange(EmailInput, "ada@example.com");
    page.HandleChange(PasswordInput, "secret");
    page.HandleChange(ConfirmPasswordInput, "secrets");
    page.HandlePhotoChange("id.png");
    var first := page.HandleSubmit(false);
    assert first.None? && page.error == Some(PasswordsDiffer) && !page.loading;
    page.HandleChange(ConfirmPasswordInput, "secret");
    var second := page.HandleSubmit(false);
    assert second == Some(RegisterCall("Ada", "ada@example.com", "secret", Student));
    assert page.error.None? && !page.loading;
  }
}
