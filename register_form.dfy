/** The registration form (src/components/Auth/RegisterForm.js): the ordered
    client checks with their first-failure message, the data sent to
    `register`, and the form's `formData`, `error` and navigation state. */
module RegisterForm {
  import opened Text
  import opened Js
  import opened AuthValidation

  /** `formData`: the five inputs, all text. */
  datatype FormFields = FormFields(
    nombre: string, apellido: string, correo: string, password: string, confirmPassword: string)

  /** The initial `formData`: every input empty. */
  const EmptyForm: FormFields := FormFields("", "", "", "", "")

  /** `validateForm`: `None` when every check passes, otherwise the message of
      the first failing check. The e-mail is matched untrimmed and the
      password length is counted untrimmed. */
  function ValidateForm(f: FormFields): (r: Option<string>)
    ensures r.None? <==>
              && !AllSpace(f.nombre) && !AllSpace(f.apellido) && EmailValid(f.correo)
              && |f.password| >= 6 && f.password == f.confirmPassword
    ensures AllSpace(f.nombre) || AllSpace(f.apellido) ==>
              r == Some("Nombre y apellido son requeridos")
    ensures !AllSpace(f.nombre) && !AllSpace(f.apellido) && !EmailValid(f.correo) ==>
              r == Some("Correo electrónico inválido")
    ensures !AllSpace(f.nombre) && !AllSpace(f.apellido) && EmailValid(f.correo) && |f.password| < 6 ==>
              r == Some("La contraseña debe tener al menos 6 caracteres")
    ensures !AllSpace(f.nombre) && !AllSpace(f.apellido) && EmailValid(f.correo)
            && |f.password| >= 6 && f.password != f.confirmPassword ==>
              r == Some("Las contraseñas no coinciden")
  {
    TrimEmptyIffAllSpace(f.nombre);
    TrimEmptyIffAllSpace(f.apellido);
    if Trim(f.nombre) == [] || Trim(f.apellido) == [] then Some("Nombre y apellido son requeridos")
    else if !EmailValid(f.correo) then Some("Correo electrónico inválido")
    else if |f.password| < 6 then Some("La contraseña debe tener al menos 6 caracteres")
    else if f.password != f.confirmPassword then Some("Las contraseñas no coinciden")
    else None
  }

  /** An untouched form is refused for its names first. */
  lemma EmptyFormNeedsNames()
    ensures ValidateForm(EmptyForm) == Some("Nombre y apellido son requeridos")
  {
    assert AllSpace(EmptyForm.nombre);
  }

  /** `userData`: the names trimmed, the address trimmed and lower-cased, the
      password as typed; the confirmation is not sent. */
  datatype UserData = UserData(nombre: string, apellido: string, correo: string, password: string)

  function BuildUserData(f: FormFields): (u: UserData)
    ensures u.nombre == Trim(f.nombre) && u.apellido == Trim(f.apellido)
    ensures u.correo == ToLower(Trim(f.correo)) && IsLowerCase(u.correo)
    ensures u.password == f.password
  {
    ToLowerIsLower(Trim(f.correo));
    UserData(Trim(f.nombre), Trim(f.apellido), ToLower(Trim(f.correo)), f.password)
  }

  /** The JSON body `register` posts. */
  function RequestBody(u: UserData): (body: map<string, Value>)
    ensures body.Keys == {"nombre", "apellido", "correo", "password"}
    ensures Get(body, "nombre") == Str(u.nombre) && Get(body, "apellido") == Str(u.apellido)
    ensures Get(body, "correo") == Str(u.correo) && Get(body, "password") == Str(u.password)
  {
    map["nombre" := Str(u.nombre), "apellido" := Str(u.apellido),
        "correo" := Str(u.correo), "password" := Str(u.password)]
  }

  /** The server's presence check finds the four fields sent all filled
      when none of them is all white space. */
  lemma SentAllPresent(u: UserData)
    requires !AllSpace(u.nombre) && !AllSpace(u.apellido) && !AllSpace(u.correo) && !AllSpace(u.password)
    ensures CheckPresence(RegistrationFields(RequestBody(u))).AllPresent?
  {
    var fields := RegistrationFields(RequestBody(u));
    assert fields == [Str(u.nombre), Str(u.apellido), Str(u.correo), Str(u.password)];
  }

  /** The four fields sent are text, so when one of them is all white space
      the server's presence check reports a blank field, never a TypeError. */
  lemma SentSomeBlank(u: UserData)
    requires AllSpace(u.nombre) || AllSpace(u.apellido) || AllSpace(u.correo) || AllSpace(u.password)
    ensures CheckPresence(RegistrationFields(RequestBody(u))).SomeBlank?
  {
    var fields := RegistrationFields(RequestBody(u));
    assert fields == [Str(u.nombre), Str(u.apellido), Str(u.correo), Str(u.password)];
    TextFieldsNeverTypeError(fields);
    if AllSpace(u.nombre) {
      assert !OptionalTrim(fields[0]).Filled?;
    } else if AllSpace(u.apellido) {
      assert !OptionalTrim(fields[1]).Filled?;
    } else if AllSpace(u.correo) {
      assert !OptionalTrim(fields[2]).Filled?;
    } else {
      assert !OptionalTrim(fields[3]).Filled?;
    }
  }

  /** The trimmed names the form sends are not blank, and the address it
      sends is valid and not blank. */
  lemma SentFieldsFilled(f: FormFields)
    requires !AllSpace(f.nombre) && !AllSpace(f.apellido) && EmailValid(f.correo)
    ensures !AllSpace(BuildUserData(f).nombre) && !AllSpace(BuildUserData(f).apellido)
    ensures EmailValid(BuildUserData(f).correo) && !AllSpace(BuildUserData(f).correo)
  {
    TrimEmptyIffAllSpace(f.nombre);
    TrimEmptyIffAllSpace(f.apellido);
    TrimIdempotent(f.nombre);
    TrimIdempotent(f.apellido);
    TrimEmptyIffAllSpace(Trim(f.nombre));
    TrimEmptyIffAllSpace(Trim(f.apellido));
    EmailValidIsTrimmed(f.correo);
    EmailValidLower(f.correo);
    var c := BuildUserData(f).correo;
    TrimEmptyIffAllSpace(c);
    EmailValidIsTrimmed(c);
  }

  /** Data the form accepts passes the server's registration middleware,
      provided the password is not all white space: the names stay filled
      after trimming, and trimming and lower-casing keep a valid address
      valid. */
  lemma AcceptedFormPassesServer(f: FormFields)
    requires ValidateForm(f).None? && !AllSpace(f.password)
    ensures ValidateRegistration(RequestBody(BuildUserData(f))) == Next
  {
    SentFieldsFilled(f);
    SentAllPresent(BuildUserData(f));
  }

  /** A password of six or more spaces satisfies the form, which never trims
      it, but the server reads it as missing. */
  lemma SpacePasswordRefusedByServer(f: FormFields)
    requires ValidateForm(f).None? && AllSpace(f.password)
    ensures ValidateRegistration(RequestBody(BuildUserData(f))) ==
              Respond(Reply(400, "Todos los campos son requeridos"))
  {
    SentSomeBlank(BuildUserData(f));
  }

  /** What `register` resolves to: `success` and the server's `message`; or
      the call throws. */
  datatype RegisterReply = Threw | Returned(success: bool, message: Value)

  /** `result.message || 'Error al registrar usuario'`, as shown. */
  function FailureMessage(message: Value): (r: string)
    ensures Truthy(message) ==> r == ToText(message)
    ensures !Truthy(message) ==> r == "Error al registrar usuario"
  {
    ToText(Or(message, Str("Error al registrar usuario")))
  }

  class RegisterFormView {
    var formData: FormFields
    var error: string
    /** The route the form navigated to, if any. */
    var navigatedTo: Option<string>

    constructor ()
      ensures formData == EmptyForm && error == "" && navigatedTo.None?
    {
      formData := EmptyForm;
      error := "";
      navigatedTo := None;
    }

    /** `handleChange`: the input named `name` takes `value`. A name the form
        has no input for adds a property nothing reads, so the five inputs
        stay as they were. */
    method HandleChange(name: string, value: string)
      modifies this
      ensures formData == (
                if name == "nombre" then old(formData).(nombre := value)
                else if name == "apellido" then old(formData).(apellido := value)
                else if name == "correo" then old(formData).(correo := value)
                else if name == "password" then old(formData).(password := value)
                else if name == "confirmPassword" then old(formData).(confirmPassword := value)
                else old(formData))
      ensures error == old(error) && navigatedTo == old(navigatedTo)
    {
      if name == "nombre" {
        formData := formData.(nombre := value);
      } else if name == "apellido" {
        formData := formData.(apellido := value);
      } else if name == "correo" {
        formData := formData.(correo := value);
      } else if name == "password" {
        formData := formData.(password := value);
      } else if name == "confirmPassword" {
        formData := formData.(confirmPassword := value);
      }
    }

    /** `handleSubmit`: the error is cleared, the checks run, and only when
        they pass is `register` called, with `sent` the data it is given.
        `reply` is what that call gives. */
    method HandleSubmit(reply: RegisterReply) returns (sent: Option<UserData>)
      modifies this
      ensures formData == old(formData)
      ensures ValidateForm(formData).Some? ==>
                sent.None? && error == ValidateForm(formData).value && navigatedTo == old(navigatedTo)
      ensures ValidateForm(formData).None? ==> sent == Some(BuildUserData(formData))
      ensures ValidateForm(formData).None? && reply.Returned? && reply.success ==>
                error == "" && navigatedTo == Some("/")
      ensures ValidateForm(formData).None? && reply.Returned? && !reply.success ==>
                && error == FailureMessage(reply.message)
                && navigatedTo == old(navigatedTo)
      ensures ValidateForm(formData).None? && reply.Threw? ==>
                && error == "Error al procesar el registro. Por favor, intente nuevamente."
                && navigatedTo == old(navigatedTo)
    {
      var fields := formData;
      error := "";
      var check := ValidateForm(fields);
      if check.Some? {
        error := check.value;
        return None;
      }
      sent := Some(BuildUserData(fields));
      match reply
      case Threw =>
        error := "Error al procesar el registro. Por favor, intente nuevamente.";
      case Returned(success, message) =>
        if success {
          navigatedTo := Some("/");
        } else {
          error := FailureMessage(message);
        }
    }
  }
}
