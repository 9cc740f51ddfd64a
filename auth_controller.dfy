/** The registration and login handlers (backend/controllers/authController.js).
    `bcrypt.hash` and `bcrypt.compare` are parameters, and the token is
    represented by the user id it is signed for. */
module AuthController {
  import opened Text
  import opened Js
  import opened AuthValidation
  import opened UserStore

  /** The JSON reply: status, `success`, `message`, and on success the
      public user and the id the token is generated for. */
  datatype AuthResponse = AuthResponse(
    status: int, success: bool, message: string,
    user: Option<PublicUser>, tokenFor: Option<int>)

  function Failure(status: int, message: string): (r: AuthResponse)
    ensures !r.success && r.status == status && r.message == message
    ensures r.user.None? && r.tokenFor.None?
  {
    AuthResponse(status, false, message, None, None)
  }

  function Success(status: int, message: string, user: PublicUser): (r: AuthResponse)
    ensures r.success && r.status == status && r.message == message
    ensures r.user == Some(user) && r.tokenFor == Some(user.id)
  {
    AuthResponse(status, true, message, Some(user), Some(user.id))
  }

  /** The data `registerUser` passes to `create`: the names and address
      trimmed, the password as sent. */
  function NewUserOf(nombre: string, apellido: string, correo: string, password: string): (u: NewUser)
    ensures u.nombre == Trim(nombre) && u.apellido == Trim(apellido) && u.correo == Trim(correo)
    ensures u.password == password
  {
    NewUser(Trim(nombre), Trim(apellido), Trim(correo), password)
  }

  /** `registerUser`. `hashed` is the password's hash and `storeFails` says
      whether the database fails before anything is inserted; a failure, like
      a TypeError from a non-string field, ends in the generic 500. */
  method RegisterUser(users: UserTable, body: map<string, Value>, hashed: string, storeFails: bool)
    returns (resp: AuthResponse)
    requires users.Valid()
    modifies users
    ensures users.Valid()
    ensures CheckPresence(RegistrationFields(body)).SomeBlank? ==>
              resp == Failure(400, "Todos los campos son requeridos") && users.rows == old(users.rows)
    ensures CheckPresence(RegistrationFields(body)).TypeError? ==>
              resp == Failure(500, "Error al registrar usuario") && users.rows == old(users.rows)
    ensures CheckPresence(RegistrationFields(body)).AllPresent? && storeFails ==>
              resp == Failure(500, "Error al registrar usuario") && users.rows == old(users.rows)
    ensures resp.success ==>
              && CheckPresence(RegistrationFields(body)).AllPresent? && !storeFails
              && Get(body, "nombre").Str? && Get(body, "apellido").Str? && Get(body, "correo").Str?
              && var correo := Trim(Get(body, "correo").s);
                 && old(users.FindByEmail(correo)).None?
                 && resp.status == 201 && resp.message == "Usuario registrado exitosamente"
                 && resp.user == Some(PublicUser(old(users.nextId), Trim(Get(body, "nombre").s),
                                                 Trim(Get(body, "apellido").s), ToLower(correo)))
                 && users.rows == old(users.rows) + [UserRow(old(users.nextId), Trim(Get(body, "nombre").s),
                                                 Trim(Get(body, "apellido").s), ToLower(correo), hashed)]
    ensures CheckPresence(RegistrationFields(body)).AllPresent? && Get(body, "correo").Str? && !storeFails && !resp.success ==>
              && old(users.FindByEmail(Trim(Get(body, "correo").s))).Some?
              && resp == Failure(400, "El correo ya está registrado") && users.rows == old(users.rows)
  {
    var fields := RegistrationFields(body);
    match CheckPresence(fields)
    case SomeBlank =>
      return Failure(400, "Todos los campos son requeridos");
    case TypeError =>
      return Failure(500, "Error al registrar usuario");
    case AllPresent =>
      assert OptionalTrim(fields[0]).Filled? && OptionalTrim(fields[1]).Filled?;
      assert OptionalTrim(fields[2]).Filled? && OptionalTrim(fields[3]).Filled?;
      if storeFails {
        return Failure(500, "Error al registrar usuario");
      }
      var u := NewUserOf(fields[0].s, fields[1].s, fields[2].s, fields[3].s);
      var created := users.Create(u, hashed);
      match created
      case AlreadyRegistered =>
        resp := Failure(400, "El correo ya está registrado");
      case Created(user) =>
        resp := Success(201, "Usuario registrado exitosamente", user);
  }

  /** `loginUser`. `matches` is `bcrypt.compare` and `storeFails` a failing
      query. An unknown address and a wrong password give the same reply. */
  method LoginUser(users: UserTable, body: map<string, Value>, matches: (string, string) -> bool, storeFails: bool)
    returns (resp: AuthResponse)
    ensures CheckPresence(LoginFields(body)).SomeBlank? ==> resp == Failure(400, "Correo y contraseña son requeridos")
    ensures CheckPresence(LoginFields(body)).TypeError? ==> resp == Failure(500, "Error al iniciar sesión")
    ensures CheckPresence(LoginFields(body)).AllPresent? ==>
              && Get(body, "correo").Str? && Get(body, "password").Str?
              && var found := users.FindByEmail(Get(body, "correo").s);
                 && (storeFails ==> resp == Failure(500, "Error al iniciar sesión"))
                 && (!storeFails && found.None? ==> resp == Failure(401, "Credenciales inválidas"))
                 && (!storeFails && found.Some? && !matches(Get(body, "password").s, found.value.password) ==>
                       resp == Failure(401, "Credenciales inválidas"))
                 && (!storeFails && found.Some? && matches(Get(body, "password").s, found.value.password) ==>
                       resp == Success(200, "Login exitoso", Public(found.value)))
    ensures resp.success <==>
              && CheckPresence(LoginFields(body)).AllPresent? && !storeFails
              && Get(body, "correo").Str? && Get(body, "password").Str?
              && users.FindByEmail(Get(body, "correo").s).Some?
              && matches(Get(body, "password").s, users.FindByEmail(Get(body, "correo").s).value.password)
  {
    var fields := LoginFields(body);
    match CheckPresence(fields)
    case SomeBlank =>
      return Failure(400, "Correo y contraseña son requeridos");
    case TypeError =>
      return Failure(500, "Error al iniciar sesión");
    case AllPresent =>
      assert OptionalTrim(fields[0]).Filled? && OptionalTrim(fields[1]).Filled?;
      if storeFails {
        return Failure(500, "Error al iniciar sesión");
      }
      var found := users.FindByEmail(fields[0].s);
      if found.None? {
        return Failure(401, "Credenciales inválidas");
      }
      if !matches(fields[1].s, found.value.password) {
        return Failure(401, "Credenciales inválidas");
      }
      resp := Success(200, "Login exitoso", Public(found.value));
  }

  /** Through the routes: a registration the middleware lets through and the
      table accepts, followed by a login with the same address and password,
      succeeds whenever `bcrypt.compare` accepts the password for the stored
      hash, and hands out the user just created. The login request reads only
      `correo` and `password`, so the registration body serves for it. */
  method RegisterThenLogin(users: UserTable, body: map<string, Value>, hashed: string,
                           matches: (string, string) -> bool)
    returns (registered: AuthResponse, loggedIn: AuthResponse)
    requires users.Valid() && ValidateRegistration(body) == Next
    modifies users
    ensures users.Valid()
    ensures registered.success && matches(Get(body, "password").s, hashed) ==>
              loggedIn.success && loggedIn.user == registered.user
  {
    var fields := RegistrationFields(body);
    assert OptionalTrim(fields[2]).Filled? && OptionalTrim(fields[3]).Filled?;
    LoginFieldsPresent(body);
    registered := RegisterUser(users, body, hashed, false);
    if registered.success {
      var correo := Get(body, "correo").s;
      EmailValidIsTrimmed(correo);
      FindInAppended(old(users.rows), users.rows[|users.rows| - 1]);
      assert users.FindByEmail(correo) == Some(users.rows[|users.rows| - 1]);
    }
    loggedIn := LoginUser(users, body, matches, false);
  }

  /** A body that passes registration has both login fields filled. */
  lemma LoginFieldsPresent(body: map<string, Value>)
    requires CheckPresence(RegistrationFields(body)).AllPresent?
    ensures CheckPresence(LoginFields(body)).AllPresent?
  {
    var all, two := RegistrationFields(body), LoginFields(body);
    assert two[0] == all[2] && two[1] == all[3];
  }
}
