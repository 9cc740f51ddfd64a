/** The validation middleware in front of the auth routes
    (backend/middleware/authValidation.js), and the e-mail pattern
    `/^[^\s@]+@[^\s@]+\.[^\s@]+$/` that it shares with the registration form. */
module AuthValidation {
  import opened Text
  import opened Js

  // ---------------------------------------------------------------------------
  // `field?.trim()`

  /** What `v?.trim()` gives: `undefined` for a missing field, the trimmed
      text of a string, or a TypeError for any other value, which has no
      `trim` method. */
  datatype Trimmed = Blank | Filled(text: string) | NotAString

  function OptionalTrim(v: Value): (r: Trimmed)
    ensures r.Blank? <==> v.Undefined? || v.Null? || (v.Str? && AllSpace(v.s))
    ensures r.Filled? <==> v.Str? && !AllSpace(v.s)
    ensures r.Filled? ==> r.text == Trim(v.s) && r.text != []
  {
    match v
    case Undefined => Blank
    case Null => Blank
    case Str(s) =>
      TrimEmptyIffAllSpace(s);
      if Trim(s) == [] then Blank else Filled(Trim(s))
    case _ => NotAString
  }

  /** The outcome of `!a?.trim() || !b?.trim() || ...`, evaluated left to
      right: the first field that is not filled decides. */
  datatype Presence = AllPresent | SomeBlank | TypeError

  function CheckPresence(fields: seq<Value>): (r: Presence)
    ensures r.AllPresent? <==> forall k :: 0 <= k < |fields| ==> OptionalTrim(fields[k]).Filled?
    ensures r.SomeBlank? ==> exists k :: 0 <= k < |fields| && OptionalTrim(fields[k]).Blank? && FilledBefore(fields, k)
    ensures r.TypeError? ==> exists k :: 0 <= k < |fields| && OptionalTrim(fields[k]).NotAString? && FilledBefore(fields, k)
  {
    if fields == [] then AllPresent
    else
      match OptionalTrim(fields[0])
      case Blank =>
        assert FilledBefore(fields, 0);
        SomeBlank
      case NotAString =>
        assert FilledBefore(fields, 0);
        TypeError
      case Filled(_) =>
        var r := CheckPresence(fields[1..]);
        ShiftPresence(fields, r);
        r
  }

  /** Behind a filled first field, what the presence check says of the rest
      holds of the whole sequence, with every position moved up by one. */
  lemma ShiftPresence(fields: seq<Value>, r: Presence)
    requires fields != [] && OptionalTrim(fields[0]).Filled?
    requires r.AllPresent? <==> forall k :: 0 <= k < |fields[1..]| ==> OptionalTrim(fields[1..][k]).Filled?
    requires r.SomeBlank? ==>
               exists k :: 0 <= k < |fields[1..]| && OptionalTrim(fields[1..][k]).Blank? && FilledBefore(fields[1..], k)
    requires r.TypeError? ==>
               exists k :: 0 <= k < |fields[1..]| && OptionalTrim(fields[1..][k]).NotAString? && FilledBefore(fields[1..], k)
    ensures r.AllPresent? <==> forall k :: 0 <= k < |fields| ==> OptionalTrim(fields[k]).Filled?
    ensures r.SomeBlank? ==> exists k :: 0 <= k < |fields| && OptionalTrim(fields[k]).Blank? && FilledBefore(fields, k)
    ensures r.TypeError? ==> exists k :: 0 <= k < |fields| && OptionalTrim(fields[k]).NotAString? && FilledBefore(fields, k)
  {
    var rest := fields[1..];
    ShiftAllFilled(fields);
    if r.SomeBlank? {
      var k :| 0 <= k < |rest| && OptionalTrim(rest[k]).Blank? && FilledBefore(rest, k);
      ShiftFilledBefore(fields, k);
    } else if r.TypeError? {
      var k :| 0 <= k < |rest| && OptionalTrim(rest[k]).NotAString? && FilledBefore(rest, k);
      ShiftFilledBefore(fields, k);
    }
  }

  /** Behind a filled first field, the whole sequence is filled exactly when
      the rest is. */
  lemma ShiftAllFilled(fields: seq<Value>)
    requires fields != [] && OptionalTrim(fields[0]).Filled?
    ensures (forall k :: 0 <= k < |fields[1..]| ==> OptionalTrim(fields[1..][k]).Filled?) <==>
            (forall k :: 0 <= k < |fields| ==> OptionalTrim(fields[k]).Filled?)
  {
    var rest := fields[1..];
    if forall k :: 0 <= k < |rest| ==> OptionalTrim(rest[k]).Filled? {
      forall k | 0 < k < |fields|
        ensures OptionalTrim(fields[k]).Filled?
      {
        assert fields[k] == rest[k - 1];
      }
    }
    if forall k :: 0 <= k < |fields| ==> OptionalTrim(fields[k]).Filled? {
      forall k | 0 <= k < |rest|
        ensures OptionalTrim(rest[k]).Filled?
      {
        assert rest[k] == fields[k + 1];
      }
    }
  }

  lemma ShiftFilledBefore(fields: seq<Value>, k: nat)
    requires fields != [] && OptionalTrim(fields[0]).Filled?
    requires k < |fields| - 1 && FilledBefore(fields[1..], k)
    ensures FilledBefore(fields, k + 1) && fields[k + 1] == fields[1..][k]
  {
    forall j | 0 < j < k + 1
      ensures OptionalTrim(fields[j]).Filled?
    {
      assert fields[j] == fields[1..][j - 1];
    }
  }

  /** Fields that are all text cannot raise the TypeError. */
  lemma TextFieldsNeverTypeError(fields: seq<Value>)
    requires forall k :: 0 <= k < |fields| ==> fields[k].Str?
    ensures !CheckPresence(fields).TypeError?
  {
  }

  /** Every field before position `k` is filled. */
  predicate FilledBefore(fields: seq<Value>, k: nat)
    requires k <= |fields|
  {
    forall j :: 0 <= j < k ==> OptionalTrim(fields[j]).Filled?
  }

  // ---------------------------------------------------------------------------
  // The e-mail pattern

  /** `[^\s@]+`: non-empty, without white space or '@'. */
  predicate Part(x: string) {
    x != [] && NoSpace(x) && '@' !in x
  }

  /** The regular expression as written: a part, '@', a part, '.', a part,
      and nothing else. */
  predicate MatchesEmailPattern(s: string) {
    exists i, k :: 0 < i && i + 1 < k < |s| && s[i] == '@' && s[k] == '.'
                   && Part(s[..i]) && Part(s[i + 1..k]) && Part(s[k + 1..])
  }

  /** The check computed directly: no white space, exactly one '@' with text
      before it, and a '.' in the domain with text on both sides of it. */
  predicate EmailValid(s: string) {
    var i := IndexOf(s, '@');
    NoSpace(s) && 0 < i < |s| && '@' !in s[i + 1..]
    && var d := s[i + 1..];
       |d| >= 3 && '.' in d[1..|d| - 1]
  }

  /** The direct check accepts exactly the strings the pattern matches. */
  lemma EmailValidIffPattern(s: string)
    ensures EmailValid(s) <==> MatchesEmailPattern(s)
  {
    if EmailValid(s) {
      ValidMatches(s);
    }
    if MatchesEmailPattern(s) {
      var i, k :| 0 < i && i + 1 < k < |s| && s[i] == '@' && s[k] == '.'
                  && Part(s[..i]) && Part(s[i + 1..k]) && Part(s[k + 1..]);
      MatchIsValid(s, i, k);
    }
  }

  lemma ValidMatches(s: string)
    requires EmailValid(s)
    ensures MatchesEmailPattern(s)
  {
    var i := IndexOf(s, '@');
    var d := s[i + 1..];
    var m :| 0 <= m < |d[1..|d| - 1]| && d[1..|d| - 1][m] == '.';
    var k := i + 2 + m;
    assert s[k] == '.';
    NoSpaceSlice(s, 0, i);
    NoSpaceSlice(s, i + 1, k);
    NoSpaceSlice(s, k + 1, |s|);
    assert s[..i] == s[0..i] && s[k + 1..] == s[k + 1..|s|];
    assert s[i + 1..k] == d[..m + 1];
    assert s[k + 1..] == d[m + 2..];
    assert '@' !in s[..i];
    assert Part(s[..i]);
    assert Part(s[i + 1..k]);
    assert Part(s[k + 1..]);
  }

  lemma MatchIsValid(s: string, i: nat, k: nat)
    requires 0 < i && i + 1 < k < |s| && s[i] == '@' && s[k] == '.'
    requires Part(s[..i]) && Part(s[i + 1..k]) && Part(s[k + 1..])
    ensures EmailValid(s)
  {
    assert s == s[..i] + s[i..];
    IndexOfPrefix(s[..i], s[i..], '@');
    assert IndexOf(s, '@') == i;
    var d := s[i + 1..];
    assert d == s[i + 1..k] + [s[k]] + s[k + 1..];
    assert '@' !in d;
    assert d[1..|d| - 1][k - i - 2] == '.';
    forall j | 0 <= j < |s|
      ensures !IsSpace(s[j])
    {
      if j < i {
        assert s[j] == s[..i][j];
      } else if j == i || j == k {
      } else if j < k {
        assert s[j] == s[i + 1..k][j - i - 1];
      } else {
        assert s[j] == s[k + 1..][j - k - 1];
      }
    }
  }

  /** A valid address has no white space, so trimming keeps it. */
  lemma EmailValidIsTrimmed(s: string)
    requires EmailValid(s)
    ensures Trim(s) == s
  {
    TrimNoSpace(s);
  }

  /** Lower-casing keeps an address valid: it maps white space, '@' and '.'
      to themselves and nothing else to them. */
  lemma EmailValidLower(s: string)
    requires EmailValid(s)
    ensures EmailValid(ToLower(s))
  {
    var i, k :| 0 < i && i + 1 < k < |s| && s[i] == '@' && s[k] == '.'
                && Part(s[..i]) && Part(s[i + 1..k]) && Part(s[k + 1..]) by {
      EmailValidIffPattern(s);
    }
    var t := ToLower(s);
    LowerPart(s, 0, i);
    LowerPart(s, i + 1, k);
    assert s[k + 1..|s|] == s[k + 1..];
    LowerPart(s, k + 1, |s|);
    assert t[k + 1..|s|] == t[k + 1..];
    MatchIsValid(t, i, k);
  }

  lemma LowerPart(s: string, from: nat, to: nat)
    requires from <= to <= |s| && Part(s[from..to])
    ensures Part(ToLower(s)[from..to])
  {
    var t := ToLower(s);
    forall j | from <= j < to
      ensures !IsSpace(t[j]) && t[j] != '@'
    {
      assert s[j] == s[from..to][j - from];
    }
    assert forall j :: 0 <= j < to - from ==> t[from..to][j] == t[from + j];
  }

  // ---------------------------------------------------------------------------
  // The two middlewares

  /** The JSON reply of a handler: its status and `message`. */
  datatype Reply = Reply(status: int, message: string)

  /** What the middleware does: pass the request on with `next()`, or reply. */
  datatype Outcome = Next | Respond(reply: Reply)

  /** A TypeError thrown in the middleware reaches the application's error
      handler. */
  const InternalError: Reply := Reply(500, "Error interno del servidor")

  /** The fields `validateRegistration` reads, in the order it tests them. */
  function RegistrationFields(body: map<string, Value>): (f: seq<Value>)
    ensures |f| == 4
  {
    [Get(body, "nombre"), Get(body, "apellido"), Get(body, "correo"), Get(body, "password")]
  }

  /** The fields `validateLogin` reads, in the order it tests them. */
  function LoginFields(body: map<string, Value>): (f: seq<Value>)
    ensures |f| == 2
  {
    [Get(body, "correo"), Get(body, "password")]
  }

  /** `validateRegistration`: presence of the four fields, then the e-mail
      pattern on the untrimmed address, then the untrimmed password length. */
  function ValidateRegistration(body: map<string, Value>): (r: Outcome)
    ensures r == Next <==>
              && CheckPresence(RegistrationFields(body)).AllPresent?
              && Get(body, "correo").Str? && Get(body, "password").Str?
              && EmailValid(Get(body, "correo").s) && |Get(body, "password").s| >= 6
    ensures CheckPresence(RegistrationFields(body)).SomeBlank? ==>
              r == Respond(Reply(400, "Todos los campos son requeridos"))
    ensures CheckPresence(RegistrationFields(body)).TypeError? ==> r == Respond(InternalError)
    ensures CheckPresence(RegistrationFields(body)).AllPresent? && Get(body, "correo").Str? && !EmailValid(Get(body, "correo").s) ==>
              r == Respond(Reply(400, "Formato de correo inválido"))
  {
    var fields := RegistrationFields(body);
    match CheckPresence(fields)
    case SomeBlank => Respond(Reply(400, "Todos los campos son requeridos"))
    case TypeError => Respond(InternalError)
    case AllPresent =>
      assert OptionalTrim(fields[2]).Filled? && OptionalTrim(fields[3]).Filled?;
      var correo, password := fields[2].s, fields[3].s;
      if !EmailValid(correo) then Respond(Reply(400, "Formato de correo inválido"))
      else if |password| < 6 then Respond(Reply(400, "La contraseña debe tener al menos 6 caracteres"))
      else Next
  }

  /** `validateLogin`: presence of both fields, then the e-mail pattern; there
      is no length check. */
  function ValidateLogin(body: map<string, Value>): (r: Outcome)
    ensures r == Next <==>
              && CheckPresence(LoginFields(body)).AllPresent?
              && Get(body, "correo").Str? && EmailValid(Get(body, "correo").s)
    ensures CheckPresence(LoginFields(body)).SomeBlank? ==>
              r == Respond(Reply(400, "Correo y contraseña son requeridos"))
    ensures CheckPresence(LoginFields(body)).TypeError? ==> r == Respond(InternalError)
  {
    var fields := LoginFields(body);
    match CheckPresence(fields)
    case SomeBlank => Respond(Reply(400, "Correo y contraseña son requeridos"))
    case TypeError => Respond(InternalError)
    case AllPresent =>
      assert OptionalTrim(fields[0]).Filled?;
      if !EmailValid(fields[0].s) then Respond(Reply(400, "Formato de correo inválido"))
      else Next
  }

  /** Login asks for a subset of the registration checks: a body that passes
      registration passes login. */
  lemma RegistrationPassesLogin(body: map<string, Value>)
    requires ValidateRegistration(body) == Next
    ensures ValidateLogin(body) == Next
  {
    var all, two := RegistrationFields(body), LoginFields(body);
    assert two[0] == all[2] && two[1] == all[3];
  }

  /** A password under six characters passes login validation, and with the
      names filled it is refused by registration for its length alone. */
  lemma ShortPasswordOnlyBlocksRegistration(body: map<string, Value>)
    requires ValidateLogin(body) == Next
    requires OptionalTrim(Get(body, "nombre")).Filled? && OptionalTrim(Get(body, "apellido")).Filled?
    requires Get(body, "password").Str? && |Get(body, "password").s| < 6
    ensures ValidateRegistration(body) == Respond(Reply(400, "La contraseña debe tener al menos 6 caracteres"))
  {
    var all, two := RegistrationFields(body), LoginFields(body);
    assert two[0] == all[2] && two[1] == all[3];
    assert OptionalTrim(two[0]).Filled? && OptionalTrim(two[1]).Filled?;
    assert CheckPresence(all).AllPresent?;
  }

  /** Presence is checked before the e-mail: a blank first name is reported
      as missing whatever the address. */
  lemma BlankNameReportedFirst(body: map<string, Value>)
    requires Get(body, "nombre") == Str("")
    ensures ValidateRegistration(body) == Respond(Reply(400, "Todos los campos son requeridos"))
  {
    assert OptionalTrim(RegistrationFields(body)[0]) == Blank;
  }
}
