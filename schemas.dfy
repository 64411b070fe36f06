/**
 * The zod schemas of the login and register forms. Their values are strings
 * (the form fields); `z.string().email()` is the parameter `isEmail`, and
 * `.min(n)` compares JavaScript's `.length`, which counts UTF-16 code units.
 * The backend's @MinLength counts differently (see JsStrings), so the form and
 * the backend agree on passwords only for plain text.
 */
module FormSchemas {
  import Auth
  import Validation
  import opened JsStrings

  datatype LoginForm = LoginForm(email: string, password: string)
  datatype RegisterForm = RegisterForm(name: string, email: string, password: string)

  /** LoginSchema: a well-formed email and a password at least one unit long. */
  predicate LoginSchema(f: LoginForm, isEmail: string -> bool) {
    isEmail(f.email) && Utf16Length(f.password) >= 1
  }

  /** RegisterSchema: a name at least two units long, an email, a password of at least six units. */
  predicate RegisterSchema(f: RegisterForm, isEmail: string -> bool) {
    Utf16Length(f.name) >= 2 && isEmail(f.email) && Utf16Length(f.password) >= 6
  }

  /** The body the register page posts: the form's values, as they are. */
  function RegisterBody(f: RegisterForm): Auth.RegisterDto {
    Auth.RegisterDto(f.email, f.password, f.name)
  }

  function LoginBody(f: LoginForm): Auth.LoginDto {
    Auth.LoginDto(f.email, f.password)
  }

  /**
   * A registration the form lets through has the non-empty name the backend
   * demands. For a plain password (no astral character, no presentation
   * selector) it also has the backend's password length, and then, when the
   * form's email check is at least as strict as the backend's, the backend
   * accepts the whole body.
   */
  lemma RegisterSchemaMeetsDto(f: RegisterForm, formEmail: string -> bool, isEmail: string -> bool)
    requires RegisterSchema(f, formEmail)
    ensures f.name != ""
    ensures Plain(f.password) ==> ValidatorLength(f.password) >= 6
    ensures (Plain(f.password) && forall s :: formEmail(s) ==> isEmail(s)) ==>
      Validation.ValidRegister(Validation.RegisterJson(RegisterBody(f)), isEmail)
  {
    LengthMeasures(f.name);
    LengthMeasures(f.password);
    Validation.RegisterJsonValid(RegisterBody(f), isEmail);
  }

  /**
   * Without the plainness the form is weaker than the backend: three astral
   * characters (three emoji, say) are six UTF-16 units and pass the form, but
   * isLength counts three and the backend refuses the registration.
   */
  lemma AstralPasswordPassesFormOnly(f: RegisterForm, isEmail: string -> bool)
    requires Utf16Length(f.name) >= 2 && isEmail(f.email)
    requires |f.password| == 3 && forall i :: 0 <= i < 3 ==> Astral(f.password[i])
    ensures RegisterSchema(f, isEmail)
    ensures !Validation.ValidRegister(Validation.RegisterJson(RegisterBody(f)), isEmail)
  {
    LengthMeasures(f.password);
    Validation.RegisterJsonValid(RegisterBody(f), isEmail);
  }

  /** A password the backend accepts is long enough for the form too, whatever its characters. */
  lemma DtoPasswordMeetsForm(f: RegisterForm, isEmail: string -> bool)
    requires Validation.ValidRegister(Validation.RegisterJson(RegisterBody(f)), isEmail)
    ensures Utf16Length(f.password) >= 6
  {
    LengthMeasures(f.password);
    Validation.RegisterJsonValid(RegisterBody(f), isEmail);
  }

  /**
   * For names the form is the stricter one: a one-character name passes the
   * backend, and passes the form exactly when it is an astral character, which
   * UTF-16 writes in two units.
   */
  lemma RegisterSchemaStricter(f: RegisterForm, isEmail: string -> bool)
    requires |f.name| == 1 && isEmail(f.email) && ValidatorLength(f.password) >= 6
    ensures Validation.ValidRegister(Validation.RegisterJson(RegisterBody(f)), isEmail)
    ensures RegisterSchema(f, isEmail) <==> Astral(f.name[0])
  {
    LengthMeasures(f.password);
    assert f.name[1..] == [];
    assert Utf16Length(f.name) == if Astral(f.name[0]) then 2 else 1;
    Validation.RegisterJsonValid(RegisterBody(f), isEmail);
  }

  /** With the same email check, the login form and LoginDto accept the same credentials. */
  lemma LoginSchemaMatchesDto(f: LoginForm, isEmail: string -> bool)
    ensures LoginSchema(f, isEmail) <==> Validation.ValidLogin(Validation.LoginJson(LoginBody(f)), isEmail)
  {
    LengthMeasures(f.password);
    Validation.LoginJsonValid(LoginBody(f), isEmail);
  }
}
