/** Registration, login and the current-identity lookup. Password hashing, comparison and
    token signing are parameters (`Crypto`); the account collection is a sequence. */
module AuthController {
  import opened Wrappers
  import opened JsText
  import opened JsValues
  import opened UserModel
  import opened AuthGate

  /** bcrypt and JWT signing, left uninterpreted. */
  datatype Crypto = Crypto(
    hash: string -> string,
    compare: (string, string) -> bool,
    sign: Claims -> string)

  /** A password always matches its own hash. */
  ghost predicate HashSound(crypto: Crypto) {
    forall p :: crypto.compare(p, crypto.hash(p))
  }

  /** The body fields the two forms validate, named as in the error record. */
  datatype Field = CompanyName | Email | Phone | Password | ConfirmPassword {
    function Key(): string {
      match this
      case CompanyName => "companyName"
      case Email => "email"
      case Phone => "phone"
      case Password => "password"
      case ConfirmPassword => "confirmPassword"
    }
  }

  const RegisterFields: set<Field> := {CompanyName, Email, Phone, Password, ConfirmPassword}
  const LoginFields: set<Field> := {Email, Password}

  const CompanyNameRequired := "Company name is required"
  const EmailRequired := "Email is required"
  const EmailInvalid := "Invalid email format"
  const PhoneRequired := "Phone number is required"
  const PasswordRequired := "Password is required"
  const PasswordTooShort := "Password must be at least 8 characters"
  const ConfirmRequired := "Please confirm your password"
  const ConfirmMismatch := "Passwords do not match"
  const EmailTakenMessage := "An account with this email already exists"
  const BadCredentialsMessage := "Invalid email or password"
  const SuspendedMessage := "Your account has been suspended. Please contact support."

  /** The outcome of one field's check: passes, records a message, or throws (a value
      other than a string where `?.trim()` is called). */
  datatype Check = Pass | Fail(message: string) | Throws

  /** `if (!v?.trim()) errors.f = message` */
  function RequiredText(v: JsValue, message: string): Check {
    var t := OptionalTrim(v);
    if t.NotAString? then Throws else if BlankAfterTrim(t) then Fail(message) else Pass
  }

  /** The email check both forms share: required, then the pattern on the raw value. */
  function EmailCheck(v: JsValue): (c: Check)
    ensures c == Pass <==> v.Str? && Trim(v.s) != "" && EmailPattern(v.s)
  {
    var t := OptionalTrim(v);
    if t.NotAString? then Throws
    else if BlankAfterTrim(t) then Fail(EmailRequired)
    else if !EmailPattern(v.s) then Fail(EmailInvalid)
    else Pass
  }

  /** Register's password check: required (truthy), then `password.length < 8`. */
  function PasswordCheck(p: JsValue): Check {
    if !Truthy(p) then Fail(PasswordRequired)
    else if LooselyBelow(LengthOf(p), 8.0) then Fail(PasswordTooShort)
    else Pass
  }

  /** Register's confirmation check: required (truthy), then `password !== confirmPassword`. */
  function ConfirmCheck(p: JsValue, c: JsValue): Check {
    if !Truthy(c) then Fail(ConfirmRequired)
    else if !StrictEquals(p, c) then Fail(ConfirmMismatch)
    else Pass
  }

  function RegisterCheck(body: JsObject, f: Field): Check {
    match f
    case CompanyName => RequiredText(Lookup(body, "companyName"), CompanyNameRequired)
    case Email => EmailCheck(Lookup(body, "email"))
    case Phone => RequiredText(Lookup(body, "phone"), PhoneRequired)
    case Password => PasswordCheck(Lookup(body, "password"))
    case ConfirmPassword => ConfirmCheck(Lookup(body, "password"), Lookup(body, "confirmPassword"))
  }

  function LoginCheck(body: JsObject, f: Field): Check {
    match f
    case Email => EmailCheck(Lookup(body, "email"))
    case Password => if Truthy(Lookup(body, "password")) then Pass else Fail(PasswordRequired)
    case _ => Pass
  }

  /** The error record a form builds: every field of `fields` is checked, and each failed
      check leaves its own entry. `None` when a check throws. */
  function Collect(fields: set<Field>, check: Field -> Check): (r: Option<map<Field, string>>)
    ensures r.None? <==> exists f :: f in fields && check(f) == Throws
    ensures r.Some? ==> r.value.Keys <= fields
    ensures r.Some? ==> forall f :: f in fields ==>
      (f in r.value <==> check(f).Fail?) && (f in r.value ==> r.value[f] == check(f).message)
  {
    if exists f :: f in fields && check(f) == Throws then None
    else Some(map f | f in fields && check(f).Fail? :: check(f).message)
  }

  /** The record is empty exactly when every check passes. */
  lemma CollectEmpty(fields: set<Field>, check: Field -> Check)
    ensures Collect(fields, check) == Some(map[]) <==> forall f :: f in fields ==> check(f) == Pass
  {
    var r := Collect(fields, check);
    if forall f :: f in fields ==> check(f) == Pass {
      assert r.Some?;
      assert r.value.Keys == {};
    } else if r.Some? {
      var f :| f in fields && check(f) != Pass;
      assert f in r.value;
    }
  }

  function RegistrationErrors(body: JsObject): Option<map<Field, string>> {
    Collect(RegisterFields, f => RegisterCheck(body, f))
  }

  function LoginErrors(body: JsObject): Option<map<Field, string>> {
    Collect(LoginFields, f => LoginCheck(body, f))
  }

  /** The login form passes exactly when the email is a well-formed string and the
      password is present. */
  lemma LoginFormAccepted(body: JsObject)
    ensures LoginErrors(body) == Some(map[]) <==>
      var e := Lookup(body, "email");
      e.Str? && Trim(e.s) != "" && EmailPattern(e.s) && Truthy(Lookup(body, "password"))
  {
    CollectEmpty(LoginFields, f => LoginCheck(body, f));
    assert Email in LoginFields && Password in LoginFields;
  }

  /** A password shorter than 8 UTF-16 code units gets its own entry, side by side with every
      other field's. */
  lemma ShortPasswordReported(body: JsObject, errors: map<Field, string>)
    requires RegistrationErrors(body) == Some(errors)
    requires Lookup(body, "password").Str? && Lookup(body, "password").s != ""
    requires Utf16Length(Lookup(body, "password").s) < 8
    ensures Password in errors && errors[Password] == PasswordTooShort
  {
    var p := Lookup(body, "password");
    assert Truthy(p);
    assert LengthOf(p) == Num(Utf16Length(p.s) as real);
    assert ToNumber(LengthOf(p)) == Finite(Utf16Length(p.s) as real);
    assert PasswordCheck(p) == Fail(PasswordTooShort);
    assert Password in RegisterFields;
    assert (f => RegisterCheck(body, f))(Password) == Fail(PasswordTooShort);
  }

  /** The length check counts UTF-16 code units: four emoji are eight of them, long
      enough to pass. */
  lemma AstralPasswordLongEnough()
    ensures PasswordCheck(Str("\U{1F600}\U{1F600}\U{1F600}\U{1F600}")) == Pass
  {
    AstralPairsCountTwice();
  }

  /** A confirmation that differs from the password gets its own entry, side by side with
      every other field's. */
  lemma MismatchReported(body: JsObject, errors: map<Field, string>)
    requires RegistrationErrors(body) == Some(errors)
    requires Truthy(Lookup(body, "confirmPassword"))
    requires !StrictEquals(Lookup(body, "password"), Lookup(body, "confirmPassword"))
    ensures ConfirmPassword in errors && errors[ConfirmPassword] == ConfirmMismatch
  {
    assert ConfirmPassword in RegisterFields;
    assert RegisterCheck(body, ConfirmPassword) == Fail(ConfirmMismatch);
  }

  /** A form without errors passed every one of register's checks. */
  lemma RegisterCheckPassed(body: JsObject, f: Field)
    requires RegistrationErrors(body) == Some(map[])
    ensures RegisterCheck(body, f) == Pass
  {
    CollectEmpty(RegisterFields, f => RegisterCheck(body, f));
    assert f in RegisterFields;
  }

  /** With everything valid, register's checks leave the email as a well-formed string. */
  lemma ValidRegistration(body: JsObject)
    requires RegistrationErrors(body) == Some(map[])
    ensures Lookup(body, "email").Str? && EmailPattern(Lookup(body, "email").s)
    ensures Lookup(body, "companyName").Str? && Trim(Lookup(body, "companyName").s) != ""
    ensures Lookup(body, "phone").Str? && Trim(Lookup(body, "phone").s) != ""
    ensures Truthy(Lookup(body, "password"))
    ensures StrictEquals(Lookup(body, "password"), Lookup(body, "confirmPassword"))
  {
    RegisterCheckPassed(body, CompanyName);
    RegisterCheckPassed(body, Email);
    RegisterCheckPassed(body, Phone);
    RegisterCheckPassed(body, Password);
    RegisterCheckPassed(body, ConfirmPassword);
    var p, c := Lookup(body, "password"), Lookup(body, "confirmPassword");
    assert PasswordCheck(p) == Pass;
    assert ConfirmCheck(p, c) == Pass;
  }

  /** An account as a response shows it: without its password hash. */
  datatype PublicAccount = PublicAccount(
    id: string,
    companyName: string,
    email: string,
    phone: string,
    role: Role,
    status: AccountStatus)

  function Public(u: Account): (p: PublicAccount)
    ensures p.id == u.id && p.email == u.email && p.role == u.role && p.status == u.status
    ensures p.companyName == u.companyName && p.phone == u.phone
  {
    PublicAccount(u.id, u.companyName, u.email, u.phone, u.role, u.status)
  }

  /** The public view is the same whatever the password hash is. */
  lemma PublicHidesHash(u: Account, h: string)
    ensures Public(u.(passwordHash := h)) == Public(u)
  {
  }

  /** The claims `signToken` puts in a token. */
  function ClaimsOf(u: Account): Claims {
    Claims(u.id, u.email, u.role, u.companyName)
  }

  datatype RegisterResponse =
    | RegisterRejected(errors: map<Field, string>)
    | EmailTaken
    | Registered(token: string, user: PublicAccount)
    | RegisterForwarded
  {
    /** The status code; a forwarded exception reaches the global error handler, which
        answers 500. */
    function Status(): int {
      match this
      case RegisterRejected(_) => 422
      case EmailTaken => 409
      case Registered(_, _) => 201
      case RegisterForwarded => 500
    }
  }

  /** The account `User.create` is given, after the checks have passed. */
  function NewAccount(body: JsObject, passwordHash: string, id: string): Account
    requires Lookup(body, "companyName").Str? && Lookup(body, "email").Str? && Lookup(body, "phone").Str?
  {
    Account(
      id,
      Trim(Lookup(body, "companyName").s),
      NormalEmail(Lookup(body, "email").s),
      Trim(Lookup(body, "phone").s),
      passwordHash,
      User,
      Active)
  }

  /** `register`: validate every field (422), refuse a taken email (409), hash the
      password (which rejects a non-string), create the account as a plain active user
      and answer with a token (201). `newId` is the identifier the store assigns. */
  function RegisterStep(accounts: seq<Account>, body: JsObject, crypto: Crypto, newId: string)
    : Step<RegisterResponse, seq<Account>>
  {
    match RegistrationErrors(body)
    case None => Step(RegisterForwarded, accounts)
    case Some(errors) =>
      if |errors| > 0 then Step(RegisterRejected(errors), accounts)
      else
        ValidRegistration(body);
        var email := Lookup(body, "email").s;
        var password := Lookup(body, "password");
        if FindBy(EmailKey, accounts, NormalEmail(email)).Some? then Step(EmailTaken, accounts)
        else if !password.Str? then Step(RegisterForwarded, accounts)
        else
          var account := NewAccount(body, crypto.hash(password.s), newId);
          if !PassesValidation(account) then Step(RegisterForwarded, accounts)
          else Step(Registered(crypto.sign(ClaimsOf(account)), Public(account)), accounts + [account])
  }

  /** Register changes the store only when it answers 201, and then by appending exactly
      one account: a plain active user whose email is the submitted one lower-cased and
      trimmed, shown in the response without its hash. */
  lemma RegisterOutcome(accounts: seq<Account>, body: JsObject, crypto: Crypto, newId: string)
    ensures var s := RegisterStep(accounts, body, crypto, newId);
      !s.response.Registered? ==> s.state == accounts
    ensures var s := RegisterStep(accounts, body, crypto, newId);
      s.response.Registered? ==>
        && Lookup(body, "email").Str?
        && |s.state| == |accounts| + 1 && s.state[..|accounts|] == accounts
        && var u := s.state[|accounts|];
           && u.id == newId && u.role == DefaultRole && u.status == DefaultStatus
           && u.email == NormalEmail(Lookup(body, "email").s)
           && s.response.user == Public(u)
           && s.response.token == crypto.sign(ClaimsOf(u))
  {
    var s := RegisterStep(accounts, body, crypto, newId);
    if s.response.Registered? {
      assert s.state[..|accounts|] == accounts;
    }
  }

  /** Failed validation answers 422 with the complete error record and changes nothing. */
  lemma RegisterValidationFirst(accounts: seq<Account>, body: JsObject, crypto: Crypto, newId: string)
    requires RegistrationErrors(body).Some? && |RegistrationErrors(body).value| > 0
    ensures RegisterStep(accounts, body, crypto, newId)
      == Step(RegisterRejected(RegistrationErrors(body).value), accounts)
  {
  }

  /** A valid form whose email, lower-cased, already belongs to an account answers 409 and
      creates nothing, whatever the other fields hold. */
  lemma RegisterTakenEmail(accounts: seq<Account>, body: JsObject, crypto: Crypto, newId: string, u: Account)
    requires RegistrationErrors(body) == Some(map[])
    requires u in accounts && Lookup(body, "email").Str? && u.email == NormalEmail(Lookup(body, "email").s)
    ensures RegisterStep(accounts, body, crypto, newId) == Step(EmailTaken, accounts)
  {
  }

  /** What a 201 from register implies: the form was valid, the email was free, and the
      store grew by the account built from the form and the hashed password. */
  lemma RegisteredShape(accounts: seq<Account>, body: JsObject, crypto: Crypto, newId: string)
    requires RegisterStep(accounts, body, crypto, newId).response.Registered?
    ensures RegistrationErrors(body) == Some(map[])
    ensures Lookup(body, "email").Str? && Lookup(body, "companyName").Str?
    ensures Lookup(body, "phone").Str? && Lookup(body, "password").Str?
    ensures FindBy(EmailKey, accounts, NormalEmail(Lookup(body, "email").s)).None?
    ensures var account := NewAccount(body, crypto.hash(Lookup(body, "password").s), newId);
      && PassesValidation(account)
      && RegisterStep(accounts, body, crypto, newId)
         == Step(Registered(crypto.sign(ClaimsOf(account)), Public(account)), accounts + [account])
  {
    var errors := RegistrationErrors(body);
    assert errors.Some? && |errors.value| == 0;
    assert errors.value == map[];
    ValidRegistration(body);
    var email, password := Lookup(body, "email").s, Lookup(body, "password");
    assert FindBy(EmailKey, accounts, NormalEmail(email)).None?;
    assert password.Str?;
  }

  /** The account register builds from a valid form is in the store's normal form. */
  lemma NewAccountWellFormed(body: JsObject, passwordHash: string, id: string)
    requires RegistrationErrors(body) == Some(map[])
    requires Lookup(body, "companyName").Str? && Lookup(body, "email").Str? && Lookup(body, "phone").Str?
    requires PassesValidation(NewAccount(body, passwordHash, id))
    ensures WellFormed(NewAccount(body, passwordHash, id))
  {
    NormalEmailIdempotent(Lookup(body, "email").s);
    TrimIdempotent(Lookup(body, "companyName").s);
    TrimIdempotent(Lookup(body, "phone").s);
  }

  /** Register keeps the store's invariant: valid, normalised accounts with distinct ids
      and distinct emails. */
  lemma RegisterKeepsStoreValid(accounts: seq<Account>, body: JsObject, crypto: Crypto, newId: string)
    requires AccountsValid(accounts)
    requires forall u :: u in accounts ==> u.id != newId
    ensures AccountsValid(RegisterStep(accounts, body, crypto, newId).state)
  {
    if RegisterStep(accounts, body, crypto, newId).response.Registered? {
      RegisteredShape(accounts, body, crypto, newId);
      var account := NewAccount(body, crypto.hash(Lookup(body, "password").s), newId);
      NewAccountWellFormed(body, crypto.hash(Lookup(body, "password").s), newId);
      AppendUnfoundKeepsValid(accounts, account);
    } else {
      RegisterOutcome(accounts, body, crypto, newId);
    }
  }

  datatype LoginResponse =
    | LoginRejected(errors: map<Field, string>)
    | InvalidCredentials
    | AccountSuspended
    | LoggedIn(token: string, user: PublicAccount)
    | LoginForwarded
  {
    function Status(): int {
      match this
      case LoginRejected(_) => 422
      case InvalidCredentials => 401
      case AccountSuspended => 403
      case LoggedIn(_, _) => 200
      case LoginForwarded => 500
    }

    function Message(): string {
      match this
      case LoginRejected(_) => ""
      case InvalidCredentials => BadCredentialsMessage
      case AccountSuspended => SuspendedMessage
      case LoggedIn(_, _) => "Login successful"
      case LoginForwarded => ""
    }
  }

  /** `login`: validate (422), find the account by lower-cased email (401), refuse an
      account that is not active (403) before the password is compared, compare (401, or
      an exception for a non-string password), and answer with a token. It reads the
      store and never writes it. */
  function Login(accounts: seq<Account>, body: JsObject, crypto: Crypto): LoginResponse {
    match LoginErrors(body)
    case None => LoginForwarded
    case Some(errors) =>
      if |errors| > 0 then LoginRejected(errors)
      else
        assert Email in LoginFields && LoginCheck(body, Email) == Pass;
        var email := Lookup(body, "email").s;
        var password := Lookup(body, "password");
        match FindBy(EmailKey, accounts, NormalEmail(email))
        case None => InvalidCredentials
        case Some(u) =>
          if u.status != Active then AccountSuspended
          else if !password.Str? then LoginForwarded
          else if !crypto.compare(password.s, u.passwordHash) then InvalidCredentials
          else LoggedIn(crypto.sign(ClaimsOf(u)), Public(u))
  }

  /** An unknown email and a wrong password get the identical answer, so a response never
      tells whether an account exists. */
  lemma UnknownEmailLooksLikeWrongPassword(accounts: seq<Account>, body: JsObject, crypto: Crypto)
    requires LoginErrors(body) == Some(map[])
    ensures var r := Login(accounts, body, crypto);
      var email := NormalEmail(Lookup(body, "email").s);
      var password := Lookup(body, "password");
      (FindBy(EmailKey, accounts, email).None?
        || (FindBy(EmailKey, accounts, email).value.status == Active && password.Str?
            && !crypto.compare(password.s, FindBy(EmailKey, accounts, email).value.passwordHash)))
      <==> r == InvalidCredentials
  {
    assert Email in LoginFields && LoginCheck(body, Email) == Pass;
  }

  /** An account that is not active gets 403 before its password is looked at: whatever
      password the form carries, right or wrong, the answer is the same. */
  lemma InactiveAccountRefused(accounts: seq<Account>, body: JsObject, crypto: Crypto, u: Account)
    requires LoginErrors(body) == Some(map[])
    requires AccountsValid(accounts) && u in accounts && u.status != Active
    requires Lookup(body, "email").Str? && NormalEmail(Lookup(body, "email").s) == u.email
    ensures Login(accounts, body, crypto) == AccountSuspended
  {
    FindByEmailUnique(accounts, u);
  }

  /** Login succeeds exactly along the last path: a valid form, an active account under
      the email, and a password that matches its hash give that account's token and
      public view. */
  lemma LoginSucceeds(accounts: seq<Account>, body: JsObject, crypto: Crypto, u: Account)
    requires LoginErrors(body) == Some(map[])
    requires Lookup(body, "email").Str? && FindBy(EmailKey, accounts, NormalEmail(Lookup(body, "email").s)) == Some(u)
    requires u.status == Active && Lookup(body, "password").Str?
    requires crypto.compare(Lookup(body, "password").s, u.passwordHash)
    ensures Login(accounts, body, crypto) == LoggedIn(crypto.sign(ClaimsOf(u)), Public(u))
  {
  }

  /** Whoever has just registered can log in with the same email and password. */
  lemma RegisterThenLogin(accounts: seq<Account>, body: JsObject, crypto: Crypto, newId: string)
    requires HashSound(crypto)
    requires RegisterStep(accounts, body, crypto, newId).response.Registered?
    ensures var s := RegisterStep(accounts, body, crypto, newId);
      var login := map["email" := Lookup(body, "email"), "password" := Lookup(body, "password")];
      Login(s.state, login, crypto).LoggedIn? &&
      Login(s.state, login, crypto).user == s.response.user
  {
    RegisteredShape(accounts, body, crypto, newId);
    ValidRegistration(body);
    var password := Lookup(body, "password").s;
    var account := NewAccount(body, crypto.hash(password), newId);
    FindByEmailAppended(accounts, account);
    var login := map["email" := Lookup(body, "email"), "password" := Lookup(body, "password")];
    assert Lookup(login, "email") == Lookup(body, "email");
    assert Lookup(login, "password") == Lookup(body, "password");
    LoginFormAccepted(login);
    assert crypto.compare(password, account.passwordHash);
    LoginSucceeds(accounts + [account], login, crypto, account);
  }

  datatype MeResponse = AccountNotFound | Me(user: PublicAccount) {
    function Status(): int {
      if AccountNotFound? then 404 else 200
    }
  }

  /** `getMe`: the account whose id the token claims, without its hash, or 404 when no
      account has it (or no user is attached). */
  function GetMe(accounts: seq<Account>, user: Option<Claims>): (r: MeResponse)
    ensures r == AccountNotFound <==> user.None? || forall u :: u in accounts ==> u.id != user.value.id
    ensures r.Me? ==> exists u :: u in accounts && u.id == user.value.id && r.user == Public(u)
  {
    if user.None? then AccountNotFound
    else match FindBy(IdKey, accounts, user.value.id)
      case None => AccountNotFound
      case Some(u) => Me(Public(u))
  }

  /** The account collection, to which registration appends. */
  class AccountStore {
    var accounts: seq<Account>

    ghost predicate Valid()
      reads this
    {
      AccountsValid(accounts)
    }

    constructor ()
      ensures Valid() && accounts == []
    {
      accounts := [];
    }

    /** `register` against this store; `newId` is the identifier the database assigns,
        distinct from every stored one. */
    method Register(body: JsObject, crypto: Crypto, newId: string) returns (resp: RegisterResponse)
      requires Valid()
      requires forall u :: u in accounts ==> u.id != newId
      modifies this
      ensures Valid()
      ensures Step(resp, accounts) == RegisterStep(old(accounts), body, crypto, newId)
    {
      RegisterKeepsStoreValid(accounts, body, crypto, newId);
      var checked := RegistrationErrors(body);
      if checked.None? {
        return RegisterForwarded;
      }
      var errors := checked.value;
      if |errors| > 0 {
        return RegisterRejected(errors);
      }
      ValidRegistration(body);
      var email := Lookup(body, "email").s;
      var existing := FindBy(EmailKey, accounts, NormalEmail(email));
      if existing.Some? {
        return EmailTaken;
      }
      var password := Lookup(body, "password");
      if !password.Str? {
        return RegisterForwarded;
      }
      var passwordHash := crypto.hash(password.s);
      var account := NewAccount(body, passwordHash, newId);
      if !PassesValidation(account) {
        return RegisterForwarded;
      }
      accounts := accounts + [account];
      var token := crypto.sign(ClaimsOf(account));
      resp := Registered(token, Public(account));
    }
  }
}
