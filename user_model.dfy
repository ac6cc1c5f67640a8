/** The account schema: role and status enums with their defaults, the email format,
    the normal form the setters give, and the account store's uniqueness invariant. */
module UserModel {
  import opened Wrappers
  import opened JsText

  datatype Role = SuperAdmin | Admin | User {
    function Name(): string {
      match this
      case SuperAdmin => "super_admin"
      case Admin => "admin"
      case User => "user"
    }
  }

  datatype AccountStatus = Active | Inactive | Suspended {
    function Name(): string {
      match this
      case Active => "active"
      case Inactive => "inactive"
      case Suspended => "suspended"
    }
  }

  const DefaultRole: Role := User
  const DefaultStatus: AccountStatus := Active

  /** A stored account; `id` is the identifier the store assigned. */
  datatype Account = Account(
    id: string,
    companyName: string,
    email: string,
    phone: string,
    passwordHash: string,
    role: Role,
    status: AccountStatus)

  /** The regular expression `^\S+@\S+\.\S+$`: no whitespace anywhere, an `@` after at
      least one character, then at least one character, a `.`, and at least one more. */
  predicate EmailPattern(s: string) {
    NoSpace(s) && exists i, j :: 0 < i && i + 1 < j < |s| - 1 && s[i] == '@' && s[j] == '.'
  }

  /** The regular expression read as it is written: three non-empty runs without
      whitespace, joined by `@` and `.`, match. */
  lemma EmailPatternOfParts(a: string, b: string, c: string)
    requires a != "" && b != "" && c != ""
    requires NoSpace(a) && NoSpace(b) && NoSpace(c)
    ensures EmailPattern(a + "@" + b + "." + c)
  {
    var s := a + "@" + b + "." + c;
    var i, j := |a|, |a| + 1 + |b|;
    assert s[i] == '@' && s[j] == '.';
    forall k | 0 <= k < |s| ensures !IsSpace(s[k]) {
      if k < i {
        assert s[k] == a[k];
      } else if i < k < j {
        assert s[k] == b[k - i - 1];
      } else if j < k {
        assert s[k] == c[k - j - 1];
      }
    }
  }

  /** ... and every match splits that way. */
  lemma EmailPatternParts(s: string) returns (a: string, b: string, c: string)
    requires EmailPattern(s)
    ensures s == a + "@" + b + "." + c
    ensures a != "" && b != "" && c != ""
    ensures NoSpace(a) && NoSpace(b) && NoSpace(c)
  {
    var i, j :| 0 < i && i + 1 < j < |s| - 1 && s[i] == '@' && s[j] == '.';
    a, b, c := s[..i], s[i + 1..j], s[j + 1..];
    assert s == a + "@" + b + "." + c;
  }

  /** The value the email setters (`lowercase`, `trim`) store. */
  function NormalEmail(e: string): string {
    Trim(ToLower(e))
  }

  /** Running the setters again on a stored email changes nothing. */
  lemma NormalEmailIdempotent(e: string)
    ensures NormalEmail(NormalEmail(e)) == NormalEmail(e)
  {
    var t := Trim(ToLower(e));
    LowerIsLowerCase(e);
    TrimKeeps(ToLower(e), c => !('A' <= c <= 'Z'));
    LowerIsLowerCase(t);
    TrimIdempotent(ToLower(e));
  }

  /** An address that passes the format check is stored lower-cased, with nothing to
      trim, and still passes it. */
  lemma NormalEmailKeepsPattern(e: string)
    requires EmailPattern(e)
    ensures NormalEmail(e) == ToLower(e)
    ensures EmailPattern(NormalEmail(e))
  {
    CaseKeepsSpace(e);
    var l := ToLower(e);
    var i, j :| 0 < i && i + 1 < j < |e| - 1 && e[i] == '@' && e[j] == '.';
    assert l[i] == '@' && l[j] == '.';
  }

  /** What the schema's validators demand of an account: a non-empty company name, an
      email matching the pattern, and a password hash. Role and status are enums, and
      the model's types admit nothing else. */
  predicate PassesValidation(u: Account) {
    u.companyName != "" && EmailPattern(u.email) && u.passwordHash != ""
  }

  /** A stored account: valid, and in the normal form its setters give. */
  predicate WellFormed(u: Account) {
    && PassesValidation(u)
    && Trim(u.companyName) == u.companyName
    && NormalEmail(u.email) == u.email
    && Trim(u.phone) == u.phone
  }

  /** The account store: every account well formed, identifiers distinct, and emails
      distinct (the unique index on `email`). */
  predicate AccountsValid(accounts: seq<Account>) {
    && (forall i :: 0 <= i < |accounts| ==> WellFormed(accounts[i]))
    && (forall i, j :: 0 <= i < j < |accounts| ==> accounts[i].id != accounts[j].id)
    && EmailsUnique(accounts)
  }

  predicate EmailsUnique(accounts: seq<Account>) {
    forall i, j :: 0 <= i < j < |accounts| ==> accounts[i].email != accounts[j].email
  }

  /** Appending a well-formed account whose id and email are new keeps the store valid. */
  lemma AppendKeepsValid(accounts: seq<Account>, u: Account)
    requires AccountsValid(accounts) && WellFormed(u)
    requires forall v :: v in accounts ==> v.id != u.id && v.email != u.email
    ensures AccountsValid(accounts + [u])
  {
    var s := accounts + [u];
    forall i | 0 <= i < |s| ensures WellFormed(s[i]) {
      if i < |accounts| {
        assert s[i] == accounts[i];
      }
    }
    forall i, j | 0 <= i < j < |s| ensures s[i].id != s[j].id && s[i].email != s[j].email {
      assert s[i] == accounts[i];
      if j == |accounts| {
        assert accounts[i] in accounts;
      } else {
        assert s[j] == accounts[j];
      }
    }
  }

  /** The two fields handlers look accounts up by: `findById` and `findOne({ email })`. */
  datatype KeyField = IdKey | EmailKey {
    function Of(u: Account): string {
      if IdKey? then u.id else u.email
    }
  }

  /** `User.findById(id)` and `User.findOne({ email })`: the first account whose field
      holds the value. */
  function FindBy(field: KeyField, accounts: seq<Account>, value: string): (r: Option<Account>)
    ensures r.Some? ==> r.value in accounts && field.Of(r.value) == value
    ensures r.None? <==> forall u :: u in accounts ==> field.Of(u) != value
  {
    if accounts == [] then None
    else if field.Of(accounts[0]) == value then Some(accounts[0])
    else FindBy(field, accounts[1..], value)
  }

  /** An account added under an email no account had is the one a lookup by that email
      finds. */
  lemma {:induction false} FindByEmailAppended(accounts: seq<Account>, u: Account)
    requires FindBy(EmailKey, accounts, u.email).None?
    ensures FindBy(EmailKey, accounts + [u], u.email) == Some(u)
  {
    if accounts != [] {
      assert (accounts + [u])[1..] == accounts[1..] + [u];
      FindByEmailAppended(accounts[1..], u);
    }
  }

  /** An account whose email the lookup does not find, with a new id, can be appended
      to a valid store. */
  lemma AppendUnfoundKeepsValid(accounts: seq<Account>, u: Account)
    requires AccountsValid(accounts) && WellFormed(u)
    requires forall v :: v in accounts ==> v.id != u.id
    requires FindBy(EmailKey, accounts, u.email).None?
    ensures AccountsValid(accounts + [u])
  {
    forall v | v in accounts ensures v.email != u.email {
      assert EmailKey.Of(v) == v.email;
    }
    AppendKeepsValid(accounts, u);
  }

  /** With emails unique, the account an email lookup finds is the only one holding it. */
  lemma {:induction false} FindByEmailUnique(accounts: seq<Account>, u: Account)
    requires EmailsUnique(accounts)
    requires u in accounts
    ensures FindBy(EmailKey, accounts, u.email) == Some(u)
  {
    var k :| 0 <= k < |accounts| && accounts[k] == u;
    if k > 0 {
      assert accounts[0].email != u.email;
      assert EmailsUnique(accounts[1..]);
      assert accounts[1..][k - 1] == u;
      FindByEmailUnique(accounts[1..], u);
    }
  }
}
