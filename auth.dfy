/** The admin login route: an allow-list of addresses read from `ADMIN_EMAIL`, one
    shared password in `ADMIN_PASSWORD`, and a signed token for admins only. */
module Auth {
  import opened Wrappers
  import opened Strings

  datatype Role = Admin | User

  /** The body `{status: 'success', token, role}`; `token` is `null` (`None`) for a
      user. */
  datatype LoginReply = LoginReply(token: Option<string>, role: Role)

  /** `ADMIN_EMAIL || ''`. */
  function Configured(adminEmail: Option<string>): string {
    adminEmail.GetOr("")
  }

  /** Each piece trimmed and lower-cased (`.map(e => e.trim().toLowerCase())`). */
  function NormalizeAll(pieces: seq<string>): (r: seq<string>)
    ensures |r| == |pieces|
    ensures forall i :: 0 <= i < |r| ==> r[i] == Normalize(pieces[i])
  {
    if pieces == [] then [] else [Normalize(pieces[0])] + NormalizeAll(pieces[1..])
  }

  /** The authorised addresses: the comma-separated pieces of `ADMIN_EMAIL`, each
      trimmed and lower-cased. */
  function AllowList(adminEmail: Option<string>): (r: seq<string>)
    ensures |r| == |Split(Configured(adminEmail), ',')| >= 1
  {
    NormalizeAll(Split(Configured(adminEmail), ','))
  }

  /** Every entry of the list is already in normal form, so comparing normal forms is
      all the route needs. */
  lemma AllowListNormalized(adminEmail: Option<string>)
    ensures forall e :: e in AllowList(adminEmail) ==> Normalize(e) == e
  {
    NormalizedEntries(Split(Configured(adminEmail), ','));
  }

  lemma NormalizedEntries(pieces: seq<string>)
    ensures forall i :: 0 <= i < |pieces| ==> Normalize(NormalizeAll(pieces)[i]) == NormalizeAll(pieces)[i]
  {
    var list := NormalizeAll(pieces);
    forall i | 0 <= i < |pieces| ensures Normalize(list[i]) == list[i] {
      NormalizeIdempotent(pieces[i]);
    }
  }

  /** Whether the credentials name an admin: the address, trimmed and lower-cased, is
      on the list, and the password is exactly `ADMIN_PASSWORD` (two missing
      passwords are equal). */
  predicate Admits(email: string, password: Option<string>, adminEmail: Option<string>, adminPassword: Option<string>) {
    Normalize(email) in AllowList(adminEmail) && password == adminPassword
  }

  /** POST /login. `None` when the body has no `email`: trimming it throws and no
      reply is produced. Every other request succeeds; only an admin gets a token,
      signed over the address as given. */
  function Login(email: Option<string>, password: Option<string>, adminEmail: Option<string>,
                 adminPassword: Option<string>, sign: string -> string): (r: Option<LoginReply>)
    ensures r.None? <==> email.None?
    ensures r.Some? ==> (r.value.role == Admin <==> Admits(email.value, password, adminEmail, adminPassword))
    ensures r.Some? && r.value.role == Admin ==> r.value.token == Some(sign(email.value))
    ensures r.Some? && r.value.role == User ==> r.value.token.None?
  {
    if email.None? then None
    else if Admits(email.value, password, adminEmail, adminPassword) then
      Some(LoginReply(Some(sign(email.value)), Admin))
    else
      Some(LoginReply(None, User))
  }

  /** Surrounding white space and upper-case ASCII letters in the submitted address
      never change the outcome. */
  lemma AdminIgnoresSpaceAndCase(email: string, pre: string, post: string, password: Option<string>,
                                 adminEmail: Option<string>, adminPassword: Option<string>)
    requires AllSpace(pre) && AllSpace(post)
    ensures Admits(pre + email + post, password, adminEmail, adminPassword) <==> Admits(email, password, adminEmail, adminPassword)
    ensures Admits(ToLower(email), password, adminEmail, adminPassword) <==> Admits(email, password, adminEmail, adminPassword)
  {
    NormalizeIgnoresSpaceAndCase(email, pre, post);
  }

  /** With `ADMIN_EMAIL` set to addresses joined by commas, every one of them, in any
      case and with any surrounding white space, logs in as admin with the right
      password. */
  lemma {:induction false} EveryListedAddressIsAdmin(listed: seq<string>, k: nat, email: string, password: Option<string>,
                                                     sign: string -> string)
    requires |listed| >= 1 && forall i :: 0 <= i < |listed| ==> ',' !in listed[i]
    requires k < |listed| && Normalize(email) == Normalize(listed[k])
    ensures Login(Some(email), password, Some(Join(listed, ',')), password, sign)
            == Some(LoginReply(Some(sign(email)), Admin))
  {
    SplitJoin(listed, ',');
    var list := AllowList(Some(Join(listed, ',')));
    assert list[k] == Normalize(listed[k]);
  }

  /** With neither variable set, the list is the one empty address. */
  lemma UnsetAllowList()
    ensures AllowList(None) == [""]
  {
    SplitNoSeparator("", ',');
    assert Normalize("") == "";
  }

  /** So a blank (or all-space) address with no password logs in as admin when
      neither variable is set. */
  lemma {:induction false} UnconfiguredAdmitsBlank(email: string, sign: string -> string)
    requires AllSpace(email)
    ensures Login(Some(email), None, None, None, sign) == Some(LoginReply(Some(sign(email)), Admin))
  {
    NormalizeAllSpace(email);
    assert Admits(email, None, None, None);
  }
}
