/** The account/identity store behind the authentication service: two
    in-memory tables standing for the account table and the sign-in
    provider table, the `where` conditions the service writes, the queries
    (`findFirst`, `findUnique`, `findMany`, `upsert`) with their documented
    meaning, and the service object whose `create` and `updateProvider`
    change the tables. */
module AuthRepository {
  import opened Wrappers
  import opened AccountModel

  /** The two tables, rows in insertion order. */
  datatype Tables = Tables(accounts: seq<Account>, signInProviders: seq<SignInProvider>)

  /** Why a repository call fails. */
  datatype RepositoryError =
    | InvalidCreationMethod  // no creation shape was recognised
    | UniqueViolation        // storage refuses a second row with the same id, email or phone
    | ForeignKeyViolation    // storage refuses a link to an account that does not exist

  /* ---------------------------------------------------------------------
     Keys and the consistency of the tables
     --------------------------------------------------------------------- */

  /** The compound unique key `accountId_provider_providerId` of a link. */
  datatype LinkKey = LinkKey(accountId: string, provider: SignInProviderEnum, providerId: string)

  function KeyOf(l: SignInProvider): LinkKey {
    LinkKey(l.accountId, l.provider, l.providerId)
  }

  function Ids(accounts: seq<Account>): set<string> {
    set a | a in accounts :: a.id
  }

  /** The accounts that own at least one link. */
  function Owners(links: seq<SignInProvider>): set<string> {
    set l | l in links :: l.accountId
  }

  function Keys(links: seq<SignInProvider>): set<LinkKey> {
    set l | l in links :: KeyOf(l)
  }

  /** No two links share a link key. */
  ghost predicate KeysUnique(links: seq<SignInProvider>) {
    forall j, k | 0 <= j < k < |links| :: KeyOf(links[j]) != KeyOf(links[k])
  }

  /** No two account rows share an id. */
  ghost predicate IdsDistinct(accounts: seq<Account>) {
    forall j, k | 0 <= j < k < |accounts| :: accounts[j].id != accounts[k].id
  }

  /** JavaScript truthiness of an optional string: absent and "" are false. */
  predicate Truthy(s: Option<string>) {
    s.Some? && s.value != ""
  }

  /** The account can be reached through some identity: a non-empty email or
      phone, or a provider link. */
  predicate HasChannel(a: Account, links: seq<SignInProvider>) {
    Truthy(a.email) || Truthy(a.phone) || a.id in Owners(links)
  }

  /** What the storage constraints and the service keep true of the tables:
      unique ids, emails and phones; each config belongs to its account;
      unique link keys; every link points at an existing account; and no
      account without an identity channel. */
  ghost predicate Consistent(t: Tables) {
    && IdsDistinct(t.accounts)
    && (forall j, k | 0 <= j < k < |t.accounts| && t.accounts[j].email.Some? ::
          t.accounts[j].email != t.accounts[k].email)
    && (forall j, k | 0 <= j < k < |t.accounts| && t.accounts[j].phone.Some? ::
          t.accounts[j].phone != t.accounts[k].phone)
    && (forall a | a in t.accounts :: a.config.accountId == a.id)
    && KeysUnique(t.signInProviders)
    && Owners(t.signInProviders) <= Ids(t.accounts)
    && (forall a | a in t.accounts :: HasChannel(a, t.signInProviders))
  }

  /* ---------------------------------------------------------------------
     Where conditions and the generic queries
     --------------------------------------------------------------------- */

  /** Every link of account `id` has this provider and provider id (Prisma's
      `every` on a to-many relation: true when the account has no links). */
  predicate AllLinksAre(links: seq<SignInProvider>, id: string, provider: SignInProviderEnum, providerId: string) {
    forall l | l in links && l.accountId == id :: l.provider == provider && l.providerId == providerId
  }

  /** Some link of account `id` has this provider and provider id (Prisma's `some`). */
  predicate SomeLinkIs(links: seq<SignInProvider>, id: string, provider: SignInProviderEnum, providerId: string) {
    exists l | l in links :: l.accountId == id && l.provider == provider && l.providerId == providerId
  }

  /** A condition on an account row, as the service writes them in `where`. */
  datatype Where =
    | EmailEquals(email: string)
    | PhoneEquals(phone: string)
    | EveryLink(provider: SignInProviderEnum, providerId: string)
    | SomeLink(provider: SignInProviderEnum, providerId: string)

  predicate Holds(links: seq<SignInProvider>, a: Account, w: Where) {
    match w
    case EmailEquals(e) => a.email == Some(e)
    case PhoneEquals(p) => a.phone == Some(p)
    case EveryLink(p, pid) => AllLinksAre(links, a.id, p, pid)
    case SomeLink(p, pid) => SomeLinkIs(links, a.id, p, pid)
  }

  /** The `OR` of a list of conditions. */
  predicate HoldsAny(links: seq<SignInProvider>, a: Account, ors: seq<Where>) {
    exists w | w in ors :: Holds(links, a, w)
  }

  /** `findFirst` (and `findUnique`): the first row satisfying the condition. */
  function FindFirst(accounts: seq<Account>, links: seq<SignInProvider>, w: Where): (r: Option<Account>)
    ensures r.Some? ==> r.value in accounts && Holds(links, r.value, w)
    ensures r.None? <==> forall a | a in accounts :: !Holds(links, a, w)
  {
    if accounts == [] then None
    else if Holds(links, accounts[0], w) then Some(accounts[0])
    else FindFirst(accounts[1..], links, w)
  }

  /** The links owned by account `id` (the `include` of a query). */
  function LinksOf(links: seq<SignInProvider>, id: string): (r: seq<SignInProvider>)
    ensures forall l | l in r :: l in links && l.accountId == id
    ensures forall l | l in links && l.accountId == id :: l in r
  {
    if links == [] then []
    else (if links[0].accountId == id then [links[0]] else []) + LinksOf(links[1..], id)
  }

  /** An account row together with its links. */
  datatype AccountWithProviders = AccountWithProviders(account: Account, signInProviders: seq<SignInProvider>)

  function Accounts(r: seq<AccountWithProviders>): set<Account> {
    set x | x in r :: x.account
  }

  /** `findMany` with `include: { signInProviders: true }`: every row that
      satisfies one of the conditions, each with its own links. */
  function FindMany(accounts: seq<Account>, links: seq<SignInProvider>, ors: seq<Where>): (r: seq<AccountWithProviders>)
    ensures Accounts(r) == set a | a in accounts && HoldsAny(links, a, ors)
    ensures forall x | x in r :: x.account in accounts
    ensures forall x | x in r :: x.signInProviders == LinksOf(links, x.account.id)
    ensures |r| <= |accounts|
  {
    if accounts == [] then []
    else
      var rest := FindMany(accounts[1..], links, ors);
      assert forall a :: a in accounts <==> a == accounts[0] || a in accounts[1..];
      if HoldsAny(links, accounts[0], ors) then
        var r := [AccountWithProviders(accounts[0], LinksOf(links, accounts[0].id))] + rest;
        assert forall x :: x in r <==> x == r[0] || x in rest;
        assert Accounts(r) == {accounts[0]} + Accounts(rest);
        r
      else
        rest
  }

  /** No two rows of a result share an account id. */
  predicate RowIdsDistinct(r: seq<AccountWithProviders>) {
    forall j, k | 0 <= j < k < |r| :: r[j].account.id != r[k].account.id
  }

  /** Distinct ids split into a head id absent from the distinct tail. */
  lemma IdsDistinctTail(accounts: seq<Account>)
    requires accounts != [] && IdsDistinct(accounts)
    ensures IdsDistinct(accounts[1..])
    ensures forall a | a in accounts[1..] :: a.id != accounts[0].id
  {
    var rest := accounts[1..];
    forall j, k | 0 <= j < k < |rest| ensures rest[j].id != rest[k].id {
      assert rest[j] == accounts[j + 1] && rest[k] == accounts[k + 1];
    }
    forall a | a in rest ensures a.id != accounts[0].id {
      var m :| 0 <= m < |rest| && rest[m] == a;
      assert accounts[m + 1] == a;
    }
  }

  /** A row whose id no later row has keeps the ids distinct. */
  lemma ConsRowIdsDistinct(x: AccountWithProviders, tail: seq<AccountWithProviders>)
    requires RowIdsDistinct(tail)
    requires forall y | y in tail :: y.account.id != x.account.id
    ensures RowIdsDistinct([x] + tail)
  {
    var r := [x] + tail;
    forall j, k | 0 <= j < k < |r| ensures r[j].account.id != r[k].account.id {
      assert r[k] == tail[k - 1];
      if j == 0 {
        assert tail[k - 1] in tail;
      } else {
        assert r[j] == tail[j - 1];
      }
    }
  }

  /** Each table row appears at most once in a `findMany` result. */
  lemma {:induction false} FindManyRowsOnce(accounts: seq<Account>, links: seq<SignInProvider>, ors: seq<Where>)
    requires IdsDistinct(accounts)
    ensures RowIdsDistinct(FindMany(accounts, links, ors))
  {
    if accounts != [] {
      var rest := accounts[1..];
      IdsDistinctTail(accounts);
      FindManyRowsOnce(rest, links, ors);
      if HoldsAny(links, accounts[0], ors) {
        ConsRowIdsDistinct(AccountWithProviders(accounts[0], LinksOf(links, accounts[0].id)), FindMany(rest, links, ors));
      }
    }
  }

  /** Distinct row ids split into a head id absent from the distinct tail. */
  lemma RowIdsDistinctTail(r: seq<AccountWithProviders>)
    requires r != [] && RowIdsDistinct(r)
    ensures RowIdsDistinct(r[1..])
    ensures r[0].account !in Accounts(r[1..])
  {
    var rest := r[1..];
    forall j, k | 0 <= j < k < |rest| ensures rest[j].account.id != rest[k].account.id {
      assert rest[j] == r[j + 1] && rest[k] == r[k + 1];
    }
    forall x | x in rest ensures x.account != r[0].account {
      var k :| 0 <= k < |rest| && rest[k] == x;
      assert r[k + 1] == x;
    }
  }

  /** A sequence of rows with distinct ids holds as many rows as accounts. */
  lemma {:induction false} DistinctRowsCount(r: seq<AccountWithProviders>)
    requires RowIdsDistinct(r)
    ensures |Accounts(r)| == |r|
  {
    if r != [] {
      var rest := r[1..];
      RowIdsDistinctTail(r);
      DistinctRowsCount(rest);
      assert forall x :: x in r <==> x == r[0] || x in rest;
      assert Accounts(r) == {r[0].account} + Accounts(rest);
    }
  }

  /** On a table with distinct ids, `findMany` returns one row per matching account. */
  lemma FindManyCount(accounts: seq<Account>, links: seq<SignInProvider>, ors: seq<Where>)
    ensures IdsDistinct(accounts) ==>
      |FindMany(accounts, links, ors)| == |set a | a in accounts && HoldsAny(links, a, ors)|
  {
    if IdsDistinct(accounts) {
      FindManyRowsOnce(accounts, links, ors);
      DistinctRowsCount(FindMany(accounts, links, ors));
    }
  }

  /* ---------------------------------------------------------------------
     The read-only queries of the service
     --------------------------------------------------------------------- */

  /** `getByEmail`: an account whose email equals the argument, or none. */
  function GetByEmail(t: Tables, i: GetByEmailInput): (r: Option<Account>)
    ensures r.Some? ==> r.value in t.accounts && r.value.email == Some(i.email)
    ensures r.None? <==> forall a | a in t.accounts :: a.email != Some(i.email)
  {
    FindFirst(t.accounts, t.signInProviders, EmailEquals(i.email))
  }

  /** `getByPhone`: an account whose phone equals the argument, or none. */
  function GetByPhone(t: Tables, i: GetByPhoneInput): (r: Option<Account>)
    ensures r.Some? ==> r.value in t.accounts && r.value.phone == Some(i.phone)
    ensures r.None? <==> forall a | a in t.accounts :: a.phone != Some(i.phone)
  {
    FindFirst(t.accounts, t.signInProviders, PhoneEquals(i.phone))
  }

  /** `getByProvider`, as written: an account ALL of whose links carry the
      given provider identity, or none when no account qualifies. */
  function GetByProvider(t: Tables, i: GetByProviderInput): (r: Option<Account>)
    ensures r.Some? ==> r.value in t.accounts && AllLinksAre(t.signInProviders, r.value.id, i.provider, i.providerId)
    ensures r.None? <==> forall a | a in t.accounts :: !AllLinksAre(t.signInProviders, a.id, i.provider, i.providerId)
  {
    FindFirst(t.accounts, t.signInProviders, EveryLink(i.provider, i.providerId))
  }

  /** The `OR` list of `getManyByProvider`: the provider clause, then the
      email clause only when the email is truthy (`.filter(Boolean)`). */
  function ManyByProviderWhere(i: GetManyByProviderInput, linkClause: Where): (ors: seq<Where>)
    ensures linkClause in ors
    ensures Truthy(i.email) ==> EmailEquals(i.email.value) in ors
    ensures forall w | w in ors :: w == linkClause || (Truthy(i.email) && w == EmailEquals(i.email.value))
  {
    [linkClause] + (if Truthy(i.email) then [EmailEquals(i.email.value)] else [])
  }

  /** An account matches `getManyByProvider`, as written. */
  predicate ManyMatch(links: seq<SignInProvider>, a: Account, i: GetManyByProviderInput) {
    || AllLinksAre(links, a.id, i.provider, i.providerId)
    || (Truthy(i.email) && a.email == i.email)
  }

  /** `getManyByProvider`, as written: exactly the accounts all of whose links
      carry the provider identity, or whose email equals a truthy given
      email; each with its links. No match gives an empty sequence. */
  function GetManyByProvider(t: Tables, i: GetManyByProviderInput): (r: seq<AccountWithProviders>)
    ensures Accounts(r) == set a | a in t.accounts && ManyMatch(t.signInProviders, a, i)
    ensures forall x | x in r :: x.signInProviders == LinksOf(t.signInProviders, x.account.id)
    ensures Consistent(t) ==> |r| == |set a | a in t.accounts && ManyMatch(t.signInProviders, a, i)|
  {
    var ors := ManyByProviderWhere(i, EveryLink(i.provider, i.providerId));
    var r := FindMany(t.accounts, t.signInProviders, ors);
    FindManyCount(t.accounts, t.signInProviders, ors);
    assert forall a | a in t.accounts :: HoldsAny(t.signInProviders, a, ors) == ManyMatch(t.signInProviders, a, i) by {
      forall a | a in t.accounts
        ensures HoldsAny(t.signInProviders, a, ors) == ManyMatch(t.signInProviders, a, i)
      {
        if Truthy(i.email) && a.email == i.email {
          assert EmailEquals(i.email.value) in ors;
        }
        if AllLinksAre(t.signInProviders, a.id, i.provider, i.providerId) {
          assert Holds(t.signInProviders, a, ors[0]);
        }
      }
    }
    r
  }

  /** Uniqueness of email makes `getByEmail` return THE account with that email. */
  lemma GetByEmailIsUnique(t: Tables, i: GetByEmailInput, a: Account)
    requires Consistent(t)
    requires a in t.accounts && a.email == Some(i.email)
    ensures GetByEmail(t, i) == Some(a)
  {
  }

  /** Uniqueness of phone makes `getByPhone` return THE account with that phone. */
  lemma GetByPhoneIsUnique(t: Tables, i: GetByPhoneInput, a: Account)
    requires Consistent(t)
    requires a in t.accounts && a.phone == Some(i.phone)
    ensures GetByPhone(t, i) == Some(a)
  {
  }

  /** `every` is vacuously true: an account without links qualifies for ANY
      provider identity, both in `getByProvider` and `getManyByProvider`. */
  lemma UnlinkedAccountMatchesAnyProvider(t: Tables, a: Account, i: GetByProviderInput, email: Option<string>)
    requires a in t.accounts && a.id !in Owners(t.signInProviders)
    ensures GetByProvider(t, i).Some?
    ensures a in Accounts(GetManyByProvider(t, GetManyByProviderInput(i.providerId, i.provider, email)))
  {
  }

  /** With the email omitted or empty only the provider clause applies. */
  lemma ManyByProviderWithoutEmail(t: Tables, i: GetManyByProviderInput)
    requires !Truthy(i.email)
    ensures Accounts(GetManyByProvider(t, i))
         == set a | a in t.accounts && AllLinksAre(t.signInProviders, a.id, i.provider, i.providerId)
  {
  }

  /* ---------------------------------------------------------------------
     Corrected provider queries (`some` instead of `every`)
     --------------------------------------------------------------------- */

  /** Two accounts, one reachable by email and one by phone, and no links. */
  function UnlinkedStore(): (t: Tables)
    ensures |t.accounts| == 2 && t.signInProviders == []
    ensures t.accounts[0].email.Some? && t.accounts[1].email.None?
  {
    Tables([Account("a", Some("a@example.com"), None, Config("a", "UTC")),
            Account("b", None, Some("+15551234"), Config("b", "UTC"))], [])
  }

  /** That store satisfies the consistency invariant. */
  lemma UnlinkedStoreConsistent()
    ensures Consistent(UnlinkedStore())
  {
    var t := UnlinkedStore();
    assert t.accounts[0].id[0] != t.accounts[1].id[0];
    assert t.accounts[0].phone != t.accounts[1].phone;
  }

  /** In that consistent store `getByProvider` as written returns an account
      that has no link at all, and `getManyByProvider` returns two distinct
      accounts for a provider identity nobody is linked to. */
  lemma EveryReturnsUnlinkedAccounts()
    ensures var t := UnlinkedStore();
            && Consistent(t)
            && GetByProvider(t, GetByProviderInput("google-subject", GOOGLE)) == Some(t.accounts[0])
            && !SomeLinkIs(t.signInProviders, t.accounts[0].id, GOOGLE, "google-subject")
            && var many := GetManyByProvider(t, GetManyByProviderInput("google-subject", GOOGLE, None));
               |many| == 2 && t.accounts[0] in Accounts(many) && t.accounts[1] in Accounts(many)
  {
    var t := UnlinkedStore();
    UnlinkedStoreConsistent();
    var i := GetManyByProviderInput("google-subject", GOOGLE, None);
    assert ManyMatch(t.signInProviders, t.accounts[0], i) && ManyMatch(t.signInProviders, t.accounts[1], i);
    assert t.accounts[0] != t.accounts[1];
    assert (set a | a in t.accounts && ManyMatch(t.signInProviders, a, i)) == {t.accounts[0], t.accounts[1]};
  }

  /** `getByProvider` with `some`: an account that has a link with the given
      provider identity, or none exactly when no account has one. */
  function GetByProviderLinked(t: Tables, i: GetByProviderInput): (r: Option<Account>)
    ensures r.Some? ==> r.value in t.accounts && SomeLinkIs(t.signInProviders, r.value.id, i.provider, i.providerId)
    ensures r.None? <==> forall a | a in t.accounts :: !SomeLinkIs(t.signInProviders, a.id, i.provider, i.providerId)
  {
    FindFirst(t.accounts, t.signInProviders, SomeLink(i.provider, i.providerId))
  }

  /** An account ever found by the corrected query owns the identity, so an
      account without links is never returned. */
  lemma LinkedQueryNeedsALink(t: Tables, i: GetByProviderInput)
    requires GetByProviderLinked(t, i).Some?
    ensures GetByProviderLinked(t, i).value.id in Owners(t.signInProviders)
  {
  }

  /** An account matches the corrected `getManyByProvider`. */
  predicate ManyMatchLinked(links: seq<SignInProvider>, a: Account, i: GetManyByProviderInput) {
    || SomeLinkIs(links, a.id, i.provider, i.providerId)
    || (Truthy(i.email) && a.email == i.email)
  }

  /** `getManyByProvider` with `some`: exactly the accounts linked to the
      provider identity or carrying the truthy given email. */
  function GetManyByProviderLinked(t: Tables, i: GetManyByProviderInput): (r: seq<AccountWithProviders>)
    ensures Accounts(r) == set a | a in t.accounts && ManyMatchLinked(t.signInProviders, a, i)
    ensures forall x | x in r :: x.signInProviders == LinksOf(t.signInProviders, x.account.id)
    ensures Consistent(t) ==> |r| == |set a | a in t.accounts && ManyMatchLinked(t.signInProviders, a, i)|
  {
    var ors := ManyByProviderWhere(i, SomeLink(i.provider, i.providerId));
    var r := FindMany(t.accounts, t.signInProviders, ors);
    FindManyCount(t.accounts, t.signInProviders, ors);
    assert forall a | a in t.accounts :: HoldsAny(t.signInProviders, a, ors) == ManyMatchLinked(t.signInProviders, a, i) by {
      forall a | a in t.accounts
        ensures HoldsAny(t.signInProviders, a, ors) == ManyMatchLinked(t.signInProviders, a, i)
      {
        if Truthy(i.email) && a.email == i.email {
          assert EmailEquals(i.email.value) in ors;
        }
        if SomeLinkIs(t.signInProviders, a.id, i.provider, i.providerId) {
          assert Holds(t.signInProviders, a, ors[0]);
        }
      }
    }
    r
  }

  /* ---------------------------------------------------------------------
     create
     --------------------------------------------------------------------- */

  /** The creation input as the code sees it at run time: the service casts
      the input to each shape in turn and tests one field for truthiness, so
      any field may be present or absent. */
  datatype CreateRequest = CreateRequest(
    email: Option<string>,
    phone: Option<string>,
    timezone: Timezone,
    google: Option<GoogleGrant>)

  /** The run-time object of a value of the declared union. */
  function AsRequest(u: CreateInput): (i: CreateRequest)
    ensures i.timezone == u.timezone
    ensures u.CreateWithEmail? ==> i.email == Some(u.email) && i.phone.None? && i.google.None?
    ensures u.CreateWithPhone? ==> i.email.None? && i.phone == Some(u.phone) && i.google.None?
    ensures u.CreateWithGoogle? ==> i.email == Some(u.email) && i.phone.None? && i.google == Some(u.google)
  {
    match u
    case CreateWithEmail(e, tz) => CreateRequest(Some(e), None, tz, None)
    case CreateWithPhone(p, tz) => CreateRequest(None, Some(p), tz, None)
    case CreateWithGoogle(e, tz, g) => CreateRequest(Some(e), None, tz, Some(g))
  }

  /** The rows one `create` inserts: the account (with its config) and its links. */
  datatype NewRows = NewRows(account: Account, signInProviders: seq<SignInProvider>)

  /** The rows `create` builds from one generated id, or none when no shape
      is recognised. Google is tested first, then a truthy phone, then a
      truthy email. */
  function Build(i: CreateRequest, accountId: string): (r: Option<NewRows>)
    // the error case: nothing recognised (empty strings count as absent)
    ensures r.None? <==> i.google.None? && !Truthy(i.phone) && !Truthy(i.email)
    // one id for the account, its config and its links; the input's timezone
    ensures r.Some? ==>
      && r.value.account.id == accountId
      && r.value.account.config == Config(accountId, i.timezone)
      && forall l | l in r.value.signInProviders :: l.accountId == accountId
    // Google first: the input email, no phone, exactly one GOOGLE link from the grant
    ensures i.google.Some? ==>
      && r.Some?
      && r.value.account.email == i.email
      && r.value.account.phone.None?
      && var g := i.google.value;
         r.value.signInProviders == [SignInProvider(accountId, GOOGLE, g.id, g.accessToken, g.refreshToken, g.expiresAt)]
    // then a truthy phone: only the phone, no link
    ensures i.google.None? && Truthy(i.phone) ==>
      && r.Some?
      && r.value.account.phone == i.phone
      && r.value.account.email.None?
      && r.value.signInProviders == []
    // then a truthy email: only the email, no link
    ensures i.google.None? && !Truthy(i.phone) && Truthy(i.email) ==>
      && r.Some?
      && r.value.account.email == i.email
      && r.value.account.phone.None?
      && r.value.signInProviders == []
  {
    var base := Account(accountId, None, None, Config(accountId, i.timezone));
    if i.google.Some? then
      var g := i.google.value;
      Some(NewRows(base.(email := i.email),
                   [SignInProvider(accountId, GOOGLE, g.id, g.accessToken, g.refreshToken, g.expiresAt)]))
    else if Truthy(i.phone) then
      Some(NewRows(base.(phone := i.phone), []))
    else if Truthy(i.email) then
      Some(NewRows(base.(email := i.email), []))
    else
      None
  }

  /** Each declared shape is handled by its own branch: a Google input always
      yields an account with one link; a phone or email input yields an
      account carrying exactly that identifier when it is non-empty, and is
      refused when it is empty. */
  lemma DeclaredShapeTakesItsBranch(u: CreateInput, accountId: string)
    ensures var r := Build(AsRequest(u), accountId);
      match u
      case CreateWithGoogle(e, _, g) =>
        r.Some? && r.value.account.email == Some(e) && r.value.account.phone.None?
        && |r.value.signInProviders| == 1 && r.value.signInProviders[0].providerId == g.id
      case CreateWithPhone(p, _) =>
        (r.Some? <==> p != "") && (r.Some? ==> r.value.account.phone == Some(p) && r.value.account.email.None?)
      case CreateWithEmail(e, _) =>
        (r.Some? <==> e != "") && (r.Some? ==> r.value.account.email == Some(e) && r.value.account.phone.None?)
  {
  }

  /** A built account fits its columns when the id comes from the generator
      and the stored identifier fits its width. */
  lemma BuiltAccountFitsColumns(i: CreateRequest, accountId: string)
    requires |accountId| == ID_LENGTH
    requires i.email.Some? ==> |i.email.value| <= EMAIL_MAX_LENGTH
    requires i.phone.Some? ==> |i.phone.value| <= PHONE_MAX_LENGTH
    requires Build(i, accountId).Some?
    ensures FitsColumns(Build(i, accountId).value.account)
  {
  }

  function Emails(accounts: seq<Account>): set<string> {
    set a | a in accounts && a.email.Some? :: a.email.value
  }

  function Phones(accounts: seq<Account>): set<string> {
    set a | a in accounts && a.phone.Some? :: a.phone.value
  }

  /** Storage refuses the account row when its id, email or phone is taken. */
  predicate Collides(accounts: seq<Account>, acc: Account)
    ensures Collides(accounts, acc) <==>
      || acc.id in Ids(accounts)
      || (acc.email.Some? && acc.email.value in Emails(accounts))
      || (acc.phone.Some? && acc.phone.value in Phones(accounts))
  {
    exists a | a in accounts ::
      || a.id == acc.id
      || (acc.email.Some? && a.email == acc.email)
      || (acc.phone.Some? && a.phone == acc.phone)
  }

  /** The tables after inserting the new rows. */
  function Insert(t: Tables, rows: NewRows): (after: Tables)
    ensures |after.accounts| == |t.accounts| + 1
    ensures forall a | a in after.accounts :: a in t.accounts || a == rows.account
    ensures rows.account in after.accounts
    ensures Ids(after.accounts) == Ids(t.accounts) + {rows.account.id}
    ensures Owners(after.signInProviders) == Owners(t.signInProviders) + Owners(rows.signInProviders)
  {
    Tables(t.accounts + [rows.account], t.signInProviders + rows.signInProviders)
  }

  /** A successful create keeps the tables consistent. */
  lemma InsertKeepsConsistent(t: Tables, i: CreateRequest, accountId: string)
    requires Consistent(t)
    requires Build(i, accountId).Some?
    requires !Collides(t.accounts, Build(i, accountId).value.account)
    ensures Consistent(Insert(t, Build(i, accountId).value))
  {
    var rows := Build(i, accountId).value;
    var acc := rows.account;
    var after := Insert(t, rows);
    var links := after.signInProviders;
    assert Ids(after.accounts) == Ids(t.accounts) + {accountId};
    assert Owners(links) == Owners(t.signInProviders) + Owners(rows.signInProviders);
    assert accountId !in Owners(t.signInProviders);
    forall j, k | 0 <= j < k < |links|
      ensures KeyOf(links[j]) != KeyOf(links[k])
    {
      if k >= |t.signInProviders| {
        if j < |t.signInProviders| {
          assert links[j] in t.signInProviders;
        }
      }
    }
    forall a | a in after.accounts
      ensures HasChannel(a, links)
    {
      if a != acc {
        assert a in t.accounts;
      } else if i.google.Some? {
        assert rows.signInProviders[0] in links;
      }
    }
  }

  /** A created account is what `getByEmail` / `getByPhone` then return for
      its email / phone. */
  lemma CreatedAccountIsFound(t: Tables, i: CreateRequest, accountId: string)
    requires Consistent(t)
    requires Build(i, accountId).Some?
    requires !Collides(t.accounts, Build(i, accountId).value.account)
    ensures var acc := Build(i, accountId).value.account;
            var after := Insert(t, Build(i, accountId).value);
            && (acc.email.Some? ==> GetByEmail(after, GetByEmailInput(acc.email.value)) == Some(acc))
            && (acc.phone.Some? ==> GetByPhone(after, GetByPhoneInput(acc.phone.value)) == Some(acc))
  {
  }

  /* ---------------------------------------------------------------------
     upsert and updateProvider
     --------------------------------------------------------------------- */

  /** `upsert` on the link table: the row with key `key` is replaced by
      `update`; when there is none, `create` is appended. */
  function Upsert(links: seq<SignInProvider>, key: LinkKey, create: SignInProvider, update: SignInProvider): (r: seq<SignInProvider>)
    // only old rows and the payload remain
    ensures forall l | l in r :: l in links || l == create || l == update
    // every row with another key stays
    ensures forall l | l in links && KeyOf(l) != key :: l in r
    // the payload is written
    ensures create in r || update in r
    // a row is added exactly when none had the key
    ensures |r| == if key in Keys(links) then |links| else |links| + 1
  {
    if links == [] then [create]
    else
      assert forall l :: l in links <==> l == links[0] || l in links[1..];
      assert Keys(links) == {KeyOf(links[0])} + Keys(links[1..]);
      if KeyOf(links[0]) == key then [update] + links[1..]
      else [links[0]] + Upsert(links[1..], key, create, update)
  }

  /** The row `updateProvider` writes; its create and update payloads are this same row. */
  function RowOf(i: UpdateProviderInput): (l: SignInProvider)
    ensures KeyOf(l) == LinkKey(i.accountId, i.provider, i.providerId)
    ensures l.accessToken == i.accessToken && l.refreshToken == i.refreshToken && l.expiresAt == i.expiresAt
  {
    SignInProvider(i.accountId, i.provider, i.providerId, i.accessToken, i.refreshToken, i.expiresAt)
  }

  /** The link table after `updateProvider`. */
  function UpdatedLinks(links: seq<SignInProvider>, i: UpdateProviderInput): (r: seq<SignInProvider>)
    ensures Lookup(r, LinkKey(i.accountId, i.provider, i.providerId)) == Some(RowOf(i))
    ensures Without(r, LinkKey(i.accountId, i.provider, i.providerId)) == Without(links, LinkKey(i.accountId, i.provider, i.providerId))
  {
    UpsertLookup(links, KeyOf(RowOf(i)), RowOf(i), RowOf(i));
    UpsertKeepsOthers(links, KeyOf(RowOf(i)), RowOf(i), RowOf(i));
    Upsert(links, KeyOf(RowOf(i)), RowOf(i), RowOf(i))
  }

  /** The first link with the key. */
  function Lookup(links: seq<SignInProvider>, key: LinkKey): (r: Option<SignInProvider>)
    ensures r.Some? ==> r.value in links && KeyOf(r.value) == key
    ensures r.None? <==> key !in Keys(links)
  {
    if links == [] then None
    else if KeyOf(links[0]) == key then Some(links[0])
    else
      assert forall l :: l in links <==> l == links[0] || l in links[1..];
      Lookup(links[1..], key)
  }

  /** The number of links with the key. */
  function CountKey(links: seq<SignInProvider>, key: LinkKey): nat {
    if links == [] then 0
    else (if KeyOf(links[0]) == key then 1 else 0) + CountKey(links[1..], key)
  }

  /** The links whose key is not `key`, in order. */
  function Without(links: seq<SignInProvider>, key: LinkKey): seq<SignInProvider> {
    if links == [] then []
    else (if KeyOf(links[0]) == key then [] else [links[0]]) + Without(links[1..], key)
  }

  /** The upsert reads back: the row with the key is the update payload when a
      row existed, the create payload otherwise. */
  lemma {:induction false} UpsertLookup(links: seq<SignInProvider>, key: LinkKey, create: SignInProvider, update: SignInProvider)
    requires KeyOf(create) == key && KeyOf(update) == key
    ensures Lookup(Upsert(links, key, create, update), key) == Some(if key in Keys(links) then update else create)
  {
    if links != [] && KeyOf(links[0]) != key {
      UpsertLookup(links[1..], key, create, update);
      assert forall l :: l in links <==> l == links[0] || l in links[1..];
    } else if links != [] {
      assert links[0] in links;
    }
  }

  /** Rows with any other key are untouched, in order. */
  lemma {:induction false} UpsertKeepsOthers(links: seq<SignInProvider>, key: LinkKey, create: SignInProvider, update: SignInProvider)
    requires KeyOf(create) == key && KeyOf(update) == key
    ensures Without(Upsert(links, key, create, update), key) == Without(links, key)
  {
    if links == [] {
      assert Without([create], key) == [] + Without([create][1..], key);
    } else if KeyOf(links[0]) == key {
      assert ([update] + links[1..])[1..] == links[1..];
    } else {
      UpsertKeepsOthers(links[1..], key, create, update);
      assert ([links[0]] + Upsert(links[1..], key, create, update))[1..] == Upsert(links[1..], key, create, update);
    }
  }

  /** Writing the same row twice is writing it once. */
  lemma {:induction false} UpsertIdempotent(links: seq<SignInProvider>, l: SignInProvider)
    ensures Upsert(Upsert(links, KeyOf(l), l, l), KeyOf(l), l, l) == Upsert(links, KeyOf(l), l, l)
  {
    var key := KeyOf(l);
    if links == [] {
      assert Upsert([l], key, l, l) == [l] + [l][1..];
    } else if KeyOf(links[0]) == key {
      var once := [l] + links[1..];
      assert once[1..] == links[1..];
    } else {
      UpsertIdempotent(links[1..], l);
      var once := [links[0]] + Upsert(links[1..], key, l, l);
      assert once[0] == links[0] && once[1..] == Upsert(links[1..], key, l, l);
    }
  }

  /** The keys after an upsert are the old keys and the upserted one. */
  lemma UpsertKeys(links: seq<SignInProvider>, key: LinkKey, create: SignInProvider, update: SignInProvider)
    requires KeyOf(create) == key && KeyOf(update) == key
    ensures Keys(Upsert(links, key, create, update)) == Keys(links) + {key}
  {
    var up := Upsert(links, key, create, update);
    forall k | k in Keys(links) + {key} ensures k in Keys(up) {
      if k == key {
        if create in up { assert KeyOf(create) in Keys(up); } else { assert KeyOf(update) in Keys(up); }
      } else {
        var l :| l in links && KeyOf(l) == k;
        assert l in up;
      }
    }
  }

  /** Unique keys split into a head key absent from the unique tail. */
  lemma UniqueKeysTail(links: seq<SignInProvider>)
    requires links != [] && KeysUnique(links)
    ensures KeysUnique(links[1..]) && KeyOf(links[0]) !in Keys(links[1..])
  {
    var rest := links[1..];
    forall j, k | 0 <= j < k < |rest| ensures KeyOf(rest[j]) != KeyOf(rest[k]) {
      assert rest[j] == links[j + 1] && rest[k] == links[k + 1];
    }
    forall l | l in rest ensures KeyOf(l) != KeyOf(links[0]) {
      var k :| 0 <= k < |rest| && rest[k] == l;
      assert links[k + 1] == l;
    }
  }

  /** A row whose key no later row has keeps the keys unique. */
  lemma ConsKeysUnique(l: SignInProvider, tail: seq<SignInProvider>)
    requires KeysUnique(tail) && KeyOf(l) !in Keys(tail)
    ensures KeysUnique([l] + tail)
  {
    var r := [l] + tail;
    forall j, k | 0 <= j < k < |r| ensures KeyOf(r[j]) != KeyOf(r[k]) {
      assert r[k] == tail[k - 1];
      if j == 0 {
        assert tail[k - 1] in tail;
      } else {
        assert r[j] == tail[j - 1];
      }
    }
  }

  /** The upsert keeps link keys unique. */
  lemma {:induction false} UpsertKeepsKeysUnique(links: seq<SignInProvider>, key: LinkKey, create: SignInProvider, update: SignInProvider)
    requires KeyOf(create) == key && KeyOf(update) == key
    requires KeysUnique(links)
    ensures KeysUnique(Upsert(links, key, create, update))
  {
    if links != [] {
      var rest := links[1..];
      UniqueKeysTail(links);
      if KeyOf(links[0]) == key {
        ConsKeysUnique(update, rest);
      } else {
        UpsertKeepsKeysUnique(rest, key, create, update);
        UpsertKeys(rest, key, create, update);
        ConsKeysUnique(links[0], Upsert(rest, key, create, update));
      }
    }
  }

  /** With unique keys a key occurs once if present, never if absent. */
  lemma {:induction false} CountOfUniqueKey(links: seq<SignInProvider>, key: LinkKey)
    requires KeysUnique(links)
    ensures CountKey(links, key) == if key in Keys(links) then 1 else 0
  {
    if links != [] {
      var rest := links[1..];
      assert forall l :: l in links <==> l == links[0] || l in rest;
      UniqueKeysTail(links);
      CountOfUniqueKey(rest, key);
    }
  }

  /** `updateProvider` on consistent tables: afterwards exactly one link has
      the triple and it carries the input's tokens and expiry; every other
      link is as before, in order; repeating the call changes nothing. */
  lemma UpdateProviderWritesOneRow(links: seq<SignInProvider>, i: UpdateProviderInput)
    requires KeysUnique(links)
    ensures var key := LinkKey(i.accountId, i.provider, i.providerId);
            var after := UpdatedLinks(links, i);
            && CountKey(after, key) == 1
            && Lookup(after, key) == Some(SignInProvider(i.accountId, i.provider, i.providerId, i.accessToken, i.refreshToken, i.expiresAt))
            && Without(after, key) == Without(links, key)
            && UpdatedLinks(after, i) == after
  {
    var key := KeyOf(RowOf(i));
    UpsertKeepsKeysUnique(links, key, RowOf(i), RowOf(i));
    CountOfUniqueKey(UpdatedLinks(links, i), key);
    UpsertLookup(links, key, RowOf(i), RowOf(i));
    UpsertKeepsOthers(links, key, RowOf(i), RowOf(i));
    UpsertIdempotent(links, RowOf(i));
  }

  /** Last write wins: after two updates of the same link, it carries the
      second one's tokens, however often it was written before. */
  lemma LastUpdateWins(links: seq<SignInProvider>, i1: UpdateProviderInput, i2: UpdateProviderInput)
    requires i1.accountId == i2.accountId && i1.provider == i2.provider && i1.providerId == i2.providerId
    ensures Lookup(UpdatedLinks(UpdatedLinks(links, i1), i2), KeyOf(RowOf(i2))) == Some(RowOf(i2))
  {
    var key := KeyOf(RowOf(i1));
    UpsertLookup(links, key, RowOf(i1), RowOf(i1));
    UpsertLookup(UpdatedLinks(links, i1), key, RowOf(i2), RowOf(i2));
  }

  /** An upsert for an existing account keeps the tables consistent. */
  lemma UpdateKeepsConsistent(t: Tables, i: UpdateProviderInput)
    requires Consistent(t)
    requires i.accountId in Ids(t.accounts)
    ensures Consistent(Tables(t.accounts, UpdatedLinks(t.signInProviders, i)))
  {
    var key := KeyOf(RowOf(i));
    var after := UpdatedLinks(t.signInProviders, i);
    UpsertKeepsKeysUnique(t.signInProviders, key, RowOf(i), RowOf(i));
    assert Owners(after) <= Ids(t.accounts) by {
      forall o | o in Owners(after) ensures o in Ids(t.accounts) {
        var l :| l in after && l.accountId == o;
        if l in t.signInProviders { assert o in Owners(t.signInProviders); }
      }
    }
    forall a | a in t.accounts
      ensures HasChannel(a, after)
    {
      if a.id in Owners(t.signInProviders) {
        var l :| l in t.signInProviders && l.accountId == a.id;
        if KeyOf(l) != key {
          assert l in after;
        } else {
          assert RowOf(i) in after;
        }
      }
    }
  }

  /* ---------------------------------------------------------------------
     The service object
     --------------------------------------------------------------------- */

  /** The repository service: it holds the account table and the sign-in
      provider table and changes them in `Create` and `UpdateProvider`. Its
      read-only queries are the functions above, applied to `Snapshot()`. */
  class AuthRepositoryService {
    var accounts: seq<Account>
    var signInProviders: seq<SignInProvider>

    function Snapshot(): Tables
      reads this
    {
      Tables(accounts, signInProviders)
    }

    ghost predicate Valid()
      reads this
    {
      Consistent(Snapshot())
    }

    constructor (initial: Tables)
      requires Consistent(initial)
      ensures Valid() && Snapshot() == initial
    {
      accounts := initial.accounts;
      signInProviders := initial.signInProviders;
    }

    /** `create`: `accountId` is the one id drawn from the id adapter; it is
        used for the account, its config and its link. On failure neither
        table changes. */
    method Create(i: CreateRequest, accountId: string) returns (r: Result<Account, RepositoryError>)
      requires Valid()
      requires |accountId| == ID_LENGTH
      modifies this
      ensures Valid()
      ensures Build(i, accountId).None? ==>
        r == Failure(InvalidCreationMethod) && Snapshot() == old(Snapshot())
      ensures Build(i, accountId).Some? && Collides(old(accounts), Build(i, accountId).value.account) ==>
        r == Failure(UniqueViolation) && Snapshot() == old(Snapshot())
      ensures Build(i, accountId).Some? && !Collides(old(accounts), Build(i, accountId).value.account) ==>
        && r == Success(Build(i, accountId).value.account)
        && accounts == old(accounts) + [Build(i, accountId).value.account]
        && signInProviders == old(signInProviders) + Build(i, accountId).value.signInProviders
    {
      var rows := Build(i, accountId);
      if rows.None? {
        return Failure(InvalidCreationMethod);
      }
      var acc := rows.value.account;
      if Collides(accounts, acc) {
        return Failure(UniqueViolation);
      }
      InsertKeepsConsistent(Snapshot(), i, accountId);
      accounts := accounts + [acc];
      signInProviders := signInProviders + rows.value.signInProviders;
      r := Success(acc);
    }

    /** `updateProvider`: an upsert on (accountId, provider, providerId) whose
        create and update payloads are the same row. Creating a link for an
        account that does not exist is refused by storage. Accounts never
        change. */
    method UpdateProvider(i: UpdateProviderInput) returns (r: Outcome<RepositoryError>)
      requires Valid()
      modifies this
      ensures Valid()
      ensures accounts == old(accounts)
      ensures i.accountId in Ids(old(accounts)) ==>
        r == Pass && signInProviders == UpdatedLinks(old(signInProviders), i)
      ensures i.accountId !in Ids(old(accounts)) ==>
        r == Fail(ForeignKeyViolation) && signInProviders == old(signInProviders)
    {
      var row := RowOf(i);
      var key := KeyOf(row);
      if Lookup(signInProviders, key).None? && i.accountId !in Ids(accounts) {
        return Fail(ForeignKeyViolation);
      }
      assert i.accountId in Owners(signInProviders) ==> i.accountId in Ids(accounts);
      assert Lookup(signInProviders, key).Some? ==> i.accountId in Owners(signInProviders);
      UpdateKeepsConsistent(Snapshot(), i);
      signInProviders := Upsert(signInProviders, key, row, row);
      r := Pass;
    }
  }
}
