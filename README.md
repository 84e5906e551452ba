# Account/identity store, modelled in Dafny

This project models the account/identity store of an account-identity
backend. The store is the repository service that creates accounts from an
email, a phone or a Google sign-up. It looks accounts up by email, phone or
provider identity, and it upserts the tokens of a sign-in provider link.

The two database tables become two in-memory tables, with rows kept in
insertion order (`AuthRepository.Tables`):

- **accounts**: id, optional email, optional phone, and a config row holding
  the timezone;
- **sign-in provider links**: keyed by the triple (accountId, provider,
  providerId), each carrying accessToken, refreshToken and expiresAt.

Files:

- `wrappers.dfy`: `Option`, `Result`, `Outcome`.
- `account.dfy` (module `AccountModel`): the entities, the creation union
  `CreateInput`, the `Get*Input` and `UpdateProviderInput` records, and the
  use-case shapes `AuthOutput`, `RefreshOutput` and `IamOutput`. Several
  properties of `src/models/account.ts` hold by construction of these types:
  - the Google block always carries its four fields together (`GoogleGrant`);
  - `CreateInput` is exactly one of three shapes;
  - the email of `GetManyByProviderInput` is an `Option`, while provider and
    providerId are required;
  - `AuthOutput.isFirstAccess` is an `Option<TrueLiteral>`, so it can be
    absent or `true` but never `false`;
  - `RefreshOutput` has no refresh-token field;
  - `IamOutput.googleId` is optional.
- `auth_repository.dfy` (module `AuthRepository`): the tables and their
  consistency invariant (`Consistent`), plus the service's `where`
  conditions as data (`Where`). The query semantics are written as
  functions: `findFirst`/`findUnique` as `FindFirst`, `findMany` with
  `include` as `FindMany`, and `upsert` as `Upsert`. The four read-only
  queries are functions over the tables. The class `AuthRepositoryService`
  holds the two tables as fields and changes them in `Create` and
  `UpdateProvider`.

Modelling assumption: Prisma's `findUnique`, `findFirst`, `findMany`,
`upsert` and the relation filter `every` have their documented meanings.
`every` on a to-many relation holds for an account with no links.
Prisma promises no order for `findFirst` without `orderBy`. As a modelling
choice, `FindFirst` returns the first matching row in table order. Only the
`== Some(...)` conjunct of `EveryReturnsUnlinkedAccounts` relies on that
choice. The other contracts about `FindFirst` hold for any matching row. A storage constraint failure
becomes an error result:
- a second account with the same id, email or phone gives `UniqueViolation`;
- a link created for an account that does not exist gives
  `ForeignKeyViolation`.

The email and phone columns are taken to be unique because `findUnique` is
applied to them.

`create` tests a runtime object's fields through casts. Its input is
therefore modelled as `CreateRequest`, a record in which every field may be
absent. Truthiness follows JavaScript, so an absent value and `""` are both
false. The declared union maps into that record through `AsRequest`. The id
the id adapter would draw is a parameter of `Create`, of length 16.

Where the code and the surrounding declarations disagree, the model follows
the code as written:
- the service calls `idAdapter.gen()`
  (src/repositories/postgres/auth/auth-repository.service.ts:33), but the
  adapter defines `genId()` (src/adapters/implementations/uid.service.ts:8).
  The model takes one generated id as a parameter.
- `getManyByProvider` filters on the relation `SignInProvider`
  (auth-repository.service.ts:133), while the rest of the service names it
  `signInProviders` (:53, :111, :128). The model treats both as the same
  relation.
- the service implements `updateProvider` (:150), but the abstract
  repository declares `updateGoogle` (src/models/account.ts:114). The model
  follows the implementation.
- the service imports its types and base class (`AuthRepository`) from
  `src/models/auth`, but `src/models/account.ts` declares `AccountRepository`
  and the types. The model uses the declared types.
- `getById` is declared (src/models/account.ts:99) but has no implementation
  in the service, so it is not modelled.

## Model

| member | source | states |
|---|---|---|
| `AuthRepository.FindFirst` | src/repositories/postgres/auth/auth-repository.service.ts:90-118 | `findFirst`/`findUnique`: the row returned satisfies the condition and is in the table; none is returned exactly when no row satisfies it |
| `AuthRepository.LinksOf` | src/repositories/postgres/auth/auth-repository.service.ts:127-129 | the included links are exactly the links whose accountId is the account's id |
| `AuthRepository.FindMany` | src/repositories/postgres/auth/auth-repository.service.ts:126-147 | `findMany` with an `OR` list returns exactly the rows satisfying one of the conditions, each with exactly its own links; every result row is a table row, and there are at most as many as table rows |
| `AuthRepository.FindManyRowsOnce` | src/repositories/postgres/auth/auth-repository.service.ts:126-147 | on a table with distinct ids, no account appears in two result rows |
| `AuthRepository.FindManyCount` | src/repositories/postgres/auth/auth-repository.service.ts:126-147 | on a table with distinct ids, the result has exactly one row per matching account |
| `AuthRepository.GetByEmail` | src/repositories/postgres/auth/auth-repository.service.ts:89-95 | returns an account whose email equals the argument, or none exactly when no account has that email; the tables are only read |
| `AuthRepository.GetByPhone` | src/repositories/postgres/auth/auth-repository.service.ts:97-103 | returns an account whose phone equals the argument, or none exactly when no account has that phone |
| `AuthRepository.GetByEmailIsUnique` | src/repositories/postgres/auth/auth-repository.service.ts:89-95 | on consistent tables the account with that email is unique and is the one returned |
| `AuthRepository.GetByPhoneIsUnique` | src/repositories/postgres/auth/auth-repository.service.ts:97-103 | on consistent tables the account with that phone is unique and is the one returned |
| `AuthRepository.GetByProvider` | src/repositories/postgres/auth/auth-repository.service.ts:105-119 | returns some account ALL of whose links have the given provider and providerId, or none exactly when no account qualifies |
| `AuthRepository.ManyByProviderWhere` | src/repositories/postgres/auth/auth-repository.service.ts:131-145 | the `OR` list always holds the provider clause; it holds the email clause when the given email is truthy, and holds no email clause when it is not |
| `AuthRepository.GetManyByProvider` | src/repositories/postgres/auth/auth-repository.service.ts:121-147 | returns exactly the accounts whose links all have the provider identity, or whose email equals a truthy given email; each result carries its own links; on consistent tables each such account appears exactly once; no match gives an empty sequence, never an error |
| `AuthRepository.ManyByProviderWithoutEmail` | src/repositories/postgres/auth/auth-repository.service.ts:140-145 | with the email omitted or empty, only the provider clause decides the result |
| `AuthRepository.UnlinkedAccountMatchesAnyProvider` | src/repositories/postgres/auth/auth-repository.service.ts:105-147 | an account with no links satisfies `every` vacuously: `getByProvider` finds an account and `getManyByProvider` returns that account for any provider identity |
| `AuthRepository.EveryReturnsUnlinkedAccounts` | src/repositories/postgres/auth/auth-repository.service.ts:109-118 | concrete consistent tables (`UnlinkedStore`) where `getByProvider` returns an account with no Google link, and `getManyByProvider` returns exactly two rows, both accounts, for an identity nobody is linked to |
| `AuthRepository.GetByProviderLinked` | src/repositories/postgres/auth/auth-repository.service.ts:105-119 | corrected query: returns an account that owns a link with the provider identity, or none exactly when no account owns one |
| `AuthRepository.LinkedQueryNeedsALink` | src/repositories/postgres/auth/auth-repository.service.ts:105-119 | the corrected query never returns an account without links |
| `AuthRepository.GetManyByProviderLinked` | src/repositories/postgres/auth/auth-repository.service.ts:121-147 | corrected query: exactly the accounts linked to the provider identity or carrying the truthy given email, each with its links; on consistent tables each appears exactly once |
| `AuthRepository.AsRequest` | src/models/account.ts:43-62 | each declared shape yields a runtime object carrying its own fields and timezone, with the other identity fields absent |
| `AuthRepository.Build` | src/repositories/postgres/auth/auth-repository.service.ts:32-87 | one id serves the account, its config and its link, and the config carries the input timezone. Google is tested first: the input email, no phone, and exactly one GOOGLE link with the grant's id, tokens and expiry. Otherwise a truthy phone sets only the phone, and otherwise a truthy email sets only the email; neither branch adds a link. When none of the three is truthy, nothing is built |
| `AuthRepository.DeclaredShapeTakesItsBranch` | src/models/account.ts:43-62 | a Google input always creates an account with one link. A phone or email input creates an account carrying exactly that identifier when it is non-empty, and is refused when it is empty |
| `AuthRepository.BuiltAccountFitsColumns` | src/models/account.ts:16-23 | with a 16-character id, an email of at most 150 characters and a phone of at most 25, the created row fits the entity's columns |
| `AuthRepository.Collides` | src/repositories/postgres/auth/auth-repository.service.ts:49-83 | a create is refused as a unique violation exactly when the new id, the new email or the new phone is already in the accounts table |
| `AuthRepository.Insert` | src/repositories/postgres/auth/auth-repository.service.ts:49-83 | the accounts table grows by one row, the new account; no other account appears; the ids grow by exactly the new id and the link owners by exactly the new links' owners |
| `AuthRepository.InsertKeepsConsistent` | src/models/account.ts:28-32 | a successful create keeps ids, emails, phones and link keys unique, keeps each config tied to its account and each link to an existing account, and leaves no account without identity |
| `AuthRepository.CreatedAccountIsFound` | src/repositories/postgres/auth/auth-repository.service.ts:89-103 | after a create, `getByEmail` / `getByPhone` with the new account's email / phone return that account |
| `AuthRepository.RowOf` | src/repositories/postgres/auth/auth-repository.service.ts:166-181 | the create and update payloads of the upsert are one row, keyed by the input triple and carrying the input's tokens and expiry |
| `AuthRepository.Lookup` | src/repositories/postgres/auth/auth-repository.service.ts:159-165 | the link found has the key and is in the table; none is found exactly when no link has the key |
| `AuthRepository.Upsert` | src/repositories/postgres/auth/auth-repository.service.ts:158-182 | after an upsert the table holds only old rows and the payload; every row with another key stays; the payload is present; a row is added exactly when no row had the key |
| `AuthRepository.UpsertKeys` | src/repositories/postgres/auth/auth-repository.service.ts:158-182 | the set of link keys grows by exactly the upserted key |
| `AuthRepository.UpdatedLinks` | src/repositories/postgres/auth/auth-repository.service.ts:158-182 | the input's triple reads back as the input row, and the rows with any other key are those of the old table |
| `AuthRepository.UpsertLookup` | src/repositories/postgres/auth/auth-repository.service.ts:158-182 | the row with the key reads back as the update payload when a row existed, as the create payload otherwise |
| `AuthRepository.UpsertKeepsOthers` | src/repositories/postgres/auth/auth-repository.service.ts:158-182 | the rows with any other key are unchanged, in order |
| `AuthRepository.UpsertIdempotent` | src/repositories/postgres/auth/auth-repository.service.ts:158-182 | upserting the same row twice gives the same table as upserting it once |
| `AuthRepository.UpsertKeepsKeysUnique` | src/repositories/postgres/auth/auth-repository.service.ts:159-165 | link keys stay unique |
| `AuthRepository.CountOfUniqueKey` | src/repositories/postgres/auth/auth-repository.service.ts:159-165 | with unique keys a key occurs once if present and never if absent |
| `AuthRepository.UpdateProviderWritesOneRow` | src/repositories/postgres/auth/auth-repository.service.ts:150-183 | afterwards exactly one link has the triple, with the input's tokens and expiry; all other links are unchanged; repeating the call changes nothing |
| `AuthRepository.LastUpdateWins` | src/repositories/postgres/auth/auth-repository.service.ts:150-183 | after two updates of the same link, it carries the second update's tokens |
| `AuthRepository.UpdateKeepsConsistent` | src/repositories/postgres/auth/auth-repository.service.ts:150-183 | an upsert for an existing account keeps the tables consistent |
| `AuthRepository.AuthRepositoryService.constructor` | src/repositories/postgres/auth/auth-repository.service.ts:21-30 | the service starts from the two given consistent tables |
| `AuthRepository.AuthRepositoryService.Create` | src/repositories/postgres/auth/auth-repository.service.ts:32-87 | with no recognised shape it fails and no table changes. If the id, email or phone is taken it fails and no table changes. Otherwise it appends exactly the built account and links and returns the account. Consistency is preserved |
| `AuthRepository.AuthRepositoryService.UpdateProvider` | src/repositories/postgres/auth/auth-repository.service.ts:150-183 | accounts never change. For an existing account the link table becomes the upsert of the input row. For an unknown account the call is refused and nothing changes. Consistency is preserved |

## Findings

| source | as written | input that shows it | evidently intended | confidence | as-written member | corrected member |
|---|---|---|---|---|---|---|
| src/repositories/postgres/auth/auth-repository.service.ts:109-118 | `findFirst` where `signInProviders: { every: { provider, providerId } }` | tables with one email-only account `a` and no links; `getByProvider(GOOGLE, "google-subject")` returns `a` | return an account owning a link with that provider identity (`some`) | not executed | `AuthRepository.EveryReturnsUnlinkedAccounts` | `AuthRepository.GetByProviderLinked` |
| src/repositories/postgres/auth/auth-repository.service.ts:126-147 | `OR: [{ SignInProvider: { every: ... } }, email clause]` | tables with two accounts `a` and `b`, no links; `getManyByProvider(GOOGLE, "google-subject")` returns both | return only accounts linked to the identity or matching the email | not executed | `AuthRepository.EveryReturnsUnlinkedAccounts` | `AuthRepository.GetManyByProviderLinked` |

The as-written queries `GetByProvider` and `GetManyByProvider` remain the
model of the service. The corrected queries sit beside them, with their
intended properties proved.

## Left out

- `getById`: declared by the abstract repository (src/models/account.ts:99) but not implemented by the service.
- The `AccountUseCase` orchestration (Google code exchange, token refresh, `iam`): only its signatures exist (src/models/account.ts:171-185), and its OAuth/HTTP calls are external I/O. Only its input and output shapes are modelled.
- The id and secret generator (src/adapters/implementations/uid.service.ts): a randomness source. The id is a parameter of `Create` of length 16; the 32-character secret is not used by the store.
- `createdAt = new Date()` and `Date` values in general: the clock is not modelled, and `expiresAt` is an opaque integer.
- Transactions, concurrency, and uniqueness races between concurrent writers: calls are sequential.
- Column widths are stated as a predicate (`FitsColumns`), not enforced by the tables: a too-long value is not rejected.
- The sign-in provider and timezone enumerations: their files are not part of this model. GOOGLE is the only provider value, and a timezone is a string.
- Uniqueness of the pair (provider, providerId) across accounts is not enforced: the only link key in the source is the triple used by the upsert.
- `AuthRepository.FindMany`: does not state the order of the results. It states which accounts they are, that each appears once on a table with distinct ids, and the links each carries.
- NestJS dependency injection, decorators, the `@ts-ignore` partial object and `InternalServerErrorException`: these become the class's fields and the plain error `InvalidCreationMethod`.
