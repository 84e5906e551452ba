/** The account data model: entity rows, repository inputs and use-case
    outputs, all as plain values. */
module AccountModel {
  import opened Wrappers

  /** The primary key is a `char(16)` column. */
  const ID_LENGTH: nat := 16
  /** `varchar(150)` */
  const EMAIL_MAX_LENGTH: nat := 150
  /** `varchar(25)` */
  const PHONE_MAX_LENGTH: nat := 25

  /** The sign-in provider kinds; GOOGLE is the only one the service uses. */
  datatype SignInProviderEnum = GOOGLE

  /** A timezone name; the enumeration of known zones is not part of this model. */
  type Timezone = string

  /** A point in time (`Date` in the source), as an opaque integer. */
  type Timestamp = int

  /** The per-account settings row, created together with its account. */
  datatype Config = Config(accountId: string, timezone: Timezone)

  /** An account row. Email and phone are optional: a create that does not set
      them leaves them absent. */
  datatype Account = Account(
    id: string,
    email: Option<string>,
    phone: Option<string>,
    config: Config)

  /** A sign-in provider link: one external identity bound to the account
      `accountId`, with the provider's cached tokens. */
  datatype SignInProvider = SignInProvider(
    accountId: string,
    provider: SignInProviderEnum,
    providerId: string,
    accessToken: string,
    refreshToken: string,
    expiresAt: Timestamp)

  /** The row fits the declared column widths of the account entity. */
  predicate FitsColumns(a: Account) {
    && |a.id| == ID_LENGTH
    && (a.email.Some? ==> |a.email.value| <= EMAIL_MAX_LENGTH)
    && (a.phone.Some? ==> |a.phone.value| <= PHONE_MAX_LENGTH)
  }

  /** The Google block of a Google sign-up: all four fields always travel together. */
  datatype GoogleGrant = GoogleGrant(
    id: string,
    accessToken: string,
    refreshToken: string,
    expiresAt: Timestamp)

  /** The declared creation input: exactly one of three shapes. */
  datatype CreateInput =
    | CreateWithEmail(email: string, timezone: Timezone)
    | CreateWithPhone(phone: string, timezone: Timezone)
    | CreateWithGoogle(email: string, timezone: Timezone, google: GoogleGrant)

  datatype GetByIdInput = GetByIdInput(id: string)

  datatype GetByEmailInput = GetByEmailInput(email: string)

  datatype GetByPhoneInput = GetByPhoneInput(phone: string)

  datatype GetByProviderInput = GetByProviderInput(providerId: string, provider: SignInProviderEnum)

  /** The email is optional; provider and provider id are required. */
  datatype GetManyByProviderInput = GetManyByProviderInput(
    providerId: string,
    provider: SignInProviderEnum,
    email: Option<string>)

  datatype UpdateProviderInput = UpdateProviderInput(
    accountId: string,
    provider: SignInProviderEnum,
    providerId: string,
    accessToken: string,
    refreshToken: string,
    expiresAt: Timestamp)

  /** The literal type `true`: the only value `isFirstAccess` can carry. */
  datatype TrueLiteral = True

  /** Credentials issued by a sign-in; `isFirstAccess` is absent or `true`, never `false`. */
  datatype AuthOutput = AuthOutput(
    refreshToken: string,
    accessToken: string,
    expiresAt: string,
    isFirstAccess: Option<TrueLiteral>)

  /** The answer to a refresh: a new access token only, the refresh token is not rotated. */
  datatype RefreshOutput = RefreshOutput(accessToken: string, expiresAt: string)

  datatype CreateWith3rdPartyProviderInput = CreateWith3rdPartyProviderInput(
    code: string,
    originUrl: string,
    timezone: Timezone)

  datatype CreateWithEmailProviderInput = CreateWithEmailProviderInput(email: string, timezone: Timezone)

  datatype CreateWithPhoneProviderInput = CreateWithPhoneProviderInput(phone: string, timezone: Timezone)

  datatype ExchangeCodeInput = ExchangeCodeInput(accountId: string, code: string)

  datatype IamInput = IamInput(id: Option<string>)

  datatype RefreshTokenInput = RefreshTokenInput(refreshToken: string)

  /** Who the caller is; the Google id only when a Google link exists. */
  datatype IamOutput = IamOutput(id: string, googleId: Option<string>)
}
