# Access-token lifecycle of bookstore_oauthapi, in Dafny

This project models the access-token core of the bookstore OAuth API. The core has two parts.

- **The domain** (`access_token.dfy`, module `AccessTokens`):
  - The issuance request and its grant-type check.
  - The access token. Its structural checks trim the token identifier in place, then report the first failing check in the order identifier, user id, client id, expiry.
  - Generation of a new token: a 24-hour expiry, and an identifier that is the MD5 digest of `at-<userId>-<expires>-ran`.
  - The expiry test.
- **The token service** (`access_token_service.dfy`, module `AccessTokenService`). It runs three straight-line procedures over the token store and the user API client it is built with:
  - retrieval by identifier;
  - issuance (check the request, log in, generate, persist);
  - expiry refresh (check the token, then update the store).

The collaborators are modelled only through their interfaces (`repositories.dfy`, module `Repositories`):

- The token store: `DbRepository`, with `GetByID`, `Create` and `UpdateExpirationTime`.
- The user API client: `UsersRepository.LoginUser`.

Each collaborator is a class that records every call it receives in `calls`. It answers with a reply function of all earlier calls and the current request. That covers a scripted mock as well as a store whose contents come from earlier writes. The service's contracts therefore say which collaborator was asked, with what, in which order, and that its answer is passed on unchanged.

The rest of the Go behaviour the core relies on is modelled as follows (`strings.dfy`, module `GoStrings`):

- `strings.TrimSpace`, over Unicode white space.
- The `%d` rendering of an integer.
- The outside world becomes parameters:
  - the wall clock is `nowNanos`, the reading of `time.Now()` in nanoseconds since the Unix epoch;
  - `cryptoutils.GetMd5` is `md5`, a function into 32-character lower-case hexadecimal strings.
- `RestErr` is a kind (bad request, not found, internal) plus a message (`errors.dfy`).

Expiry is computed as Go's `time.Unix(Expires, 0).Before(time.Now())` computes it:

- Go counts seconds from year 1 in an int64.
- The reading keeps its sub-second part.
- Adding the year-1 offset to `Expires` wraps around for expiries beyond about 292 billion years. Such a token reads as expired (`WrappedExpiryIsExpired`).
- Below that bound, a token is expired exactly when its expiry instant is strictly before the reading, to the nanosecond (`IsExpiredIffBefore`).

Three behaviours of the code are easy to miss:

- **Grant type.** The second accepted grant type is spelled `clientCredentials` (src/domain/accesstoken/access_token.go:14). The snake-case spelling `client_credentials` is refused (`UnrecognisedGrantTypes`).
- **When a new token expires.** The expiry is the whole second of issue plus 86400 (src/domain/accesstoken/access_token.go:82). A fresh token therefore stays live up to 24 hours less one second after issue, and is expired at every reading more than 24 hours after issue (`NewTokenLifetime`). At exactly 24 hours after issue it is expired only when the issue fell part-way through a second (`NewTokenAtExactly24Hours`).
- **What expiry refresh sends.** The store receives the whole token object, its identifier trimmed, and reads the identifier and the expiry from it (src/services/accesstoken/access_token_service.go:68).

## Model

| member | source | states |
|---|---|---|
| `GoStrings.TrimSpace` | src/domain/accesstoken/access_token.go:59 | the trimmed identifier is empty exactly when the input is all white space, and otherwise starts and ends with a non-space character |
| `GoStrings.TrimSpaceInfix` | src/domain/accesstoken/access_token.go:59 | the trimmed string is the infix of the input between a run of leading and a run of trailing white space |
| `GoStrings.TrimSpaceIdempotent` | src/domain/accesstoken/access_token.go:59 | trimming an already trimmed identifier changes nothing |
| `GoStrings.ParseNatDigits` | src/domain/accesstoken/access_token.go:84 | reading the printed digits of a natural number gives the number back |
| `GoStrings.FormatInt` | src/domain/accesstoken/access_token.go:84 | the `%d` form of an integer is non-empty, has a leading minus sign exactly when it is negative (then followed by at least one digit), and has decimal digits in every other position |
| `GoStrings.FormatIntInjective` | src/domain/accesstoken/access_token.go:84 | distinct integers are printed differently by `%d` |
| `GoStrings.FormatIntThenDash` | src/domain/accesstoken/access_token.go:84 | a printed integer followed by `-` and any text determines both the integer and the text |
| `AccessTokens.AtRequest.Validate` | src/domain/accesstoken/access_token.go:32-44 | no error exactly when the grant type is `password` or `clientCredentials`; any other value gives the bad-request error "Invalid grantType parameter" |
| `AccessTokens.RequestVerdictIgnoresOtherFields` | src/domain/accesstoken/access_token.go:32-44 | two requests with the same grant type get the same verdict, whatever their scope, username, password, client id and secret |
| `AccessTokens.UnrecognisedGrantTypes` | src/domain/accesstoken/access_token.go:13-14 | `client_credentials`, the empty string and `none` are refused |
| `AccessTokens.Token.Validate` | src/domain/accesstoken/access_token.go:59-76 | no error exactly when the token is well formed (trimmed identifier non-empty, user id, client id and expiry all positive); otherwise the error of the earliest failing check in the order identifier, user id, client id, expiry |
| `AccessTokens.ZeroTokenFailsEveryCheck` | src/domain/accesstoken/access_token.go:59-76 | the all-zero token fails all four checks and reports "Invalid access token" |
| `AccessTokens.ValidateTwice` | src/domain/accesstoken/access_token.go:59 | after one check the identifier is already trimmed, so a second check leaves the token as it is and gives the same verdict |
| `AccessTokens.SameVerdict` | src/domain/accesstoken/access_token.go:59-76 | the verdict depends on the identifier only through its trimmed form |
| `AccessTokens.Validate` | src/domain/accesstoken/access_token.go:53-77 | a nil token gives "Access token pointer is nil"; otherwise the token's identifier is trimmed in place, its ids and expiry are unchanged, and the result is the verdict on its previous value |
| `AccessTokens.Wrap64` | src/domain/accesstoken/access_token.go:89 | int64 values are kept and values just above the int64 range wrap to negative |
| `AccessTokens.Token.IsExpired` | src/domain/accesstoken/access_token.go:88-90 | Go's `time.Unix(expires, 0).Before(now)`, comparing seconds since year 1 in int64 with the reading's sub-second part as tie-break; an expiry so large that adding the year-1 offset wraps past int64 always reads as expired |
| `AccessTokens.IsExpiredIffBefore` | src/domain/accesstoken/access_token.go:88-90 | below the wrap-around bound, a token is expired exactly when its expiry, in nanoseconds, is strictly before the clock reading |
| `AccessTokens.WrappedExpiryIsExpired` | src/domain/accesstoken/access_token.go:89 | an expiry so large that Go's instant arithmetic wraps reads as expired at every reading |
| `AccessTokens.ZeroTokenExpired` | src/domain/accesstoken/access_token_test.go:29-34 | the zero token is expired exactly at the readings after the epoch |
| `AccessTokens.ThreeHoursAheadNotExpired` | src/domain/accesstoken/access_token_test.go:35-40 | a token set to expire three hours after the current second is not expired at any later reading before that expiry |
| `AccessTokens.Seed` | src/domain/accesstoken/access_token.go:84 | the digest input `at-<userId>-<expires>-ran` has at least ten characters, starts with `at-` and ends with `-ran`; that it determines both numbers is `SeedInjective` |
| `AccessTokens.SeedInjective` | src/domain/accesstoken/access_token.go:84 | distinct (user id, expiry) pairs give distinct digest inputs |
| `AccessTokens.ExpiryFor` | src/domain/accesstoken/access_token.go:82 | a new token's expiry lies in the last second before 24 hours after the reading: more than 24 h less 1 s and at most 24 h later |
| `AccessTokens.NewToken` | src/domain/accesstoken/access_token.go:79-84 | a new token carries the given user id, client id 0 and the expiry computed from the reading; its identifier is the digest of the seed built from its own user id and expiry |
| `AccessTokens.NewTokenLifetime` | src/domain/accesstoken/access_token.go:79-86 | a new token has the given user id (0 included) and client id 0, is live at issue and for 24 h less 1 s after, and is expired more than 24 h after issue |
| `AccessTokens.NewTokenAtExactly24Hours` | src/domain/accesstoken/access_token.go:82-89 | at exactly 24 hours after issue a new token is expired precisely when the reading at issue was not a whole second |
| `AccessTokens.NewTokenIdentifier` | src/domain/accesstoken/access_token.go:84 | the identifier is the digest of the token's own user id and expiry; it is non-empty and has no surrounding space; there is no random part, so issuing twice in one second for one user gives the same token |
| `AccessTokens.ClientlessVerdict` | src/domain/accesstoken/access_token.go:59-70 | a token with a non-blank identifier and client id 0 is refused with "Invalid user id" when its user id is not positive and with "Invalid client id" otherwise |
| `AccessTokens.NewTokenFailsValidation` | src/domain/accesstoken/access_token.go:64-83 | a freshly generated token never passes the structural checks: "Invalid client id" for a positive user id, "Invalid user id" otherwise |
| `AccessTokens.GetNewAccessToken` | src/domain/accesstoken/access_token.go:79-86 | allocates a new token object holding the generated value |
| `Repositories.DbRepository.GetByID` | src/repository/db/db_repository.go:27 | records the lookup and returns the store's reply; a token it returns is a new object |
| `Repositories.DbRepository.Create` | src/repository/db/db_repository.go:28 | records the token object and its value and returns the store's reply |
| `Repositories.DbRepository.UpdateExpirationTime` | src/repository/db/db_repository.go:29 | records the token object and its value and returns the store's reply |
| `Repositories.UsersRepository.LoginUser` | src/repository/usersdb/users_repository.go:31 | records the credentials and returns the user API's reply |
| `AccessTokenService.CheckTokenId` | src/services/accesstoken/access_token_service.go:28-32 | refuses exactly the all-white-space identifiers, with the bad-request error "Invalid access token id"; otherwise yields a non-empty identifier with no surrounding space |
| `AccessTokenService.CheckTokenIdTrims` | src/services/accesstoken/access_token_service.go:28-34 | a non-blank identifier passes as its trimmed form, and pre-trimming an identifier does not change the guard's verdict |
| `AccessTokenService.Service.constructor` | src/services/accesstoken/access_token_service.go:11-13 | the service holds exactly the given store and user API client |
| `AccessTokenService.Service.GetByID` | src/services/accesstoken/access_token_service.go:26-40 | a blank identifier gives the bad-request error and no token, and the store is not called; otherwise the store is called once with the trimmed identifier, and its error (then no token) or its token is passed on; never both a token and an error |
| `AccessTokenService.Service.Create` | src/services/accesstoken/access_token_service.go:42-62 | a refused request returns its error and calls nobody; otherwise login is called once with the request's username and password whatever the grant type, and a login error is returned with the store untouched; otherwise exactly one new token for the user is handed to the store, and the store's error is returned with no token, or else that same object is returned; never both |
| `AccessTokenService.Service.UpdateExpirationTime` | src/services/accesstoken/access_token_service.go:64-69 | a nil or invalid token gives the check's error without calling the store; otherwise the store is called once with the token, identifier trimmed, and its reply is returned; the caller's token is trimmed in every non-nil case |

## Left out

- HTTP handlers, routing and start-up are not part of this model. Nor are the status-code mapping and the liveness probe. These are transport plumbing.
- The Cassandra store and its session are not part of this model. Nor is the HTTP client behind `LoginUser`, with its JSON encoding and its 1-second timeout. Both are reached only through the two interfaces.
- `Repositories.DbRepository`, `Repositories.UsersRepository`: an implementation is a deterministic function of its own call history. The model does not cover implementations that mutate the token they are handed, that alias a token they return with another object, or that depend on anything else (clock, network).
- `Repositories.UsersRepository.LoginUser`: a reply is a user or an error, never both and never neither. A Go implementation answering `(nil, nil)` makes `Create` panic on `user.Id`. That outcome is not modelled.
- `AccessTokens.NewTokenIdentifier`: `cryptoutils.GetMd5` is not part of this model. The digest is a parameter whose results are 32 lower-case hexadecimal characters. Hence the identifier's non-emptiness is a consequence of that parameter type, not a proof about MD5.
- Identifier uniqueness across users and seconds is not claimed: it holds exactly when the digest has no collision on distinct seeds (`SeedInjective`).
- `AccessTokens.IsExpiredIffBefore`: the clock reading is an int64 of nanoseconds since the epoch, so years outside 1678–2262 cannot be expressed. Go's monotonic clock reading plays no part, because `time.Unix` carries none.
- `AccessTokens.Token.IsExpired` is defined on the token's value rather than on the token object, because it only reads the object.
- Strings are sequences of Unicode code points. Byte strings that are not valid UTF-8 are not modelled.
- The Go `Service` interface type is not modelled separately. The service class is its only implementation.
