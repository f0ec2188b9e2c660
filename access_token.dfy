/**
 * The access-token domain: the issuance request and its grant-type check, the
 * token entity with its structural checks (which trim the identifier in
 * place), generation of a new token, and expiry.
 *
 * The wall clock is a parameter `nowNanos`, the reading of `time.Now()` as
 * nanoseconds since the Unix epoch. The MD5 digest is a parameter `md5` that
 * maps a string to its 32-character lower-case hexadecimal rendering.
 */
module AccessTokens {
  import opened Wrappers
  import opened Errors
  import opened GoStrings

  const MinInt64: int := -0x8000_0000_0000_0000
  const MaxInt64: int := 0x7fff_ffff_ffff_ffff

  /** Go's `int64`. */
  type Int64 = x: int | -0x8000_0000_0000_0000 <= x <= 0x7fff_ffff_ffff_ffff

  /** Hours between issuing a token and its expiry. */
  const ExpirationTime: nat := 24
  const GrantTypePassword: string := "password"
  const GrantTypeClientCredentials: string := "clientCredentials"

  const SecondsPerHour: nat := 3600
  const NanosPerSecond: nat := 1_000_000_000
  /** Seconds from 1 January of year 1 to the Unix epoch; Go's time package counts from the former. */
  const UnixToInternal: nat := 62_135_596_800

  const ErrInvalidGrantType := NewBadRequestError("Invalid grantType parameter")
  const ErrNilToken := NewBadRequestError("Access token pointer is nil")
  const ErrInvalidAccessToken := NewBadRequestError("Invalid access token")
  const ErrInvalidUserId := NewBadRequestError("Invalid user id")
  const ErrInvalidClientId := NewBadRequestError("Invalid client id")
  const ErrInvalidExpires := NewBadRequestError("Invalid expiration time")

  /** A token issuance request, as bound from the JSON body. */
  datatype AtRequest = AtRequest(
    grantType: string,
    scope: string,
    username: string,
    password: string,
    clientId: string,
    clientSecret: string)
  {
    /** Accepts the two recognised grant types and nothing else; no other field is looked at. */
    function Validate(): (err: Option<RestErr>)
      ensures err.None? <==> grantType in {GrantTypePassword, GrantTypeClientCredentials}
      ensures err.Some? ==> err.value == ErrInvalidGrantType && err.value.kind == BadRequest
    {
      match grantType
      case "password" => None
      case "clientCredentials" => None
      case _ => Some(ErrInvalidGrantType)
    }
  }

  /** The verdict on a request depends on its grant type alone. */
  lemma RequestVerdictIgnoresOtherFields(r1: AtRequest, r2: AtRequest)
    requires r1.grantType == r2.grantType
    ensures r1.Validate() == r2.Validate()
  {
  }

  /** The spelling `client_credentials` is not one of the two accepted grant types, nor are `""` and `none`. */
  lemma UnrecognisedGrantTypes(r: AtRequest)
    requires r.grantType in {"client_credentials", "", "none"}
    ensures r.Validate() == Some(ErrInvalidGrantType)
  {
  }

  /** The four structural checks on a token, in the order they are made. */
  datatype Check = IdentifierCheck | UserIdCheck | ClientIdCheck | ExpiresCheck
  {
    function Rank(): nat {
      match this
      case IdentifierCheck => 0
      case UserIdCheck => 1
      case ClientIdCheck => 2
      case ExpiresCheck => 3
    }

    function Error(): RestErr {
      match this
      case IdentifierCheck => ErrInvalidAccessToken
      case UserIdCheck => ErrInvalidUserId
      case ClientIdCheck => ErrInvalidClientId
      case ExpiresCheck => ErrInvalidExpires
    }
  }

  /** The value held by an access token at one moment. */
  datatype Token = Token(accessToken: string, userId: Int64, clientId: Int64, expires: Int64)
  {
    /** The token as the structural checks leave it: identifier trimmed, all else as it was. */
    function Trimmed(): Token {
      this.(accessToken := TrimSpace(accessToken))
    }

    /** The structural invariant of an issued token. */
    predicate WellFormed() {
      !AllSpace(accessToken) && userId > 0 && clientId > 0 && expires > 0
    }

    /** Whether the token fails the given structural check. */
    predicate Fails(c: Check) {
      match c
      case IdentifierCheck => TrimSpace(accessToken) == []
      case UserIdCheck => userId <= 0
      case ClientIdCheck => clientId <= 0
      case ExpiresCheck => expires <= 0
    }

    /**
     * The verdict of the structural checks: no error exactly when the token is
     * well formed, and otherwise the error of the earliest check it fails.
     */
    function Validate(): (err: Option<RestErr>)
      ensures err.None? <==> WellFormed()
      ensures err.None? <==> forall c: Check :: !Fails(c)
      ensures err.Some? ==> exists c: Check :: Fails(c) && err.value == c.Error()
                                  && forall d: Check :: d.Rank() < c.Rank() ==> !Fails(d)
    {
      if TrimSpace(accessToken) == [] then
        assert Fails(IdentifierCheck);
        Some(ErrInvalidAccessToken)
      else if userId <= 0 then
        assert Fails(UserIdCheck) && !Fails(IdentifierCheck);
        Some(ErrInvalidUserId)
      else if clientId <= 0 then
        assert Fails(ClientIdCheck) && !Fails(IdentifierCheck) && !Fails(UserIdCheck);
        Some(ErrInvalidClientId)
      else if expires <= 0 then
        assert Fails(ExpiresCheck) && !Fails(IdentifierCheck) && !Fails(UserIdCheck) && !Fails(ClientIdCheck);
        Some(ErrInvalidExpires)
      else
        None
    }

    /**
     * `time.Unix(expires, 0).Before(now)`. Go keeps an instant as seconds since
     * year 1 in an int64 plus nanoseconds; `time.Unix` adds `UnixToInternal`
     * to `expires` with int64 wrap-around. The clock reading carries its
     * sub-second nanoseconds, the expiry none.
     */
    function IsExpired(nowNanos: Int64): (r: bool)
      ensures expires > MaxInt64 - UnixToInternal ==> r
    {
      var expirySeconds := Wrap64(expires + UnixToInternal);
      var nowSeconds := nowNanos / NanosPerSecond + UnixToInternal;
      expirySeconds < nowSeconds || (expirySeconds == nowSeconds && 0 < nowNanos % NanosPerSecond)
    }
  }

  /** Two's-complement wrap-around of an integer into int64. */
  function Wrap64(x: int): (r: Int64)
    ensures MinInt64 <= x <= MaxInt64 ==> r == x
    ensures MaxInt64 < x <= MaxInt64 - MinInt64 + MaxInt64 ==> r == x - 0x1_0000_0000_0000_0000
  {
    (x - MinInt64) % 0x1_0000_0000_0000_0000 + MinInt64
  }

  /** A token with every field at its zero value fails all four checks, and reports the first. */
  lemma ZeroTokenFailsEveryCheck(c: Check)
    ensures Token("", 0, 0, 0).Fails(c)
    ensures Token("", 0, 0, 0).Validate() == Some(ErrInvalidAccessToken)
  {
    assert AllSpace("");
  }

  /** A token whose identifier is already trimmed is left as it is, so checking twice gives the same verdict and state. */
  lemma ValidateTwice(t: Token)
    ensures t.Trimmed().Trimmed() == t.Trimmed()
    ensures t.Trimmed().Validate() == t.Validate()
  {
    TrimSpaceIdempotent(t.accessToken);
    SameVerdict(t.Trimmed(), t);
  }

  /** The verdict sees the identifier only through its trimmed form. */
  lemma SameVerdict(t: Token, u: Token)
    requires TrimSpace(t.accessToken) == TrimSpace(u.accessToken)
    requires t.userId == u.userId && t.clientId == u.clientId && t.expires == u.expires
    ensures t.Validate() == u.Validate()
  {
  }

  /**
   * While `expires` is below the point where `time.Unix` wraps, the token is
   * expired exactly when its expiry instant lies strictly before the clock
   * reading, to the nanosecond.
   */
  lemma IsExpiredIffBefore(t: Token, nowNanos: Int64)
    requires t.expires <= MaxInt64 - UnixToInternal
    ensures t.IsExpired(nowNanos) <==> t.expires * NanosPerSecond < nowNanos
  {
    var q := nowNanos / NanosPerSecond;
    var r := nowNanos % NanosPerSecond;
    assert nowNanos == q * NanosPerSecond + r;
    if t.expires < q {
      assert t.expires * NanosPerSecond <= q * NanosPerSecond - NanosPerSecond;
    } else if t.expires > q {
      assert t.expires * NanosPerSecond >= q * NanosPerSecond + NanosPerSecond;
    }
  }

  /**
   * An expiry so far ahead that `time.Unix` wraps it round to a negative
   * instant reads as already expired, whatever the clock says.
   */
  lemma WrappedExpiryIsExpired(t: Token, nowNanos: Int64)
    requires t.expires > MaxInt64 - UnixToInternal
    ensures t.IsExpired(nowNanos)
  {
  }

  /** The zero token is expired at every instant after the epoch, and only then. */
  lemma ZeroTokenExpired(nowNanos: Int64)
    ensures Token("", 0, 0, 0).IsExpired(nowNanos) <==> nowNanos > 0
  {
    IsExpiredIffBefore(Token("", 0, 0, 0), nowNanos);
  }

  /**
   * A token set to expire three hours after the current second is not
   * expired at any later reading taken before that expiry.
   */
  lemma ThreeHoursAheadNotExpired(t: Token, nowNanos: Int64, later: Int64)
    requires t.expires == nowNanos / NanosPerSecond + 3 * SecondsPerHour
    requires nowNanos <= later <= t.expires * NanosPerSecond
    ensures !t.IsExpired(later)
  {
    IsExpiredIffBefore(t, later);
  }

  predicate IsHexDigit(c: char) {
    '0' <= c <= '9' || 'a' <= c <= 'f'
  }

  /** What `md5` yields: 16 bytes in lower-case hexadecimal. */
  type HexDigest = s: string | |s| == 32 && forall i :: 0 <= i < |s| ==> IsHexDigit(s[i])
    witness "00000000000000000000000000000000"

  /** The string whose digest becomes a new token's identifier: `at-<userId>-<expires>-ran`. */
  function Seed(userId: int, expires: int): (r: string)
    ensures |r| >= 10 && r[..3] == "at-" && r[|r| - 4..] == "-ran"
  {
    "at-" + FormatInt(userId) + "-" + FormatInt(expires) + "-ran"
  }

  /** Distinct (user, expiry) pairs give distinct seeds: the identifier is the digest of exactly those two numbers. */
  lemma SeedInjective(u1: int, e1: int, u2: int, e2: int)
    requires Seed(u1, e1) == Seed(u2, e2)
    ensures u1 == u2 && e1 == e2
  {
    SeedParts(u1, e1);
    SeedParts(u2, e2);
    FormatIntThenDash(u1, FormatInt(e1) + "-ran", u2, FormatInt(e2) + "-ran");
    SuffixCancel(FormatInt(e1), FormatInt(e2), "-ran");
    FormatIntInjective(e1, e2);
  }

  lemma SeedParts(u: int, e: int)
    ensures Seed(u, e)[3..] == FormatInt(u) + "-" + (FormatInt(e) + "-ran")
  {
    assert Seed(u, e) == "at-" + (FormatInt(u) + "-" + (FormatInt(e) + "-ran"));
  }

  lemma SuffixCancel(a: string, b: string, suffix: string)
    requires a + suffix == b + suffix
    ensures a == b
  {
    assert a == (a + suffix)[..|a|];
    assert b == (b + suffix)[..|b|];
  }

  /** The expiry, in Unix seconds, of a token issued at `nowNanos`. */
  function ExpiryFor(nowNanos: Int64): (e: Int64)
    ensures nowNanos + (ExpirationTime * SecondsPerHour - 1) * NanosPerSecond < e * NanosPerSecond
    ensures e * NanosPerSecond <= nowNanos + ExpirationTime * SecondsPerHour * NanosPerSecond
  {
    nowNanos / NanosPerSecond + ExpirationTime * SecondsPerHour
  }

  /** The value of a token generated for `userId` at `nowNanos`. */
  function NewToken(userId: Int64, nowNanos: Int64, md5: string -> HexDigest): (r: Token)
    ensures r.userId == userId && r.clientId == 0 && r.expires == ExpiryFor(nowNanos)
    ensures r.accessToken == md5(Seed(r.userId, r.expires))
  {
    var expires := ExpiryFor(nowNanos);
    Token(md5(Seed(userId, expires)), userId, 0, expires)
  }

  /**
   * A generated token belongs to the given user, has no client, and expires
   * 24 hours after the current second: it is live for every reading up to
   * 24 hours less one second after issue, and expired for every reading more
   * than 24 hours after issue.
   */
  lemma NewTokenLifetime(userId: Int64, nowNanos: Int64, md5: string -> HexDigest, later: Int64)
    ensures NewToken(userId, nowNanos, md5).userId == userId
    ensures NewToken(userId, nowNanos, md5).clientId == 0
    ensures !NewToken(userId, nowNanos, md5).IsExpired(nowNanos)
    ensures (later <= nowNanos + (ExpirationTime * SecondsPerHour - 1) * NanosPerSecond)
              ==> !NewToken(userId, nowNanos, md5).IsExpired(later)
    ensures (later > nowNanos + ExpirationTime * SecondsPerHour * NanosPerSecond)
              ==> NewToken(userId, nowNanos, md5).IsExpired(later)
  {
    var t := NewToken(userId, nowNanos, md5);
    IsExpiredIffBefore(t, nowNanos);
    IsExpiredIffBefore(t, later);
  }

  /**
   * At exactly 24 hours after issue a new token is expired precisely when it
   * was issued part-way through a second: the expiry is rounded down to the
   * whole second of issue.
   */
  lemma NewTokenAtExactly24Hours(userId: Int64, nowNanos: Int64, md5: string -> HexDigest)
    requires nowNanos + ExpirationTime * SecondsPerHour * NanosPerSecond <= MaxInt64
    ensures (NewToken(userId, nowNanos, md5).IsExpired(nowNanos + ExpirationTime * SecondsPerHour * NanosPerSecond)
             <==> nowNanos % NanosPerSecond != 0)
  {
    var t := NewToken(userId, nowNanos, md5);
    var reading: Int64 := nowNanos + ExpirationTime * SecondsPerHour * NanosPerSecond;
    IsExpiredIffBefore(t, reading);
    assert nowNanos == nowNanos / NanosPerSecond * NanosPerSecond + nowNanos % NanosPerSecond;
  }

  /**
   * A generated token's identifier is the digest of its own user id and
   * expiry, non-empty and free of surrounding space; there is no random
   * component, so two tokens for one user in one second are identical.
   */
  lemma NewTokenIdentifier(userId: Int64, nowNanos: Int64, md5: string -> HexDigest)
    ensures var t := NewToken(userId, nowNanos, md5);
      t.accessToken == md5(Seed(t.userId, t.expires)) && t.accessToken != []
      && TrimSpace(t.accessToken) == t.accessToken && !AllSpace(t.accessToken)
    ensures forall later: Int64 :: later / NanosPerSecond == nowNanos / NanosPerSecond
              ==> NewToken(userId, later, md5) == NewToken(userId, nowNanos, md5)
  {
    HexDigestIsTrimmed(NewToken(userId, nowNanos, md5).accessToken);
  }

  /** A hexadecimal digest is non-empty and has no white space to trim. */
  lemma HexDigestIsTrimmed(id: HexDigest)
    ensures id != [] && TrimSpace(id) == id && !AllSpace(id)
  {
    assert !IsSpace(id[0]) && !IsSpace(id[|id| - 1]) by {
      assert IsHexDigit(id[0]) && IsHexDigit(id[|id| - 1]);
    }
    TrimSpaceOfTrimmed(id);
  }

  /**
   * A freshly generated token never passes the structural checks: its client
   * id is 0, so it fails on the user id when that is not positive and on the
   * client id otherwise.
   */
  lemma NewTokenFailsValidation(userId: Int64, nowNanos: Int64, md5: string -> HexDigest)
    ensures NewToken(userId, nowNanos, md5).Validate()
              == Some(if userId > 0 then ErrInvalidClientId else ErrInvalidUserId)
  {
    var t := NewToken(userId, nowNanos, md5);
    HexDigestIsTrimmed(t.accessToken);
    ClientlessVerdict(t);
  }

  /** A token with a non-blank identifier and no client fails on its user id or else on its client id. */
  lemma ClientlessVerdict(t: Token)
    requires TrimSpace(t.accessToken) != [] && t.clientId == 0
    ensures t.Validate() == Some(if t.userId > 0 then ErrInvalidClientId else ErrInvalidUserId)
  {
  }

  /** An access token object, which the structural checks update in place. */
  class AccessToken {
    var accessToken: string
    var userId: Int64
    var clientId: Int64
    var expires: Int64

    constructor (t: Token)
      ensures Value() == t
    {
      accessToken, userId, clientId, expires := t.accessToken, t.userId, t.clientId, t.expires;
    }

    function Value(): Token
      reads this
    {
      Token(accessToken, userId, clientId, expires)
    }
  }

  /**
   * `(*AccessToken).Validate`: rejects a nil token; otherwise trims the
   * identifier in place, then reports the first failing structural check.
   */
  method Validate(at: AccessToken?) returns (err: Option<RestErr>)
    modifies at
    ensures at == null ==> err == Some(ErrNilToken)
    ensures at != null ==> at.Value() == old(at.Value()).Trimmed() && err == old(at.Value()).Validate()
  {
    if at == null {
      return Some(ErrNilToken);
    }
    at.accessToken := TrimSpace(at.accessToken);
    if at.accessToken == [] {
      return Some(ErrInvalidAccessToken);
    }
    if at.userId <= 0 {
      return Some(ErrInvalidUserId);
    }
    if at.clientId <= 0 {
      return Some(ErrInvalidClientId);
    }
    if at.expires <= 0 {
      return Some(ErrInvalidExpires);
    }
    return None;
  }

  /** `GetNewAccessToken`: allocates the token for `userId`, then derives its identifier from its own fields. */
  method GetNewAccessToken(userId: Int64, nowNanos: Int64, md5: string -> HexDigest) returns (at: AccessToken)
    ensures fresh(at)
    ensures at.Value() == NewToken(userId, nowNanos, md5)
  {
    at := new AccessToken(Token("", userId, 0, ExpiryFor(nowNanos)));
    at.accessToken := md5(Seed(at.userId, at.expires));
  }
}
