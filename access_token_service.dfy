/**
 * The token service: retrieval by identifier, issuance (request check, login,
 * generation, persistence) and expiry refresh, over the token store and the
 * user API client it is constructed with.
 */
module AccessTokenService {
  import opened Wrappers
  import opened Errors
  import opened GoStrings
  import opened AccessTokens
  import opened Repositories

  const ErrInvalidTokenId := NewBadRequestError("Invalid access token id")

  /**
   * The guard in front of a lookup: the identifier without surrounding white
   * space, or a bad-request error when nothing else is left.
   */
  function CheckTokenId(id: string): (r: Result<string, RestErr>)
    ensures r.Err? <==> AllSpace(id)
    ensures r.Err? ==> r.error == ErrInvalidTokenId && r.error.kind == BadRequest
    ensures r.Ok? ==> r.value != [] && !IsSpace(r.value[0]) && !IsSpace(r.value[|r.value| - 1])
  {
    var trimmed := TrimSpace(id);
    if |trimmed| == 0 then Err(ErrInvalidTokenId) else Ok(trimmed)
  }

  /** A non-blank identifier is looked up in its trimmed form, whatever white space surrounds it. */
  lemma CheckTokenIdTrims(id: string)
    ensures !AllSpace(id) ==> CheckTokenId(id) == Ok(TrimSpace(id))
    ensures CheckTokenId(TrimSpace(id)) == CheckTokenId(id)
  {
    TrimSpaceIdempotent(id);
  }

  class Service {
    const dbRepository: DbRepository
    const usersRepository: UsersRepository

    /** `NewService`: a service over the given store and user API client. */
    constructor (dbRepository: DbRepository, usersRepository: UsersRepository)
      ensures this.dbRepository == dbRepository && this.usersRepository == usersRepository
    {
      this.dbRepository := dbRepository;
      this.usersRepository := usersRepository;
    }

    /**
     * A blank identifier is refused without asking the store; otherwise the
     * store is asked once, with the trimmed identifier, and its error or its
     * token is passed on.
     */
    method GetByID(id: string) returns (at: AccessToken?, err: Option<RestErr>)
      modifies dbRepository
      ensures !(at != null && err.Some?)
      ensures AllSpace(id) ==> at == null && err == Some(ErrInvalidTokenId)
                               && dbRepository.calls == old(dbRepository.calls)
      ensures !AllSpace(id) ==>
        var reply := dbRepository.getByIdReply(old(dbRepository.calls), TrimSpace(id));
        dbRepository.calls == old(dbRepository.calls) + [GetByIdCall(TrimSpace(id))]
        && (reply.err.Some? ==> at == null && err == reply.err)
        && (reply.err.None? ==> err.None? && (at == null <==> reply.token.None?))
        && (reply.err.None? && at != null ==> fresh(at) && at.Value() == reply.token.value)
    {
      var checked := CheckTokenId(id);
      if checked.Err? {
        return null, Some(checked.error);
      }
      CheckTokenIdTrims(id);
      at, err := dbRepository.GetByID(checked.value);
      if err.Some? {
        return null, err;
      }
      return at, None;
    }

    /**
     * Issues a token: a request with an unknown grant type is refused before
     * any call; otherwise the user API is asked to log in with the request's
     * username and password (for either grant type) and its error is passed
     * on; otherwise a token is generated for the user and handed to the store
     * once, and either the store's error or that very token is returned.
     */
    method Create(request: AtRequest, nowNanos: Int64, md5: string -> HexDigest) returns (at: AccessToken?, err: Option<RestErr>)
      modifies dbRepository, usersRepository
      ensures !(at != null && err.Some?)
      ensures request.Validate().Some? ==>
        at == null && err == request.Validate()
        && usersRepository.calls == old(usersRepository.calls)
        && dbRepository.calls == old(dbRepository.calls)
      ensures request.Validate().None? ==>
        usersRepository.calls == old(usersRepository.calls) + [Credentials(request.username, request.password)]
      ensures request.Validate().None? ==>
        var login := usersRepository.loginReply(old(usersRepository.calls), Credentials(request.username, request.password));
        login.Err? ==> at == null && err == Some(login.error) && dbRepository.calls == old(dbRepository.calls)
      ensures request.Validate().None? ==>
        var login := usersRepository.loginReply(old(usersRepository.calls), Credentials(request.username, request.password));
        var n := |old(dbRepository.calls)|;
        login.Ok? ==>
          var token := NewToken(login.value.id, nowNanos, md5);
          var stored := dbRepository.createReply(old(dbRepository.calls), token);
          |dbRepository.calls| == n + 1 && dbRepository.calls[..n] == old(dbRepository.calls)
          && dbRepository.calls[n].CreateCall? && dbRepository.calls[n].token == token
          && fresh(dbRepository.calls[n].target)
          && (stored.Some? ==> at == null && err == stored)
          && (stored.None? ==> at == dbRepository.calls[n].target && err.None? && at.Value() == token)
    {
      err := request.Validate();
      if err.Some? {
        return null, err;
      }
      var user := usersRepository.LoginUser(request.username, request.password);
      if user.Err? {
        return null, Some(user.error);
      }
      var token := GetNewAccessToken(user.value.id, nowNanos, md5);
      err := dbRepository.Create(token);
      if err.Some? {
        return null, err;
      }
      return token, None;
    }

    /**
     * Refreshes a token's expiry: a nil or structurally invalid token is
     * refused with the check's error without asking the store; otherwise the
     * token, its identifier now trimmed, is handed to the store once and the
     * store's answer is returned. The caller's token is trimmed in either case.
     */
    method UpdateExpirationTime(at: AccessToken?) returns (err: Option<RestErr>)
      modifies at, dbRepository
      ensures at == null ==> err == Some(ErrNilToken) && dbRepository.calls == old(dbRepository.calls)
      ensures at != null ==> at.Value() == old(at.Value()).Trimmed()
      ensures at != null && old(at.Value()).Validate().Some? ==>
        err == old(at.Value()).Validate() && dbRepository.calls == old(dbRepository.calls)
      ensures at != null && old(at.Value()).Validate().None? ==>
        dbRepository.calls == old(dbRepository.calls) + [UpdateExpirationTimeCall(at, at.Value())]
        && err == dbRepository.updateExpirationTimeReply(old(dbRepository.calls), at.Value())
    {
      err := Validate(at);
      if err.Some? {
        return err;
      }
      err := dbRepository.UpdateExpirationTime(at);
    }
  }

  /** A store that must not be asked, and a user API that answers every login with one user. */
  method LoginAsUser(userId: Int64) returns (s: Service)
    ensures fresh(s) && fresh(s.dbRepository) && fresh(s.usersRepository)
    ensures s.dbRepository.calls == [] && s.usersRepository.calls == []
    ensures forall h, c :: s.usersRepository.loginReply(h, c) == Ok(User(userId, "daniel", "gomez", "test@hotmail.com"))
    ensures forall h, t :: s.dbRepository.createReply(h, t) == None
  {
    var db := new DbRepository(
      (h, id) => Lookup(None, Some(NewNotFoundError("No access token found with given id"))),
      (h, t) => None,
      (h, t) => None);
    var users := new UsersRepository((h, c) => Ok(User(userId, "daniel", "gomez", "test@hotmail.com")));
    s := new Service(db, users);
  }

  /** Issuing with an unknown grant type asks nobody; a blank identifier never reaches the store. */
  method RefusalScenarios(nowNanos: Int64, md5: string -> HexDigest) {
    var s := LoginAsUser(123456);
    var at, err := s.Create(AtRequest("none", "", "", "", "", ""), nowNanos, md5);
    assert at == null && err == Some(ErrInvalidGrantType);
    assert s.usersRepository.calls == [] && s.dbRepository.calls == [];

    assert AllSpace("  ");
    at, err := s.GetByID("  ");
    assert at == null && err == Some(ErrInvalidTokenId) && s.dbRepository.calls == [];
  }

  /** A successful password login yields a live token for the user, which is what was stored. */
  method IssueScenario(nowNanos: Int64, md5: string -> HexDigest) {
    var s := LoginAsUser(123456);
    var at, err := s.Create(AtRequest("password", "", "u", "p", "", ""), nowNanos, md5);
    assert s.usersRepository.calls == [Credentials("u", "p")];
    assert err.None? && at != null;
    assert s.dbRepository.calls == [CreateCall(at, at.Value())];
    NewTokenLifetime(123456, nowNanos, md5, nowNanos);
    assert at.Value().userId == 123456 && !at.Value().IsExpired(nowNanos);
  }
}
