/**
 * The two collaborators of the token service, seen only through their
 * interfaces: the token store (`db.DRepository`) and the user API client
 * (`usersdb.UsersRepository`).
 *
 * An implementation is given by its replies: each reply is a function of
 * everything the collaborator has been asked so far and of the current
 * request, so the model covers a scripted mock as well as a store whose
 * contents are built up by earlier calls. Every call is recorded in `calls`.
 */
module Repositories {
  import opened Wrappers
  import opened Errors
  import opened AccessTokens

  /** A request received by the token store, with the token object passed and the value it held then. */
  datatype DbCall =
    | GetByIdCall(id: string)
    | CreateCall(target: AccessToken, token: Token)
    | UpdateExpirationTimeCall(target: AccessToken, token: Token)

  /** The `(*AccessToken, RestErr)` pair a lookup returns; either half may be nil. */
  datatype Lookup = Lookup(token: Option<Token>, err: Option<RestErr>)

  /** The token store. */
  class DbRepository {
    const getByIdReply: (seq<DbCall>, string) -> Lookup
    const createReply: (seq<DbCall>, Token) -> Option<RestErr>
    const updateExpirationTimeReply: (seq<DbCall>, Token) -> Option<RestErr>
    var calls: seq<DbCall>

    constructor (
      getByIdReply: (seq<DbCall>, string) -> Lookup,
      createReply: (seq<DbCall>, Token) -> Option<RestErr>,
      updateExpirationTimeReply: (seq<DbCall>, Token) -> Option<RestErr>)
      ensures this.getByIdReply == getByIdReply
      ensures this.createReply == createReply
      ensures this.updateExpirationTimeReply == updateExpirationTimeReply
      ensures calls == []
    {
      this.getByIdReply := getByIdReply;
      this.createReply := createReply;
      this.updateExpirationTimeReply := updateExpirationTimeReply;
      calls := [];
    }

    /** Looks a token up by identifier; a token it returns is a new object. */
    method GetByID(id: string) returns (at: AccessToken?, err: Option<RestErr>)
      modifies this
      ensures calls == old(calls) + [GetByIdCall(id)]
      ensures err == getByIdReply(old(calls), id).err
      ensures at == null <==> getByIdReply(old(calls), id).token.None?
      ensures at != null ==> fresh(at) && at.Value() == getByIdReply(old(calls), id).token.value
    {
      var reply := getByIdReply(calls, id);
      calls := calls + [GetByIdCall(id)];
      err := reply.err;
      if reply.token.Some? {
        at := new AccessToken(reply.token.value);
      } else {
        at := null;
      }
    }

    /** Stores a token; the token object itself is left as it is. */
    method Create(at: AccessToken) returns (err: Option<RestErr>)
      modifies this
      ensures calls == old(calls) + [CreateCall(at, at.Value())]
      ensures err == createReply(old(calls), at.Value())
    {
      err := createReply(calls, at.Value());
      calls := calls + [CreateCall(at, at.Value())];
    }

    /** Rewrites the stored expiry of the token with this identifier; the token object is left as it is. */
    method UpdateExpirationTime(at: AccessToken) returns (err: Option<RestErr>)
      modifies this
      ensures calls == old(calls) + [UpdateExpirationTimeCall(at, at.Value())]
      ensures err == updateExpirationTimeReply(old(calls), at.Value())
    {
      err := updateExpirationTimeReply(calls, at.Value());
      calls := calls + [UpdateExpirationTimeCall(at, at.Value())];
    }
  }

  /** A user as the user API describes one; the service uses only `id`. */
  datatype User = User(id: Int64, firstName: string, lastName: string, email: string)

  /** The credentials of one login request. */
  datatype Credentials = Credentials(email: string, password: string)

  /** The user API client. */
  class UsersRepository {
    const loginReply: (seq<Credentials>, Credentials) -> Result<User, RestErr>
    var calls: seq<Credentials>

    constructor (loginReply: (seq<Credentials>, Credentials) -> Result<User, RestErr>)
      ensures this.loginReply == loginReply
      ensures calls == []
    {
      this.loginReply := loginReply;
      calls := [];
    }

    /** Authenticates an email and password: the user, or why not. */
    method LoginUser(email: string, password: string) returns (r: Result<User, RestErr>)
      modifies this
      ensures calls == old(calls) + [Credentials(email, password)]
      ensures r == loginReply(old(calls), Credentials(email, password))
    {
      r := loginReply(calls, Credentials(email, password));
      calls := calls + [Credentials(email, password)];
    }
  }
}
