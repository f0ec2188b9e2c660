/**
 * The `RestErr` values of the external errors package, reduced to what the
 * access-token core inspects or produces: a kind (which the HTTP layer maps to
 * a status code) and a human-readable message.
 */
module Errors {

  datatype ErrKind = BadRequest | NotFound | InternalServerError

  datatype RestErr = RestErr(kind: ErrKind, message: string)

  function NewBadRequestError(message: string): RestErr {
    RestErr(BadRequest, message)
  }

  function NewNotFoundError(message: string): RestErr {
    RestErr(NotFound, message)
  }

  function NewInternalServerError(message: string): RestErr {
    RestErr(InternalServerError, message)
  }
}
