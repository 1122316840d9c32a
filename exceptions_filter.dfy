/** The global exception filter: every exception that leaves a handler becomes an HTTP status and a
    `{ statusCode, message }` body. Status numbers are those of section 15 of RFC 9110. */
module ExceptionsFilter {

  /** The exception classes the filter tells apart; `OtherError` is every other `Error`,
      including HTTP exceptions the chain does not name. */
  datatype ExceptionClass =
    | NotFoundException
    | ServiceUnavailableException
    | BadRequestException
    | ConflictException
    | BadGatewayException
    | UnauthorizedException
    | ForbiddenException
    | MethodNotAllowedException
    | UnprocessableEntityException
    | UnsupportedMediaTypeException
    | PayloadTooLargeException
    | OtherError

  /** A thrown exception: its class and its own `message`. */
  datatype Exception = Exception(cls: ExceptionClass, message: string)

  /** The JSON body written to the response. */
  datatype ErrorBody = ErrorBody(statusCode: nat, message: string)

  /** The status set on the response, and its body. */
  datatype Response = Response(status: nat, body: ErrorBody)

  // The `HttpStatus` members the filter uses.
  const StatusBadRequest: nat := 400
  const StatusUnauthorized: nat := 401
  const StatusForbidden: nat := 403
  const StatusNotFound: nat := 404
  const StatusMethodNotAllowed: nat := 405
  const StatusConflict: nat := 409
  const StatusPayloadTooLarge: nat := 413
  const StatusUnsupportedMediaType: nat := 415
  const StatusUnprocessableEntity: nat := 422
  const StatusInternalServerError: nat := 500
  const StatusBadGateway: nat := 502

  /** The text sent in place of the message of an exception the filter does not recognise. */
  const InternalServerErrorMessage := "Internal server error"

  /** Classes handled by the server-error branch of the chain or mapped to a 5xx status. */
  predicate IsServerSide(c: ExceptionClass) {
    c.ServiceUnavailableException? || c.BadGatewayException? || c.OtherError?
  }

  /** `AllExceptionsFilter.catch`, without the logging and the write to the response. */
  function Catch(e: Exception): (r: Response)
    ensures r.body.statusCode == r.status
    ensures 400 <= r.status < 600
    ensures r.status >= 500 <==> IsServerSide(e.cls)
    ensures e.cls.OtherError? ==> r.status == 500 && r.body.message == "Internal server error"
    ensures !e.cls.OtherError? ==> r.body.message == e.message
  {
    var message := e.message;
    var (statusCode, sent) :=
      match e.cls
      case NotFoundException => (StatusNotFound, message)
      case ServiceUnavailableException => (StatusInternalServerError, message)
      case BadRequestException => (StatusBadRequest, message)
      case ConflictException => (StatusConflict, message)
      case BadGatewayException => (StatusBadGateway, message)
      case UnauthorizedException => (StatusUnauthorized, message)
      case ForbiddenException => (StatusForbidden, message)
      case MethodNotAllowedException => (StatusMethodNotAllowed, message)
      case UnprocessableEntityException => (StatusUnprocessableEntity, message)
      case UnsupportedMediaTypeException => (StatusUnsupportedMediaType, message)
      case PayloadTooLargeException => (StatusPayloadTooLarge, message)
      case OtherError => (StatusInternalServerError, InternalServerErrorMessage);
    Response(statusCode, ErrorBody(statusCode, sent))
  }

  /** The decision table, class by class, with the RFC 9110 status numbers written out. */
  lemma StatusTable(m: string)
    ensures Catch(Exception(NotFoundException, m)) == Response(404, ErrorBody(404, m))
    ensures Catch(Exception(ServiceUnavailableException, m)) == Response(500, ErrorBody(500, m))
    ensures Catch(Exception(BadRequestException, m)) == Response(400, ErrorBody(400, m))
    ensures Catch(Exception(ConflictException, m)) == Response(409, ErrorBody(409, m))
    ensures Catch(Exception(BadGatewayException, m)) == Response(502, ErrorBody(502, m))
    ensures Catch(Exception(UnauthorizedException, m)) == Response(401, ErrorBody(401, m))
    ensures Catch(Exception(ForbiddenException, m)) == Response(403, ErrorBody(403, m))
    ensures Catch(Exception(MethodNotAllowedException, m)) == Response(405, ErrorBody(405, m))
    ensures Catch(Exception(UnprocessableEntityException, m)) == Response(422, ErrorBody(422, m))
    ensures Catch(Exception(UnsupportedMediaTypeException, m)) == Response(415, ErrorBody(415, m))
    ensures Catch(Exception(PayloadTooLargeException, m)) == Response(413, ErrorBody(413, m))
    ensures Catch(Exception(OtherError, m)) == Response(500, ErrorBody(500, "Internal server error"))
  {
  }

  /** Apart from the two classes that share 500, the status tells the class: each listed class has a
      status of its own. */
  lemma StatusDeterminesClass(e1: Exception, e2: Exception)
    requires Catch(e1).status == Catch(e2).status
    ensures e1.cls == e2.cls || Catch(e1).status == 500
    ensures Catch(e1).status == 500 <==> e1.cls.ServiceUnavailableException? || e1.cls.OtherError?
  {
  }

  /** The response to an unrecognised exception does not depend on its message: its text never leaks.
      A `ServiceUnavailableException` also gets 500, but keeps its message. */
  lemma UnknownMessagesDoNotLeak(e1: Exception, e2: Exception, m: string)
    requires e1.cls.OtherError? && e2.cls.OtherError?
    ensures Catch(e1) == Catch(e2)
    ensures Catch(Exception(ServiceUnavailableException, m)).status == Catch(e1).status
    ensures m != InternalServerErrorMessage ==> Catch(Exception(ServiceUnavailableException, m)) != Catch(e1)
  {
  }
}
