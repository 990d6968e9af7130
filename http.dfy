/** The error a REST handler raises: an HTTP status code and a detail message. */
module Http {

  datatype HttpError = HttpError(statusCode: int, detail: string)

  const HTTP_200_OK: int := 200
  const HTTP_201_CREATED: int := 201
  const HTTP_204_NO_CONTENT: int := 204
  const HTTP_400_BAD_REQUEST: int := 400
  const HTTP_404_NOT_FOUND: int := 404
  const HTTP_409_CONFLICT: int := 409
  /** What the framework answers when a handler raises an unexpected exception. */
  const HTTP_500_INTERNAL_SERVER_ERROR: int := 500

  const INTERNAL_SERVER_ERROR: HttpError := HttpError(HTTP_500_INTERNAL_SERVER_ERROR, "Internal Server Error")

  function NotFound(detail: string): HttpError { HttpError(HTTP_404_NOT_FOUND, detail) }

  function Conflict(detail: string): HttpError { HttpError(HTTP_409_CONFLICT, detail) }

  function BadRequest(detail: string): HttpError { HttpError(HTTP_400_BAD_REQUEST, detail) }
}
