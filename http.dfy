/** The HTTP errors the service raises (FastAPI's `HTTPException`). */
module Http {

  /** An HTTP error response: its status code and its `detail` text. */
  datatype HttpError = HttpError(status: nat, detail: string)
}
