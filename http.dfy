/** What the transport hands back: the status code and the body text (the
    response content decoded as UTF-8; an empty content reads as ""). */
module Http {

  datatype Response = Response(status: int, body: string)

  /** Statuses that `raise_by_response` lets through in both versions. */
  predicate IsSuccess(status: int) {
    status == 200 || status == 204
  }

  const NoContent: int := 204
}
