/** What a handler writes back: a status line with an error text, or a run-time panic. */
module Http {
  /**
   * A reply: the status code and, for an error reply, the message written by
   * http.Error (the empty string for a success reply, whose JSON body the
   * handler hands back separately).
   */
  datatype Reply = Reply(status: int, message: string) | Panic

  const StatusOK: int := 200
  const StatusCreated: int := 201
  const StatusNoContent: int := 204
  const StatusBadRequest: int := 400
  const StatusUnauthorized: int := 401
  const StatusNotFound: int := 404
  const StatusInternalServerError: int := 500
}
