/** The HTTP responses the handlers write. */
module Http {
  import opened Models

  const StatusOK := 200
  const StatusCreated := 201
  const StatusBadRequest := 400
  const StatusUnauthorized := 401
  const StatusNotFound := 404
  const StatusConflict := 409
  const StatusInternalServerError := 500

  /** The JSON body, if any: `{"error": …}`, a teacher array, or `{"token": …}`. */
  datatype Body = NoBody | ErrorJson(error: string) | TeacherList(teachers: seq<Teacher>) | TokenJson(token: string)

  datatype Response = Response(status: int, body: Body)
}
