/** What a handler or a middleware of the service answers: a status code with
    a JSON body, or (for a middleware) passing the request on. */
module Http {

  /** The three JSON bodies the service sends: `{ numero }`, `{ message }` and
      `{ error }`. */
  datatype Body =
    | Numero(numero: string)
    | Message(message: string)
    | Error(error: string)

  /** `res.status(status).json(body)`; `res.json(body)` alone answers 200. */
  datatype Response = Response(status: int, body: Body)

  /** A middleware either calls `next()` or answers the request itself. */
  datatype Decision = Next | Reject(response: Response)

  const Ok := 200
  const BadRequest := 400
  const Unauthorized := 401
  const InternalServerError := 500
}
