/** The HTTP responses the Express handlers of server.js send. */
module Http {

  /** The generic message every handler sends from its catch block. */
  const InternalServerError: string := "Internal server error"

  datatype Response<+T> =
    | Ok(body: T)                 // res.json(...)
    | Created(body: T)            // res.status(201).json(...)
    | BadRequest(error: string)   // res.status(400).json({ error })
    | ServerError(error: string)  // res.status(500).json({ error })
  {
    /** The numeric status code of the response. */
    function Status(): nat {
      match this
      case Ok(_) => 200
      case Created(_) => 201
      case BadRequest(_) => 400
      case ServerError(_) => 500
    }
  }
}
