/** Requests and responses by name (src/request.c, src/response.c). */
module Messages {

  /** An octet is written as the character of the same code. */
  type Bytes = string

  datatype Verb = GET | PUT | UNSUPPORTED

  function Message(status: nat): Bytes {
    match status
    case 200 => "OK"
    case 201 => "Created"
    case 400 => "Bad Request"
    case 403 => "Forbidden"
    case 404 => "Not Found"
    case 501 => "Not Implemented"
    case 505 => "Version Not Supported"
    case _ => "Internal Server Error"
  }

  /** The body of a canonical response. */
  function StatusBody(status: nat): Bytes { Message(status) + "\n" }
}
