/** The HTTP outcomes the route handlers raise, as values. */
module Http {
  datatype HttpError = BadRequest | Forbidden | NotFound | InternalError
  {
    /** The status code the framework answers with. */
    function Status(): int
    {
      match this
      case BadRequest => 400
      case Forbidden => 403
      case NotFound => 404
      case InternalError => 500
    }
  }
}
