/** The values the catalog service and its store can throw. */
module Errores {
  import opened Wrappers

  datatype Exception =
    /** Nest's HTTP exceptions: 400, 404 and 409; none has a `code` field. */
    | BadRequestException(message: string)
    | NotFoundException(message: string)
    | ConflictException(message: string)
    /** `Prisma.PrismaClientKnownRequestError`, with its error code ("P2002", "P2025", ...). */
    | PrismaClientKnownRequestError(code: string)
    /** Anything else that can be thrown; it may or may not carry a `code` field. */
    | OtroError(codigo: Option<string>)

  const P2002: string := "P2002"
  const P2025: string := "P2025"

  /** What reading `error.code` gives, once the error is cast to a Prisma error. */
  function Codigo(e: Exception): Option<string>
  {
    match e
    case PrismaClientKnownRequestError(code) => Some(code)
    case OtroError(c) => c
    case _ => None
  }

  predicate EsHttpException(e: Exception)
  {
    e.BadRequestException? || e.NotFoundException? || e.ConflictException?
  }
}
