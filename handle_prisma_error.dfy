/**
 * `handlePrismaError(error, context)`: turns the store's duplicate-key and
 * record-not-found codes into HTTP exceptions and rethrows anything else.
 * It never returns normally, so the model returns the exception it throws.
 */
module ManejoPrisma {
  import opened Wrappers
  import opened Texto
  import opened Errores

  function MensajeDuplicado(context: string): string
  {
    "Ya existe un registro duplicado (" + context + ")."
  }

  function MensajeNoEncontrado(context: string): string
  {
    "No se encontró el registro (" + context + ")."
  }

  /** The exception `handlePrismaError(error, context)` throws. Only `code` is inspected. */
  function HandlePrismaError(error: Exception, context: string): (lanzada: Exception)
    ensures Codigo(error) == Some(P2002) ==> lanzada.ConflictException? && Contiene(lanzada.message, context)
    ensures Codigo(error) == Some(P2025) ==> lanzada.NotFoundException? && Contiene(lanzada.message, context)
    ensures Codigo(error) != Some(P2002) && Codigo(error) != Some(P2025) ==> lanzada == error
  {
    if Codigo(error) == Some(P2002) then
      ContieneEnMedio("Ya existe un registro duplicado (", context, ").");
      ConflictException(MensajeDuplicado(context))
    else if Codigo(error) == Some(P2025) then
      ContieneEnMedio("No se encontró el registro (", context, ").");
      NotFoundException(MensajeNoEncontrado(context))
    else
      error
  }

  /**
   * The service's own HTTP exceptions, thrown inside its `try` blocks, reach
   * the caller unchanged through the `catch` that calls `handlePrismaError`.
   */
  lemma HttpExceptionPasaIntacta(e: Exception, context: string)
    requires EsHttpException(e)
    ensures HandlePrismaError(e, context) == e
  {
  }

  /** What `handlePrismaError` throws is never translated again: a second pass changes nothing. */
  lemma HandlePrismaErrorIdempotente(e: Exception, c1: string, c2: string)
    ensures HandlePrismaError(HandlePrismaError(e, c1), c2) == HandlePrismaError(e, c1)
  {
  }
}
