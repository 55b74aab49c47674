/**
 * `PrismaExceptionInterceptor.intercept`: lets every successful result
 * through and, on the error path, maps known Prisma errors with codes
 * P2002 and P2025 to HTTP exceptions, rethrowing everything else.
 */
module InterceptorPrisma {
  import opened Wrappers
  import opened Errores
  import opened ManejoPrisma

  const MENSAJE_DUPLICADO: string := "Ya existe un registro duplicado."
  const MENSAJE_NO_ENCONTRADO: string := "No se encontró el registro."

  /** The outcome the client sees when the handler's outcome passes the interceptor. */
  function Intercept<T>(salida: Result<T, Exception>): (r: Result<T, Exception>)
    ensures salida.Ok? ==> r == salida
    ensures salida.Err? && salida.error == PrismaClientKnownRequestError(P2002) ==> r == Err(ConflictException(MENSAJE_DUPLICADO))
    ensures salida.Err? && salida.error == PrismaClientKnownRequestError(P2025) ==> r == Err(NotFoundException(MENSAJE_NO_ENCONTRADO))
    ensures salida.Err? && !salida.error.PrismaClientKnownRequestError? ==> r == salida
    ensures salida.Err? && salida.error.PrismaClientKnownRequestError? && salida.error.code != P2002 && salida.error.code != P2025 ==> r == salida
  {
    match salida
    case Ok(_) => salida
    case Err(e) =>
      if e.PrismaClientKnownRequestError? then
        if e.code == P2002 then Err(ConflictException(MENSAJE_DUPLICADO))
        else if e.code == P2025 then Err(NotFoundException(MENSAJE_NO_ENCONTRADO))
        else salida
      else salida
  }

  /**
   * On known Prisma errors the interceptor and `handlePrismaError` agree on
   * the kind of exception: both give a 409 for P2002, a 404 for P2025, and
   * both rethrow any other code unchanged.
   */
  lemma MismaClaseQueHandlePrismaError<T>(code: string, context: string)
    ensures var e := PrismaClientKnownRequestError(code);
      var i := Intercept<T>(Err(e));
      var h := HandlePrismaError(e, context);
      && i.Err?
      && (i.error.ConflictException? <==> h.ConflictException?)
      && (i.error.NotFoundException? <==> h.NotFoundException?)
      && (code != P2002 && code != P2025 ==> i.error == h == e)
  {
  }

  /**
   * Unlike `handlePrismaError`, the interceptor looks at the error's type:
   * a non-Prisma error carrying code P2002 is rethrown as it is, where the
   * handler turns it into a 409.
   */
  lemma DivergenciaConCodigoAjeno<T>(context: string)
    ensures var e := OtroError(Some(P2002));
      && Intercept<T>(Err(e)) == Err(e)
      && HandlePrismaError(e, context).ConflictException?
  {
  }

  /**
   * Whatever a service `catch` block has already passed through
   * `handlePrismaError` crosses the interceptor unchanged.
   */
  lemma InterceptNoCambiaLoManejado<T>(e: Exception, context: string)
    ensures Intercept<T>(Err(HandlePrismaError(e, context))) == Err(HandlePrismaError(e, context))
  {
  }
}
