/**
 * `BuscarProductosQueryDto`: the transforms applied to the raw query
 * parameters (`parseInt`, `trim`, `=== 'true'`), the defaults of the
 * fields left out, and the constraints the validators then check.
 */
module BuscarProductosQueryDto {
  import opened Wrappers
  import opened Texto

  /** The raw query parameters, as strings, each possibly absent. */
  datatype Consulta = Consulta(
    pagina: Option<string>,
    limite: Option<string>,
    buscarPorNombre: Option<string>,
    activo: Option<string>,
    ordenarPor: Option<string>,
    orden: Option<string>)

  /** The query object after the transforms and the defaults, before validation. */
  datatype BuscarProductosQueryDto = BuscarProductosQueryDto(
    pagina: NumeroJs,
    limite: NumeroJs,
    buscarPorNombre: Option<string>,
    activo: Option<bool>,
    ordenarPor: string,
    orden: string)

  const PAGINA_POR_DEFECTO: int := 1
  const LIMITE_POR_DEFECTO: int := 10
  const ORDENAR_POR_DEFECTO: string := "nombre"
  const ORDEN_POR_DEFECTO: string := "asc"
  const CAMPOS_DE_ORDEN: set<string> := {"id", "nombre", "precio", "stock", "createdAt", "updatedAt"}
  const DIRECCIONES: set<string> := {"asc", "desc"}

  /** What class-transformer builds: transforms run on the parameters present, initialisers fill the rest. */
  function Transformar(q: Consulta): (d: BuscarProductosQueryDto)
    ensures q.pagina.None? ==> d.pagina == Entero(PAGINA_POR_DEFECTO)
    ensures q.limite.None? ==> d.limite == Entero(LIMITE_POR_DEFECTO)
    ensures q.activo.None? ==> d.activo.None?
    ensures q.activo.Some? ==> (d.activo == Some(true) <==> q.activo.value == "true")
    ensures q.activo.Some? ==> d.activo.Some?
    ensures q.ordenarPor.None? ==> d.ordenarPor == ORDENAR_POR_DEFECTO
    ensures q.orden.None? ==> d.orden == ORDEN_POR_DEFECTO
    ensures q.ordenarPor.Some? ==> d.ordenarPor == q.ordenarPor.value
    ensures q.orden.Some? ==> d.orden == q.orden.value
    ensures q.pagina.Some? ==> d.pagina == ParseInt(q.pagina.value)
    ensures q.limite.Some? ==> d.limite == ParseInt(q.limite.value)
    ensures d.buscarPorNombre.Some? <==> q.buscarPorNombre.Some?
    ensures q.buscarPorNombre.Some? ==> d.buscarPorNombre == Some(Trim(q.buscarPorNombre.value))
    ensures d.buscarPorNombre.Some? ==> var t := d.buscarPorNombre.value;
      t == [] || (!EsEspacioJs(t[0]) && !EsEspacioJs(t[|t| - 1]))
  {
    BuscarProductosQueryDto(
      if q.pagina.Some? then ParseInt(q.pagina.value) else Entero(PAGINA_POR_DEFECTO),
      if q.limite.Some? then ParseInt(q.limite.value) else Entero(LIMITE_POR_DEFECTO),
      if q.buscarPorNombre.Some? then Some(Trim(q.buscarPorNombre.value)) else None,
      if q.activo.Some? then Some(q.activo.value == "true") else None,
      GetOr(q.ordenarPor, ORDENAR_POR_DEFECTO),
      GetOr(q.orden, ORDEN_POR_DEFECTO))
  }

  /** `IsPositive`, `Min(lo)`, `Max(hi)` on a parsed number: NaN fails `IsPositive`. */
  predicate EnteroEntre(n: NumeroJs, lo: int, hi: int)
  {
    n.Entero? && n.valor > 0 && lo <= n.valor <= hi
  }

  /** The validators' verdict on the transformed query. */
  predicate EsValida(d: BuscarProductosQueryDto)
  {
    && EnteroEntre(d.pagina, 1, 100)
    && EnteroEntre(d.limite, 1, 50)
    && (d.buscarPorNombre.Some? ==> |d.buscarPorNombre.value| >= 2)
    && d.ordenarPor in CAMPOS_DE_ORDEN
    && d.orden in DIRECCIONES
  }

  /** The query with every parameter left out is valid and carries the defaults. */
  lemma ConsultaVaciaEsValida()
    ensures var d := Transformar(Consulta(None, None, None, None, None, None));
      && EsValida(d)
      && d == BuscarProductosQueryDto(Entero(1), Entero(10), None, None, "nombre", "asc")
  {
  }

  /** A validated query has its page in [1,100], its limit in [1,50] and a known sort, whether given or defaulted. */
  lemma ValidaEstaAcotada(q: Consulta)
    requires EsValida(Transformar(q))
    ensures var d := Transformar(q);
      && 1 <= d.pagina.valor <= 100
      && 1 <= d.limite.valor <= 50
      && d.ordenarPor in CAMPOS_DE_ORDEN
      && d.orden in DIRECCIONES
      && (q.buscarPorNombre.Some? ==> |Trim(q.buscarPorNombre.value)| >= 2)
      && (q.ordenarPor.Some? ==> q.ordenarPor.value in CAMPOS_DE_ORDEN)
      && (q.orden.Some? ==> q.orden.value in DIRECCIONES)
  {
  }

  /** A page written in decimal is read as that number, so `pagina=n` is valid only if n is in [1,100]. */
  lemma PaginaDecimal(q: Consulta, n: int)
    requires q.pagina == Some(IntADecimal(n))
    ensures Transformar(q).pagina == Entero(n)
    ensures EsValida(Transformar(q)) ==> 1 <= n <= 100
  {
    ParseIntDeDecimal(n);
  }

  /** A search term that is all white space is trimmed to nothing and rejected. */
  lemma BusquedaEnBlancoRechazada(q: Consulta)
    requires q.buscarPorNombre.Some?
    requires forall i :: 0 <= i < |q.buscarPorNombre.value| ==> EsEspacioJs(q.buscarPorNombre.value[i])
    ensures !EsValida(Transformar(q))
  {
  }
}
