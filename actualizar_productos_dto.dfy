/**
 * `ActualizarProductoDto`: `PartialType(CrearProductoDto)` plus an optional
 * boolean `activo`. Every field may be left out; a field that is present
 * must meet the same rule as in a create body.
 */
module ActualizarProductoDto {
  import opened Wrappers
  import C = CrearProductoDto

  datatype Cuerpo = Cuerpo(
    nombre: C.Campo,
    descripcion: C.Campo,
    precio: C.Campo,
    stock: C.Campo,
    stockMinimo: C.Campo,
    activo: C.Campo)

  /** A field that `PartialType` made optional: absent, or valid under the create rule. */
  predicate Opcional(c: C.Campo, reglaDeCrear: bool)
  {
    c.Ausente? || reglaDeCrear
  }

  predicate EsValido(b: Cuerpo)
  {
    && Opcional(b.nombre, C.NombreValido(b.nombre))
    && Opcional(b.descripcion, C.DescripcionValida(b.descripcion))
    && Opcional(b.precio, C.PrecioValido(b.precio))
    && Opcional(b.stock, C.CantidadValida(b.stock))
    && Opcional(b.stockMinimo, C.CantidadValida(b.stockMinimo))
    && (b.activo.Ausente? || b.activo.Booleano?)
  }

  /** The typed partial update the service's `update` receives; `None` means "leave as it is". */
  datatype ActualizarProductoDto = ActualizarProductoDto(
    nombre: Option<string>,
    descripcion: Option<string>,
    precio: Option<real>,
    stock: Option<real>,
    stockMinimo: Option<real>,
    activo: Option<bool>)

  function BoolOpcional(c: C.Campo): Option<bool>
  {
    if c.Booleano? then Some(c.booleano) else None
  }

  /** The DTO a validated body becomes: present fields keep the create bounds, absent ones are `None`. */
  function ADto(b: Cuerpo): (d: ActualizarProductoDto)
    requires EsValido(b)
    ensures d.nombre.Some? <==> !b.nombre.Ausente?
    ensures d.nombre.Some? ==> 2 <= |d.nombre.value| <= 30
    ensures d.precio.Some? <==> !b.precio.Ausente?
    ensures d.precio.Some? ==> d.precio.value >= 1.0
    ensures d.stock.Some? <==> !b.stock.Ausente?
    ensures d.stock.Some? ==> d.stock.value >= 0.0
    ensures d.stockMinimo.Some? <==> !b.stockMinimo.Ausente?
    ensures d.stockMinimo.Some? ==> d.stockMinimo.value >= 0.0
    ensures d.descripcion.Some? <==> !b.descripcion.Ausente?
    ensures d.activo.Some? <==> !b.activo.Ausente?
    ensures d.nombre.Some? ==> d.nombre.value == b.nombre.texto
    ensures d.descripcion.Some? ==> d.descripcion.value == b.descripcion.texto
    ensures d.precio.Some? ==> d.precio.value == b.precio.numero
    ensures d.stock.Some? ==> d.stock.value == b.stock.numero
    ensures d.stockMinimo.Some? ==> d.stockMinimo.value == b.stockMinimo.numero
    ensures d.activo.Some? ==> d.activo.value == b.activo.booleano
  {
    ActualizarProductoDto(C.TextoOpcional(b.nombre), C.TextoOpcional(b.descripcion),
                          C.NumeroOpcional(b.precio), C.NumeroOpcional(b.stock),
                          C.NumeroOpcional(b.stockMinimo), BoolOpcional(b.activo))
  }

  function CampoDeBool(o: Option<bool>): C.Campo
  {
    if o.Some? then C.Booleano(o.value) else C.Ausente
  }

  /** The body that carries exactly the fields a DTO sets. */
  function ACuerpo(d: ActualizarProductoDto): Cuerpo
  {
    Cuerpo(C.CampoDeTexto(d.nombre), C.CampoDeTexto(d.descripcion), C.CampoDeNumero(d.precio),
           C.CampoDeNumero(d.stock), C.CampoDeNumero(d.stockMinimo), CampoDeBool(d.activo))
  }

  /** The bounds a partial update meets: those of the create DTO, on the fields it sets. */
  predicate DtoValido(d: ActualizarProductoDto)
  {
    && (d.nombre.Some? ==> 2 <= |d.nombre.value| <= 30)
    && (d.precio.Some? ==> d.precio.value >= 1.0)
    && (d.stock.Some? ==> d.stock.value >= 0.0)
    && (d.stockMinimo.Some? ==> d.stockMinimo.value >= 0.0)
  }

  /** Body to DTO and back is the identity on valid bodies, and DTO to body and back on valid DTOs. */
  lemma IdaYVuelta(b: Cuerpo, d: ActualizarProductoDto)
    ensures EsValido(b) ==> DtoValido(ADto(b)) && ACuerpo(ADto(b)) == b
    ensures DtoValido(d) ==> EsValido(ACuerpo(d)) && ADto(ACuerpo(d)) == d
  {
  }

  const VACIO: Cuerpo := Cuerpo(C.Ausente, C.Ausente, C.Ausente, C.Ausente, C.Ausente, C.Ausente)

  /** The empty update is valid, and it becomes the DTO that changes nothing. */
  lemma VacioEsValido()
    ensures EsValido(VACIO)
    ensures ADto(VACIO) == ActualizarProductoDto(None, None, None, None, None, None)
  {
  }

  /** Every valid create body, with `activo` left out, is a valid update body. */
  lemma CrearEsActualizar(b: C.Cuerpo)
    requires C.EsValido(b)
    ensures EsValido(Cuerpo(b.nombre, b.descripcion, b.precio, b.stock, b.stockMinimo, C.Ausente))
  {
  }

  /** A present field is accepted exactly when the create rule accepts it. */
  lemma PresenteComoEnCrear(b: Cuerpo)
    requires !b.nombre.Ausente? && !b.precio.Ausente?
    requires !b.stock.Ausente? && !b.stockMinimo.Ausente? && !b.descripcion.Ausente?
    requires b.activo.Ausente?
    ensures EsValido(b) <==> C.EsValido(C.Cuerpo(b.nombre, b.descripcion, b.precio, b.stock, b.stockMinimo))
  {
  }

  /** Nothing keeps an update from setting `stock`, `stockMinimo` or `activo`. */
  lemma PuedeCambiarStockYActivo()
    ensures EsValido(Cuerpo(C.Ausente, C.Ausente, C.Ausente, C.Numero(0.0), C.Numero(7.5), C.Booleano(false)))
    ensures !EsValido(Cuerpo(C.Ausente, C.Ausente, C.Ausente, C.Ausente, C.Ausente, C.Texto("true")))
  {
  }
}
