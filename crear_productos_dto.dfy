/**
 * `CrearProductoDto`: the constraints its validation decorators put on a
 * create request body, and the typed value the service receives.
 */
module CrearProductoDto {
  import opened Wrappers

  /** A JSON value in a request body, as far as the decorators look at it. */
  datatype Campo = Ausente | Texto(texto: string) | Numero(numero: real) | Booleano(booleano: bool)

  /** The fields of a create request, before validation. */
  datatype Cuerpo = Cuerpo(nombre: Campo, descripcion: Campo, precio: Campo, stock: Campo, stockMinimo: Campo)

  /** `IsString`, `MinLength(2)`, `MaxLength(30)`. */
  predicate NombreValido(c: Campo)
  {
    c.Texto? && 2 <= |c.texto| <= 30
  }

  /** `IsOptional`, `IsString`. */
  predicate DescripcionValida(c: Campo)
  {
    c.Ausente? || c.Texto?
  }

  /** `IsNumber`, `Min(1)`. */
  predicate PrecioValido(c: Campo)
  {
    c.Numero? && c.numero >= 1.0
  }

  /** `IsOptional`, `IsNumber`, `Min(0)`: the rule on `stock` and on `stockMinimo`. */
  predicate CantidadValida(c: Campo)
  {
    c.Ausente? || (c.Numero? && c.numero >= 0.0)
  }

  predicate EsValido(b: Cuerpo)
  {
    && NombreValido(b.nombre)
    && DescripcionValida(b.descripcion)
    && PrecioValido(b.precio)
    && CantidadValida(b.stock)
    && CantidadValida(b.stockMinimo)
  }

  /** The typed DTO the service's `create` receives. */
  datatype CrearProductoDto = CrearProductoDto(
    nombre: string,
    descripcion: Option<string>,
    precio: real,
    stock: Option<real>,
    stockMinimo: Option<real>)

  /** The constraints, stated on the typed DTO. */
  predicate DtoValido(d: CrearProductoDto)
  {
    && 2 <= |d.nombre| <= 30
    && d.precio >= 1.0
    && (d.stock.Some? ==> d.stock.value >= 0.0)
    && (d.stockMinimo.Some? ==> d.stockMinimo.value >= 0.0)
  }

  function TextoOpcional(c: Campo): Option<string>
  {
    if c.Texto? then Some(c.texto) else None
  }

  function NumeroOpcional(c: Campo): Option<real>
  {
    if c.Numero? then Some(c.numero) else None
  }

  function CampoDeTexto(o: Option<string>): Campo
  {
    if o.Some? then Texto(o.value) else Ausente
  }

  function CampoDeNumero(o: Option<real>): Campo
  {
    if o.Some? then Numero(o.value) else Ausente
  }

  /** The DTO a validated body becomes; it meets every constraint. */
  function ADto(b: Cuerpo): (d: CrearProductoDto)
    requires EsValido(b)
    ensures DtoValido(d)
    ensures d.nombre == b.nombre.texto && d.precio == b.precio.numero
    ensures d.descripcion.Some? <==> !b.descripcion.Ausente?
    ensures d.stock.Some? <==> !b.stock.Ausente?
    ensures d.stockMinimo.Some? <==> !b.stockMinimo.Ausente?
  {
    CrearProductoDto(b.nombre.texto, TextoOpcional(b.descripcion), b.precio.numero,
                     NumeroOpcional(b.stock), NumeroOpcional(b.stockMinimo))
  }

  /** The body that carries a DTO's fields. */
  function ACuerpo(d: CrearProductoDto): Cuerpo
  {
    Cuerpo(Texto(d.nombre), CampoDeTexto(d.descripcion), Numero(d.precio),
           CampoDeNumero(d.stock), CampoDeNumero(d.stockMinimo))
  }

  /** The decorators accept exactly the bodies of DTOs that meet the constraints. */
  lemma ValidoSiYSoloSi(d: CrearProductoDto)
    ensures EsValido(ACuerpo(d)) <==> DtoValido(d)
  {
  }

  /** Body to DTO and back is the identity on valid bodies, and DTO to body and back on all DTOs. */
  lemma IdaYVuelta(b: Cuerpo, d: CrearProductoDto)
    ensures EsValido(b) ==> ACuerpo(ADto(b)) == b
    ensures DtoValido(d) ==> EsValido(ACuerpo(d)) && ADto(ACuerpo(d)) == d
  {
  }

  /**
   * Only lower bounds are checked: a huge price and a fractional stock are
   * accepted, because the numeric decorators are `IsNumber`, not `IsInt`.
   */
  lemma SinCotaSuperiorNiEntero()
    ensures EsValido(Cuerpo(Texto("Chicle"), Ausente, Numero(1000000000.0), Numero(0.5), Numero(2.25)))
    ensures !EsValido(Cuerpo(Texto("Chicle"), Ausente, Numero(0.5), Ausente, Ausente))
    ensures !EsValido(Cuerpo(Texto("C"), Ausente, Numero(1.0), Ausente, Ausente))
  {
  }
}
