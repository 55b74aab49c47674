/**
 * `ProductosService`: the catalog operations over the product table. The
 * table is the store behind `prisma.producto`; each operation reads it and,
 * for the writes, replaces it, in the order the service issues its calls.
 */
module Servicio {
  import opened Wrappers
  import opened Texto
  import opened Errores
  import opened ManejoPrisma
  import opened Modelo
  import opened Listado
  import CP = CrearProductoDto
  import AP = ActualizarProductoDto
  import BQ = BuscarProductosQueryDto

  /** The `context` every `catch` block passes to `handlePrismaError`. */
  const CONTEXTO: string := "Producto"

  const MENSAJE_ID_INVALIDO: string := "El ID debe ser un número válido y mayor que 0"

  function ProductoNoEncontrado(id: int): string
  {
    "Producto con ID " + IntADecimal(id) + " no encontrado"
  }

  function MensajeYaExiste(nombre: string): string
  {
    "El producto '" + nombre + "' ya existe."
  }

  /** What the store fills in for the fields a create leaves out. */
  datatype ValoresPorDefecto = ValoresPorDefecto(
    descripcion: Option<string>,
    stock: real,
    stockMinimo: real,
    activo: bool)

  /** The `where` `findAll` builds: active records and, for a non-empty term, a name filter. */
  function WhereFindAll(buscar: Option<string>): (w: Where)
    ensures forall p :: Cumple(p, w) <==>
      p.activo && (buscar.Some? && buscar.value != "" ==> ContieneSinMayusculas(p.nombre, buscar.value))
  {
    Where(true, FiltroNombre(buscar))
  }

  /** The `where` `findInactivos` builds: the same `activo: true` filter as `findAll`. */
  function WhereFindInactivos(buscar: Option<string>): (w: Where)
    ensures forall p :: Cumple(p, w) ==> p.activo
    ensures forall p :: Cumple(p, w) <==> Cumple(p, WhereFindAll(buscar))
  {
    Where(true, FiltroNombre(buscar))
  }

  /** The filter a listing of inactive records needs: `activo: false`. */
  function WhereInactivosCorregido(buscar: Option<string>): (w: Where)
    ensures forall p :: Cumple(p, w) <==>
      !p.activo && (buscar.Some? && buscar.value != "" ==> ContieneSinMayusculas(p.nombre, buscar.value))
  {
    Where(false, FiltroNombre(buscar))
  }

  /**
   * As written, `findInactivos` cannot see an inactive record: over a table
   * holding one inactive product it reports a total of 0, where the
   * corrected filter reports 1.
   */
  lemma {:induction false} FindInactivosOmiteInactivos(p: Producto)
    requires p.id == 1 && !p.activo
    ensures Paginar(map[1 := p], None, None, MAX_PAGE_SIZE_POR_DEFECTO, WhereFindInactivos(None)).total == 0
    ensures Paginar(map[1 := p], None, None, MAX_PAGE_SIZE_POR_DEFECTO, WhereInactivosCorregido(None)).total == 1
  {
    var t := map[1 := p];
    assert Coincidentes(t, WhereFindInactivos(None)) == {};
    assert Coincidentes(t, WhereInactivosCorregido(None)) == {1};
  }

  /** The record `prisma.producto.create({ data: dto })` stores under `id`. */
  function Nuevo(id: int, dto: CP.CrearProductoDto, d: ValoresPorDefecto): (p: Producto)
    ensures p.id == id && p.nombre == dto.nombre && p.precio == dto.precio
    ensures p.descripcion == (if dto.descripcion.Some? then dto.descripcion else d.descripcion)
    ensures dto.stock.Some? ==> p.stock == dto.stock.value
    ensures dto.stock.None? ==> p.stock == d.stock
    ensures dto.stockMinimo.Some? ==> p.stockMinimo == dto.stockMinimo.value
    ensures dto.stockMinimo.None? ==> p.stockMinimo == d.stockMinimo
    ensures p.activo == d.activo
  {
    Producto(id, dto.nombre,
             if dto.descripcion.Some? then dto.descripcion else d.descripcion,
             dto.precio, GetOr(dto.stock, d.stock), GetOr(dto.stockMinimo, d.stockMinimo), d.activo)
  }

  /** The record `prisma.producto.update({ data: dto })` leaves: present fields overwrite, absent ones stay. */
  function Aplicar(p: Producto, dto: AP.ActualizarProductoDto): (q: Producto)
    ensures q.id == p.id
    ensures dto.nombre.None? ==> q.nombre == p.nombre
    ensures dto.nombre.Some? ==> q.nombre == dto.nombre.value
    ensures dto.descripcion.None? ==> q.descripcion == p.descripcion
    ensures dto.descripcion.Some? ==> q.descripcion == dto.descripcion
    ensures dto.precio.None? ==> q.precio == p.precio
    ensures dto.precio.Some? ==> q.precio == dto.precio.value
    ensures dto.stock.None? ==> q.stock == p.stock
    ensures dto.stock.Some? ==> q.stock == dto.stock.value
    ensures dto.stockMinimo.None? ==> q.stockMinimo == p.stockMinimo
    ensures dto.stockMinimo.Some? ==> q.stockMinimo == dto.stockMinimo.value
    ensures dto.activo.None? ==> q.activo == p.activo
    ensures dto.activo.Some? ==> q.activo == dto.activo.value
  {
    Producto(p.id,
             GetOr(dto.nombre, p.nombre),
             if dto.descripcion.Some? then dto.descripcion else p.descripcion,
             GetOr(dto.precio, p.precio),
             GetOr(dto.stock, p.stock),
             GetOr(dto.stockMinimo, p.stockMinimo),
             GetOr(dto.activo, p.activo))
  }

  /** Two partial updates in a row: the second one's fields win, the first one's fill in. */
  function Combinar(a: AP.ActualizarProductoDto, b: AP.ActualizarProductoDto): AP.ActualizarProductoDto
  {
    AP.ActualizarProductoDto(
      if b.nombre.Some? then b.nombre else a.nombre,
      if b.descripcion.Some? then b.descripcion else a.descripcion,
      if b.precio.Some? then b.precio else a.precio,
      if b.stock.Some? then b.stock else a.stock,
      if b.stockMinimo.Some? then b.stockMinimo else a.stockMinimo,
      if b.activo.Some? then b.activo else a.activo)
  }

  /** The update that sets no field leaves the record as it is. */
  lemma AplicarVacioEsIdentidad(p: Producto)
    ensures Aplicar(p, AP.ActualizarProductoDto(None, None, None, None, None, None)) == p
  {
  }

  /** Applying two updates is applying their combination; applying one twice is applying it once. */
  lemma AplicarCompone(p: Producto, a: AP.ActualizarProductoDto, b: AP.ActualizarProductoDto)
    ensures Aplicar(Aplicar(p, a), b) == Aplicar(p, Combinar(a, b))
    ensures Aplicar(Aplicar(p, a), a) == Aplicar(p, a)
  {
  }

  /** After a soft delete the record drops out of every listing, and `total` goes down by one if it was counted. */
  lemma {:induction false} EliminarSacaDelListado(t: Tabla, id: int, w: Where)
    requires id in t && w.activo
    ensures Coincidentes(t[id := t[id].(activo := false)], w) == Coincidentes(t, w) - {id}
    ensures |Coincidentes(t[id := t[id].(activo := false)], w)| == |Coincidentes(t, w)| - (if id in Coincidentes(t, w) then 1 else 0)
  {
    var t2 := t[id := t[id].(activo := false)];
    assert Coincidentes(t2, w) == Coincidentes(t, w) - {id} by {
      forall k ensures k in Coincidentes(t2, w) <==> k in Coincidentes(t, w) - {id} {
        if k != id {
          assert k in t2 <==> k in t;
        }
      }
    }
  }

  /** After a restore the record is listed again whenever its name passes the filter. */
  lemma {:induction false} RestaurarVuelveAlListado(t: Tabla, id: int, w: Where)
    requires id in t && w.activo
    ensures Coincidentes(t[id := t[id].(activo := true)], w)
         == Coincidentes(t, w) + (if Cumple(t[id].(activo := true), w) then {id} else {})
  {
    var t2 := t[id := t[id].(activo := true)];
    var extra: set<int> := if Cumple(t[id].(activo := true), w) then {id} else {};
    forall k ensures k in Coincidentes(t2, w) <==> k in Coincidentes(t, w) + extra {
      if k != id {
        assert k in t2 <==> k in t;
      } else {
        assert t[id].activo ==> t[id] == t[id].(activo := true);
      }
    }
  }

  /**
   * A record created from a validated body keeps the create constraints,
   * provided the store's own defaults for the omitted amounts are not negative.
   */
  lemma NuevoRespetaCrear(id: int, b: CP.Cuerpo, d: ValoresPorDefecto)
    requires CP.EsValido(b) && d.stock >= 0.0 && d.stockMinimo >= 0.0
    ensures var p := Nuevo(id, CP.ADto(b), d);
      && p.id == id && p.nombre == b.nombre.texto
      && 2 <= |p.nombre| <= 30 && p.precio >= 1.0 && p.stock >= 0.0 && p.stockMinimo >= 0.0
  {
  }

  /**
   * With `MAX_PAGE_SIZE` at least 50, a validated query's page and limit
   * pass the service's normalisation unchanged.
   */
  lemma ConsultaValidaNoSeNormaliza(q: BQ.Consulta, maxPageSize: int)
    requires BQ.EsValida(BQ.Transformar(q)) && maxPageSize >= 50
    ensures var d := BQ.Transformar(q);
      && PaginaEfectiva(Some(d.pagina)) == d.pagina.valor
      && LimiteEfectivo(Some(d.limite), maxPageSize) == d.limite.valor
  {
  }

  class ProductosService {
    /** The product table behind `prisma.producto`. */
    var productos: Tabla
    /** `MAX_PAGE_SIZE`, read from the configuration (50 when it is not set). */
    const maxPageSize: int
    /** The store's values for the fields a create leaves out. */
    const porDefecto: ValoresPorDefecto

    ghost predicate Valid()
      reads this
    {
      maxPageSize >= 1 && TablaValida(productos)
    }

    constructor (inicial: Tabla, maxPageSize: int, porDefecto: ValoresPorDefecto)
      requires maxPageSize >= 1 && TablaValida(inicial)
      ensures Valid()
      ensures productos == inicial && this.maxPageSize == maxPageSize && this.porDefecto == porDefecto
    {
      productos := inicial;
      this.maxPageSize := maxPageSize;
      this.porDefecto := porDefecto;
    }

    /**
     * `findAll(pagina, limite, buscar)`: one page of the active records, and
     * for a non-empty term only those whose name contains it, ignoring case.
     */
    function FindAll(pagina: Option<NumeroJs>, limite: Option<NumeroJs>, buscar: Option<string>): (r: PaginacionResultado)
      reads this
      requires Valid()
      ensures MIN_PAGE_NUMBER <= r.pagina <= MAX_PAGE_NUMBER && 1 <= r.limite <= maxPageSize
      ensures |r.datos| <= r.limite
      ensures forall i :: 0 <= i < |r.datos| ==>
        && r.datos[i].id in productos && productos[r.datos[i].id] == r.datos[i]
        && r.datos[i].activo
        && (FiltroNombre(buscar).Some? ==> ContieneSinMayusculas(r.datos[i].nombre, buscar.value))
      ensures forall i, j :: 0 <= i < j < |r.datos| ==> r.datos[i].id < r.datos[j].id
      ensures r.total == |set id | id in productos && productos[id].activo
                                   && (FiltroNombre(buscar).Some? ==> ContieneSinMayusculas(productos[id].nombre, buscar.value))|
      ensures r.totalPaginas == TotalPaginas(r.total, r.limite)
      ensures r == Paginar(productos, pagina, limite, maxPageSize, WhereFindAll(buscar))
    {
      var w := WhereFindAll(buscar);
      assert Coincidentes(productos, w) == set id | id in productos && productos[id].activo
        && (FiltroNombre(buscar).Some? ==> ContieneSinMayusculas(productos[id].nombre, buscar.value));
      Paginar(productos, pagina, limite, maxPageSize, w)
    }

    /**
     * `findInactivos(pagina, limite, buscar)`: built like `findAll`, with the
     * same `activo: true` filter, so it lists the active records as well.
     */
    function FindInactivos(pagina: Option<NumeroJs>, limite: Option<NumeroJs>, buscar: Option<string>): (r: PaginacionResultado)
      reads this
      requires Valid()
      ensures r == FindAll(pagina, limite, buscar)
      ensures forall i :: 0 <= i < |r.datos| ==> r.datos[i].activo
    {
      Paginar(productos, pagina, limite, maxPageSize, WhereFindInactivos(buscar))
    }

    /**
     * The listing `findInactivos` is evidently meant to give: one page of the
     * inactive records, with the same paging and name filter as `findAll`.
     */
    function FindInactivosCorregido(pagina: Option<NumeroJs>, limite: Option<NumeroJs>, buscar: Option<string>): (r: PaginacionResultado)
      reads this
      requires Valid()
      ensures forall i :: 0 <= i < |r.datos| ==>
        && r.datos[i].id in productos && productos[r.datos[i].id] == r.datos[i]
        && !r.datos[i].activo
        && (FiltroNombre(buscar).Some? ==> ContieneSinMayusculas(r.datos[i].nombre, buscar.value))
      ensures r.total == |set id | id in productos && !productos[id].activo
                                   && (FiltroNombre(buscar).Some? ==> ContieneSinMayusculas(productos[id].nombre, buscar.value))|
      ensures r.pagina == FindAll(pagina, limite, buscar).pagina && r.limite == FindAll(pagina, limite, buscar).limite
      ensures r == Paginar(productos, pagina, limite, maxPageSize, WhereInactivosCorregido(buscar))
    {
      var w := WhereInactivosCorregido(buscar);
      assert Coincidentes(productos, w) == set id | id in productos && !productos[id].activo
        && (FiltroNombre(buscar).Some? ==> ContieneSinMayusculas(productos[id].nombre, buscar.value));
      Paginar(productos, pagina, limite, maxPageSize, w)
    }

    /** `findOne(id)`: ids at or below zero are refused before the table is read. */
    method FindOne(id: int) returns (r: Result<Producto, Exception>)
      requires Valid()
      ensures id <= 0 ==> r == Err(BadRequestException(MENSAJE_ID_INVALIDO))
      ensures id > 0 && id !in productos ==> r == Err(NotFoundException(ProductoNoEncontrado(id)))
      ensures id > 0 && id in productos ==> r == Ok(productos[id]) && r.value.id == id
    {
      if id <= 0 {
        return Err(BadRequestException(MENSAJE_ID_INVALIDO));
      }
      if id !in productos {
        return Err(NotFoundException(ProductoNoEncontrado(id)));
      }
      r := Ok(productos[id]);
    }

    /**
     * `create(dto)`: a name already taken, by an active or an inactive
     * record, is a conflict; otherwise exactly one record is added.
     */
    method Create(dto: CP.CrearProductoDto) returns (r: Result<Producto, Exception>)
      requires Valid()
      modifies this
      ensures Valid()
      ensures NombreEnUso(old(productos), dto.nombre) ==>
        r == Err(ConflictException(MensajeYaExiste(dto.nombre))) && productos == old(productos)
      ensures !NombreEnUso(old(productos), dto.nombre) ==>
        && r.Ok? && r.value.id > 0 && r.value.id !in old(productos)
        && r.value == Nuevo(r.value.id, dto, porDefecto)
        && productos == old(productos)[r.value.id := r.value]
    {
      if exists id :: id in productos && productos[id].nombre == dto.nombre {
        var e := ConflictException(MensajeYaExiste(dto.nombre));
        HttpExceptionPasaIntacta(e, CONTEXTO);
        return Err(HandlePrismaError(e, CONTEXTO));
      }
      HayIdLibre(productos);
      var id :| id > 0 && id !in productos;
      var p := Nuevo(id, dto, porDefecto);
      EscribirConservaValidez(productos, p);
      productos := productos[id := p];
      r := Ok(p);
    }

    /**
     * `update(id, dto)`: an unknown id is not found; a new name held by
     * another record is refused by the unique index (P2002, a conflict);
     * otherwise only the fields in the DTO change, in that record only.
     */
    method Update(id: int, dto: AP.ActualizarProductoDto) returns (r: Result<Producto, Exception>)
      requires Valid()
      modifies this
      ensures Valid()
      ensures id !in old(productos) ==>
        r == Err(NotFoundException(ProductoNoEncontrado(id))) && productos == old(productos)
      ensures id in old(productos) && dto.nombre.Some? && NombreEnUsoPorOtro(old(productos), id, dto.nombre.value) ==>
        r == Err(ConflictException(MensajeDuplicado(CONTEXTO))) && productos == old(productos)
      ensures id in old(productos) && !(dto.nombre.Some? && NombreEnUsoPorOtro(old(productos), id, dto.nombre.value)) ==>
        r == Ok(Aplicar(old(productos)[id], dto)) && productos == old(productos)[id := r.value]
    {
      if id !in productos {
        var e := NotFoundException(ProductoNoEncontrado(id));
        HttpExceptionPasaIntacta(e, CONTEXTO);
        return Err(HandlePrismaError(e, CONTEXTO));
      }
      if dto.nombre.Some? && exists otro :: otro in productos && otro != id && productos[otro].nombre == dto.nombre.value {
        return Err(HandlePrismaError(PrismaClientKnownRequestError(P2002), CONTEXTO));
      }
      var actualizado := Aplicar(productos[id], dto);
      EscribirConservaValidez(productos, actualizado);
      productos := productos[id := actualizado];
      r := Ok(actualizado);
    }

    /** `remove(id)`: a soft delete that sets `activo` to false, with no guard against a record already inactive. */
    method Remove(id: int) returns (r: Result<Producto, Exception>)
      requires Valid()
      modifies this
      ensures Valid()
      ensures id !in old(productos) ==>
        r == Err(NotFoundException(ProductoNoEncontrado(id))) && productos == old(productos)
      ensures id in old(productos) ==>
        r == Ok(old(productos)[id].(activo := false)) && productos == old(productos)[id := r.value]
    {
      if id !in productos {
        var e := NotFoundException(ProductoNoEncontrado(id));
        HttpExceptionPasaIntacta(e, CONTEXTO);
        return Err(HandlePrismaError(e, CONTEXTO));
      }
      var p := productos[id].(activo := false);
      productos := productos[id := p];
      r := Ok(p);
    }

    /** `restore(id)`: sets `activo` to true, whatever it was. */
    method Restore(id: int) returns (r: Result<Producto, Exception>)
      requires Valid()
      modifies this
      ensures Valid()
      ensures id !in old(productos) ==>
        r == Err(NotFoundException(ProductoNoEncontrado(id))) && productos == old(productos)
      ensures id in old(productos) ==>
        r == Ok(old(productos)[id].(activo := true)) && productos == old(productos)[id := r.value]
    {
      if id !in productos {
        var e := NotFoundException(ProductoNoEncontrado(id));
        HttpExceptionPasaIntacta(e, CONTEXTO);
        return Err(HandlePrismaError(e, CONTEXTO));
      }
      var p := productos[id].(activo := true);
      productos := productos[id := p];
      r := Ok(p);
    }
  }
}
