# Product catalog service: a Dafny model

This project models the catalog logic of a small NestJS + Prisma REST API
for a candy shop. The model covers:

- `ProductosService`: the paginated listings `findAll` and `findInactivos`, the
  single lookup `findOne`, and the record operations `create`, `update`,
  `remove` (a soft delete) and `restore`.
- The translation of store errors into HTTP exceptions. This happens in
  `handlePrismaError` and in `PrismaExceptionInterceptor`.
- The validation rules that the DTO decorators declare for create bodies,
  update bodies and list queries.

The store behind `prisma.producto` is a table, `map<int, Producto>`. The
service is a class that holds this table. Its write methods `Create`,
`Update`, `Remove` and `Restore` replace the table. Each one states what
happens on every path: the error it throws, that the table is unchanged on
error, and which single record changes on success. The listings are
functions over the table. The error mappings and DTO rules are plain
functions and predicates.

Files and modules:

- `wrappers.dfy` (`Wrappers`): `Option` and `Result`. `Err` carries the exception a call throws.
- `texto.dfy` (`Texto`): substring search, case-insensitive search, `trim`,
  `parseInt`, and decimal rendering of integers in messages.
- `errores.dfy` (`Errores`): the exceptions. These are Nest's 400, 404 and 409
  exceptions, Prisma's known request error with its code, and any other thrown value.
- `handle_prisma_error.dfy` (`ManejoPrisma`): `handlePrismaError`.
- `prisma_exception_interceptor.dfy` (`InterceptorPrisma`): the interceptor's error mapping.
- `modelo.dfy` (`Modelo`): the `Producto` record and the table invariant. The
  invariant says each record sits under its own id and names are unique.
- `crear_productos_dto.dfy`, `actualizar_productos_dto.dfy`,
  `buscar_productos_query_dto.dfy`: the three DTOs.
- `listado.dfy` (`Listado`): page/limit normalisation, `skip`, `totalPaginas`,
  the `where` filter, ascending-id order and the page window.
- `productos_service.dfy` (`Servicio`): the `ProductosService` class.

Every `throw` inside one of the service's `try` blocks passes through
`handlePrismaError` in the model, as it does in the source. The lemma
`ManejoPrisma.HttpExceptionPasaIntacta` proves that the service's own
Conflict and NotFound exceptions come out unchanged.

Behaviour of the code a reader might not expect, kept as written:

- The update DTO does not exclude `stock`, `stockMinimo` or `activo`, so an update may set them.
- `remove` and `restore` do not check the current value of `activo`. Both succeed on a record that is already in the target state.
- The service's listings always filter on `activo: true` and always order by ascending id. The DTO's `activo`, `ordenarPor` and `orden` are validated but never reach the service.
- `findInactivos` filters on `activo: true` (see Findings).

## Model

| member | source | states |
|---|---|---|
| `ManejoPrisma.HandlePrismaError` | src/utils/handle-prisma-error.ts:4-15 | Code P2002 gives a ConflictException and code P2025 a NotFoundException; each message contains `context`. Any other error, including one with no code, is rethrown unchanged. The function always throws: its result is the exception thrown. |
| `ManejoPrisma.HttpExceptionPasaIntacta` | src/modules/productos/productos.service.ts:116-118 | The service's own NotFound and Conflict exceptions, thrown inside `try`, leave the `catch` unchanged. |
| `ManejoPrisma.HandlePrismaErrorIdempotente` | src/utils/handle-prisma-error.ts:6-14 | A second pass through the handler changes nothing. |
| `InterceptorPrisma.Intercept` | src/common/interceptors/prisma-exception.interceptor.ts:13-32 | Successful results pass through untouched. A known Prisma error with P2002 becomes a ConflictException and one with P2025 a NotFoundException. A known Prisma error with any other code is rethrown unchanged, and so is any non-Prisma error. |
| `InterceptorPrisma.MismaClaseQueHandlePrismaError` | src/common/interceptors/prisma-exception.interceptor.ts:16-30 | On a known Prisma error, the interceptor and `handlePrismaError` produce the same kind of exception. For other codes both rethrow the error itself. |
| `InterceptorPrisma.DivergenciaConCodigoAjeno` | src/common/interceptors/prisma-exception.interceptor.ts:16-30 | A non-Prisma error that carries code P2002 passes the interceptor unchanged, but `handlePrismaError` turns it into a Conflict. |
| `InterceptorPrisma.InterceptNoCambiaLoManejado` | src/common/interceptors/prisma-exception.interceptor.ts:14-31 | Whatever `handlePrismaError` has thrown crosses the interceptor unchanged, for every input error. |
| `CrearProductoDto.ADto` | src/modules/productos/dto/crear-productos.dto.ts:10-33 | The DTO built from a validated body has a name of length 2 to 30 and a price of at least 1. Stock and minimum stock are not negative when present. Optional fields are present exactly when the body carries them. |
| `CrearProductoDto.ValidoSiYSoloSi` | src/modules/productos/dto/crear-productos.dto.ts:11-32 | The decorators accept a DTO's body if and only if the DTO meets those bounds. |
| `CrearProductoDto.IdaYVuelta` | src/modules/productos/dto/crear-productos.dto.ts:10-33 | Body to DTO to body is the identity on valid bodies. DTO to body to DTO is the identity on valid DTOs. |
| `CrearProductoDto.SinCotaSuperiorNiEntero` | src/modules/productos/dto/crear-productos.dto.ts:20-32 | Only lower bounds are checked: a price of 10^9, stock 0.5 and minimum stock 2.25 are accepted. A price below 1 and a one-letter name are refused. |
| `ActualizarProductoDto.ADto` | src/modules/productos/dto/actualizar-productos.dto.ts:5-8 | Each field is optional. A present field keeps the bound the create DTO puts on it. `activo` is an optional boolean. A present field carries the body's value. |
| `ActualizarProductoDto.IdaYVuelta` | src/modules/productos/dto/actualizar-productos.dto.ts:5-8 | Body to DTO to body is the identity on valid bodies. DTO to body to DTO is the identity on DTOs within the create bounds. So the DTO carries exactly the body's values. |
| `ActualizarProductoDto.VacioEsValido` | src/modules/productos/dto/actualizar-productos.dto.ts:5 | The empty update is valid and becomes the DTO that changes nothing. |
| `ActualizarProductoDto.CrearEsActualizar` | src/modules/productos/dto/actualizar-productos.dto.ts:5 | Every valid create body is a valid update body. |
| `ActualizarProductoDto.PresenteComoEnCrear` | src/modules/productos/dto/actualizar-productos.dto.ts:5 | With every create field present, the update rule accepts a body if and only if the create rule does. |
| `ActualizarProductoDto.PuedeCambiarStockYActivo` | src/modules/productos/dto/actualizar-productos.dto.ts:5-8 | An update that sets `stock`, `stockMinimo` and `activo` is valid. A non-boolean `activo` is refused. |
| `BuscarProductosQueryDto.Transformar` | src/modules/productos/dto/buscar-productos-query.dto.ts:13-54 | A present `pagina` or `limite` is what `parseInt` reads from it; absent ones become 1 and 10. A present search term is replaced by its `trim`. `activo` is true exactly for the string `'true'` and false for any other string. A given sort field and direction are kept as given; absent ones become `nombre` and `asc`. |
| `BuscarProductosQueryDto.ConsultaVaciaEsValida` | src/modules/productos/dto/buscar-productos-query.dto.ts:14-53 | The query with no parameters is valid and carries all the defaults. |
| `BuscarProductosQueryDto.ValidaEstaAcotada` | src/modules/productos/dto/buscar-productos-query.dto.ts:14-53 | A valid query has its page in [1,100] and its limit in [1,50]. Its sort field and direction are in the allowed sets, and so is any sort field or direction the client gave. A search term keeps at least 2 characters after trimming. |
| `BuscarProductosQueryDto.PaginaDecimal` | src/modules/productos/dto/buscar-productos-query.dto.ts:14-19 | `pagina=n` written in decimal parses to n. Such a query is valid only if n is in [1,100]. |
| `BuscarProductosQueryDto.BusquedaEnBlancoRechazada` | src/modules/productos/dto/buscar-productos-query.dto.ts:28-34 | A search term made only of white space is trimmed to nothing and refused. |
| `Texto.ParseIntDeDecimal` | src/modules/productos/dto/buscar-productos-query.dto.ts:15 | `parseInt` reads back every integer written in decimal. |
| `Texto.ParseInt` | src/modules/productos/dto/buscar-productos-query.dto.ts:14-26 | Blank input gives NaN. So does a first non-white-space character that is neither a sign nor a decimal digit. |
| `Texto.ParseIntIgnoraEspacios` | src/modules/productos/dto/buscar-productos-query.dto.ts:14-26 | White space in front of the number does not change what `parseInt` reads. |
| `Texto.ParseIntConResto` | src/modules/productos/dto/buscar-productos-query.dto.ts:14-26 | Reading stops at the first non-digit: `"12abc"` gives 12. |
| `Texto.ParseIntSinDigitos` | src/modules/productos/dto/buscar-productos-query.dto.ts:14-26 | `""`, `"abc"` and a bare `"0x"` give NaN. |
| `Texto.ParseIntHexadecimalNegativo` | src/modules/productos/dto/buscar-productos-query.dto.ts:14-26 | A sign and a `0x` prefix combine: `"-0x1A"` gives -26. |
| `Texto.Trim` | src/modules/productos/dto/buscar-productos-query.dto.ts:33 | The result has no white space at either end and starts where the input's leading white space ends. Everything of the input before it and after it is white space. |
| `Texto.TrimIdempotente` | src/modules/productos/dto/buscar-productos-query.dto.ts:33 | Trimming twice is trimming once. |
| `Texto.ContieneImplicaSinMayusculas` | src/modules/productos/productos.service.ts:51-54 | Every exact occurrence of the term is also a case-insensitive match. |
| `Texto.ContieneSinMayusculas` | src/modules/productos/productos.service.ts:51-54 | `contains` with `mode: insensitive`: the empty term matches every name, and a term longer than the name never matches. |
| `Texto.ContieneSiYSoloSiAparece` | src/modules/productos/productos.service.ts:51-54 | `contains` holds exactly when the term starts at some index of the name (`Texto.ApareceEn`). |
| `Texto.SinMayusculasSiYSoloSiAparece` | src/modules/productos/productos.service.ts:51-54 | The case-insensitive match holds exactly when the lower-cased term starts at some index of the lower-cased name. |
| `Texto.SinMayusculasIgnoraCaso` | src/modules/productos/productos.service.ts:51-54 | Lower-casing the name or the term first does not change the match. |
| `Listado.Normalize` | src/modules/productos/productos.service.ts:39-40 | The result is at least `min`, and at most `max` when `min <= max`. A value in range (other than 0) is kept. A value above `max` becomes `max`. NaN, 0 and values below `min` become `min`. |
| `Listado.NormalizeIdempotente` | src/modules/productos/productos.service.ts:39-40 | Normalising an already normalised value changes nothing. |
| `Listado.PaginaEfectiva` | src/modules/productos/productos.service.ts:26-42 | The effective page is in [1,100]. It is 1 when the argument is omitted, NaN or below 1, 100 above 100, and the given page otherwise. |
| `Listado.LimiteEfectivo` | src/modules/productos/productos.service.ts:34-43 | The effective limit is in [1, maxPageSize]. It is min(10, maxPageSize) when omitted, 1 for NaN or values below 1, maxPageSize above it, and the given limit otherwise. |
| `Listado.Skip` | src/modules/productos/productos.service.ts:45 | `skip` is never negative, and page 1 skips nothing. |
| `Listado.PaginasContiguas` | src/modules/productos/productos.service.ts:45 | Page p+1 starts exactly where page p ends. |
| `Listado.TotalPaginas` | src/modules/productos/productos.service.ts:77 | `totalPaginas` is 0 exactly when `total` is 0. Otherwise it is the least T with `total <= T * limit`. |
| `Listado.PaginaNoVacia` | src/modules/productos/productos.service.ts:60-77 | A page has records if and only if its number is at most `totalPaginas`. |
| `Listado.FiltroNombre` | src/modules/productos/productos.service.ts:49-56 | A name filter is added exactly when `buscar` is present and non-empty. |
| `Servicio.WhereFindAll` | src/modules/productos/productos.service.ts:47-57 | A record passes `findAll`'s `where` if and only if it is active and, for a non-empty term, its name contains the term ignoring case. |
| `Servicio.WhereFindInactivos` | src/modules/productos/productos.service.ts:174-184 | `findInactivos`'s `where` admits only active records, and exactly the records `findAll`'s admits. |
| `Servicio.WhereInactivosCorregido` | src/modules/productos/productos.service.ts:174-184 | With `activo: false`: a record passes if and only if it is inactive and its name passes the term. |
| `Listado.IdsAscendentes` | src/modules/productos/productos.service.ts:64 | The matching ids in strictly ascending order, each exactly once. |
| `Listado.RangoAscendente` | src/modules/productos/productos.service.ts:60-65 | The id at position i of that order has exactly i smaller matching ids. |
| `Listado.Ventana` | src/modules/productos/productos.service.ts:60-65 | `findMany` with `skip` and `take` over the ids `s`: as many records as are left after `skip`, at most `limit`. The i-th is the stored record under the id at position `skip + i` of the ascending order. |
| `Listado.VentanaOrdenada` | src/modules/productos/productos.service.ts:60-65 | When each record is stored under its own id: every record of the window is the stored record of an id of `s`. Ids strictly increase along the window. The i-th record has exactly `skip + i` ids of `s` below its own. |
| `Listado.Paginar` | src/modules/productos/productos.service.ts:37-79 | The result echoes the clamped page and limit. `total` is the number of ids in `Coincidentes(t, w)`, the records that pass the filter, and `datos` is drawn from that same set. `totalPaginas` is `ceil(total/limit)`. `datos` is exactly the window of matching records after `skip` of them, in ascending id order, and is non-empty if and only if `pagina <= totalPaginas`. |
| `Servicio.ProductosService.FindAll` | src/modules/productos/productos.service.ts:32-80 | Every listed record is stored and active. With a non-empty term, its name contains the term ignoring case. Records are in ascending id order, at most `limite` of them. `total` counts the active records whose name matches. The whole result is `Listado.Paginar` over `findAll`'s `where`. |
| `Servicio.ProductosService.FindInactivos` | src/modules/productos/productos.service.ts:159-207 | Returns exactly what `findAll` returns for the same arguments, so only active records are listed. |
| `Servicio.ProductosService.FindInactivosCorregido` | src/modules/productos/productos.service.ts:174-184 | With `activo: false`: every listed record is stored and inactive, and `total` counts the inactive records whose name matches. Page and limit are as in `findAll`. The whole result is `Listado.Paginar` over the `activo: false` filter. |
| `Servicio.FindInactivosOmiteInactivos` | src/modules/productos/productos.service.ts:174-175 | On a table holding one inactive product, the as-written filter reports total 0 and the corrected one reports 1. |
| `Servicio.ProductosService.FindOne` | src/modules/productos/productos.service.ts:82-96 | An id of 0 or below fails with BadRequest, whatever the table holds. An unknown positive id fails with NotFound. Otherwise the stored record is returned. The method does not modify the table. |
| `Servicio.ProductosService.Create` | src/modules/productos/productos.service.ts:98-119 | If a record with exactly this name exists, active or inactive, the call fails with Conflict and the table is unchanged. Otherwise exactly one record is added under a fresh positive id, holding the DTO's fields, and it is returned. Name uniqueness is preserved. |
| `Servicio.Nuevo` | src/modules/productos/productos.service.ts:111-113 | `create({ data: dto })`: the new record has the given id and the DTO's name and price. Each optional field is the DTO's value when present and the store's default otherwise. `activo` is the store's default. |
| `Modelo.NombreIdentificaRegistro` | src/modules/productos/productos.service.ts:102-104 | Under the unique index on `nombre` (`Modelo.NombresUnicos`), a name in use belongs to exactly one record. |
| `Modelo.EscribirConservaValidez` | src/modules/productos/productos.service.ts:101-133 | Writing a record under its own id keeps the table valid (`Modelo.TablaValida`: ids match keys and names are unique) when no other record holds its name. Every other record is unchanged. |
| `Servicio.ProductosService.Update` | src/modules/productos/productos.service.ts:121-139 | An unknown id fails with NotFound and leaves the table unchanged. A new name held by another record is refused by the unique index (P2002, mapped to Conflict) and leaves the table unchanged. Otherwise only the DTO's fields of that one record change. |
| `Servicio.ProductosService.Remove` | src/modules/productos/productos.service.ts:141-157 | An unknown id fails with NotFound and leaves the table unchanged. Otherwise only `activo` of that record becomes false, even if it already was. |
| `Servicio.ProductosService.Restore` | src/modules/productos/productos.service.ts:209-223 | An unknown id fails with NotFound and leaves the table unchanged. Otherwise only `activo` of that record becomes true. |
| `Servicio.Aplicar` | src/modules/productos/productos.service.ts:130-133 | `update({ where: { id }, data })` on one record: the id and every field the DTO leaves out are kept. Every field it carries takes the DTO value. |
| `Servicio.AplicarVacioEsIdentidad` | src/modules/productos/productos.service.ts:130-133 | The update that sets no field leaves the record as it is. |
| `Servicio.AplicarCompone` | src/modules/productos/productos.service.ts:130-133 | Two updates in a row equal their combination, where later fields win. Repeating an update changes nothing. |
| `Servicio.EliminarSacaDelListado` | src/modules/productos/productos.service.ts:147-150 | After a soft delete the record is in no `activo: true` listing. The listing's `total` drops by one if the record was counted. |
| `Servicio.RestaurarVuelveAlListado` | src/modules/productos/productos.service.ts:215-218 | After a restore the record is listed again exactly when its name passes the filter. |
| `Servicio.NuevoRespetaCrear` | src/modules/productos/productos.service.ts:111-113 | A record created from a validated body keeps the create bounds, provided the store's defaults are not negative. |
| `Servicio.ConsultaValidaNoSeNormaliza` | src/modules/productos/productos.service.ts:39-43 | When `MAX_PAGE_SIZE` is at least 50, a validated query's page and limit pass normalisation unchanged. |

## Findings

| source | as written | input that shows it | evidently intended | confidence | as-written member | corrected member |
|---|---|---|---|---|---|---|
| src/modules/productos/productos.service.ts:175 | `findInactivos` filters `activo: true`, so it returns the active records, exactly as `findAll` does | a table holding one product with `activo = false`: `findInactivos()` reports `total` 0 | filter `activo: false`, listing the soft-deleted records | high (not executed) | `Servicio.ProductosService.FindInactivos`, `Servicio.FindInactivosOmiteInactivos` | `Servicio.ProductosService.FindInactivosCorregido` |

`Servicio.ProductosService.FindInactivos` keeps the code as written, because
that is the behaviour of the service. The corrected listing sits next to it.
No other member of the model depends on either one.

## Left out

- Telegram notification client: an HTTP call that nothing in the service invokes. No stock-adjustment or alert rules exist in the service, so none are modelled.
- `createMany`: the controller calls it, but the service does not define it.
- HTTP routing: the controller passes `buscar`, which the query DTO does not define, so over HTTP the name filter never reaches the service. The model takes the service's parameters directly.
- Configuration parsing: `MAX_PAGE_SIZE` is a constructor parameter that must be at least 1 (the configuration defaults it to 50).
- `ParseBigIntPipe` and bigint ids: ids are unbounded integers. Only `findOne` guards against ids at or below 0.
- `serializedBigInt`: treated as the identity on records.
- Concurrency: `findMany` and `count` run together, but both are modelled as reads of the same table state. Races between a check and the following write are not modelled.
- Store schema: the unique index on `nombre` is assumed. The Prisma schema that declares it is not among the modelled files. Default values for omitted create fields are a parameter, with no value asserted. The store picks the new id, so the model only promises a fresh positive one. Timestamps are not modelled.
- Store failures other than the unique-index violation (P2002) and the missing record (P2025), such as a lost connection or a time-out: the service methods never meet one in the model. In the source `handlePrismaError` rethrows any such error unchanged, and `HandlePrismaError` models that path.
- Store type errors, such as a fractional `stock` written to an integer column, are not modelled. Neither are the validation errors Prisma raises for them.
- JavaScript numbers: the listing arguments are integers or NaN. Fractional values and ±Infinity passed directly to the service are not modelled, nor the precision loss of `parseInt` on very long digit strings. Product amounts are Dafny `real` values, with no NaN.
- Case-insensitive matching: modelled as ASCII lower-casing on both sides. PostgreSQL's full Unicode case folding for ILIKE is not modelled.
- String length for `MinLength`/`MaxLength`: counted in Dafny characters (Unicode scalar values), not in UTF-16 code units.
- JSON `null` fields, extra properties rejected by `forbidNonWhitelisted`, and repeated query parameters arriving as arrays are not modelled.
- Error message texts of the validation pipe, and logging.
- `Servicio.ProductosService.FindOne`: "does not read the table for ids at or below 0" is stated only as a result that does not depend on the table. The order of the store calls is not observable in the model.
