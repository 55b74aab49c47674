/**
 * The computation shared by `findAll` and `findInactivos`: page and limit
 * normalisation, `skip`, the `where` filter, the ascending-id order and the
 * `{ total, pagina, limite, totalPaginas, datos }` result.
 */
module Listado {
  import opened Wrappers
  import opened Texto
  import opened Modelo

  const MAX_PAGE_NUMBER: int := 100
  const MIN_PAGE_NUMBER: int := 1
  /** The value `MAX_PAGE_SIZE` takes when the configuration does not set it. */
  const MAX_PAGE_SIZE_POR_DEFECTO: int := 50
  const PAGINA_POR_DEFECTO: int := 1
  const LIMITE_POR_DEFECTO: int := 10

  /** `PaginacionResultado<T>`. */
  datatype PaginacionResultado = PaginacionResultado(
    total: nat,
    pagina: int,
    limite: int,
    totalPaginas: nat,
    datos: seq<Producto>)

  function Min(a: int, b: int): int { if a <= b then a else b }
  function Max(a: int, b: int): int { if a >= b then a else b }

  // ---------------------------------------------------------------------
  // Normalisation of page and limit

  /**
   * `normalize(val, min, max)`, that is `Math.max(min, Math.min(Number(val) || min, max))`:
   * NaN and 0 fall back to `min`, the rest is clamped to `[min, max]`.
   */
  function Normalize(val: NumeroJs, min: int, max: int): (r: int)
    ensures r >= min
    ensures min <= max ==> r <= max
    ensures min <= max && val.Entero? && min <= val.valor <= max && val.valor != 0 ==> r == val.valor
    ensures val.Entero? && val.valor > max && val.valor != 0 ==> r == Max(min, max)
    ensures val.NaN? || (val.Entero? && (val.valor < min || val.valor == 0)) ==> r == min
  {
    var x := if val.NaN? || val.valor == 0 then min else val.valor;
    Max(min, Min(x, max))
  }

  /** Normalising a value already normalised changes nothing. */
  lemma NormalizeIdempotente(val: NumeroJs, min: int, max: int)
    requires 1 <= min <= max
    ensures Normalize(Entero(Normalize(val, min, max)), min, max) == Normalize(val, min, max)
  {
  }

  /** The page the service uses: the default 1 when the argument is left out, then normalised to [1,100]. */
  function PaginaEfectiva(pagina: Option<NumeroJs>): (r: int)
    ensures MIN_PAGE_NUMBER <= r <= MAX_PAGE_NUMBER
    ensures pagina.None? ==> r == PAGINA_POR_DEFECTO
    ensures pagina.Some? && pagina.value.Entero? && pagina.value.valor > MAX_PAGE_NUMBER ==> r == MAX_PAGE_NUMBER
    ensures pagina.Some? && (pagina.value.NaN? || pagina.value.valor < MIN_PAGE_NUMBER) ==> r == MIN_PAGE_NUMBER
    ensures pagina.Some? && pagina.value.Entero? && MIN_PAGE_NUMBER <= pagina.value.valor <= MAX_PAGE_NUMBER ==> r == pagina.value.valor
  {
    Normalize(GetOr(pagina, Entero(PAGINA_POR_DEFECTO)), MIN_PAGE_NUMBER, MAX_PAGE_NUMBER)
  }

  /** The limit the service uses: the default 10 when left out, then normalised to [1, maxPageSize]. */
  function LimiteEfectivo(limite: Option<NumeroJs>, maxPageSize: int): (r: int)
    requires maxPageSize >= 1
    ensures MIN_PAGE_NUMBER <= r <= maxPageSize
    ensures limite.None? ==> r == Min(LIMITE_POR_DEFECTO, maxPageSize)
    ensures limite.Some? && limite.value.Entero? && limite.value.valor > maxPageSize ==> r == maxPageSize
    ensures limite.Some? && (limite.value.NaN? || limite.value.valor < MIN_PAGE_NUMBER) ==> r == MIN_PAGE_NUMBER
    ensures limite.Some? && limite.value.Entero? && MIN_PAGE_NUMBER <= limite.value.valor <= maxPageSize ==> r == limite.value.valor
  {
    Normalize(GetOr(limite, Entero(LIMITE_POR_DEFECTO)), MIN_PAGE_NUMBER, maxPageSize)
  }

  /** The number of records skipped before page `page`: none on page 1, and never a negative number. */
  function Skip(page: int, limit: int): (r: int)
    ensures page >= 1 && limit >= 1 ==> r >= 0
    ensures page == 1 ==> r == 0
  {
    (page - 1) * limit
  }

  /** Consecutive pages are adjacent windows: page p+1 starts where page p ends. */
  lemma PaginasContiguas(page: int, limit: int)
    ensures Skip(page + 1, limit) == Skip(page, limit) + limit
  {
  }

  /** `Math.ceil(total / limit)`. */
  function TotalPaginas(total: nat, limit: int): (r: nat)
    requires limit >= 1
    ensures r == 0 <==> total == 0
    ensures total > 0 ==> (r - 1) * limit < total <= r * limit
  {
    var q := (total + limit - 1) / limit;
    assert q * limit + (total + limit - 1) % limit == total + limit - 1;
    assert (q - 1) * limit == q * limit - limit;
    q
  }

  lemma MultiplicacionMonotona(a: int, b: int, c: int)
    requires a <= b && c >= 0
    ensures a * c <= b * c
  {
    assert b * c - a * c == (b - a) * c;
  }

  /** A page has records exactly when its number is at most `totalPaginas`. */
  lemma {:induction false} PaginaNoVacia(total: nat, page: int, limit: int)
    requires page >= 1 && limit >= 1
    ensures Skip(page, limit) < total <==> page <= TotalPaginas(total, limit)
  {
    var t := TotalPaginas(total, limit);
    if page <= t {
      MultiplicacionMonotona(page - 1, t - 1, limit);
    } else {
      MultiplicacionMonotona(t, page - 1, limit);
    }
  }

  // ---------------------------------------------------------------------
  // The `where` filter

  /** A `Prisma.ProductoWhereInput` of the shape both listings build. */
  datatype Where = Where(activo: bool, nombreContiene: Option<string>)

  /** `...(buscar ? { nombre: { contains: buscar, mode: insensitive } } : {})`: an empty or absent term adds no filter. */
  function FiltroNombre(buscar: Option<string>): (f: Option<string>)
    ensures f.Some? <==> buscar.Some? && buscar.value != ""
    ensures f.Some? ==> f == buscar
  {
    if buscar.Some? && buscar.value != "" then buscar else None
  }

  predicate Cumple(p: Producto, w: Where)
  {
    p.activo == w.activo
    && (w.nombreContiene.Some? ==> ContieneSinMayusculas(p.nombre, w.nombreContiene.value))
  }

  /** The ids `count({ where })` counts and `findMany({ where })` draws from. */
  function Coincidentes(t: Tabla, w: Where): (s: set<int>)
    ensures forall id :: id in s <==> id in t && Cumple(t[id], w)
  {
    set id | id in t && Cumple(t[id], w)
  }

  // ---------------------------------------------------------------------
  // `orderBy: { id: 'asc' }`

  /** `m` is at most every element of `s`. */
  predicate CotaInferior(m: int, s: set<int>)
  {
    forall k :: k in s ==> m <= k
  }

  lemma {:induction false} HayMinimo(s: set<int>)
    requires s != {}
    ensures exists m :: m in s && CotaInferior(m, s)
    decreases |s|
  {
    TieneElemento(s);
    var x :| x in s;
    var resto := s - {x};
    if resto == {} {
      forall k | k in s ensures x <= k {
        assert k !in resto;
      }
      assert x in s && CotaInferior(x, s);
    } else {
      HayMinimo(resto);
      var m :| m in resto && CotaInferior(m, resto);
      var menor := if x < m then x else m;
      forall k | k in s ensures menor <= k {
        if k != x {
          assert k in resto;
        }
      }
      assert menor in s && CotaInferior(menor, s);
    }
  }

  function MinimoDe(s: set<int>): (m: int)
    requires s != {}
    ensures m in s && CotaInferior(m, s)
  {
    HayMinimo(s);
    var m :| m in s && CotaInferior(m, s);
    m
  }

  /**
   * Putting the minimum of `s` in front of an ascending listing of the rest
   * of `s` gives an ascending listing of `s`.
   */
  lemma AnteponerMinimo(s: set<int>, m: int, resto: seq<int>)
    requires m in s && CotaInferior(m, s)
    requires |resto| == |s - {m}|
    requires forall i :: 0 <= i < |resto| ==> resto[i] in s - {m}
    requires forall k :: k in s - {m} ==> k in resto
    requires forall i, j :: 0 <= i < j < |resto| ==> resto[i] < resto[j]
    ensures var r := [m] + resto;
      && |r| == |s|
      && (forall i :: 0 <= i < |r| ==> r[i] in s)
      && (forall k :: k in s ==> k in r)
      && (forall i, j :: 0 <= i < j < |r| ==> r[i] < r[j])
  {
    var r := [m] + resto;
    assert forall i :: 1 <= i < |r| ==> r[i] == resto[i - 1];
    forall j | 0 <= j < |resto| ensures m < resto[j] {
      assert resto[j] in s - {m};
    }
    forall k | k in s ensures k in r {
      if k != m {
        assert k in s - {m};
      }
    }
  }

  /** The elements of `s` in ascending order, each once. */
  function IdsAscendentes(s: set<int>): (r: seq<int>)
    ensures |r| == |s|
    ensures forall i :: 0 <= i < |r| ==> r[i] in s
    ensures forall k :: k in s ==> k in r
    ensures forall i, j :: 0 <= i < j < |r| ==> r[i] < r[j]
    decreases |s|
  {
    if s == {} then []
    else
      var m := MinimoDe(s);
      var resto := IdsAscendentes(s - {m});
      AnteponerMinimo(s, m, resto);
      [m] + resto
  }

  /** The members of `s` below `x`. */
  function Menores(s: set<int>, x: int): set<int>
  {
    set k | k in s && k < x
  }

  /** Taking out an element below `x` takes exactly one element out of the members below `x`. */
  lemma MenoresSinMinimo(s: set<int>, m: int, x: int)
    requires m in s && m < x
    ensures |Menores(s, x)| == |Menores(s - {m}, x)| + 1
  {
    var a := Menores(s - {m}, x);
    assert Menores(s, x) == a + {m};
    assert m !in a;
  }

  /** The ascending order starts with the minimum and goes on with the rest. */
  lemma IdsAscendentesDesdeMinimo(s: set<int>)
    requires s != {}
    ensures IdsAscendentes(s) == [MinimoDe(s)] + IdsAscendentes(s - {MinimoDe(s)})
  {
  }

  /** Nothing in `s` is below its minimum. */
  lemma NadaBajoElMinimo(s: set<int>)
    requires s != {}
    ensures Menores(s, MinimoDe(s)) == {}
  {
    var m := MinimoDe(s);
    if k :| k in Menores(s, m) {
      assert false;
    }
  }

  /** The element at position i of the ascending order has exactly i smaller elements. */
  lemma {:induction false} RangoAscendente(s: set<int>, i: int)
    requires 0 <= i < |s|
    ensures |Menores(s, IdsAscendentes(s)[i])| == i
    decreases |s|
  {
    var m := MinimoDe(s);
    var resto := s - {m};
    IdsAscendentesDesdeMinimo(s);
    if i == 0 {
      NadaBajoElMinimo(s);
    } else {
      var x := IdsAscendentes(resto)[i - 1];
      assert IdsAscendentes(s)[i] == x;
      assert x in resto;
      assert m < x;
      RangoAscendente(resto, i - 1);
      MenoresSinMinimo(s, m, x);
    }
  }

  lemma RangosDeLaVentana(s: set<int>, desde: int, n: int)
    requires 0 <= desde && 0 <= n && (n == 0 || desde + n <= |s|)
    ensures forall k :: desde <= k < desde + n ==> |Menores(s, IdsAscendentes(s)[k])| == k
  {
    forall k | desde <= k < desde + n ensures |Menores(s, IdsAscendentes(s)[k])| == k {
      RangoAscendente(s, k);
    }
  }

  // ---------------------------------------------------------------------
  // The listing

  /** The stored records under `ids`, in the same order. */
  function Registros(t: Tabla, ids: seq<int>): (v: seq<Producto>)
    requires forall i :: 0 <= i < |ids| ==> ids[i] in t
    ensures |v| == |ids|
    ensures forall i :: 0 <= i < |v| ==> v[i] == t[ids[i]]
    decreases |ids|
  {
    if ids == [] then [] else [t[ids[0]]] + Registros(t, ids[1..])
  }

  /**
   * `findMany({ skip, take: limit, orderBy: { id: 'asc' } })` over the ids `s`:
   * the records whose ids come at positions skip, skip+1, ... of the
   * ascending order, at most `limit` of them.
   */
  function Ventana(t: Tabla, s: set<int>, skip: int, limit: int): (v: seq<Producto>)
    requires skip >= 0 && limit >= 1
    requires forall id :: id in s ==> id in t
    ensures |v| == if skip >= |s| then 0 else Min(limit, |s| - skip)
    ensures forall i :: 0 <= i < |v| ==> v[i] == t[IdsAscendentes(s)[skip + i]]
  {
    var ids := IdsAscendentes(s);
    if skip >= |ids| then []
    else
      var elegidos := ids[skip..skip + Min(limit, |ids| - skip)];
      assert forall i :: 0 <= i < |elegidos| ==> elegidos[i] == ids[skip + i];
      Registros(t, elegidos)
  }

  /**
   * The window holds stored records of `s`, in ascending id order, and the
   * i-th of them has exactly `skip + i` members of `s` below its id.
   */
  lemma VentanaOrdenada(t: Tabla, s: set<int>, skip: int, limit: int)
    requires IdsCoherentes(t) && skip >= 0 && limit >= 1
    requires forall id :: id in s ==> id in t
    ensures var v := Ventana(t, s, skip, limit);
      && (forall i :: 0 <= i < |v| ==> v[i].id in s && t[v[i].id] == v[i])
      && (forall i, j :: 0 <= i < j < |v| ==> v[i].id < v[j].id)
      && (forall i :: 0 <= i < |v| ==> |Menores(s, v[i].id)| == skip + i)
  {
    var ids := IdsAscendentes(s);
    var v := Ventana(t, s, skip, limit);
    RangosDeLaVentana(s, skip, |v|);
    assert forall i :: 0 <= i < |v| ==> v[i].id == ids[skip + i];
  }

  /**
   * One listing: the page and limit normalised, `total` counted and `datos`
   * drawn with the same filter, and `datos` the window of the matching
   * records, in ascending id order, that starts after `skip` of them.
   */
  function Paginar(t: Tabla, pagina: Option<NumeroJs>, limite: Option<NumeroJs>, maxPageSize: int, w: Where): (r: PaginacionResultado)
    requires maxPageSize >= 1
    requires IdsCoherentes(t)
    ensures r.pagina == PaginaEfectiva(pagina) && r.limite == LimiteEfectivo(limite, maxPageSize)
    ensures r.total == |Coincidentes(t, w)|
    ensures r.totalPaginas == TotalPaginas(r.total, r.limite)
    ensures |r.datos| <= r.limite
    ensures |r.datos| == if Skip(r.pagina, r.limite) >= r.total then 0 else Min(r.limite, r.total - Skip(r.pagina, r.limite))
    ensures |r.datos| > 0 <==> r.pagina <= r.totalPaginas
    ensures forall i :: 0 <= i < |r.datos| ==> r.datos[i].id in t && t[r.datos[i].id] == r.datos[i] && Cumple(r.datos[i], w)
    ensures forall i, j :: 0 <= i < j < |r.datos| ==> r.datos[i].id < r.datos[j].id
    ensures forall i :: 0 <= i < |r.datos| ==> |Menores(Coincidentes(t, w), r.datos[i].id)| == Skip(r.pagina, r.limite) + i
  {
    var page := PaginaEfectiva(pagina);
    var limit := LimiteEfectivo(limite, maxPageSize);
    var skip := Skip(page, limit);
    var coincidentes := Coincidentes(t, w);
    PaginaNoVacia(|coincidentes|, page, limit);
    VentanaOrdenada(t, coincidentes, skip, limit);
    PaginacionResultado(|coincidentes|, page, limit, TotalPaginas(|coincidentes|, limit),
                        Ventana(t, coincidentes, skip, limit))
  }
}
