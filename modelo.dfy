/** The `Producto` record and the table the store keeps of them. */
module Modelo {
  import opened Wrappers

  /** A stored product; the numeric fields are JavaScript numbers, so they need not be integers. */
  datatype Producto = Producto(
    id: int,
    nombre: string,
    descripcion: Option<string>,
    precio: real,
    stock: real,
    stockMinimo: real,
    activo: bool)

  /** The product table: each record under its own id. */
  type Tabla = map<int, Producto>

  predicate IdsCoherentes(t: Tabla)
  {
    forall id :: id in t ==> t[id].id == id
  }

  /** The store's unique index on `nombre`, over active and inactive records alike. */
  predicate NombresUnicos(t: Tabla)
  {
    forall a, b :: a in t && b in t && t[a].nombre == t[b].nombre ==> a == b
  }

  predicate TablaValida(t: Tabla)
  {
    IdsCoherentes(t) && NombresUnicos(t)
  }

  /** Some record, active or not, has exactly this name (`findFirst({ where: { nombre } })`). */
  predicate NombreEnUso(t: Tabla, nombre: string)
  {
    exists id :: id in t && t[id].nombre == nombre
  }

  /** Some record other than `id` has this name: an update to it would hit the unique index. */
  predicate NombreEnUsoPorOtro(t: Tabla, id: int, nombre: string)
  {
    exists otro :: otro in t && otro != id && t[otro].nombre == nombre
  }

  /**
   * Under the unique index a name in use picks out exactly one record, so
   * the duplicate check of `create` has a single record it can match.
   */
  lemma NombreIdentificaRegistro(t: Tabla, nombre: string, id: int)
    requires NombresUnicos(t) && id in t && t[id].nombre == nombre
    ensures (set k | k in t && t[k].nombre == nombre) == {id}
  {
    var mismos := set k | k in t && t[k].nombre == nombre;
    forall k ensures k in mismos <==> k == id {
      if k in mismos {
        assert t[k].nombre == t[id].nombre;
      }
    }
  }

  /**
   * Writing a record under its own id keeps the table valid as long as no
   * other record holds its name; `Create` and `Update` call it before writing.
   */
  lemma EscribirConservaValidez(t: Tabla, p: Producto)
    requires TablaValida(t) && !NombreEnUsoPorOtro(t, p.id, p.nombre)
    ensures TablaValida(t[p.id := p])
    ensures forall id :: id in t[p.id := p] && id != p.id ==> t[p.id := p][id] == t[id]
  {
  }

  /** A non-empty set has an element. */
  lemma TieneElemento(s: set<int>)
    requires s != {}
    ensures exists x :: x in s
  {
    if forall x :: x !in s {
      assert false;
    }
  }

  /** An upper bound of a finite set of ids. */
  ghost function Cota(s: set<int>): (c: int)
    ensures c >= 1 && forall k :: k in s ==> k < c
    decreases |s|
  {
    if s == {} then 1
    else
      TieneElemento(s);
      var x :| x in s;
      var resto := Cota(s - {x});
      assert forall k :: k in s ==> k == x || k in s - {x};
      if x < resto then resto else x + 1
  }

  /** The store can always assign a fresh positive id. */
  lemma {:induction false} HayIdLibre(t: Tabla)
    ensures exists id :: id > 0 && id !in t
  {
    var c := Cota(t.Keys);
    assert c > 0 && c !in t;
  }
}
