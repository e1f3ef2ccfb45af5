/**
 * The product repository contract (IProductoRepository) as an in-memory
 * store with upsert `save`. Products are keyed by the exact text of their
 * code, as the persistence layer's primary key and its `exists` check are:
 * two codes that differ only in letter case are two keys here even though
 * ProductCode equality treats them as one code.
 */
module ProductoRepo {
  import opened Wrappers
  import opened Text
  import opened Exceptions
  import opened ValueObjects
  import opened ProductoEntity
  import opened Tables

  type ProductoTable = Table<string, ProductoRec>

  /** Every product is stored under the text of its own code. */
  predicate Keyed(t: ProductoTable) {
    Valid(t) && forall k :: k in t.rows ==> t.rows[k].codigo.value == k
  }

  /** `save(producto)`: insert the product, or replace the one with the same code text. */
  function Saved(t: ProductoTable, p: ProductoRec): (r: ProductoTable)
    requires Keyed(t)
    ensures Keyed(r)
    ensures r.rows == t.rows[p.codigo.value := p]
    ensures |r.order| == |t.order| + (if p.codigo.value in t.rows then 0 else 1)
  {
    Upsert(t, p.codigo.value, p)
  }

  /** `delete(codigo)`: whether a product was removed, and the store without it. */
  function Deleted(t: ProductoTable, codigo: string): (r: (bool, ProductoTable))
    requires Keyed(t)
    ensures Keyed(r.1)
    ensures r.0 <==> codigo in t.rows
    ensures r.1.rows == t.rows - {codigo}
  {
    (codigo in t.rows, Remove(t, codigo))
  }

  /** `find_all(limit, offset)`: one page of the products, newest first. */
  function ListAll(t: ProductoTable, limit: nat, offset: nat): (r: seq<ProductoRec>)
    requires Keyed(t)
    ensures |r| <= limit
    ensures |r| == if offset >= |t.order| then 0 else Min(limit, |t.order| - offset)
    ensures forall i :: 0 <= i < |r| ==> offset + i < |t.order| && r[i] == t.rows[t.order[offset + i]]
    ensures forall x :: x in r ==> x in t.rows.Values
  {
    InValues(t);
    Page(Values(t), limit, offset)
  }

  /** Reading a page of `a` and then the next page of `b` lists what one page of `a + b` lists. */
  lemma NextPageFollows(t: ProductoTable, a: nat, b: nat, offset: nat)
    requires Keyed(t)
    ensures ListAll(t, a, offset) + ListAll(t, b, offset + a) == ListAll(t, a + b, offset)
  {
    PagesAdjoin(Values(t), a, b, offset);
  }

  /** `find_by_empresa(nit)`: the products of the company with that NIT text. */
  function OfEmpresa(t: ProductoTable, nit: string): (r: seq<ProductoRec>)
    requires Keyed(t)
    ensures forall p :: p in r <==> p in t.rows.Values && p.empresaNit.value == nit
    ensures Subsequence(r, Values(t))
  {
    var f := (p: ProductoRec) => p.empresaNit.value == nit;
    InValues(t);
    forall p
      ensures p in Filter(Values(t), f) <==> p in Values(t) && f(p)
    {
      InFilter(Values(t), f, p);
    }
    Filter(Values(t), f)
  }

  /** `search_by_nombre(nombre)`: the products whose name contains `nombre`, ignoring case. */
  function NameMatches(t: ProductoTable, nombre: string): (r: seq<ProductoRec>)
    requires Keyed(t)
    ensures forall p :: p in r <==> p in t.rows.Values && ContainsIgnoreCase(p.nombre, nombre)
    ensures Subsequence(r, Values(t))
  {
    var f := (p: ProductoRec) => ContainsIgnoreCase(p.nombre, nombre);
    InValues(t);
    forall p
      ensures p in Filter(Values(t), f) <==> p in Values(t) && f(p)
    {
      InFilter(Values(t), f, p);
    }
    Filter(Values(t), f)
  }

  /** A code under which a product is stored is a valid code text, so `ProductCode(codigo)` gives back the stored code. */
  lemma StoredCodeIsValid(t: ProductoTable, codigo: string)
    requires Keyed(t) && codigo in t.rows
    ensures MakeProductCode(codigo) == Ok(t.rows[codigo].codigo)
  {
    assert t.rows[codigo].codigo.value == codigo;
  }

  /** A repository object over the store. */
  class ProductoRepository {
    var table: ProductoTable

    predicate Invariant()
      reads this
    {
      Keyed(table)
    }

    constructor ()
      ensures Invariant() && table.rows == map[]
    {
      table := Empty();
    }

    method Save(p: Producto) returns (saved: ProductoRec)
      requires Invariant()
      modifies this
      ensures Invariant()
      ensures saved == p.Snapshot() && table == Saved(old(table), saved)
    {
      saved := p.Snapshot();
      table := Saved(table, saved);
    }

    /** `find_by_codigo(codigo)`: a fresh entity holding the stored product, if there is one. */
    method FindByCodigo(codigo: string) returns (r: Option<Producto>)
      ensures r.Some? <==> codigo in table.rows
      ensures r.Some? ==> fresh(r.value) && r.value.Snapshot() == table.rows[codigo]
    {
      if codigo !in table.rows {
        return None;
      }
      var rec := table.rows[codigo];
      var p := new Producto.Init(rec.codigo, rec.nombre, rec.empresaNit, rec.caracteristicas,
                                 rec.createdAt, rec.updatedAt, rec.createdById);
      return Some(p);
    }

    predicate Exists(codigo: string)
      reads this
    {
      codigo in table.rows
    }

    function FindAll(limit: nat, offset: nat): (r: seq<ProductoRec>)
      reads this
      requires Invariant()
      ensures |r| == if offset >= |table.order| then 0 else Min(limit, |table.order| - offset)
      ensures forall x :: x in r ==> x in table.rows.Values
    {
      ListAll(table, limit, offset)
    }

    function FindByEmpresa(nit: string): (r: seq<ProductoRec>)
      reads this
      requires Invariant()
      ensures forall p :: p in r <==> p in table.rows.Values && p.empresaNit.value == nit
      ensures Subsequence(r, Values(table))
    {
      OfEmpresa(table, nit)
    }

    function SearchByNombre(nombre: string): (r: seq<ProductoRec>)
      reads this
      requires Invariant()
      ensures forall p :: p in r <==> p in table.rows.Values && ContainsIgnoreCase(p.nombre, nombre)
      ensures Subsequence(r, Values(table))
    {
      NameMatches(table, nombre)
    }

    method Delete(codigo: string) returns (removed: bool)
      requires Invariant()
      modifies this
      ensures Invariant()
      ensures (removed, table) == Deleted(old(table), codigo)
    {
      removed := codigo in table.rows;
      table := Remove(table, codigo);
    }
  }
}
