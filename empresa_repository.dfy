/**
 * The company repository contract (IEmpresaRepository) as an in-memory store
 * keyed by the text of each company's NIT, with upsert `save`.
 */
module EmpresaRepo {
  import opened Wrappers
  import opened Text
  import opened Exceptions
  import opened ValueObjects
  import opened EmpresaEntity
  import opened Tables

  type EmpresaTable = Table<string, EmpresaRec>

  /** Every company is stored under its own NIT. */
  predicate Keyed(t: EmpresaTable) {
    Valid(t) && forall k :: k in t.rows ==> t.rows[k].nit.value == k
  }

  /** `save(empresa)`: insert the company, or replace the one with the same NIT. */
  function Saved(t: EmpresaTable, e: EmpresaRec): (r: EmpresaTable)
    requires Keyed(t)
    ensures Keyed(r)
    ensures r.rows == t.rows[e.nit.value := e]
    ensures |r.order| == |t.order| + (if e.nit.value in t.rows then 0 else 1)
  {
    Upsert(t, e.nit.value, e)
  }

  /** `delete(nit)`: whether a company was removed, and the store without it. */
  function Deleted(t: EmpresaTable, nit: string): (r: (bool, EmpresaTable))
    requires Keyed(t)
    ensures Keyed(r.1)
    ensures r.0 <==> nit in t.rows
    ensures r.1.rows == t.rows - {nit}
  {
    (nit in t.rows, Remove(t, nit))
  }

  /** `find_all(limit, offset)`: one page of the companies, newest first. */
  function ListAll(t: EmpresaTable, limit: nat, offset: nat): (r: seq<EmpresaRec>)
    requires Keyed(t)
    ensures |r| <= limit
    ensures |r| == if offset >= |t.order| then 0 else Min(limit, |t.order| - offset)
    ensures forall i :: 0 <= i < |r| ==> offset + i < |t.order| && r[i] == t.rows[t.order[offset + i]]
    ensures forall x :: x in r ==> x in t.rows.Values
  {
    InValues(t);
    Page(Values(t), limit, offset)
  }

  /** Reading a page of `a` and then the next page of `b` lists what one page of `a + b` lists. */
  lemma NextPageFollows(t: EmpresaTable, a: nat, b: nat, offset: nat)
    requires Keyed(t)
    ensures ListAll(t, a, offset) + ListAll(t, b, offset + a) == ListAll(t, a + b, offset)
  {
    PagesAdjoin(Values(t), a, b, offset);
  }

  /** `search_by_nombre(nombre)`: the companies whose name contains `nombre`, ignoring case. */
  function NameMatches(t: EmpresaTable, nombre: string): (r: seq<EmpresaRec>)
    requires Keyed(t)
    ensures forall e :: e in r <==> e in t.rows.Values && ContainsIgnoreCase(e.nombre, nombre)
    ensures Subsequence(r, Values(t))
  {
    var p := (e: EmpresaRec) => ContainsIgnoreCase(e.nombre, nombre);
    InValues(t);
    forall e
      ensures e in Filter(Values(t), p) <==> e in Values(t) && p(e)
    {
      InFilter(Values(t), p, e);
    }
    Filter(Values(t), p)
  }

  /** A NIT under which a company is stored is a valid NIT text, so `NIT(nit)` gives back the stored NIT. */
  lemma StoredNitIsValid(t: EmpresaTable, nit: string)
    requires Keyed(t) && nit in t.rows
    ensures MakeNit(nit) == Ok(t.rows[nit].nit)
  {
    assert t.rows[nit].nit.value == nit;
  }

  /** A repository object over the store. */
  class EmpresaRepository {
    var table: EmpresaTable

    predicate Invariant()
      reads this
    {
      Keyed(table)
    }

    constructor ()
      ensures Invariant() && table.rows == map[]
    {
      table := Empty();
    }

    method Save(e: Empresa) returns (saved: EmpresaRec)
      requires Invariant()
      modifies this
      ensures Invariant()
      ensures saved == e.Snapshot() && table == Saved(old(table), saved)
    {
      saved := e.Snapshot();
      table := Saved(table, saved);
    }

    /** `find_by_nit(nit)`: a fresh entity holding the stored company, if there is one. */
    method FindByNit(nit: string) returns (r: Option<Empresa>)
      ensures r.Some? <==> nit in table.rows
      ensures r.Some? ==> fresh(r.value) && r.value.Snapshot() == table.rows[nit]
    {
      if nit !in table.rows {
        return None;
      }
      var rec := table.rows[nit];
      var e := new Empresa.Init(rec.nit, rec.nombre, rec.direccion, rec.telefono,
                                rec.createdAt, rec.updatedAt, rec.createdById);
      return Some(e);
    }

    predicate Exists(nit: string)
      reads this
    {
      nit in table.rows
    }

    function FindAll(limit: nat, offset: nat): (r: seq<EmpresaRec>)
      reads this
      requires Invariant()
      ensures |r| == if offset >= |table.order| then 0 else Min(limit, |table.order| - offset)
      ensures forall x :: x in r ==> x in table.rows.Values
    {
      ListAll(table, limit, offset)
    }

    function SearchByNombre(nombre: string): (r: seq<EmpresaRec>)
      reads this
      requires Invariant()
      ensures forall e :: e in r <==> e in table.rows.Values && ContainsIgnoreCase(e.nombre, nombre)
      ensures Subsequence(r, Values(table))
    {
      NameMatches(table, nombre)
    }

    method Delete(nit: string) returns (removed: bool)
      requires Invariant()
      modifies this
      ensures Invariant()
      ensures (removed, table) == Deleted(old(table), nit)
    {
      removed := nit in table.rows;
      table := Remove(table, nit);
    }
  }
}
