/**
 * The stock repository contract (IInventarioRepository) as an in-memory
 * store of records by surrogate id, with at most one record per (company,
 * product) pair, the uniqueness the persistence layer enforces.
 */
module InventarioRepo {
  import opened Wrappers
  import opened ValueObjects
  import opened InventarioEntity
  import opened Tables

  /** The records by id, and the next id to hand out; ids start at 1. */
  datatype InventarioStore = InventarioStore(table: Table<nat, InventarioRec>, nextId: nat)

  /** The record is the stock of the company and product with these texts. */
  predicate HasPair(r: InventarioRec, nit: string, codigo: string) {
    r.empresaNit.value == nit && r.productoCodigo.value == codigo
  }

  /**
   * Ids are below `nextId`, every record carries its own id, and no two
   * records share a pair.
   */
  predicate Keyed(s: InventarioStore) {
    && Valid(s.table)
    && 1 <= s.nextId
    && (forall k :: k in s.table.rows ==> 1 <= k < s.nextId && s.table.rows[k].id == Some(k))
    && (forall j, k :: j in s.table.rows && k in s.table.rows
          && HasPair(s.table.rows[k], s.table.rows[j].empresaNit.value, s.table.rows[j].productoCodigo.value)
          ==> j == k)
  }

  function EmptyStore(): (s: InventarioStore)
    ensures Keyed(s) && s.table.rows == map[]
  {
    InventarioStore(Empty(), 1)
  }

  /** The first key of `order` whose record has the pair. */
  function FindIn(order: seq<nat>, rows: map<nat, InventarioRec>, nit: string, codigo: string): (r: Option<nat>)
    ensures r.Some? ==> r.value in rows && HasPair(rows[r.value], nit, codigo)
    ensures r.None? ==> forall k :: k in order && k in rows ==> !HasPair(rows[k], nit, codigo)
  {
    if order == [] then None
    else if order[0] in rows && HasPair(rows[order[0]], nit, codigo) then Some(order[0])
    else FindIn(order[1..], rows, nit, codigo)
  }

  /**
   * `find_by_empresa_and_producto(nit, codigo)`: the id of the one record for
   * the pair, if there is one.
   */
  function FindPair(s: InventarioStore, nit: string, codigo: string): (r: Option<nat>)
    requires Keyed(s)
    ensures r.None? <==> forall k :: k in s.table.rows ==> !HasPair(s.table.rows[k], nit, codigo)
    ensures r.Some? ==> r.value in s.table.rows && HasPair(s.table.rows[r.value], nit, codigo)
    ensures r.Some? ==> forall k :: k in s.table.rows && HasPair(s.table.rows[k], nit, codigo) ==> k == r.value
  {
    FindIn(s.table.order, s.table.rows, nit, codigo)
  }

  /** `inventario.id` is truthy and names a stored record. */
  predicate NamesRow(s: InventarioStore, inv: InventarioRec) {
    inv.id.Some? && inv.id.value != 0 && inv.id.value in s.table.rows
  }

  /**
   * What the pair uniqueness demands of a save: a record saved under an
   * existing id must not take the pair of another record.
   */
  predicate SaveAllowed(s: InventarioStore, inv: InventarioRec) {
    NamesRow(s, inv) ==>
      forall k :: k in s.table.rows && HasPair(s.table.rows[k], inv.empresaNit.value, inv.productoCodigo.value)
        ==> k == inv.id.value
  }

  /**
   * `row` is what a save of `inv` stored into `s`, giving `after`: a record
   * with the entity's pair, quantity and update time under an id of its own,
   * every other record untouched.
   */
  predicate StoredAs(s: InventarioStore, inv: InventarioRec, row: InventarioRec, after: InventarioStore) {
    && Keyed(after)
    && row.id.Some? && row.id.value in after.table.rows && after.table.rows[row.id.value] == row
    && HasPair(row, inv.empresaNit.value, inv.productoCodigo.value)
    && row.cantidad == inv.cantidad && row.updatedAt == inv.updatedAt
    && after.table.rows.Keys == s.table.rows.Keys + {row.id.value}
    && (forall k :: k in s.table.rows && k != row.id.value ==> after.table.rows[k] == s.table.rows[k])
  }

  /** Saving under an existing id: the record takes the entity's pair, quantity and update time. */
  function SavedById(s: InventarioStore, inv: InventarioRec): (r: (InventarioRec, InventarioStore))
    requires Keyed(s) && NamesRow(s, inv) && SaveAllowed(s, inv)
    ensures StoredAs(s, inv, r.0, r.1) && r.0.id == inv.id
    ensures r.0.createdAt == s.table.rows[inv.id.value].createdAt
  {
    var k := inv.id.value;
    var row := s.table.rows[k].(empresaNit := inv.empresaNit, productoCodigo := inv.productoCodigo,
                                cantidad := inv.cantidad, updatedAt := inv.updatedAt);
    UpsertKeepsKeyed(s, k, row);
    (row, s.(table := Upsert(s.table, k, row)))
  }

  /** Saving onto the record that already holds the pair: it takes the quantity and update time. */
  function SavedByPair(s: InventarioStore, inv: InventarioRec, k: nat): (r: (InventarioRec, InventarioStore))
    requires Keyed(s) && FindPair(s, inv.empresaNit.value, inv.productoCodigo.value) == Some(k)
    ensures StoredAs(s, inv, r.0, r.1) && r.0.id == Some(k)
    ensures r.0.createdAt == s.table.rows[k].createdAt
  {
    var row := s.table.rows[k].(cantidad := inv.cantidad, updatedAt := inv.updatedAt);
    UpsertKeepsKeyed(s, k, row);
    (row, s.(table := Upsert(s.table, k, row)))
  }

  /** Saving a record for a pair with none yet: the entity is stored under the next id. */
  function SavedNew(s: InventarioStore, inv: InventarioRec): (r: (InventarioRec, InventarioStore))
    requires Keyed(s) && FindPair(s, inv.empresaNit.value, inv.productoCodigo.value).None?
    ensures StoredAs(s, inv, r.0, r.1)
    ensures r.0 == inv.(id := Some(s.nextId)) && r.1.nextId == s.nextId + 1
  {
    var row := inv.(id := Some(s.nextId));
    var grown := s.(nextId := s.nextId + 1);
    UpsertKeepsKeyed(grown, s.nextId, row);
    (row, grown.(table := Upsert(s.table, s.nextId, row)))
  }

  /**
   * `save(inventario)`: under an existing id, else onto the record holding
   * the pair, else as a new record. Returns the stored record.
   */
  function Saved(s: InventarioStore, inv: InventarioRec): (r: (InventarioRec, InventarioStore))
    requires Keyed(s) && SaveAllowed(s, inv)
    ensures StoredAs(s, inv, r.0, r.1)
    ensures FindPair(r.1, inv.empresaNit.value, inv.productoCodigo.value) == r.0.id
    ensures NamesRow(s, inv) ==> r == SavedById(s, inv)
    ensures !NamesRow(s, inv) ==>
              match FindPair(s, inv.empresaNit.value, inv.productoCodigo.value)
              case Some(k) => r == SavedByPair(s, inv, k)
              case None => r == SavedNew(s, inv)
  {
    var r := if NamesRow(s, inv) then SavedById(s, inv)
             else
               match FindPair(s, inv.empresaNit.value, inv.productoCodigo.value)
               case Some(k) => SavedByPair(s, inv, k)
               case None => SavedNew(s, inv);
    StoredIsFound(s, inv, r.0, r.1);
    r
  }

  /** After a save, looking the pair up finds the stored record. */
  lemma StoredIsFound(s: InventarioStore, inv: InventarioRec, row: InventarioRec, after: InventarioStore)
    requires StoredAs(s, inv, row, after)
    ensures FindPair(after, inv.empresaNit.value, inv.productoCodigo.value) == row.id
  {
  }

  /** Storing a record under its own id keeps the store keyed when no other record has its pair. */
  lemma UpsertKeepsKeyed(s: InventarioStore, k: nat, row: InventarioRec)
    requires Valid(s.table) && 1 <= s.nextId
    requires forall j :: j in s.table.rows ==> 1 <= j < s.nextId && s.table.rows[j].id == Some(j)
    requires forall i, j :: i in s.table.rows && j in s.table.rows
               && HasPair(s.table.rows[j], s.table.rows[i].empresaNit.value, s.table.rows[i].productoCodigo.value)
               ==> i == j
    requires 1 <= k < s.nextId && row.id == Some(k)
    requires forall j :: j in s.table.rows && HasPair(s.table.rows[j], row.empresaNit.value, row.productoCodigo.value) ==> j == k
    ensures Keyed(s.(table := Upsert(s.table, k, row)))
  {
  }

  /** `delete(id)`: whether a record was removed, and the store without it. */
  function Deleted(s: InventarioStore, id: nat): (r: (bool, InventarioStore))
    requires Keyed(s)
    ensures Keyed(r.1)
    ensures r.0 <==> id in s.table.rows
    ensures r.1.table.rows == s.table.rows - {id} && r.1.nextId == s.nextId
  {
    (id in s.table.rows, s.(table := Remove(s.table, id)))
  }

  /** `find_all(limit, offset)`: one page of the records, newest first. */
  function ListAll(s: InventarioStore, limit: nat, offset: nat): (r: seq<InventarioRec>)
    requires Keyed(s)
    ensures |r| <= limit
    ensures |r| == if offset >= |s.table.order| then 0 else Min(limit, |s.table.order| - offset)
    ensures forall i :: 0 <= i < |r| ==> offset + i < |s.table.order| && r[i] == s.table.rows[s.table.order[offset + i]]
    ensures forall x :: x in r ==> x in s.table.rows.Values
  {
    InValues(s.table);
    Page(Values(s.table), limit, offset)
  }

  /** Reading a page of `a` and then the next page of `b` lists what one page of `a + b` lists. */
  lemma NextPageFollows(s: InventarioStore, a: nat, b: nat, offset: nat)
    requires Keyed(s)
    ensures ListAll(s, a, offset) + ListAll(s, b, offset + a) == ListAll(s, a + b, offset)
  {
    PagesAdjoin(Values(s.table), a, b, offset);
  }

  /** The stored records that satisfy `f`. */
  function Where(s: InventarioStore, f: InventarioRec -> bool): (r: seq<InventarioRec>)
    requires Keyed(s)
    ensures forall x :: x in r <==> x in s.table.rows.Values && f(x)
    ensures Subsequence(r, Values(s.table))
  {
    InValues(s.table);
    forall x
      ensures x in Filter(Values(s.table), f) <==> x in Values(s.table) && f(x)
    {
      InFilter(Values(s.table), f, x);
    }
    Filter(Values(s.table), f)
  }

  /** `find_by_empresa(nit)`: the stock records of the company with that NIT text. */
  function OfEmpresa(s: InventarioStore, nit: string): (r: seq<InventarioRec>)
    requires Keyed(s)
    ensures forall x :: x in r <==> x in s.table.rows.Values && x.empresaNit.value == nit
    ensures Subsequence(r, Values(s.table))
  {
    Where(s, (x: InventarioRec) => x.empresaNit.value == nit)
  }

  /** `find_low_stock(threshold)`: the records with at most `threshold` units. */
  function LowStock(s: InventarioStore, threshold: int): (r: seq<InventarioRec>)
    requires Keyed(s)
    ensures forall x :: x in r <==> x in s.table.rows.Values && x.cantidad.value <= threshold
    ensures Subsequence(r, Values(s.table))
  {
    Where(s, (x: InventarioRec) => x.cantidad.value <= threshold)
  }

  /**
   * The query is not the entity's `is_low_stock`: it includes the records at
   * the threshold, so it agrees with `is_low_stock(threshold + 1)` instead.
   */
  lemma LowStockIsStrictBelowNext(s: InventarioStore, threshold: int)
    requires Keyed(s)
    ensures forall x :: x in LowStock(s, threshold) <==> x in s.table.rows.Values && IsLowStock(x, threshold + 1)
  {
  }

  /** At the default threshold a record with exactly 10 units is listed but is not low on stock. */
  lemma LowStockDisagreesAtDefault(s: InventarioStore, k: nat)
    requires Keyed(s) && k in s.table.rows && s.table.rows[k].cantidad.value == DefaultThreshold
    ensures s.table.rows[k] in LowStock(s, DefaultThreshold)
    ensures !IsLowStock(s.table.rows[k], DefaultThreshold)
  {
  }

  /** Saving the record a save returned changes nothing more. */
  lemma SaveAgainIsNoOp(s: InventarioStore, inv: InventarioRec)
    requires Keyed(s) && SaveAllowed(s, inv)
    ensures var (row, after) := Saved(s, inv);
            SaveAllowed(after, row) && Saved(after, row) == (row, after)
  {
    var (row, after) := Saved(s, inv);
    assert NamesRow(after, row);
    assert after.table.rows[row.id.value := row] == after.table.rows;
  }

  /**
   * Saving a loaded record again, with its id, pair and creation time kept,
   * is allowed and replaces that record in place.
   */
  lemma SaveOwnRow(s: InventarioStore, k: nat, row: InventarioRec)
    requires Keyed(s) && k in s.table.rows && row.id == Some(k)
    requires HasPair(row, s.table.rows[k].empresaNit.value, s.table.rows[k].productoCodigo.value)
    requires row.createdAt == s.table.rows[k].createdAt
    ensures SaveAllowed(s, row)
    ensures Saved(s, row).0 == row
    ensures Saved(s, row).1 == s.(table := Table(s.table.rows[k := row], s.table.order))
  {
  }

  /** A repository object over the store. */
  class InventarioRepository {
    var store: InventarioStore

    predicate Invariant()
      reads this
    {
      Keyed(store)
    }

    constructor ()
      ensures Invariant() && store == EmptyStore()
    {
      store := EmptyStore();
    }

    method Save(inv: Inventario) returns (saved: InventarioRec)
      requires Invariant() && SaveAllowed(store, inv.Snapshot())
      modifies this
      ensures Invariant()
      ensures (saved, store) == Saved(old(store), inv.Snapshot())
    {
      var r := Saved(store, inv.Snapshot());
      saved, store := r.0, r.1;
    }

    /** A fresh entity holding the stored record `id`. */
    method Load(id: nat) returns (inv: Inventario)
      requires id in store.table.rows
      ensures fresh(inv) && inv.Snapshot() == store.table.rows[id]
    {
      var rec := store.table.rows[id];
      inv := new Inventario(rec.id, rec.empresaNit, rec.productoCodigo, rec.cantidad, rec.createdAt, rec.updatedAt);
    }

    /** `find_by_id(id)`. */
    method FindById(id: nat) returns (r: Option<Inventario>)
      ensures r.Some? <==> id in store.table.rows
      ensures r.Some? ==> fresh(r.value) && r.value.Snapshot() == store.table.rows[id]
    {
      if id !in store.table.rows {
        return None;
      }
      var inv := Load(id);
      return Some(inv);
    }

    /** `find_by_empresa_and_producto(nit, codigo)`. */
    method FindByEmpresaAndProducto(nit: string, codigo: string) returns (r: Option<Inventario>)
      requires Invariant()
      ensures r.Some? <==> FindPair(store, nit, codigo).Some?
      ensures r.Some? ==> fresh(r.value) && r.value.Snapshot() == store.table.rows[FindPair(store, nit, codigo).value]
    {
      var k := FindPair(store, nit, codigo);
      if k.None? {
        return None;
      }
      var inv := Load(k.value);
      return Some(inv);
    }

    function FindAll(limit: nat, offset: nat): (r: seq<InventarioRec>)
      reads this
      requires Invariant()
      ensures |r| == if offset >= |store.table.order| then 0 else Min(limit, |store.table.order| - offset)
      ensures forall x :: x in r ==> x in store.table.rows.Values
    {
      ListAll(store, limit, offset)
    }

    function FindByEmpresa(nit: string): (r: seq<InventarioRec>)
      reads this
      requires Invariant()
      ensures forall x :: x in r <==> x in store.table.rows.Values && x.empresaNit.value == nit
      ensures Subsequence(r, Values(store.table))
    {
      OfEmpresa(store, nit)
    }

    function FindLowStock(threshold: int): (r: seq<InventarioRec>)
      reads this
      requires Invariant()
      ensures forall x :: x in r <==> x in store.table.rows.Values && x.cantidad.value <= threshold
      ensures Subsequence(r, Values(store.table))
    {
      LowStock(store, threshold)
    }

    predicate Exists(nit: string, codigo: string)
      reads this
      requires Invariant()
    {
      FindPair(store, nit, codigo).Some?
    }

    method Delete(id: nat) returns (removed: bool)
      requires Invariant()
      modifies this
      ensures Invariant()
      ensures (removed, store) == Deleted(old(store), id)
    {
      var r := Deleted(store, id);
      removed, store := r.0, r.1;
    }
  }
}
