/**
 * The stock use cases: create-or-update, get, add stock, remove stock,
 * delete and the low-stock query. As for companies and products, each is a
 * specification function over the stores and a class whose `Execute` makes
 * the repository and entity calls in the same order.
 */
module InventarioUseCases {
  import opened Wrappers
  import opened Clock
  import opened Exceptions
  import opened ValueObjects
  import opened InventarioEntity
  import opened Tables
  import EmpresaRepo
  import ProductoRepo
  import opened InventarioRepo

  /**
   * CreateOrUpdateInventarioUseCase: the company must exist, then the
   * product. When the pair already has a record, its quantity is overwritten
   * with `Quantity(cantidad)`; otherwise a new record is built from the two
   * texts and that quantity. The record is then saved. Nothing is saved on
   * any error.
   */
  function CreateOrUpdate(it: InventarioStore, et: EmpresaRepo.EmpresaTable, pt: ProductoRepo.ProductoTable,
                          nit: string, codigo: string, cantidad: int,
                          now: Instant): (e: Effect<InventarioRec, InventarioStore>)
    requires Keyed(it) && EmpresaRepo.Keyed(et) && ProductoRepo.Keyed(pt)
    ensures Keyed(e.store)
    ensures e.result.Err? ==> e.store == it
    ensures nit !in et.rows ==> e.result == Err(EntityNotFoundError(EmpresaKind))
    ensures nit in et.rows && codigo !in pt.rows ==> e.result == Err(EntityNotFoundError(ProductoKind))
    ensures nit in et.rows && codigo in pt.rows && cantidad < 0 ==> e.result == Err(ValidationError(NegativeQuantity))
    ensures e.result.Ok? <==> nit in et.rows && codigo in pt.rows && cantidad >= 0
    ensures e.result.Ok? ==> StoredAs(it, e.result.value, e.result.value, e.store)
    ensures e.result.Ok? ==>
              && HasPair(e.result.value, nit, codigo)
              && e.result.value.cantidad.value == cantidad
              && e.result.value.updatedAt == now
              && FindPair(e.store, nit, codigo) == e.result.value.id
    ensures e.result.Ok? && FindPair(it, nit, codigo).Some? ==>
              var k := FindPair(it, nit, codigo).value;
              e.result.value == UpdatedStock(it.table.rows[k], Quantity(cantidad), now)
              && e.store.table.rows == it.table.rows[k := e.result.value]
    ensures e.result.Ok? && FindPair(it, nit, codigo).None? ==>
              && e.result.value.id == Some(it.nextId)
              && e.result.value.createdAt == now
              && e.store.table.rows.Keys == it.table.rows.Keys + {it.nextId}
  {
    if nit !in et.rows then Effect(Err(EntityNotFoundError(EmpresaKind)), it)
    else if codigo !in pt.rows then Effect(Err(EntityNotFoundError(ProductoKind)), it)
    else
      match FindPair(it, nit, codigo)
      case Some(k) =>
        (match MakeQuantity(cantidad)
         case Err(x) => Effect(Err(x), it)
         case Ok(q) =>
           var row := UpdatedStock(it.table.rows[k], q, now);
           SaveOwnRow(it, k, row);
           var (saved, after) := Saved(it, row);
           Effect(Ok(saved), after))
      case None =>
        EmpresaRepo.StoredNitIsValid(et, nit);
        ProductoRepo.StoredCodeIsValid(pt, codigo);
        var n := MakeNit(nit).value;
        var c := MakeProductCode(codigo).value;
        match MakeQuantity(cantidad)
        case Err(x) => Effect(Err(x), it)
        case Ok(q) =>
          var (saved, after) := Saved(it, InventarioRec(None, n, c, q, now, now));
          Effect(Ok(saved), after)
  }

  /** The company is checked before the product. */
  lemma EmpresaCheckedFirst(it: InventarioStore, et: EmpresaRepo.EmpresaTable, pt: ProductoRepo.ProductoTable,
                            nit: string, codigo: string, cantidad: int, now: Instant)
    requires Keyed(it) && EmpresaRepo.Keyed(et) && ProductoRepo.Keyed(pt)
    requires nit !in et.rows && codigo !in pt.rows
    ensures CreateOrUpdate(it, et, pt, nit, codigo, cantidad, now).result == Err(EntityNotFoundError(EmpresaKind))
  {
  }

  /**
   * Calling the use case again for the same pair overwrites the quantity
   * rather than adding to it, and keeps a single record: the second call
   * stores no new key.
   */
  lemma SecondCallOverwrites(it: InventarioStore, et: EmpresaRepo.EmpresaTable, pt: ProductoRepo.ProductoTable,
                             nit: string, codigo: string, a: int, b: int, t1: Instant, t2: Instant)
    requires Keyed(it) && EmpresaRepo.Keyed(et) && ProductoRepo.Keyed(pt)
    requires nit in et.rows && codigo in pt.rows && a >= 0 && b >= 0
    ensures var first := CreateOrUpdate(it, et, pt, nit, codigo, a, t1);
            var second := CreateOrUpdate(first.store, et, pt, nit, codigo, b, t2);
            && second.result.Ok?
            && second.result.value.cantidad.value == b
            && second.result.value.id == first.result.value.id
            && second.result.value.createdAt == first.result.value.createdAt
            && second.store.table.rows.Keys == first.store.table.rows.Keys
  {
    var first := CreateOrUpdate(it, et, pt, nit, codigo, a, t1);
    assert FindPair(first.store, nit, codigo) == first.result.value.id;
  }

  /** After a successful call the pair has exactly one record, the one returned. */
  lemma OneRecordPerPair(it: InventarioStore, et: EmpresaRepo.EmpresaTable, pt: ProductoRepo.ProductoTable,
                         nit: string, codigo: string, cantidad: int, now: Instant)
    requires Keyed(it) && EmpresaRepo.Keyed(et) && ProductoRepo.Keyed(pt)
    ensures var e := CreateOrUpdate(it, et, pt, nit, codigo, cantidad, now);
            e.result.Ok? ==>
              forall k :: k in e.store.table.rows && HasPair(e.store.table.rows[k], nit, codigo) ==>
                            Some(k) == e.result.value.id
  {
  }

  /**
   * GetInventarioUseCase: the records of the company for a non-empty NIT,
   * otherwise the first page of `find_all` with its default size of 100.
   */
  function GetInventario(it: InventarioStore, nit: Option<string>): (r: seq<InventarioRec>)
    requires Keyed(it)
    ensures Truthy(nit) ==> forall x :: x in r <==> x in it.table.rows.Values && x.empresaNit.value == nit.value
    ensures Truthy(nit) ==> Subsequence(r, Values(it.table))
    ensures !Truthy(nit) ==> r == ListAll(it, 100, 0) && |r| == Min(100, |it.table.order|)
    ensures !Truthy(nit) ==> forall i :: 0 <= i < |r| ==> r[i] == it.table.rows[it.table.order[i]]
  {
    if Truthy(nit) then OfEmpresa(it, nit.value) else ListAll(it, 100, 0)
  }

  /** With no filter and at most 100 records, every record is listed. */
  lemma SmallInventoryListedWhole(it: InventarioStore)
    requires Keyed(it) && |it.table.order| <= 100
    ensures forall x :: x in GetInventario(it, None) <==> x in it.table.rows.Values
  {
    var r := GetInventario(it, None);
    assert |r| == |it.table.order|;
    forall x | x in it.table.rows.Values
      ensures x in r
    {
      var k :| k in it.table.rows && it.table.rows[k] == x;
      var i :| 0 <= i < |it.table.order| && it.table.order[i] == k;
      assert r[i] == x;
    }
  }

  /**
   * AddStockUseCase: EntityNotFoundError for an unknown id, then
   * `Quantity(cantidad)`, then `add_stock` and save.
   */
  function AddStock(it: InventarioStore, id: nat, cantidad: int, now: Instant): (e: Effect<InventarioRec, InventarioStore>)
    requires Keyed(it)
    ensures Keyed(e.store)
    ensures e.result.Err? ==> e.store == it
    ensures id !in it.table.rows ==> e.result == Err(EntityNotFoundError(InventarioKind))
    ensures id in it.table.rows && cantidad < 0 ==> e.result == Err(ValidationError(NegativeQuantity))
    ensures e.result.Ok? <==> id in it.table.rows && cantidad >= 0
    ensures e.result.Ok? ==>
              && e.result.value == AddedStock(it.table.rows[id], Quantity(cantidad), now)
              && e.result.value.cantidad.value == it.table.rows[id].cantidad.value + cantidad
              && e.store == it.(table := Table(it.table.rows[id := e.result.value], it.table.order))
  {
    if id !in it.table.rows then Effect(Err(EntityNotFoundError(InventarioKind)), it)
    else
      match MakeQuantity(cantidad)
      case Err(x) => Effect(Err(x), it)
      case Ok(q) =>
        var row := AddedStock(it.table.rows[id], q, now);
        SaveOwnRow(it, id, row);
        var (saved, after) := Saved(it, row);
        Effect(Ok(saved), after)
  }

  /**
   * RemoveStockUseCase: EntityNotFoundError for an unknown id, then
   * `Quantity(cantidad)`, then `remove_stock`, which raises
   * InsufficientStockError with both amounts when the stock is short; the
   * reduced record is saved.
   */
  function RemoveStock(it: InventarioStore, id: nat, cantidad: int, now: Instant): (e: Effect<InventarioRec, InventarioStore>)
    requires Keyed(it)
    ensures Keyed(e.store)
    ensures e.result.Err? ==> e.store == it
    ensures id !in it.table.rows ==> e.result == Err(EntityNotFoundError(InventarioKind))
    ensures id in it.table.rows && cantidad < 0 ==> e.result == Err(ValidationError(NegativeQuantity))
    ensures id in it.table.rows && 0 <= cantidad && it.table.rows[id].cantidad.value < cantidad ==>
              e.result == Err(InsufficientStockError(it.table.rows[id].cantidad.value, cantidad))
    ensures e.result.Ok? <==> id in it.table.rows && 0 <= cantidad <= it.table.rows[id].cantidad.value
    ensures e.result.Ok? ==>
              && e.result.value.cantidad.value == it.table.rows[id].cantidad.value - cantidad
              && e.result.value == it.table.rows[id].(cantidad := e.result.value.cantidad, updatedAt := now)
              && e.store == it.(table := Table(it.table.rows[id := e.result.value], it.table.order))
  {
    if id !in it.table.rows then Effect(Err(EntityNotFoundError(InventarioKind)), it)
    else
      match MakeQuantity(cantidad)
      case Err(x) => Effect(Err(x), it)
      case Ok(q) =>
        match RemovedStock(it.table.rows[id], q, now)
        case Err(x) => Effect(Err(x), it)
        case Ok(row) =>
          SaveOwnRow(it, id, row);
          var (saved, after) := Saved(it, row);
          Effect(Ok(saved), after)
  }

  /** Removing what was just added gives the stock back its quantity, under the same id. */
  lemma RemoveAfterAddRestores(it: InventarioStore, id: nat, cantidad: nat, t1: Instant, t2: Instant)
    requires Keyed(it) && id in it.table.rows
    ensures var added := AddStock(it, id, cantidad, t1);
            var removed := RemoveStock(added.store, id, cantidad, t2);
            && removed.result == Ok(it.table.rows[id].(updatedAt := t2))
            && removed.store.table.rows == it.table.rows[id := it.table.rows[id].(updatedAt := t2)]
  {
    RemoveUndoesAdd(it.table.rows[id], Quantity(cantidad), t1, t2);
  }

  /** A removal of more than the stock changes nothing, and a removal of all of it leaves the record out of stock. */
  lemma RemoveBounds(it: InventarioStore, id: nat, now: Instant)
    requires Keyed(it) && id in it.table.rows
    ensures var n := it.table.rows[id].cantidad.value;
            && RemoveStock(it, id, n + 1, now).store == it
            && RemoveStock(it, id, n, now).result.Ok?
            && IsOutOfStock(RemoveStock(it, id, n, now).result.value)
  {
  }

  /** DeleteInventarioUseCase: EntityNotFoundError for an unknown id, then the repository's `delete`. */
  function DeleteInventario(it: InventarioStore, id: nat): (e: Effect<bool, InventarioStore>)
    requires Keyed(it)
    ensures Keyed(e.store)
    ensures e.result.Ok? <==> id in it.table.rows
    ensures e.result.Err? ==> e.store == it && e.result.error == EntityNotFoundError(InventarioKind)
    ensures e.result.Ok? ==> e.result.value && e.store.table.rows == it.table.rows - {id}
  {
    if id !in it.table.rows then Effect(Err(EntityNotFoundError(InventarioKind)), it)
    else
      var (removed, after) := Deleted(it, id);
      Effect(Ok(removed), after)
  }

  /** GetLowStockItemsUseCase: the repository's `find_low_stock`, at most `threshold` units. */
  function GetLowStockItems(it: InventarioStore, threshold: int): (r: seq<InventarioRec>)
    requires Keyed(it)
    ensures forall x :: x in r <==> x in it.table.rows.Values && x.cantidad.value <= threshold
    ensures Subsequence(r, Values(it.table))
  {
    LowStock(it, threshold)
  }

  /** Every out-of-stock record is among the low-stock items, whatever non-negative threshold is used. */
  lemma OutOfStockIsListed(it: InventarioStore, threshold: nat)
    requires Keyed(it)
    ensures forall x :: x in it.table.rows.Values && IsOutOfStock(x) ==> x in GetLowStockItems(it, threshold)
  {
  }

  class CreateOrUpdateInventarioUseCase {
    const inventarioRepository: InventarioRepository
    const empresaRepository: EmpresaRepo.EmpresaRepository
    const productoRepository: ProductoRepo.ProductoRepository

    constructor (inventarioRepository: InventarioRepository, empresaRepository: EmpresaRepo.EmpresaRepository,
                 productoRepository: ProductoRepo.ProductoRepository)
      ensures this.inventarioRepository == inventarioRepository
      ensures this.empresaRepository == empresaRepository && this.productoRepository == productoRepository
    {
      this.inventarioRepository := inventarioRepository;
      this.empresaRepository := empresaRepository;
      this.productoRepository := productoRepository;
    }

    method Execute(nit: string, codigo: string, cantidad: int, now: Instant) returns (r: Result<InventarioRec>)
      requires inventarioRepository.Invariant() && empresaRepository.Invariant() && productoRepository.Invariant()
      modifies inventarioRepository
      ensures inventarioRepository.Invariant()
      ensures Effect(r, inventarioRepository.store)
              == CreateOrUpdate(old(inventarioRepository.store), empresaRepository.table, productoRepository.table,
                                nit, codigo, cantidad, now)
    {
      if !empresaRepository.Exists(nit) {
        return Err(EntityNotFoundError(EmpresaKind));
      }
      if !productoRepository.Exists(codigo) {
        return Err(EntityNotFoundError(ProductoKind));
      }
      var found := inventarioRepository.FindByEmpresaAndProducto(nit, codigo);
      var inventario: Inventario;
      if found.Some? {
        inventario := found.value;
        var q := MakeQuantity(cantidad);
        if q.Err? {
          return Err(q.error);
        }
        inventario.UpdateStock(q.value, now);
        SaveOwnRow(inventarioRepository.store, FindPair(inventarioRepository.store, nit, codigo).value,
                   inventario.Snapshot());
      } else {
        // Both texts are stored keys, so `NIT(...)` and `ProductCode(...)` cannot fail.
        EmpresaRepo.StoredNitIsValid(empresaRepository.table, nit);
        ProductoRepo.StoredCodeIsValid(productoRepository.table, codigo);
        var n := MakeNit(nit).value;
        var c := MakeProductCode(codigo).value;
        var q := MakeQuantity(cantidad);
        if q.Err? {
          return Err(q.error);
        }
        inventario := new Inventario(None, n, c, q.value, now, now);
      }
      var saved := inventarioRepository.Save(inventario);
      return Ok(saved);
    }
  }

  class GetInventarioUseCase {
    const repository: InventarioRepository

    constructor (repository: InventarioRepository)
      ensures this.repository == repository
    {
      this.repository := repository;
    }

    method Execute(nit: Option<string>) returns (r: seq<InventarioRec>)
      requires repository.Invariant()
      ensures r == GetInventario(repository.store, nit)
    {
      if Truthy(nit) {
        return repository.FindByEmpresa(nit.value);
      }
      return repository.FindAll(100, 0);
    }
  }

  class AddStockUseCase {
    const repository: InventarioRepository

    constructor (repository: InventarioRepository)
      ensures this.repository == repository
    {
      this.repository := repository;
    }

    method Execute(id: nat, cantidad: int, now: Instant) returns (r: Result<InventarioRec>)
      requires repository.Invariant()
      modifies repository
      ensures repository.Invariant()
      ensures Effect(r, repository.store) == AddStock(old(repository.store), id, cantidad, now)
    {
      var found := repository.FindById(id);
      if found.None? {
        return Err(EntityNotFoundError(InventarioKind));
      }
      var inventario := found.value;
      var q := MakeQuantity(cantidad);
      if q.Err? {
        return Err(q.error);
      }
      inventario.AddStock(q.value, now);
      SaveOwnRow(repository.store, id, inventario.Snapshot());
      var saved := repository.Save(inventario);
      return Ok(saved);
    }
  }

  class RemoveStockUseCase {
    const repository: InventarioRepository

    constructor (repository: InventarioRepository)
      ensures this.repository == repository
    {
      this.repository := repository;
    }

    method Execute(id: nat, cantidad: int, now: Instant) returns (r: Result<InventarioRec>)
      requires repository.Invariant()
      modifies repository
      ensures repository.Invariant()
      ensures Effect(r, repository.store) == RemoveStock(old(repository.store), id, cantidad, now)
    {
      var found := repository.FindById(id);
      if found.None? {
        return Err(EntityNotFoundError(InventarioKind));
      }
      var inventario := found.value;
      var q := MakeQuantity(cantidad);
      if q.Err? {
        return Err(q.error);
      }
      var o := inventario.RemoveStock(q.value, now);
      if o.Fail? {
        return Err(o.error);
      }
      SaveOwnRow(repository.store, id, inventario.Snapshot());
      var saved := repository.Save(inventario);
      return Ok(saved);
    }
  }

  class DeleteInventarioUseCase {
    const repository: InventarioRepository

    constructor (repository: InventarioRepository)
      ensures this.repository == repository
    {
      this.repository := repository;
    }

    method Execute(id: nat) returns (r: Result<bool>)
      requires repository.Invariant()
      modifies repository
      ensures repository.Invariant()
      ensures Effect(r, repository.store) == DeleteInventario(old(repository.store), id)
    {
      var found := repository.FindById(id);
      if found.None? {
        return Err(EntityNotFoundError(InventarioKind));
      }
      var removed := repository.Delete(id);
      return Ok(removed);
    }
  }

  class GetLowStockItemsUseCase {
    const repository: InventarioRepository

    constructor (repository: InventarioRepository)
      ensures this.repository == repository
    {
      this.repository := repository;
    }

    /** `threshold` defaults to DefaultThreshold in the source. */
    method Execute(threshold: int) returns (r: seq<InventarioRec>)
      requires repository.Invariant()
      ensures r == GetLowStockItems(repository.store, threshold)
    {
      return repository.FindLowStock(threshold);
    }
  }
}
