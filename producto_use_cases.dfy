/**
 * The product use cases: create, get, list, update and delete. As for
 * companies, each is a specification function over the stores and a class
 * whose `Execute` makes the repository calls in the same order.
 */
module ProductoUseCases {
  import opened Wrappers
  import opened Clock
  import opened Text
  import opened Exceptions
  import opened ValueObjects
  import opened ProductoEntity
  import opened Tables
  import EmpresaRepo
  import opened ProductoRepo

  /**
   * CreateProductoUseCase: a duplicate code first, then a missing company;
   * then `ProductCode(codigo)`, `NIT(empresa_nit)` and the entity's own
   * validation; the validated product is saved. Nothing is saved on any
   * error, and the company store is only read.
   */
  function CreateProducto(pt: ProductoTable, et: EmpresaRepo.EmpresaTable, codigo: string, nombre: string,
                          empresaNit: string, caracteristicas: Option<string>, userId: string,
                          now: Instant): (e: Effect<ProductoRec, ProductoTable>)
    requires Keyed(pt) && EmpresaRepo.Keyed(et)
    ensures Keyed(e.store)
    ensures e.result.Err? ==> e.store == pt
    ensures codigo in pt.rows ==> e.result == Err(DuplicateEntityError(ProductoKind))
    ensures codigo !in pt.rows && empresaNit !in et.rows ==> e.result == Err(EntityNotFoundError(EmpresaKind))
    ensures codigo !in pt.rows && empresaNit in et.rows && !IsCodeText(codigo) ==>
              e.result == Err(MakeProductCode(codigo).error)
    ensures codigo !in pt.rows && empresaNit in et.rows && IsCodeText(codigo) && |Strip(nombre)| < 2 ==>
              e.result == Err(ValidationError(ProductoNombreTooShort))
    ensures e.result.Ok? <==>
              codigo !in pt.rows && empresaNit in et.rows && IsCodeText(codigo) && |Strip(nombre)| >= 2
    ensures e.result.Ok? ==> e.store == Saved(pt, e.result.value) && |e.store.order| == |pt.order| + 1
    ensures e.result.Ok? ==>
              && e.result.value.codigo.value == codigo
              && e.result.value.empresaNit == et.rows[empresaNit].nit
              && e.result.value.nombre == Strip(nombre)
              && e.result.value.caracteristicas == StrippedOption(caracteristicas)
              && e.result.value.createdAt == now && e.result.value.updatedAt == now
              && e.result.value.createdById == Some(userId)
  {
    if codigo in pt.rows then Effect(Err(DuplicateEntityError(ProductoKind)), pt)
    else if empresaNit !in et.rows then Effect(Err(EntityNotFoundError(EmpresaKind)), pt)
    else
      match MakeProductCode(codigo)
      case Err(x) => Effect(Err(x), pt)
      case Ok(c) =>
        EmpresaRepo.StoredNitIsValid(et, empresaNit);
        var n := MakeNit(empresaNit).value;
        ValidatedAndSaved(pt, ProductoRec(c, nombre, n, caracteristicas, now, now, Some(userId)))
  }

  /** The entity's own validation, then `save` of the validated product. */
  function ValidatedAndSaved(pt: ProductoTable, given: ProductoRec): (e: Effect<ProductoRec, ProductoTable>)
    requires Keyed(pt)
    ensures Keyed(e.store)
  {
    match Validated(given)
    case Err(x) => Effect(Err(x), pt)
    case Ok(v) => Effect(Ok(v), Saved(pt, v))
  }

  /** The duplicate check comes first: a taken code is reported even when the company is missing too. */
  lemma DuplicateBeforeMissingEmpresa(pt: ProductoTable, et: EmpresaRepo.EmpresaTable, codigo: string,
                                      nombre: string, empresaNit: string, caracteristicas: Option<string>,
                                      userId: string, now: Instant)
    requires Keyed(pt) && EmpresaRepo.Keyed(et)
    requires codigo in pt.rows && empresaNit !in et.rows
    ensures CreateProducto(pt, et, codigo, nombre, empresaNit, caracteristicas, userId, now).result
            == Err(DuplicateEntityError(ProductoKind))
  {
  }

  /**
   * The duplicate check compares code texts exactly: with a product stored
   * under one code, a second product whose code differs only in letter case
   * is created as well, although the two are equal as entities.
   */
  lemma CaseVariantIsNotDuplicate(pt: ProductoTable, et: EmpresaRepo.EmpresaTable, a: string, b: string,
                                  nombre: string, empresaNit: string, userId: string, now: Instant)
    requires Keyed(pt) && EmpresaRepo.Keyed(et) && empresaNit in et.rows && |Strip(nombre)| >= 2
    requires a in pt.rows && b !in pt.rows && IsCodeText(b) && SameCode(pt.rows[a].codigo, ProductCode(b))
    ensures var e := CreateProducto(pt, et, b, nombre, empresaNit, None, userId, now);
            && e.result.Ok?
            && SameProducto(e.result.value, pt.rows[a])
            && a in e.store.rows && b in e.store.rows && a != b
  {
    var e := CreateProducto(pt, et, b, nombre, empresaNit, None, userId, now);
    assert e.result.value.codigo == ProductCode(b);
  }

  /** GetProductoUseCase: the stored product, or EntityNotFoundError. */
  function GetProducto(pt: ProductoTable, codigo: string): (r: Result<ProductoRec>)
    ensures r.Ok? <==> codigo in pt.rows
    ensures r.Ok? ==> r.value == pt.rows[codigo]
    ensures r.Err? ==> r.error == EntityNotFoundError(ProductoKind)
  {
    if codigo in pt.rows then Ok(pt.rows[codigo]) else Err(EntityNotFoundError(ProductoKind))
  }

  /**
   * ListProductosUseCase: a non-empty company filter wins over a non-empty
   * search; with neither, one page.
   */
  function ListProductos(pt: ProductoTable, limit: nat, offset: nat, empresaNit: Option<string>,
                         search: Option<string>): (r: seq<ProductoRec>)
    requires Keyed(pt)
    ensures Truthy(empresaNit) ==> r == OfEmpresa(pt, empresaNit.value)
    ensures !Truthy(empresaNit) && Truthy(search) ==> r == NameMatches(pt, search.value)
    ensures !Truthy(empresaNit) && !Truthy(search) ==> r == ListAll(pt, limit, offset)
  {
    if Truthy(empresaNit) then OfEmpresa(pt, empresaNit.value)
    else if Truthy(search) then NameMatches(pt, search.value)
    else ListAll(pt, limit, offset)
  }

  /** With a company filter, the search text is ignored: every product of that company is listed. */
  lemma EmpresaFilterWins(pt: ProductoTable, limit: nat, offset: nat, nit: string, search: Option<string>)
    requires Keyed(pt) && nit != ""
    ensures forall p :: p in ListProductos(pt, limit, offset, Some(nit), search) <==>
                          p in pt.rows.Values && p.empresaNit.value == nit
  {
  }

  /**
   * UpdateProductoUseCase: EntityNotFoundError for an unknown code, then
   * `update_info(nombre, caracteristicas)` on the fetched entity (the
   * company is not touched), then save. A failing validation saves nothing.
   */
  function UpdateProducto(pt: ProductoTable, codigo: string, nombre: Option<string>,
                          caracteristicas: Option<string>, now: Instant): (e: Effect<ProductoRec, ProductoTable>)
    requires Keyed(pt)
    ensures Keyed(e.store)
    ensures e.result.Err? ==> e.store == pt
    ensures codigo !in pt.rows ==> e.result == Err(EntityNotFoundError(ProductoKind))
    ensures codigo in pt.rows ==>
              var step := InfoUpdated(pt.rows[codigo], nombre, caracteristicas, None, now);
              e.result == (if step.outcome.Pass? then Ok(step.state) else Err(step.outcome.error))
    ensures e.result.Ok? ==> e.store == Saved(pt, e.result.value)
  {
    if codigo !in pt.rows then Effect(Err(EntityNotFoundError(ProductoKind)), pt)
    else
      var step := InfoUpdated(pt.rows[codigo], nombre, caracteristicas, None, now);
      if step.outcome.Fail? then Effect(Err(step.outcome.error), pt)
      else Effect(Ok(step.state), Saved(pt, step.state))
  }

  /** An update keeps the product's code and company, so it replaces the stored product in place. */
  lemma UpdateKeepsCodeAndEmpresa(pt: ProductoTable, codigo: string, nombre: Option<string>,
                                  caracteristicas: Option<string>, now: Instant)
    requires Keyed(pt)
    ensures var e := UpdateProducto(pt, codigo, nombre, caracteristicas, now);
            e.result.Ok? ==>
              && e.result.value.codigo == pt.rows[codigo].codigo
              && e.result.value.empresaNit == pt.rows[codigo].empresaNit
              && e.store.rows.Keys == pt.rows.Keys && e.store.order == pt.order
  {
  }

  /** DeleteProductoUseCase: EntityNotFoundError for an unknown code, then the repository's `delete`. */
  function DeleteProducto(pt: ProductoTable, codigo: string): (e: Effect<bool, ProductoTable>)
    requires Keyed(pt)
    ensures Keyed(e.store)
    ensures e.result.Ok? <==> codigo in pt.rows
    ensures e.result.Err? ==> e.store == pt && e.result.error == EntityNotFoundError(ProductoKind)
    ensures e.result.Ok? ==> e.result.value && e.store.rows == pt.rows - {codigo}
  {
    if codigo !in pt.rows then Effect(Err(EntityNotFoundError(ProductoKind)), pt)
    else
      var (removed, after) := Deleted(pt, codigo);
      Effect(Ok(removed), after)
  }

  class CreateProductoUseCase {
    const productoRepository: ProductoRepository
    const empresaRepository: EmpresaRepo.EmpresaRepository

    constructor (productoRepository: ProductoRepository, empresaRepository: EmpresaRepo.EmpresaRepository)
      ensures this.productoRepository == productoRepository && this.empresaRepository == empresaRepository
    {
      this.productoRepository := productoRepository;
      this.empresaRepository := empresaRepository;
    }

    method Execute(codigo: string, nombre: string, empresaNit: string, caracteristicas: Option<string>,
                   userId: string, now: Instant) returns (r: Result<ProductoRec>)
      requires productoRepository.Invariant() && empresaRepository.Invariant()
      modifies productoRepository
      ensures productoRepository.Invariant()
      ensures Effect(r, productoRepository.table)
              == CreateProducto(old(productoRepository.table), empresaRepository.table, codigo, nombre,
                                empresaNit, caracteristicas, userId, now)
    {
      ghost var spec := CreateProducto(productoRepository.table, empresaRepository.table, codigo, nombre,
                                       empresaNit, caracteristicas, userId, now);
      if productoRepository.Exists(codigo) {
        return Err(DuplicateEntityError(ProductoKind));
      }
      if !empresaRepository.Exists(empresaNit) {
        return Err(EntityNotFoundError(EmpresaKind));
      }
      var c := MakeProductCode(codigo);
      if c.Err? {
        return Err(c.error);
      }
      // The company is stored under this text, so it is a valid NIT and `NIT(empresa_nit)` cannot fail.
      EmpresaRepo.StoredNitIsValid(empresaRepository.table, empresaNit);
      var n := MakeNit(empresaNit).value;
      assert spec == ValidatedAndSaved(productoRepository.table, ProductoRec(c.value, nombre, n, caracteristicas, now, now, Some(userId)));
      r := SaveValidated(c.value, nombre, n, caracteristicas, userId, now);
    }

    /** The entity's validation, then `save` of the validated product: the last steps of `Execute`. */
    method SaveValidated(c: ProductCode, nombre: string, n: Nit, caracteristicas: Option<string>, userId: string, now: Instant)
      returns (r: Result<ProductoRec>)
      requires productoRepository.Invariant()
      modifies productoRepository
      ensures productoRepository.Invariant()
      ensures Effect(r, productoRepository.table)
              == ValidatedAndSaved(old(productoRepository.table), ProductoRec(c, nombre, n, caracteristicas, now, now, Some(userId)))
    {
      ghost var given := ProductoRec(c, nombre, n, caracteristicas, now, now, Some(userId));
      var producto := Producto.New(c, nombre, n, caracteristicas, now, now, Some(userId));
      if producto.Err? {
        assert Validated(given) == Err(producto.error);
        return Err(producto.error);
      }
      var saved := productoRepository.Save(producto.value);
      assert Validated(given) == Ok(saved);
      return Ok(saved);
    }
  }

  class GetProductoUseCase {
    const repository: ProductoRepository

    constructor (repository: ProductoRepository)
      ensures this.repository == repository
    {
      this.repository := repository;
    }

    method Execute(codigo: string) returns (r: Result<Producto>)
      ensures r.Ok? <==> GetProducto(repository.table, codigo).Ok?
      ensures r.Ok? ==> fresh(r.value) && r.value.Snapshot() == GetProducto(repository.table, codigo).value
      ensures r.Err? ==> r.error == GetProducto(repository.table, codigo).error
    {
      var producto := repository.FindByCodigo(codigo);
      if producto.None? {
        return Err(EntityNotFoundError(ProductoKind));
      }
      return Ok(producto.value);
    }
  }

  class ListProductosUseCase {
    const repository: ProductoRepository

    constructor (repository: ProductoRepository)
      ensures this.repository == repository
    {
      this.repository := repository;
    }

    method Execute(limit: nat, offset: nat, empresaNit: Option<string>, search: Option<string>)
      returns (r: seq<ProductoRec>)
      requires repository.Invariant()
      ensures r == ListProductos(repository.table, limit, offset, empresaNit, search)
    {
      if Truthy(empresaNit) {
        return repository.FindByEmpresa(empresaNit.value);
      }
      if Truthy(search) {
        return repository.SearchByNombre(search.value);
      }
      return repository.FindAll(limit, offset);
    }
  }

  class UpdateProductoUseCase {
    const repository: ProductoRepository

    constructor (repository: ProductoRepository)
      ensures this.repository == repository
    {
      this.repository := repository;
    }

    method Execute(codigo: string, nombre: Option<string>, caracteristicas: Option<string>, now: Instant)
      returns (r: Result<ProductoRec>)
      requires repository.Invariant()
      modifies repository
      ensures repository.Invariant()
      ensures Effect(r, repository.table) == UpdateProducto(old(repository.table), codigo, nombre, caracteristicas, now)
    {
      var found := repository.FindByCodigo(codigo);
      if found.None? {
        return Err(EntityNotFoundError(ProductoKind));
      }
      var producto := found.value;
      var o := producto.UpdateInfo(nombre, caracteristicas, None, now);
      if o.Fail? {
        return Err(o.error);
      }
      var saved := repository.Save(producto);
      return Ok(saved);
    }
  }

  class DeleteProductoUseCase {
    const repository: ProductoRepository

    constructor (repository: ProductoRepository)
      ensures this.repository == repository
    {
      this.repository := repository;
    }

    method Execute(codigo: string) returns (r: Result<bool>)
      requires repository.Invariant()
      modifies repository
      ensures repository.Invariant()
      ensures Effect(r, repository.table) == DeleteProducto(old(repository.table), codigo)
    {
      var found := repository.FindByCodigo(codigo);
      if found.None? {
        return Err(EntityNotFoundError(ProductoKind));
      }
      var removed := repository.Delete(codigo);
      return Ok(removed);
    }
  }
}
