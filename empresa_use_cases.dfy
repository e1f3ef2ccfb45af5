/**
 * The company use cases: create, get, list, update and delete, each checking
 * the store first, then building or fetching the entity, then saving or
 * deleting. Each use case is a specification function from the store to its
 * result and the new store, and a class whose `Execute` runs the repository
 * calls in the same order and is proved equal to it.
 */
module EmpresaUseCases {
  import opened Wrappers
  import opened Clock
  import opened Text
  import opened Exceptions
  import opened ValueObjects
  import opened EmpresaEntity
  import opened Tables
  import opened EmpresaRepo

  /**
   * CreateEmpresaUseCase: a duplicate NIT first; then `NIT(nit)`,
   * `Phone(telefono)` and the entity's own validation, in that order; the
   * validated company is saved. Nothing is saved on any error.
   */
  function CreateEmpresa(t: EmpresaTable, nit: string, nombre: string, direccion: string,
                         telefono: string, userId: string, now: Instant): (e: Effect<EmpresaRec, EmpresaTable>)
    requires Keyed(t)
    ensures Keyed(e.store)
    ensures e.result.Err? ==> e.store == t
    ensures nit in t.rows ==> e.result == Err(DuplicateEntityError(EmpresaKind))
    ensures nit !in t.rows && !IsNitText(nit) ==> e.result == Err(MakeNit(nit).error)
    ensures nit !in t.rows && IsNitText(nit) && !IsPhoneText(telefono) ==> e.result == Err(MakePhone(telefono).error)
    ensures nit !in t.rows && IsNitText(nit) && IsPhoneText(telefono) && e.result.Err? ==>
              e.result.error == ValidationError(if |Strip(nombre)| < 3 then EmpresaNombreTooShort else EmpresaDireccionTooShort)
    ensures e.result.Ok? <==>
              nit !in t.rows && IsNitText(nit) && IsPhoneText(telefono)
              && |Strip(nombre)| >= 3 && |Strip(direccion)| >= 5
    ensures e.result.Ok? ==> e.store == Saved(t, e.result.value) && |e.store.order| == |t.order| + 1
    ensures e.result.Ok? ==>
              && e.result.value.nit.value == nit
              && e.result.value.nombre == Strip(nombre) && e.result.value.direccion == Strip(direccion)
              && e.result.value.telefono.value == telefono
              && e.result.value.createdAt == now && e.result.value.updatedAt == now
              && e.result.value.createdById == Some(userId)
  {
    if nit in t.rows then Effect(Err(DuplicateEntityError(EmpresaKind)), t)
    else
      match MakeNit(nit)
      case Err(x) => Effect(Err(x), t)
      case Ok(n) =>
        match MakePhone(telefono)
        case Err(x) => Effect(Err(x), t)
        case Ok(p) =>
          ValidatedAndSaved(t, EmpresaRec(n, nombre, direccion, p, now, now, Some(userId)))
  }

  /** The entity's own validation, then `save` of the validated company. */
  function ValidatedAndSaved(t: EmpresaTable, given: EmpresaRec): (e: Effect<EmpresaRec, EmpresaTable>)
    requires Keyed(t)
    ensures Keyed(e.store)
  {
    match Validated(given)
    case Err(x) => Effect(Err(x), t)
    case Ok(v) => Effect(Ok(v), Saved(t, v))
  }

  /** GetEmpresaUseCase: the stored company, or EntityNotFoundError. */
  function GetEmpresa(t: EmpresaTable, nit: string): (r: Result<EmpresaRec>)
    ensures r.Ok? <==> nit in t.rows
    ensures r.Ok? ==> r.value == t.rows[nit]
    ensures r.Err? ==> r.error == EntityNotFoundError(EmpresaKind)
  {
    if nit in t.rows then Ok(t.rows[nit]) else Err(EntityNotFoundError(EmpresaKind))
  }

  /** ListEmpresasUseCase: a non-empty search goes to `search_by_nombre`, otherwise one page. */
  function ListEmpresas(t: EmpresaTable, limit: nat, offset: nat, search: Option<string>): (r: seq<EmpresaRec>)
    requires Keyed(t)
    ensures Truthy(search) ==> r == NameMatches(t, search.value)
    ensures !Truthy(search) ==> r == ListAll(t, limit, offset)
  {
    if Truthy(search) then NameMatches(t, search.value) else ListAll(t, limit, offset)
  }

  /** A listing holds only stored companies, at most `limit` of them unless it is a search. */
  lemma ListedAreStored(t: EmpresaTable, limit: nat, offset: nat, search: Option<string>)
    requires Keyed(t)
    ensures forall e :: e in ListEmpresas(t, limit, offset, search) ==> e in t.rows.Values
    ensures !Truthy(search) ==> |ListEmpresas(t, limit, offset, search)| <= limit
    ensures !Truthy(search) ==>
              |ListEmpresas(t, limit, offset, search)| == if offset >= |t.order| then 0 else Min(limit, |t.order| - offset)
    ensures Truthy(search) ==>
              forall e :: e in ListEmpresas(t, limit, offset, search) <==>
                            e in t.rows.Values && ContainsIgnoreCase(e.nombre, search.value)
  {
    if !Truthy(search) {
      forall e | e in ListAll(t, limit, offset)
        ensures e in t.rows.Values
      {
        var i :| 0 <= i < |ListAll(t, limit, offset)| && ListAll(t, limit, offset)[i] == e;
        assert t.order[offset + i] in t.rows;
      }
    }
  }

  /**
   * The telefono argument of an update: an empty or absent one means "no
   * change", any other is parsed by `Phone`.
   */
  function PhoneArgument(telefono: Option<string>): (r: Result<Option<Phone>>)
    ensures !Truthy(telefono) ==> r == Ok(None)
    ensures Truthy(telefono) ==> (r.Ok? <==> IsPhoneText(telefono.value))
    ensures Truthy(telefono) && r.Ok? ==> r.value.Some? && r.value.value.value == telefono.value
    ensures Truthy(telefono) && r.Err? ==> r.error == MakePhone(telefono.value).error
  {
    if !Truthy(telefono) then Ok(None)
    else
      match MakePhone(telefono.value)
      case Ok(p) => Ok(Some(p))
      case Err(x) => Err(x)
  }

  /**
   * UpdateEmpresaUseCase: EntityNotFoundError for an unknown NIT; an empty
   * or absent telefono means "no change", any other is parsed by `Phone`
   * first; then `update_info` runs on the fetched entity and the result is
   * saved. A failing validation saves nothing.
   */
  function UpdateEmpresa(t: EmpresaTable, nit: string, nombre: Option<string>, direccion: Option<string>,
                         telefono: Option<string>, now: Instant): (e: Effect<EmpresaRec, EmpresaTable>)
    requires Keyed(t)
    ensures Keyed(e.store)
    ensures e.result.Err? ==> e.store == t
    ensures nit !in t.rows ==> e.result == Err(EntityNotFoundError(EmpresaKind))
    ensures e.result.Ok? ==> nit in t.rows && e.store == Saved(t, e.result.value)
    ensures nit in t.rows && PhoneArgument(telefono).Err? ==> e.result == Err(PhoneArgument(telefono).error)
    ensures nit in t.rows && PhoneArgument(telefono).Ok? ==>
              var step := InfoUpdated(t.rows[nit], nombre, direccion, PhoneArgument(telefono).value, now);
              e.result == (if step.outcome.Pass? then Ok(step.state) else Err(step.outcome.error))
  {
    if nit !in t.rows then Effect(Err(EntityNotFoundError(EmpresaKind)), t)
    else
      match PhoneArgument(telefono)
      case Err(x) => Effect(Err(x), t)
      case Ok(phone) =>
        var step := InfoUpdated(t.rows[nit], nombre, direccion, phone, now);
        if step.outcome.Fail? then Effect(Err(step.outcome.error), t)
        else Effect(Ok(step.state), Saved(t, step.state))
  }

  /** An update keeps the company's NIT, so it replaces the company rather than adding one. */
  lemma UpdateKeepsNit(t: EmpresaTable, nit: string, nombre: Option<string>, direccion: Option<string>,
                       telefono: Option<string>, now: Instant)
    requires Keyed(t)
    ensures var e := UpdateEmpresa(t, nit, nombre, direccion, telefono, now);
            e.result.Ok? ==> e.result.value.nit.value == nit && e.store.rows.Keys == t.rows.Keys
  {
  }

  /** An empty telefono is the same update as none at all. */
  lemma EmptyPhoneIsNoChange(t: EmpresaTable, nit: string, nombre: Option<string>, direccion: Option<string>,
                             now: Instant)
    requires Keyed(t)
    ensures UpdateEmpresa(t, nit, nombre, direccion, Some(""), now) == UpdateEmpresa(t, nit, nombre, direccion, None, now)
  {
    assert PhoneArgument(Some("")) == PhoneArgument(None);
  }

  /** Only the supplied fields change: an update of nothing on a normalized company moves only updated_at. */
  lemma UpdateOfNothing(t: EmpresaTable, nit: string, now: Instant)
    requires Keyed(t) && nit in t.rows && Normalized(t.rows[nit])
    ensures UpdateEmpresa(t, nit, None, None, None, now).result == Ok(t.rows[nit].(updatedAt := now))
  {
    EmptyUpdateTouchesOnly(t.rows[nit], now);
  }

  /**
   * DeleteEmpresaUseCase: EntityNotFoundError for an unknown NIT, then
   * BusinessRuleViolationError when `can_be_deleted` is false, then the
   * repository's `delete`.
   */
  function DeleteEmpresa(t: EmpresaTable, nit: string): (e: Effect<bool, EmpresaTable>)
    requires Keyed(t)
    ensures Keyed(e.store)
    ensures e.result.Err? ==> e.store == t
    ensures nit !in t.rows ==> e.result == Err(EntityNotFoundError(EmpresaKind))
    ensures nit in t.rows && !CanBeDeleted(t.rows[nit]) ==> e.result == Err(BusinessRuleViolationError)
    ensures e.result.Ok? ==> (e.result.value, e.store) == Deleted(t, nit)
  {
    if nit !in t.rows then Effect(Err(EntityNotFoundError(EmpresaKind)), t)
    else if !CanBeDeleted(t.rows[nit]) then Effect(Err(BusinessRuleViolationError), t)
    else
      var (removed, after) := Deleted(t, nit);
      Effect(Ok(removed), after)
  }

  /** Since every company may be deleted, deleting a stored one always succeeds and removes only it. */
  lemma DeleteStoredSucceeds(t: EmpresaTable, nit: string)
    requires Keyed(t) && nit in t.rows
    ensures DeleteEmpresa(t, nit).result == Ok(true)
    ensures DeleteEmpresa(t, nit).store.rows == t.rows - {nit}
  {
  }

  /** A created company can be fetched, and creating it again is a duplicate. */
  lemma CreateThenGet(t: EmpresaTable, nit: string, nombre: string, direccion: string,
                      telefono: string, userId: string, now: Instant,
                      nombre2: string, direccion2: string, telefono2: string, now2: Instant)
    requires Keyed(t)
    ensures var e := CreateEmpresa(t, nit, nombre, direccion, telefono, userId, now);
            e.result.Ok? ==>
              && GetEmpresa(e.store, nit) == e.result
              && CreateEmpresa(e.store, nit, nombre2, direccion2, telefono2, userId, now2)
                 == Effect(Err(DuplicateEntityError(EmpresaKind)), e.store)
  {
  }

  class CreateEmpresaUseCase {
    const repository: EmpresaRepository

    constructor (repository: EmpresaRepository)
      ensures this.repository == repository
    {
      this.repository := repository;
    }

    method Execute(nit: string, nombre: string, direccion: string, telefono: string,
                   userId: string, now: Instant) returns (r: Result<EmpresaRec>)
      requires repository.Invariant()
      modifies repository
      ensures repository.Invariant()
      ensures Effect(r, repository.table) == CreateEmpresa(old(repository.table), nit, nombre, direccion, telefono, userId, now)
    {
      ghost var spec := CreateEmpresa(repository.table, nit, nombre, direccion, telefono, userId, now);
      if repository.Exists(nit) {
        return Err(DuplicateEntityError(EmpresaKind));
      }
      var n := MakeNit(nit);
      if n.Err? {
        assert spec == Effect(Err(n.error), repository.table);
        return Err(n.error);
      }
      var p := MakePhone(telefono);
      if p.Err? {
        assert spec == Effect(Err(p.error), repository.table);
        return Err(p.error);
      }
      assert spec == ValidatedAndSaved(repository.table, EmpresaRec(n.value, nombre, direccion, p.value, now, now, Some(userId)));
      r := SaveValidated(n.value, nombre, direccion, p.value, userId, now);
    }

    /** The entity's validation, then `save` of the validated company: the last steps of `Execute`. */
    method SaveValidated(n: Nit, nombre: string, direccion: string, p: Phone, userId: string, now: Instant)
      returns (r: Result<EmpresaRec>)
      requires repository.Invariant()
      modifies repository
      ensures repository.Invariant()
      ensures Effect(r, repository.table)
              == ValidatedAndSaved(old(repository.table), EmpresaRec(n, nombre, direccion, p, now, now, Some(userId)))
    {
      ghost var given := EmpresaRec(n, nombre, direccion, p, now, now, Some(userId));
      var empresa := Empresa.New(n, nombre, direccion, p, now, now, Some(userId));
      if empresa.Err? {
        assert Validated(given) == Err(empresa.error);
        return Err(empresa.error);
      }
      var saved := repository.Save(empresa.value);
      assert Validated(given) == Ok(saved);
      return Ok(saved);
    }
  }

  class GetEmpresaUseCase {
    const repository: EmpresaRepository

    constructor (repository: EmpresaRepository)
      ensures this.repository == repository
    {
      this.repository := repository;
    }

    method Execute(nit: string) returns (r: Result<Empresa>)
      ensures r.Ok? <==> GetEmpresa(repository.table, nit).Ok?
      ensures r.Ok? ==> fresh(r.value) && r.value.Snapshot() == GetEmpresa(repository.table, nit).value
      ensures r.Err? ==> r.error == GetEmpresa(repository.table, nit).error
    {
      var empresa := repository.FindByNit(nit);
      if empresa.None? {
        return Err(EntityNotFoundError(EmpresaKind));
      }
      return Ok(empresa.value);
    }
  }

  class ListEmpresasUseCase {
    const repository: EmpresaRepository

    constructor (repository: EmpresaRepository)
      ensures this.repository == repository
    {
      this.repository := repository;
    }

    method Execute(limit: nat, offset: nat, search: Option<string>) returns (r: seq<EmpresaRec>)
      requires repository.Invariant()
      ensures r == ListEmpresas(repository.table, limit, offset, search)
    {
      if Truthy(search) {
        return repository.SearchByNombre(search.value);
      }
      return repository.FindAll(limit, offset);
    }
  }

  class UpdateEmpresaUseCase {
    const repository: EmpresaRepository

    constructor (repository: EmpresaRepository)
      ensures this.repository == repository
    {
      this.repository := repository;
    }

    method Execute(nit: string, nombre: Option<string>, direccion: Option<string>,
                   telefono: Option<string>, now: Instant) returns (r: Result<EmpresaRec>)
      requires repository.Invariant()
      modifies repository
      ensures repository.Invariant()
      ensures Effect(r, repository.table) == UpdateEmpresa(old(repository.table), nit, nombre, direccion, telefono, now)
    {
      var found := repository.FindByNit(nit);
      if found.None? {
        return Err(EntityNotFoundError(EmpresaKind));
      }
      var empresa := found.value;
      var phone := PhoneArgument(telefono);
      if phone.Err? {
        return Err(phone.error);
      }
      var o := empresa.UpdateInfo(nombre, direccion, phone.value, now);
      if o.Fail? {
        return Err(o.error);
      }
      var saved := repository.Save(empresa);
      return Ok(saved);
    }
  }

  class DeleteEmpresaUseCase {
    const repository: EmpresaRepository

    constructor (repository: EmpresaRepository)
      ensures this.repository == repository
    {
      this.repository := repository;
    }

    method Execute(nit: string) returns (r: Result<bool>)
      requires repository.Invariant()
      modifies repository
      ensures repository.Invariant()
      ensures Effect(r, repository.table) == DeleteEmpresa(old(repository.table), nit)
    {
      var found := repository.FindByNit(nit);
      if found.None? {
        return Err(EntityNotFoundError(EmpresaKind));
      }
      var allowed := CanBeDeleted(found.value.Snapshot());
      var removed := false;
      if allowed {
        removed := repository.Delete(nit);
      }
      r := if allowed then Ok(removed) else Err(BusinessRuleViolationError);
    }
  }
}
