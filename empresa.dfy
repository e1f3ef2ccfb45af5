/**
 * The Empresa entity: a company identified by its NIT. Construction and
 * every update validate the name and the address and store them trimmed.
 */
module EmpresaEntity {
  import opened Wrappers
  import opened Clock
  import opened Text
  import opened Exceptions
  import opened ValueObjects

  /** The fields of an Empresa. */
  datatype EmpresaRec = EmpresaRec(
    nit: Nit,
    nombre: string,
    direccion: string,
    telefono: Phone,
    createdAt: Instant,
    updatedAt: Instant,
    createdById: Option<string>)

  /** Empresa's own rules hold and the name and address carry no outer whitespace. */
  predicate Normalized(e: EmpresaRec) {
    && Strip(e.nombre) == e.nombre && |e.nombre| >= 3
    && Strip(e.direccion) == e.direccion && |e.direccion| >= 5
  }

  /**
   * `validate()`: the trimmed name needs at least 3 characters, then the
   * trimmed address at least 5; on success both are stored trimmed.
   */
  function Validated(e: EmpresaRec): (r: Result<EmpresaRec>)
    ensures r.Ok? <==> |Strip(e.nombre)| >= 3 && |Strip(e.direccion)| >= 5
    ensures r.Err? ==> r.error == ValidationError(
      if |Strip(e.nombre)| < 3 then EmpresaNombreTooShort else EmpresaDireccionTooShort)
    ensures r.Ok? ==> Normalized(r.value)
    ensures r.Ok? ==> r.value == e.(nombre := Strip(e.nombre), direccion := Strip(e.direccion))
  {
    if |e.nombre| == 0 || |Strip(e.nombre)| < 3 then
      Err(ValidationError(EmpresaNombreTooShort))
    else if |e.direccion| == 0 || |Strip(e.direccion)| < 5 then
      Err(ValidationError(EmpresaDireccionTooShort))
    else
      StripIdempotent(e.nombre);
      StripIdempotent(e.direccion);
      Ok(e.(nombre := Strip(e.nombre), direccion := Strip(e.direccion)))
  }

  /** The records `validate()` leaves unchanged are exactly the normalized ones. */
  lemma ValidatedFixedPoints(e: EmpresaRec)
    ensures Validated(e) == Ok(e) <==> Normalized(e)
  {
  }

  /** Validating a second time changes nothing. */
  lemma ValidatedIdempotent(e: EmpresaRec)
    requires Validated(e).Ok?
    ensures Validated(Validated(e).value) == Validated(e)
  {
    ValidatedFixedPoints(Validated(e).value);
  }

  /**
   * `update_info(nombre, direccion, telefono)`: each given value is assigned,
   * updated_at becomes now, then `validate()` runs. The assignments are not
   * undone when validation raises, so a failed update leaves the raw values
   * in place.
   */
  function InfoUpdated(e: EmpresaRec, nombre: Option<string>, direccion: Option<string>,
                       telefono: Option<Phone>, now: Instant): (s: Step<EmpresaRec>)
    ensures s.state.nit == e.nit && s.state.createdAt == e.createdAt
    ensures s.state.createdById == e.createdById && s.state.updatedAt == now
    ensures s.state.telefono == ValueOr(telefono, e.telefono)
    ensures var n, d := ValueOr(nombre, e.nombre), ValueOr(direccion, e.direccion);
            s.outcome == Pass <==> |Strip(n)| >= 3 && |Strip(d)| >= 5
    ensures var n, d := ValueOr(nombre, e.nombre), ValueOr(direccion, e.direccion);
            s.outcome == Pass ==> s.state.nombre == Strip(n) && s.state.direccion == Strip(d)
    ensures s.outcome.Fail? ==>
              s.state.nombre == ValueOr(nombre, e.nombre) && s.state.direccion == ValueOr(direccion, e.direccion)
    ensures var n := ValueOr(nombre, e.nombre);
            s.outcome.Fail? ==>
              s.outcome.error == ValidationError(if |Strip(n)| < 3 then EmpresaNombreTooShort else EmpresaDireccionTooShort)
  {
    var given := e.(nombre := ValueOr(nombre, e.nombre),
                    direccion := ValueOr(direccion, e.direccion),
                    telefono := ValueOr(telefono, e.telefono),
                    updatedAt := now);
    Committed(given, Validated(given))
  }

  /** An update with no arguments on a valid record only moves updated_at. */
  lemma EmptyUpdateTouchesOnly(e: EmpresaRec, now: Instant)
    requires Normalized(e)
    ensures InfoUpdated(e, None, None, None, now) == Step(e.(updatedAt := now), Pass)
  {
    ValidatedFixedPoints(e.(updatedAt := now));
  }

  /** A failed update is not rolled back: the untrimmed name stays assigned. */
  lemma FailedUpdateIsNotRolledBack(e: EmpresaRec, now: Instant)
    ensures var s := InfoUpdated(e, Some(" ab "), None, None, now);
            s.outcome == Fail(ValidationError(EmpresaNombreTooShort)) && s.state.nombre == " ab "
  {
    var n := " ab ";
    var i :| CutAt(n, Strip(n), i);
    assert IsSpace(n[0]) && IsSpace(n[3]) && !IsSpace(n[1]) && !IsSpace(n[2]);
    assert |Strip(n)| < 3;
  }

  /** `can_be_deleted()`: there is no rule that forbids deleting a company. */
  function CanBeDeleted(e: EmpresaRec): (b: bool)
    ensures b
  {
    true
  }

  /** `__eq__`: two companies are the same when their NITs are. */
  predicate SameEmpresa(a: EmpresaRec, b: EmpresaRec) {
    a.nit == b.nit
  }

  /** Updates never change which company a record is. */
  lemma UpdateKeepsIdentity(e: EmpresaRec, nombre: Option<string>, direccion: Option<string>,
                            telefono: Option<Phone>, now: Instant)
    ensures SameEmpresa(InfoUpdated(e, nombre, direccion, telefono, now).state, e)
  {
  }

  /** A company, updated in place. */
  class Empresa {
    var nit: Nit
    var nombre: string
    var direccion: string
    var telefono: Phone
    var createdAt: Instant
    var updatedAt: Instant
    var createdById: Option<string>

    /** The current field values. */
    function Snapshot(): EmpresaRec
      reads this
    {
      EmpresaRec(nit, nombre, direccion, telefono, createdAt, updatedAt, createdById)
    }

    /** The dataclass field assignments, before `__post_init__` validates them. */
    constructor Init(nit: Nit, nombre: string, direccion: string, telefono: Phone,
                     createdAt: Instant, updatedAt: Instant, createdById: Option<string>)
      ensures Snapshot() == EmpresaRec(nit, nombre, direccion, telefono, createdAt, updatedAt, createdById)
    {
      this.nit := nit;
      this.nombre := nombre;
      this.direccion := direccion;
      this.telefono := telefono;
      this.createdAt := createdAt;
      this.updatedAt := updatedAt;
      this.createdById := createdById;
    }

    /** `Empresa(...)`: a fresh, validated company, or the ValidationError `__post_init__` raises. */
    static method New(nit: Nit, nombre: string, direccion: string, telefono: Phone,
                      createdAt: Instant, updatedAt: Instant, createdById: Option<string>)
      returns (r: Result<Empresa>)
      ensures var v := Validated(EmpresaRec(nit, nombre, direccion, telefono, createdAt, updatedAt, createdById));
              && (r.Ok? <==> v.Ok?)
              && (r.Ok? ==> fresh(r.value) && r.value.Snapshot() == v.value)
              && (r.Err? ==> r.error == v.error)
    {
      var e := new Empresa.Init(nit, nombre, direccion, telefono, createdAt, updatedAt, createdById);
      var o := e.Validate();
      if o.Fail? {
        return Err(o.error);
      }
      return Ok(e);
    }

    method Validate() returns (o: Outcome)
      modifies this
      ensures Step(Snapshot(), o) == Committed(old(Snapshot()), Validated(old(Snapshot())))
    {
      var r := Validated(Snapshot());
      if r.Err? {
        return Fail(r.error);
      }
      nombre := r.value.nombre;
      direccion := r.value.direccion;
      o := Pass;
    }

    method UpdateInfo(nombre: Option<string>, direccion: Option<string>,
                      telefono: Option<Phone>, now: Instant) returns (o: Outcome)
      modifies this
      ensures Step(Snapshot(), o) == InfoUpdated(old(Snapshot()), nombre, direccion, telefono, now)
    {
      if nombre.Some? {
        this.nombre := nombre.value;
      }
      if direccion.Some? {
        this.direccion := direccion.value;
      }
      if telefono.Some? {
        this.telefono := telefono.value;
      }
      updatedAt := now;
      ghost var given := Snapshot();
      assert given == old(Snapshot()).(nombre := ValueOr(nombre, old(this.nombre)),
                                       direccion := ValueOr(direccion, old(this.direccion)),
                                       telefono := ValueOr(telefono, old(this.telefono)),
                                       updatedAt := now);
      o := Validate();
      assert Step(Snapshot(), o) == Committed(given, Validated(given));
    }
  }
}
