/**
 * The Producto entity: a product identified by its ProductCode and tied to
 * the company that owns it.
 */
module ProductoEntity {
  import opened Wrappers
  import opened Clock
  import opened Text
  import opened Exceptions
  import opened ValueObjects

  /** The fields of a Producto. */
  datatype ProductoRec = ProductoRec(
    codigo: ProductCode,
    nombre: string,
    empresaNit: Nit,
    caracteristicas: Option<string>,
    createdAt: Instant,
    updatedAt: Instant,
    createdById: Option<string>)

  /** The description, trimmed when there is one. */
  function StrippedOption(c: Option<string>): Option<string> {
    if c.Some? then Some(Strip(c.value)) else None
  }

  /** Producto's own rule holds and its texts carry no outer whitespace. */
  predicate Normalized(p: ProductoRec) {
    && Strip(p.nombre) == p.nombre && |p.nombre| >= 2
    && StrippedOption(p.caracteristicas) == p.caracteristicas
  }

  /**
   * `validate()`: the trimmed name needs at least 2 characters; on success
   * the name and (when it is a non-empty string) the description are stored
   * trimmed. An empty description is kept as it is, which is what trimming
   * would give anyway.
   */
  function Validated(p: ProductoRec): (r: Result<ProductoRec>)
    ensures r.Ok? <==> |Strip(p.nombre)| >= 2
    ensures r.Err? ==> r.error == ValidationError(ProductoNombreTooShort)
    ensures r.Ok? ==> Normalized(r.value)
    ensures r.Ok? ==> r.value == p.(nombre := Strip(p.nombre), caracteristicas := StrippedOption(p.caracteristicas))
  {
    if |p.nombre| == 0 || |Strip(p.nombre)| < 2 then
      Err(ValidationError(ProductoNombreTooShort))
    else
      StripIdempotent(p.nombre);
      var c := if p.caracteristicas.Some? && p.caracteristicas.value != "" then
                 StripIdempotent(p.caracteristicas.value);
                 Some(Strip(p.caracteristicas.value))
               else p.caracteristicas;
      Ok(p.(nombre := Strip(p.nombre), caracteristicas := c))
  }

  /** The records `validate()` leaves unchanged are exactly the normalized ones. */
  lemma ValidatedFixedPoints(p: ProductoRec)
    ensures Validated(p) == Ok(p) <==> Normalized(p)
  {
  }

  /** Validating a second time changes nothing. */
  lemma ValidatedIdempotent(p: ProductoRec)
    requires Validated(p).Ok?
    ensures Validated(Validated(p).value) == Validated(p)
  {
    ValidatedFixedPoints(Validated(p).value);
  }

  /** `has_caracteristicas()`: a description is present and not empty. */
  predicate HasCaracteristicas(p: ProductoRec) {
    p.caracteristicas.Some? && |p.caracteristicas.value| > 0
  }

  /** `s` holds a character other than whitespace. */
  predicate NotBlank(s: string) {
    exists k :: 0 <= k < |s| && !IsSpace(s[k])
  }

  /** A string strips to nothing exactly when it is all whitespace. */
  lemma StripEmptyIffBlank(s: string)
    ensures Strip(s) == [] <==> !NotBlank(s)
  {
    var i :| CutAt(s, Strip(s), i);
    if Strip(s) != [] {
      assert s[i] == Strip(s)[0];
    }
  }

  /** After validation a product has a description exactly when it had a non-blank one. */
  lemma ValidatedHasCaracteristicas(p: ProductoRec)
    requires Validated(p).Ok?
    ensures HasCaracteristicas(Validated(p).value) <==> p.caracteristicas.Some? && NotBlank(p.caracteristicas.value)
  {
    if p.caracteristicas.Some? {
      StripEmptyIffBlank(p.caracteristicas.value);
    }
  }

  /**
   * `update_info(nombre, caracteristicas, empresa_nit)`: each given value is
   * assigned, updated_at becomes now, then `validate()` runs; a failed
   * validation leaves the assigned values in place.
   */
  function InfoUpdated(p: ProductoRec, nombre: Option<string>, caracteristicas: Option<string>,
                       empresaNit: Option<Nit>, now: Instant): (s: Step<ProductoRec>)
    ensures s.state.codigo == p.codigo && s.state.createdAt == p.createdAt
    ensures s.state.createdById == p.createdById && s.state.updatedAt == now
    ensures s.state.empresaNit == ValueOr(empresaNit, p.empresaNit)
    ensures s.outcome == Pass <==> |Strip(ValueOr(nombre, p.nombre))| >= 2
    ensures s.outcome == Pass ==>
              && s.state.nombre == Strip(ValueOr(nombre, p.nombre))
              && s.state.caracteristicas == StrippedOption(if caracteristicas.Some? then caracteristicas else p.caracteristicas)
    ensures s.outcome.Fail? ==>
              && s.state.nombre == ValueOr(nombre, p.nombre)
              && s.state.caracteristicas == (if caracteristicas.Some? then caracteristicas else p.caracteristicas)
    ensures s.outcome.Fail? ==> s.outcome.error == ValidationError(ProductoNombreTooShort)
  {
    var given := p.(nombre := ValueOr(nombre, p.nombre),
                    caracteristicas := if caracteristicas.Some? then caracteristicas else p.caracteristicas,
                    empresaNit := ValueOr(empresaNit, p.empresaNit),
                    updatedAt := now);
    Committed(given, Validated(given))
  }

  /** `change_empresa(nit)`: moves the product to another company without re-validating. */
  function EmpresaChanged(p: ProductoRec, nit: Nit, now: Instant): (r: ProductoRec)
    ensures r.empresaNit == nit && r.updatedAt == now
    ensures r.(empresaNit := p.empresaNit, updatedAt := p.updatedAt) == p
  {
    p.(empresaNit := nit, updatedAt := now)
  }

  /** On a valid product, `change_empresa(n)` and `update_info(empresa_nit=n)` agree. */
  lemma ChangeEmpresaIsUpdate(p: ProductoRec, nit: Nit, now: Instant)
    requires Normalized(p)
    ensures InfoUpdated(p, None, None, Some(nit), now) == Step(EmpresaChanged(p, nit, now), Pass)
  {
    ValidatedFixedPoints(EmpresaChanged(p, nit, now));
  }

  /** `__eq__`: two products are the same when their codes are, ignoring case. */
  predicate SameProducto(a: ProductoRec, b: ProductoRec) {
    SameCode(a.codigo, b.codigo)
  }

  /** Updates never change which product a record is. */
  lemma UpdateKeepsIdentity(p: ProductoRec, nombre: Option<string>, caracteristicas: Option<string>,
                            empresaNit: Option<Nit>, nit: Nit, now: Instant)
    ensures SameProducto(InfoUpdated(p, nombre, caracteristicas, empresaNit, now).state, p)
    ensures SameProducto(EmpresaChanged(p, nit, now), p)
  {
  }

  /** A product, updated in place. */
  class Producto {
    var codigo: ProductCode
    var nombre: string
    var empresaNit: Nit
    var caracteristicas: Option<string>
    var createdAt: Instant
    var updatedAt: Instant
    var createdById: Option<string>

    /** The current field values. */
    function Snapshot(): ProductoRec
      reads this
    {
      ProductoRec(codigo, nombre, empresaNit, caracteristicas, createdAt, updatedAt, createdById)
    }

    /** The dataclass field assignments, before `__post_init__` validates them. */
    constructor Init(codigo: ProductCode, nombre: string, empresaNit: Nit, caracteristicas: Option<string>,
                     createdAt: Instant, updatedAt: Instant, createdById: Option<string>)
      ensures Snapshot() == ProductoRec(codigo, nombre, empresaNit, caracteristicas, createdAt, updatedAt, createdById)
    {
      this.codigo := codigo;
      this.nombre := nombre;
      this.empresaNit := empresaNit;
      this.caracteristicas := caracteristicas;
      this.createdAt := createdAt;
      this.updatedAt := updatedAt;
      this.createdById := createdById;
    }

    /** `Producto(...)`: a fresh, validated product, or the ValidationError `__post_init__` raises. */
    static method New(codigo: ProductCode, nombre: string, empresaNit: Nit, caracteristicas: Option<string>,
                      createdAt: Instant, updatedAt: Instant, createdById: Option<string>)
      returns (r: Result<Producto>)
      ensures var v := Validated(ProductoRec(codigo, nombre, empresaNit, caracteristicas, createdAt, updatedAt, createdById));
              && (r.Ok? <==> v.Ok?)
              && (r.Ok? ==> fresh(r.value) && r.value.Snapshot() == v.value)
              && (r.Err? ==> r.error == v.error)
    {
      var p := new Producto.Init(codigo, nombre, empresaNit, caracteristicas, createdAt, updatedAt, createdById);
      var o := p.Validate();
      if o.Fail? {
        return Err(o.error);
      }
      return Ok(p);
    }

    method Validate() returns (o: Outcome)
      modifies this
      ensures Step(Snapshot(), o) == Committed(old(Snapshot()), Validated(old(Snapshot())))
    {
      var r := Validated(Snapshot());
      if r.Err? {
        return Fail(r.error);
      }
      nombre := r.value.nombre;
      caracteristicas := r.value.caracteristicas;
      assert Snapshot() == r.value;
      o := Pass;
    }

    method UpdateInfo(nombre: Option<string>, caracteristicas: Option<string>,
                      empresaNit: Option<Nit>, now: Instant) returns (o: Outcome)
      modifies this
      ensures Step(Snapshot(), o) == InfoUpdated(old(Snapshot()), nombre, caracteristicas, empresaNit, now)
    {
      if nombre.Some? {
        this.nombre := nombre.value;
      }
      if caracteristicas.Some? {
        this.caracteristicas := caracteristicas;
      }
      if empresaNit.Some? {
        this.empresaNit := empresaNit.value;
      }
      updatedAt := now;
      ghost var given := Snapshot();
      assert given == old(Snapshot()).(nombre := ValueOr(nombre, old(this.nombre)),
                                       caracteristicas := if caracteristicas.Some? then caracteristicas
                                                          else old(this.caracteristicas),
                                       empresaNit := ValueOr(empresaNit, old(this.empresaNit)),
                                       updatedAt := now);
      o := Validate();
      assert Step(Snapshot(), o) == Committed(given, Validated(given));
    }

    method ChangeEmpresa(nit: Nit, now: Instant)
      modifies this
      ensures Snapshot() == EmpresaChanged(old(Snapshot()), nit, now)
    {
      empresaNit := nit;
      updatedAt := now;
    }
  }
}
