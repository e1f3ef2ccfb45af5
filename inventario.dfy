/**
 * The Inventario entity: the stock of one product held by one company,
 * identified by the (empresa_nit, producto_codigo) pair and optionally by a
 * surrogate id. Stock moves in place through add_stock, remove_stock and
 * update_stock; the other members are pure reads.
 */
module InventarioEntity {
  import opened Wrappers
  import opened Clock
  import opened Exceptions
  import opened ValueObjects

  /** The fields of an Inventario. */
  datatype InventarioRec = InventarioRec(
    id: Option<nat>,
    empresaNit: Nit,
    productoCodigo: ProductCode,
    cantidad: Quantity,
    createdAt: Instant,
    updatedAt: Instant)

  /** The default threshold of `is_low_stock`. */
  const DefaultThreshold: int := 10

  /** `is_low_stock(threshold)`: strictly below the threshold. */
  predicate IsLowStock(inv: InventarioRec, threshold: int) {
    inv.cantidad.value < threshold
  }

  /** `is_out_of_stock()`. */
  predicate IsOutOfStock(inv: InventarioRec) {
    inv.cantidad.value == 0
  }

  /** `can_fulfill_order(required)`. */
  predicate CanFulfillOrder(inv: InventarioRec, required: Quantity) {
    IsSufficient(inv.cantidad, required)
  }

  datatype StockStatus = Agotado | Bajo | Medio | Alto

  /** The string `get_stock_status()` returns. */
  function StatusName(s: StockStatus): string {
    match s
    case Agotado => "AGOTADO"
    case Bajo => "BAJO"
    case Medio => "MEDIO"
    case Alto => "ALTO"
  }

  /**
   * `get_stock_status()`: AGOTADO for 0, BAJO for 1 to 9, MEDIO for 10 to 49,
   * ALTO from 50 on.
   */
  function GetStockStatus(inv: InventarioRec): (s: StockStatus)
    ensures s == Agotado <==> inv.cantidad.value == 0
    ensures s == Bajo <==> 1 <= inv.cantidad.value <= 9
    ensures s == Medio <==> 10 <= inv.cantidad.value <= 49
    ensures s == Alto <==> inv.cantidad.value >= 50
  {
    var qty := inv.cantidad.value;
    if qty == 0 then Agotado
    else if qty < 10 then Bajo
    else if qty < 50 then Medio
    else Alto
  }

  /** The position of a status on the scale AGOTADO < BAJO < MEDIO < ALTO. */
  function Rank(s: StockStatus): nat {
    match s
    case Agotado => 0
    case Bajo => 1
    case Medio => 2
    case Alto => 3
  }

  /** More stock never gives a lower status. */
  lemma StatusMonotone(a: InventarioRec, b: InventarioRec)
    requires a.cantidad.value <= b.cantidad.value
    ensures Rank(GetStockStatus(a)) <= Rank(GetStockStatus(b))
  {
  }

  /** The four status names are distinct. */
  lemma StatusNamesDistinct(s: StockStatus, t: StockStatus)
    ensures StatusName(s) == StatusName(t) <==> s == t
  {
    if s != t {
      assert StatusName(s)[0] != StatusName(t)[0] || StatusName(s)[1] != StatusName(t)[1];
    }
  }

  /** Out of stock is low stock under the default threshold. */
  lemma OutOfStockIsLowStock(inv: InventarioRec)
    ensures IsOutOfStock(inv) ==> IsLowStock(inv, DefaultThreshold)
  {
  }

  /** Low stock under the default threshold is exactly the AGOTADO and BAJO statuses. */
  lemma LowStockIsAgotadoOrBajo(inv: InventarioRec)
    ensures IsLowStock(inv, DefaultThreshold) <==> GetStockStatus(inv) == Agotado || GetStockStatus(inv) == Bajo
  {
  }

  /**
   * `__eq__`: the same company NIT and the same product code (case-insensitive,
   * through ProductCode); id, quantity and timestamps are ignored.
   */
  predicate SameInventario(a: InventarioRec, b: InventarioRec) {
    a.empresaNit == b.empresaNit && SameCode(a.productoCodigo, b.productoCodigo)
  }

  /** Stock movements keep a record equal to what it was. */
  lemma MovementsKeepIdentity(inv: InventarioRec, q: Quantity, now: Instant)
    ensures SameInventario(AddedStock(inv, q, now), inv)
    ensures SameInventario(UpdatedStock(inv, q, now), inv)
    ensures RemovedStock(inv, q, now).Ok? ==> SameInventario(RemovedStock(inv, q, now).value, inv)
  {
  }

  /** `add_stock(q)`: the quantity grows by q and updated_at is now; nothing else changes. */
  function AddedStock(inv: InventarioRec, q: Quantity, now: Instant): (r: InventarioRec)
    ensures r.cantidad.value == inv.cantidad.value + q.value
    ensures r.(cantidad := inv.cantidad, updatedAt := inv.updatedAt) == inv
    ensures r.updatedAt == now
  {
    inv.(cantidad := Add(inv.cantidad, q), updatedAt := now)
  }

  /**
   * `remove_stock(q)`: an InsufficientStockError reporting both amounts when
   * q exceeds the stock (checked before `subtract`, so never the
   * ValidationError of Quantity); otherwise the stock drops by q.
   */
  function RemovedStock(inv: InventarioRec, q: Quantity, now: Instant): (r: Result<InventarioRec>)
    ensures r.Ok? <==> CanFulfillOrder(inv, q)
    ensures r.Err? ==> r.error == InsufficientStockError(inv.cantidad.value, q.value)
    ensures r.Ok? ==> r.value.cantidad.value == inv.cantidad.value - q.value
    ensures r.Ok? ==> r.value.(cantidad := inv.cantidad, updatedAt := inv.updatedAt) == inv
    ensures r.Ok? ==> r.value.updatedAt == now
  {
    if !IsSufficient(inv.cantidad, q) then
      Err(InsufficientStockError(inv.cantidad.value, q.value))
    else
      Ok(inv.(cantidad := Subtract(inv.cantidad, q).value, updatedAt := now))
  }

  /** `update_stock(q)`: the quantity is overwritten with q, whatever it was. */
  function UpdatedStock(inv: InventarioRec, q: Quantity, now: Instant): (r: InventarioRec)
    ensures r.cantidad == q
    ensures r.(cantidad := inv.cantidad, updatedAt := inv.updatedAt) == inv
    ensures r.updatedAt == now
  {
    inv.(cantidad := q, updatedAt := now)
  }

  /** Removing what was just added restores the quantity. */
  lemma RemoveUndoesAdd(inv: InventarioRec, q: Quantity, t1: Instant, t2: Instant)
    ensures RemovedStock(AddedStock(inv, q, t1), q, t2) == Ok(inv.(updatedAt := t2))
  {
    SubtractUndoesAdd(inv.cantidad, q);
  }

  /** Overwriting is not additive: the last update wins. */
  lemma UpdateStockOverwrites(inv: InventarioRec, a: Quantity, b: Quantity, t1: Instant, t2: Instant)
    ensures UpdatedStock(UpdatedStock(inv, a, t1), b, t2) == UpdatedStock(inv, b, t2)
  {
  }

  /** A stock record, updated in place. */
  class Inventario {
    var id: Option<nat>
    var empresaNit: Nit
    var productoCodigo: ProductCode
    var cantidad: Quantity
    var createdAt: Instant
    var updatedAt: Instant

    /** The current field values. */
    function Snapshot(): InventarioRec
      reads this
    {
      InventarioRec(id, empresaNit, productoCodigo, cantidad, createdAt, updatedAt)
    }

    /** The dataclass constructor; `validate()` has nothing to check beyond Quantity's own rule. */
    constructor (id: Option<nat>, empresaNit: Nit, productoCodigo: ProductCode,
                 cantidad: Quantity, createdAt: Instant, updatedAt: Instant)
      ensures Snapshot() == InventarioRec(id, empresaNit, productoCodigo, cantidad, createdAt, updatedAt)
    {
      this.id := id;
      this.empresaNit := empresaNit;
      this.productoCodigo := productoCodigo;
      this.cantidad := cantidad;
      this.createdAt := createdAt;
      this.updatedAt := updatedAt;
    }

    method AddStock(q: Quantity, now: Instant)
      modifies this
      ensures Snapshot() == AddedStock(old(Snapshot()), q, now)
    {
      cantidad := Add(cantidad, q);
      updatedAt := now;
    }

    /** Raises (returns Fail) before touching any field when the stock is insufficient. */
    method RemoveStock(q: Quantity, now: Instant) returns (o: Outcome)
      modifies this
      ensures Step(Snapshot(), o) == Committed(old(Snapshot()), RemovedStock(old(Snapshot()), q, now))
    {
      if !IsSufficient(cantidad, q) {
        return Fail(InsufficientStockError(cantidad.value, q.value));
      }
      cantidad := Subtract(cantidad, q).value;
      updatedAt := now;
      o := Pass;
    }

    method UpdateStock(q: Quantity, now: Instant)
      modifies this
      ensures Snapshot() == UpdatedStock(old(Snapshot()), q, now)
    {
      cantidad := q;
      updatedAt := now;
    }
  }
}
