/**
 * The `inventarios` table behind `InventarioRepository`: one row per stock
 * record, an identity column that numbers new rows, and a uniqueness
 * constraint on `producto_id`.
 */
module InventarioRepository {
  import opened Wrappers
  import opened JavaLang

  /** `InventarioEntity`: `id` is absent until the row is first saved. */
  datatype InventarioEntity = InventarioEntity(id: Option<int>, productoId: int, cantidad: Int32)

  /** A call the service makes on the repository, recorded so that contracts can say which calls happen. */
  datatype RepoCall = FindByProductoIdCall(productoId: int) | SaveCall(entity: InventarioEntity)

  /**
   * The table's invariant: every row has an identifier, identifiers are
   * positive, below the next one to hand out and distinct, and no two rows
   * hold the same product.
   */
  predicate WellFormed(rows: seq<InventarioEntity>, nextId: int) {
    && (forall i :: 0 <= i < |rows| ==> rows[i].id.Some? && 1 <= rows[i].id.value < nextId)
    && (forall i, j :: 0 <= i < j < |rows| ==> rows[i].id != rows[j].id)
    && (forall i, j :: 0 <= i < j < |rows| ==> rows[i].productoId != rows[j].productoId)
  }

  /** `findByProductoId`: the row holding the product, if there is one. */
  function Lookup(rows: seq<InventarioEntity>, productoId: int): (r: Option<InventarioEntity>)
    ensures r.Some? ==> r.value in rows && r.value.productoId == productoId
    ensures r.None? <==> forall i :: 0 <= i < |rows| ==> rows[i].productoId != productoId
  {
    if rows == [] then None
    else if rows[0].productoId == productoId then Some(rows[0])
    else Lookup(rows[1..], productoId)
  }

  /** Whether `entity` is the saved form of an existing row: same identifier, same product. */
  predicate IsStored(rows: seq<InventarioEntity>, entity: InventarioEntity) {
    exists i :: 0 <= i < |rows| && rows[i].id == entity.id && rows[i].productoId == entity.productoId
  }

  /** Saving an entity that already has an identifier: the row with that identifier takes its values. */
  function UpdateRow(rows: seq<InventarioEntity>, entity: InventarioEntity): (r: seq<InventarioEntity>)
    ensures |r| == |rows|
    ensures forall i :: 0 <= i < |rows| ==> r[i] == if rows[i].id == entity.id then entity else rows[i]
  {
    if rows == [] then []
    else [if rows[0].id == entity.id then entity else rows[0]] + UpdateRow(rows[1..], entity)
  }

  /** In a well-formed table the product's row is the one `Lookup` finds. */
  lemma LookupFindsRow(rows: seq<InventarioEntity>, nextId: int, i: int)
    requires WellFormed(rows, nextId)
    requires 0 <= i < |rows|
    ensures Lookup(rows, rows[i].productoId) == Some(rows[i])
  {
  }

  /** Inserting a new product's row keeps the invariant, and `Lookup` then finds that row. */
  lemma InsertKeepsWellFormed(rows: seq<InventarioEntity>, nextId: int, productoId: int, cantidad: Int32)
    requires WellFormed(rows, nextId) && 1 <= nextId
    requires Lookup(rows, productoId).None?
    ensures var row := InventarioEntity(Some(nextId), productoId, cantidad);
      && WellFormed(rows + [row], nextId + 1)
      && Lookup(rows + [row], productoId) == Some(row)
  {
    var row := InventarioEntity(Some(nextId), productoId, cantidad);
    var rows' := rows + [row];
    assert WellFormed(rows', nextId + 1);
    LookupFindsRow(rows', nextId + 1, |rows|);
  }

  /**
   * Saving a stored row with new values keeps the invariant, and `Lookup`
   * then finds the saved values.
   */
  lemma UpdateKeepsWellFormed(rows: seq<InventarioEntity>, nextId: int, entity: InventarioEntity)
    requires WellFormed(rows, nextId)
    requires IsStored(rows, entity)
    ensures WellFormed(UpdateRow(rows, entity), nextId)
    ensures Lookup(UpdateRow(rows, entity), entity.productoId) == Some(entity)
  {
    var k :| 0 <= k < |rows| && rows[k].id == entity.id && rows[k].productoId == entity.productoId;
    var rows' := UpdateRow(rows, entity);
    assert rows'[k] == entity;
    forall i | 0 <= i < |rows'|
      ensures rows'[i].id == rows[i].id && rows'[i].productoId == rows[i].productoId
    {
    }
    assert WellFormed(rows', nextId);
    LookupFindsRow(rows', nextId, k);
  }

  /**
   * The repository as the service sees it. `calls` records, in order, the
   * calls made on it; it exists only so that contracts can say that a call
   * was or was not made.
   */
  class Repository {
    var rows: seq<InventarioEntity>
    var nextId: int
    ghost var calls: seq<RepoCall>

    ghost predicate Valid()
      reads this
    {
      1 <= nextId && WellFormed(rows, nextId)
    }

    /** An empty table whose identity column starts at 1. */
    constructor ()
      ensures Valid()
      ensures rows == [] && nextId == 1 && calls == []
    {
      rows := [];
      nextId := 1;
      calls := [];
    }

    /** `findByProductoId`: reads only. */
    method FindByProductoId(productoId: int) returns (found: Option<InventarioEntity>)
      requires Valid()
      modifies this`calls
      ensures found == Lookup(rows, productoId)
      ensures calls == old(calls) + [FindByProductoIdCall(productoId)]
    {
      found := Lookup(rows, productoId);
      calls := calls + [FindByProductoIdCall(productoId)];
    }

    /**
     * `save`. An entity without an identifier is inserted with the next
     * identifier, unless its product already has a row, which the uniqueness
     * constraint refuses (`None`). An entity with an identifier is one this
     * repository handed out; its row takes the entity's values.
     */
    method Save(entity: InventarioEntity) returns (saved: Option<InventarioEntity>)
      requires Valid()
      requires entity.id.Some? ==> IsStored(rows, entity)
      modifies this
      ensures Valid()
      ensures calls == old(calls) + [SaveCall(entity)]
      ensures entity.id.None? && Lookup(old(rows), entity.productoId).Some? ==>
        saved.None? && rows == old(rows) && nextId == old(nextId)
      ensures entity.id.None? && Lookup(old(rows), entity.productoId).None? ==>
        && saved == Some(entity.(id := Some(old(nextId))))
        && rows == old(rows) + [saved.value]
        && nextId == old(nextId) + 1
      ensures entity.id.Some? ==>
        saved == Some(entity) && rows == UpdateRow(old(rows), entity) && nextId == old(nextId)
    {
      calls := calls + [SaveCall(entity)];
      if entity.id.None? {
        if Lookup(rows, entity.productoId).Some? {
          saved := None;
        } else {
          InsertKeepsWellFormed(rows, nextId, entity.productoId, entity.cantidad);
          var row := entity.(id := Some(nextId));
          rows := rows + [row];
          nextId := nextId + 1;
          saved := Some(row);
        }
      } else {
        UpdateKeepsWellFormed(rows, nextId, entity);
        rows := UpdateRow(rows, entity);
        saved := Some(entity);
      }
    }
  }
}
