/** The `productos` table behind `ProductoRepository`: rows numbered by an identity column. */
module ProductoRepository {
  import opened Wrappers

  /**
   * `BigDecimal`, as the value unscaled * 10^(-scale). The services only copy
   * prices, so the model compares them for equality only.
   */
  datatype BigDecimal = BigDecimal(unscaled: int, scale: int)

  /** `ProductoEntity`: `id` is absent until the row is first saved. */
  datatype ProductoEntity = ProductoEntity(id: Option<int>, nombre: string, descripcion: string, precio: BigDecimal)

  /** Every row has an identifier, positive, below the next one to hand out, and distinct from the others. */
  predicate WellFormed(products: seq<ProductoEntity>, nextId: int) {
    && (forall i :: 0 <= i < |products| ==> products[i].id.Some? && 1 <= products[i].id.value < nextId)
    && (forall i, j :: 0 <= i < j < |products| ==> products[i].id != products[j].id)
  }

  /** `findById`: the row with the identifier, if there is one. */
  function FindById(products: seq<ProductoEntity>, id: int): (r: Option<ProductoEntity>)
    ensures r.Some? ==> r.value in products && r.value.id == Some(id)
    ensures r.None? <==> forall i :: 0 <= i < |products| ==> products[i].id != Some(id)
  {
    if products == [] then None
    else if products[0].id == Some(id) then Some(products[0])
    else FindById(products[1..], id)
  }

  /** In a well-formed table a row is the one `FindById` finds for its identifier. */
  lemma FindByIdFindsRow(products: seq<ProductoEntity>, nextId: int, i: int)
    requires WellFormed(products, nextId)
    requires 0 <= i < |products|
    ensures FindById(products, products[i].id.value) == Some(products[i])
  {
  }

  /**
   * The repository as the service sees it; `saved` records the entities
   * passed to `save`, in order, so that contracts can count those calls.
   */
  class Repository {
    var products: seq<ProductoEntity>
    var nextId: int
    ghost var saved: seq<ProductoEntity>

    ghost predicate Valid()
      reads this
    {
      1 <= nextId && WellFormed(products, nextId)
    }

    /** An empty table whose identity column starts at 1. */
    constructor ()
      ensures Valid()
      ensures products == [] && nextId == 1 && saved == []
    {
      products := [];
      nextId := 1;
      saved := [];
    }

    /** `save` of a new entity: it is inserted, and returned, with the next identifier. */
    method Save(entity: ProductoEntity) returns (guardado: ProductoEntity)
      requires Valid()
      requires entity.id.None?
      modifies this
      ensures Valid()
      ensures guardado == entity.(id := Some(old(nextId)))
      ensures products == old(products) + [guardado] && nextId == old(nextId) + 1
      ensures saved == old(saved) + [entity]
    {
      guardado := entity.(id := Some(nextId));
      products := products + [guardado];
      nextId := nextId + 1;
      saved := saved + [entity];
    }
  }
}
