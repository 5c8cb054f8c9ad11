/** `ProductoServiceImpl`: create, look up by identifier, and list products. */
module ProductoService {
  import opened Wrappers
  import opened JavaLang
  import opened ProductoRepository

  /** `ProductoDto`. */
  datatype ProductoDto = ProductoDto(id: Option<int>, nombre: string, descripcion: string, precio: BigDecimal)

  const NotFoundPrefix := "Producto no encontrado con id "

  /** The DTO built from a stored entity: the same four fields. */
  function ToDto(entity: ProductoEntity): (dto: ProductoDto)
    ensures dto.id == entity.id && dto.nombre == entity.nombre
    ensures dto.descripcion == entity.descripcion && dto.precio == entity.precio
  {
    ProductoDto(entity.id, entity.nombre, entity.descripcion, entity.precio)
  }

  /**
   * `obtenerProductoPorId`: the DTO of the stored product with that
   * identifier, or `RecursoNoEncontradoException` naming the identifier.
   */
  function ObtenerProductoPorId(products: seq<ProductoEntity>, id: int): (r: Outcome<ProductoDto>)
    ensures r.Success? <==> exists i :: 0 <= i < |products| && products[i].id == Some(id)
    ensures r.Success? ==> r.value.id == Some(id) && ToDto(FindById(products, id).value) == r.value
    ensures !r.Success? ==> r == NotFound(NotFoundPrefix + LongToString(id))
  {
    match FindById(products, id)
    case Some(producto) => Success(ToDto(producto))
    case None => NotFound(NotFoundPrefix + LongToString(id))
  }

  /** `listarProductos`: one DTO per stored product, in the table's order. */
  function ListarProductos(products: seq<ProductoEntity>): (r: seq<ProductoDto>)
    ensures |r| == |products|
    ensures forall i :: 0 <= i < |products| ==> r[i] == ToDto(products[i])
  {
    if products == [] then [] else [ToDto(products[0])] + ListarProductos(products[1..])
  }

  /** In a well-formed table, looking up a stored product gives its DTO. */
  lemma ObtenerStored(products: seq<ProductoEntity>, nextId: int, i: int)
    requires WellFormed(products, nextId)
    requires 0 <= i < |products|
    ensures ObtenerProductoPorId(products, products[i].id.value) == Success(ToDto(products[i]))
  {
  }

  /** Different identifiers that are not found give different messages. */
  lemma NotFoundMessageNamesId(products: seq<ProductoEntity>, a: int, b: int)
    requires !ObtenerProductoPorId(products, a).Success?
    requires ObtenerProductoPorId(products, a) == ObtenerProductoPorId(products, b)
    ensures a == b
  {
    var m := NotFoundPrefix + LongToString(a);
    assert m[|NotFoundPrefix|..] == LongToString(a);
    assert (NotFoundPrefix + LongToString(b))[|NotFoundPrefix|..] == LongToString(b);
    LongToStringInjective(a, b);
  }

  /**
   * Creating a product and then looking it up by the identifier it was given
   * returns the created DTO; every other identifier answers as before.
   */
  lemma {:induction false} ObtenerAfterCrear(products: seq<ProductoEntity>, nextId: int, dto: ProductoDto, other: int)
    requires WellFormed(products, nextId) && 1 <= nextId
    requires other != nextId
    ensures var created := ProductoEntity(Some(nextId), dto.nombre, dto.descripcion, dto.precio);
      && WellFormed(products + [created], nextId + 1)
      && ObtenerProductoPorId(products + [created], nextId) == Success(dto.(id := Some(nextId)))
      && ObtenerProductoPorId(products + [created], other) == ObtenerProductoPorId(products, other)
  {
    var created := ProductoEntity(Some(nextId), dto.nombre, dto.descripcion, dto.precio);
    var products' := products + [created];
    assert WellFormed(products', nextId + 1);
    FindByIdFindsRow(products', nextId + 1, |products|);
    FindByIdAppend(products, created, other);
  }

  /** Appending a row with another identifier does not change what `FindById` finds. */
  lemma {:induction false} FindByIdAppend(products: seq<ProductoEntity>, row: ProductoEntity, id: int)
    requires row.id != Some(id)
    ensures FindById(products + [row], id) == FindById(products, id)
  {
    if products != [] {
      assert (products + [row])[1..] == products[1..] + [row];
      FindByIdAppend(products[1..], row, id);
    }
  }

  /** Creating a product adds its DTO at the end of the listing and changes nothing before it. */
  lemma ListarAfterCrear(products: seq<ProductoEntity>, created: ProductoEntity)
    ensures ListarProductos(products + [created]) == ListarProductos(products) + [ToDto(created)]
  {
  }

  class ProductoServiceImpl {
    const repository: Repository

    constructor (repository: Repository)
      ensures this.repository == repository
    {
      this.repository := repository;
    }

    /**
     * `crearProducto`: saves one new entity with the DTO's name, description
     * and price, and returns them with the identifier the save assigned.
     */
    method CrearProducto(productoDto: ProductoDto) returns (r: ProductoDto)
      requires repository.Valid()
      modifies repository
      ensures repository.Valid()
      ensures r == productoDto.(id := Some(old(repository.nextId)))
      ensures repository.products == old(repository.products) + [ProductoEntity(r.id, r.nombre, r.descripcion, r.precio)]
      ensures repository.nextId == old(repository.nextId) + 1
      ensures repository.saved == old(repository.saved)
        + [ProductoEntity(None, productoDto.nombre, productoDto.descripcion, productoDto.precio)]
    {
      var producto := ProductoEntity(None, productoDto.nombre, productoDto.descripcion, productoDto.precio);
      var guardado := repository.Save(producto);
      r := ProductoDto(guardado.id, guardado.nombre, guardado.descripcion, guardado.precio);
    }
  }

  /** Creating two products and reading them back, as the service's tests do. */
  method CatalogScenario() {
    var repository := new Repository();
    var service := new ProductoServiceImpl(repository);
    assert ListarProductos(repository.products) == [];
    var teclado := service.CrearProducto(ProductoDto(None, "Teclado", "Teclado RGB", BigDecimal(10000, 2)));
    var mouse := service.CrearProducto(ProductoDto(None, "Mouse", "Mouse inalambrico", BigDecimal(5000, 2)));
    assert teclado.id == Some(1) && mouse.id == Some(2);
    assert ListarProductos(repository.products) == [teclado, mouse];
    ObtenerStored(repository.products, repository.nextId, 1);
    assert ObtenerProductoPorId(repository.products, 2) == Success(mouse);
    assert ObtenerProductoPorId(repository.products, 99) == NotFound(NotFoundPrefix + LongToString(99));
  }
}
