# Inventory and product services — a Dafny model

This project models the core of a pair of Spring services:

- the **inventory service**'s `InventarioServiceImpl`, which asks the product
  service whether a product exists before it reads or writes its own stock
  table, folds every way that call can fail into one
  `RecursoNoEncontradoException` whose message names the failure, inserts
  stock records (`actualizarCantidadInventario`) and debits them
  (`comprarProducto`);
- the **product service**'s `ProductoServiceImpl` (create, get by id, list);
- the product service's `ApiKeyFilter` (documentation paths are exempt, every
  other request needs the configured `x-api-key`).

Layout:

- `wrappers.dfy` — `Option` and `Outcome`: a value, or one of the exceptions the
  services throw (`NotFound` for `RecursoNoEncontradoException`,
  `IllegalArgument`, `DataIntegrityViolation` for a row the table's uniqueness
  constraint refuses). `Outcome` is failure-compatible, so `:-` propagates an
  exception the way a throwing call does.
- `java_lang.dfy` — Java `int` subtraction with 32-bit wrap-around, and the
  decimal form of a `Long` in string concatenation, with its inverse.
- `inventario_repository.dfy` — the `inventarios` table: rows, the identity
  counter, the uniqueness constraint on `producto_id`, and a `Repository` class
  whose ghost `calls` log records every `findByProductoId` and `save`.
- `inventario_service.dfy` — the call to the product service as an input value
  (`Exchange`: a returned response or a thrown exception), the validation as
  pure functions that follow the try/catch structure, each operation as a
  function on the table's values (`ActualizarCantidad`, `Comprar`, returning a
  `Transition`: outcome, new rows, next identifier and the repository calls
  made), the lemmas about those functions, and the `InventarioServiceImpl`
  class whose methods are proved to have exactly those effects on a
  `Repository`.
- `producto_repository.dfy`, `producto_service.dfy` — the `productos` table and
  `ProductoServiceImpl`.
- `api_key_filter.dfy` — the filter's decision as pure functions.

Behaviour worth knowing; the first three points are stated by the members and
lemmas below, the fourth is a fact about the exception handler, which is not
part of this model:

- A response that is not 2xx makes the try block throw a
  `RecursoNoEncontradoException`; the final `catch (Exception e)` catches it and
  wraps it again, so the message becomes "Error interno al validar existencia de
  producto: Error inesperado del servicio de productos al validar ID: <id>".
- `actualizarCantidadInventario` never looks for an existing record: it always
  inserts one. Since `producto_id` is declared unique (a constraint the model
  takes to be enforced), a second call for the same product is refused by the
  table (`DataIntegrityViolation`) instead of updating the quantity.
- `comprarProducto` subtracts with Java `int` arithmetic and does not reject
  negative amounts. Whenever the difference fits in an `int` (always so for a
  non-negative amount) the new quantity is old minus amount and never
  negative; buying `-1` of a product holding
  `Integer.MAX_VALUE` leaves `Integer.MIN_VALUE`.
- An `IllegalArgumentException` ("Inventario insuficiente") reaches the
  inventory service's generic exception handler, which answers 500, not 400.

## Model

| member | source | states |
|---|---|---|
| `JavaLang.IntSub` | inventario-service/src/main/java/com/miempresa/inventario/services/impl/InventarioServiceImpl.java:84 | the result is the 32-bit value congruent to the exact difference modulo 2^32, equal to it when it fits |
| `JavaLang.IntSubWithinStock` | inventario-service/src/main/java/com/miempresa/inventario/services/impl/InventarioServiceImpl.java:78-84 | taking at most a from a is exact and leaves a non-negative value whenever the difference does not pass `Integer.MAX_VALUE` |
| `JavaLang.IntSubWraps` | inventario-service/src/main/java/com/miempresa/inventario/services/impl/InventarioServiceImpl.java:84 | MAX_VALUE minus -1 wraps to MIN_VALUE |
| `JavaLang.NatToDecimal` | inventario-service/src/main/java/com/miempresa/inventario/services/impl/InventarioServiceImpl.java:118 | the digits of a non-negative number form a non-empty decimal string without a leading zero |
| `JavaLang.LongToString` | inventario-service/src/main/java/com/miempresa/inventario/services/impl/InventarioServiceImpl.java:118 | a number's text is non-empty and starts with '-' exactly when the number is negative |
| `JavaLang.DecimalRoundTrip` | inventario-service/src/main/java/com/miempresa/inventario/services/impl/InventarioServiceImpl.java:118 | reading the digits of n back gives n |
| `JavaLang.LongRoundTrip` | inventario-service/src/main/java/com/miempresa/inventario/services/impl/InventarioServiceImpl.java:118 | parsing the text of any number, negative ones included, gives the number back |
| `JavaLang.LongToStringInjective` | productos-service/src/main/java/com/miempresa/productos/services/impl/ProductoServiceImpl.java:52 | two different numbers never print the same |
| `InventarioRepository.Lookup` | inventario-service/src/main/java/com/miempresa/inventario/repositories/InventarioRepository.java:11 | finds a row holding the product when there is one, and none exactly when no row holds it |
| `InventarioRepository.UpdateRow` | inventario-service/src/main/java/com/miempresa/inventario/services/impl/InventarioServiceImpl.java:84-85 | saving a stored entity replaces the row with its identifier and leaves every other row as it was |
| `InventarioRepository.LookupFindsRow` | inventario-service/src/main/java/com/miempresa/inventario/entities/InventarioEntity.java:20-21 | with unique product ids, the lookup of a row's product returns that very row |
| `InventarioRepository.InsertKeepsWellFormed` | inventario-service/src/main/java/com/miempresa/inventario/entities/InventarioEntity.java:16-21 | inserting a new product's row under the next identifier keeps ids fresh and distinct and products unique, and the lookup then finds that row |
| `InventarioRepository.UpdateKeepsWellFormed` | inventario-service/src/main/java/com/miempresa/inventario/services/impl/InventarioServiceImpl.java:84-85 | saving a stored row back keeps the invariant and the lookup then finds the saved values |
| `InventarioRepository.Repository.FindByProductoId` | inventario-service/src/main/java/com/miempresa/inventario/repositories/InventarioRepository.java:11 | returns the lookup's answer, changes no row and logs one lookup |
| `InventarioRepository.Repository.Save` | inventario-service/src/main/java/com/miempresa/inventario/entities/InventarioEntity.java:16-21 | a new entity is inserted under the next id unless its product already has a row (refused, nothing changes); a stored entity replaces its row; one save is logged; the invariant holds afterwards |
| `InventarioService.ValidarExistenciaProducto` | inventario-service/src/main/java/com/miempresa/inventario/services/impl/InventarioServiceImpl.java:99-144 | succeeds exactly on a 2xx response, with its body unchanged; every other outcome is NotFound; a thrown exception gets its catch clause's message; a non-2xx response gets the internal-error prefix wrapped around the unexpected-status message with the product id |
| `InventarioService.FailureMessageIdentifiesKind` | inventario-service/src/main/java/com/miempresa/inventario/services/impl/InventarioServiceImpl.java:111-143 | the message's prefix always tells which catch clause produced the failure (client, server, connection, internal), and a non-2xx response counts as internal |
| `InventarioService.UnexpectedStatusNamesProduct` | inventario-service/src/main/java/com/miempresa/inventario/services/impl/InventarioServiceImpl.java:114-142 | the message for a non-2xx response starts with both prefixes and the product id can be read back from the rest |
| `InventarioService.ToDto` | inventario-service/src/main/java/com/miempresa/inventario/services/impl/InventarioServiceImpl.java:91-97 | the DTO carries the entity's id, productoId and cantidad |
| `InventarioService.ConsultarInventarioPorProductoId` | inventario-service/src/main/java/com/miempresa/inventario/services/impl/InventarioServiceImpl.java:41-46 | on a 2xx answer returns the upstream body unchanged, otherwise the validation's exception; it takes no table, so it cannot change one |
| `InventarioService.FailedValidationTouchesNothing` | inventario-service/src/main/java/com/miempresa/inventario/services/impl/InventarioServiceImpl.java:50-76 | when validation fails, update and purchase fail with its message, leave rows and counter unchanged and make no repository call |
| `InventarioService.ActualizarInsertsOneRow` | inventario-service/src/main/java/com/miempresa/inventario/services/impl/InventarioServiceImpl.java:50-63 | a validated update for a product without a row appends exactly one row with the given product and quantity (any int) under a fresh id, returns its DTO, calls save once and never findByProductoId |
| `InventarioService.ActualizarExistingProductFails` | inventario-service/src/main/java/com/miempresa/inventario/services/impl/InventarioServiceImpl.java:55-59 | a validated update for a product that already has a row is refused by the uniqueness constraint and changes nothing |
| `InventarioService.ActualizarKeepsWellFormed` | inventario-service/src/main/java/com/miempresa/inventario/services/impl/InventarioServiceImpl.java:50-63 | every update keeps the table invariant, and the only repository call it ever makes is save |
| `InventarioService.ComprarFailureWritesNothing` | inventario-service/src/main/java/com/miempresa/inventario/services/impl/InventarioServiceImpl.java:70-82 | a failed purchase leaves rows and counter unchanged and never calls save |
| `InventarioService.ComprarWithoutRow` | inventario-service/src/main/java/com/miempresa/inventario/services/impl/InventarioServiceImpl.java:72-76 | a validated purchase with no row for the product fails with "Inventario no encontrado" after exactly one lookup |
| `InventarioService.ComprarInsufficient` | inventario-service/src/main/java/com/miempresa/inventario/services/impl/InventarioServiceImpl.java:78-82 | a validated purchase fails with "Inventario insuficiente" exactly when the row holds less than asked for (equal is allowed), after one lookup and with nothing changed |
| `InventarioService.ComprarSuccess` | inventario-service/src/main/java/com/miempresa/inventario/services/impl/InventarioServiceImpl.java:84-88 | a successful purchase sets only the product's row to old minus amount (Java int), keeps its id and product, saves that same row after one lookup, returns its DTO and keeps the invariant |
| `InventarioService.ComprarTakesExactAmount` | inventario-service/src/main/java/com/miempresa/inventario/services/impl/InventarioServiceImpl.java:78-88 | a successful purchase takes exactly the amount from the product's row and leaves a non-negative quantity whenever the difference fits in an `int`, which every non-negative amount does; the saved row is what the lookup then finds |
| `InventarioService.ComprarKeepsWellFormed` | inventario-service/src/main/java/com/miempresa/inventario/services/impl/InventarioServiceImpl.java:67-89 | every purchase keeps the table invariant |
| `InventarioService.ComprarNegativeAmountWraps` | inventario-service/src/main/java/com/miempresa/inventario/services/impl/InventarioServiceImpl.java:78-84 | buying -1 of a product holding MAX_VALUE succeeds and leaves MIN_VALUE |
| `InventarioService.InventarioServiceImpl.ActualizarCantidadInventario` | inventario-service/src/main/java/com/miempresa/inventario/services/impl/InventarioServiceImpl.java:50-63 | its outcome, new rows, counter and logged repository calls are those of ActualizarCantidad, and the repository stays valid |
| `InventarioService.InventarioServiceImpl.ComprarProducto` | inventario-service/src/main/java/com/miempresa/inventario/services/impl/InventarioServiceImpl.java:67-89 | its outcome, new rows, counter and logged repository calls are those of Comprar, and the repository stays valid |
| `ProductoRepository.FindById` | productos-service/src/main/java/com/miempresa/productos/services/impl/ProductoServiceImpl.java:49 | finds a stored row with the id when there is one, and none exactly when no row has it |
| `ProductoRepository.FindByIdFindsRow` | productos-service/src/main/java/com/miempresa/productos/entities/ProductoEntity.java:20-22 | with distinct ids, looking up a row's id returns that row |
| `ProductoRepository.Repository.Save` | productos-service/src/main/java/com/miempresa/productos/services/impl/ProductoServiceImpl.java:35 | a new entity is appended under the next id and returned with it; the save is logged |
| `ProductoService.ToDto` | productos-service/src/main/java/com/miempresa/productos/services/impl/ProductoServiceImpl.java:57-62 | the DTO carries the entity's id, nombre, descripcion and precio |
| `ProductoService.ObtenerProductoPorId` | productos-service/src/main/java/com/miempresa/productos/services/impl/ProductoServiceImpl.java:47-63 | succeeds exactly when a stored product has the id, with that product's fields; otherwise NotFound("Producto no encontrado con id " + id) |
| `ProductoService.ListarProductos` | productos-service/src/main/java/com/miempresa/productos/services/impl/ProductoServiceImpl.java:66-79 | one DTO per stored product, same order, same fields; empty for an empty table |
| `ProductoService.ObtenerStored` | productos-service/src/main/java/com/miempresa/productos/services/impl/ProductoServiceImpl.java:47-62 | in a well-formed table the lookup of a stored product's id returns that product's DTO |
| `ProductoService.NotFoundMessageNamesId` | productos-service/src/main/java/com/miempresa/productos/services/impl/ProductoServiceImpl.java:52 | two not-found answers with the same message are about the same id |
| `ProductoService.ObtenerAfterCrear` | productos-service/src/main/java/com/miempresa/productos/services/impl/ProductoServiceImpl.java:30-62 | after a create, looking up the new id returns the input's fields with that id, and every other id answers as before |
| `ProductoService.ListarAfterCrear` | productos-service/src/main/java/com/miempresa/productos/services/impl/ProductoServiceImpl.java:66-79 | after a create, the listing is the old listing followed by the new product's DTO |
| `ProductoService.ProductoServiceImpl.CrearProducto` | productos-service/src/main/java/com/miempresa/productos/services/impl/ProductoServiceImpl.java:30-44 | saves exactly once, appends one row with the input's nombre, descripcion and precio under the next id, and returns those fields with that id |
| `ApiKeyFilter.ShouldNotFilter` | productos-service/src/main/java/com/miempresa/productos/config/ApiKeyFilter.java:22-28 | a path is exempt exactly when one of the four documentation prefixes starts it |
| `ApiKeyFilter.DoFilterInternal` | productos-service/src/main/java/com/miempresa/productos/config/ApiKeyFilter.java:31-43 | forwards exactly when the header equals the configured key; otherwise rejects with 401 and the fixed body, and does not forward |
| `ApiKeyFilter.Filter` | productos-service/src/main/java/com/miempresa/productos/config/ApiKeyFilter.java:22-43 | a request goes on exactly when its path is exempt or its key matches; every other is rejected with 401 and the fixed body |
| `ApiKeyFilter.ExemptionExtends` | productos-service/src/main/java/com/miempresa/productos/config/ApiKeyFilter.java:22-28 | anything under an exempt path is exempt |
| `ApiKeyFilter.DocumentationExempt` | productos-service/src/main/java/com/miempresa/productos/config/ApiKeyFilter.java:24-27 | every path under each of the four documentation prefixes is exempt |
| `ApiKeyFilter.ApiPathsRequireKey` | productos-service/src/main/java/com/miempresa/productos/config/ApiKeyFilter.java:22-40 | no path under /api/ is exempt, so without the right key such a request is rejected with 401 |

## Left out

- The HTTP call itself (URL and header construction, `RestTemplate`, the
  `@Value` configuration): the model takes what `exchange` did as the input
  `Exchange`. HTTP statuses inside exceptions are kept as the text the
  exception renders (for instance "404 NOT_FOUND").
- `RecursoNoEncontradoException.java` is not part of this model; it is taken to
  be an unchecked exception that is not a `RestClientException`, which is what
  makes the final catch clause re-wrap it.
- Logging, which has no effect on behaviour.
- `@Transactional` and concurrent requests: the model is one sequential store,
  so the race between two purchases' read-check-write is not captured.
- Controllers, JSON:API wrappers, `GlobalExceptionHandler`, `SwaggerConfig`
  and `ApiKeyFilterConfig`: framework wiring and serialisation.
- `null` values (a null product id, body, message or configured key); a
  missing `x-api-key` header is `None`.
- The 64-bit range of `Long` identifiers and of the identity counter, which the
  model leaves unbounded; whether a refused insert consumes an identifier.
- `InventarioService.ComprarTakesExactAmount`: the exact, non-negative new
  quantity is promised only when the difference fits in an `int`, because the
  source accepts any `int` amount and a negative amount can overflow the
  subtraction, which then wraps
  (`InventarioService.ComprarNegativeAmountWraps` shows the negative result).
- The database schema is not part of this model. The model assumes that the
  table enforces the `unique = true` declared on `producto_id`
  (InventarioEntity.java:20), as a schema generated from the entity does.
  Without that constraint a second `actualizarCantidadInventario` for the same
  product inserts a second row, and a later `findByProductoId` then fails
  because its result is not unique.
- `InventarioRepository.Repository.Save`: an entity that carries an identifier
  must be one the repository handed out; what JPA does when merging an unknown
  identifier is not modelled (the service never does it).
- `ProductoRepository.Repository.Save`: only new entities (without an
  identifier) are saved, which is all `crearProducto` passes in this model.
- `ProductoService.ProductoServiceImpl.CrearProducto`: an identifier already
  present in the input DTO is ignored. In the source `BeanUtils.copyProperties`
  copies it into the entity and `save` then merges that entity. When the
  identifier names a stored product, the merge copies the DTO's fields onto
  that row and the call returns that identifier, so a create request that
  carries an existing `id` overwrites that product. Only the effect of an
  identifier that names no row depends on the JPA provider.
- `findAll` is taken to return rows in insertion order; prices are compared
  with equality, not `BigDecimal.compareTo`.
- The servlet container's case-insensitive header lookup, `OncePerRequestFilter`'s
  once-per-request bookkeeping, and the response writer's character encoding.
