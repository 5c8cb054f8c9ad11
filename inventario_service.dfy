/**
 * `InventarioServiceImpl`: every operation first asks the product service
 * whether the product exists, and only then touches the inventory table.
 */
module InventarioService {
  import opened Wrappers
  import opened JavaLang
  import opened InventarioRepository

  // ---------------------------------------------------------------------
  // The call to the product service
  // ---------------------------------------------------------------------

  /**
   * What `restTemplate.exchange(GET {url}/productos/{id})` did: it returned a
   * response (status code and body), or it threw.
   */
  datatype Exchange = Returned(code: int, body: string) | Threw(exception: Thrown)

  /**
   * The exceptions `validarExistenciaProducto` tells apart, in the order of
   * its catch clauses. `status` is the HTTP status as the exception renders
   * it (for instance "404 NOT_FOUND"). `RuntimeException` stands for every
   * exception that is not a `RestClientException`, including the service's
   * own `RecursoNoEncontradoException`.
   */
  datatype Thrown =
    | HttpClientErrorException(status: string, body: string)
    | HttpServerErrorException(status: string, body: string)
    | RestClientException(message: string)
    | RuntimeException(message: string)

  // The messages of the catch clauses and of the try block's own exception.
  const ClientErrorPrefix := "Error del servicio de productos: "
  const ClientErrorDetail := "Error del cliente al consultar MSProducto (HTTP "
  const ServerErrorPrefix := "Error del servicio de productos (servidor): "
  const ServerErrorDetail := "Error del servidor al consultar MSProducto (HTTP "
  const ConnectionErrorPrefix := "No se pudo conectar con el servicio de productos: "
  const InternalErrorPrefix := "Error interno al validar existencia de producto: "
  const UnexpectedStatusPrefix := "Error inesperado del servicio de productos al validar ID: "
  const InventoryNotFoundMessage := "Inventario no encontrado"
  const InsufficientInventoryMessage := "Inventario insuficiente"

  /** `HttpStatusCode.is2xxSuccessful`. */
  predicate Is2xx(code: int) {
    200 <= code <= 299
  }

  /** What the try block ends with: the body it returns, or the exception leaving it. */
  datatype TryResult = Returns(body: string) | Raises(exception: Thrown)

  /**
   * The try block of `validarExistenciaProducto`. A response that is not 2xx
   * makes the block itself throw a `RecursoNoEncontradoException`, which is
   * not a `RestClientException` and so reaches the last catch clause.
   */
  function TryExchange(productoId: int, exchange: Exchange): TryResult {
    match exchange
    case Returned(code, body) =>
      if Is2xx(code) then Returns(body)
      else Raises(RuntimeException(UnexpectedStatusPrefix + LongToString(productoId)))
    case Threw(e) => Raises(e)
  }

  /** The message of the `RecursoNoEncontradoException` each catch clause throws. */
  function CatchMessage(e: Thrown): string {
    match e
    case HttpClientErrorException(status, body) =>
      ClientErrorPrefix + ClientErrorDetail + status + "): " + body
    case HttpServerErrorException(status, body) =>
      ServerErrorPrefix + ServerErrorDetail + status + "): " + body
    case RestClientException(message) => ConnectionErrorPrefix + message
    case RuntimeException(message) => InternalErrorPrefix + message
  }

  /**
   * `validarExistenciaProducto`: the body of a 2xx response, or a
   * `RecursoNoEncontradoException` whatever else happened.
   */
  function ValidarExistenciaProducto(productoId: int, exchange: Exchange): (r: Outcome<string>)
    ensures r.Success? <==> exchange.Returned? && Is2xx(exchange.code)
    ensures r.Success? ==> r.value == exchange.body
    ensures r.Success? || r.NotFound?
    ensures exchange.Threw? ==> r == NotFound(CatchMessage(exchange.exception))
    ensures exchange.Returned? && !Is2xx(exchange.code) ==>
      r == NotFound(InternalErrorPrefix + UnexpectedStatusPrefix + LongToString(productoId))
  {
    match TryExchange(productoId, exchange)
    case Returns(body) => Success(body)
    case Raises(e) => NotFound(CatchMessage(e))
  }

  /** The catch clause that produces the failure, as a category a reader of the message can tell apart. */
  datatype FailureKind = ClientFailure | ServerFailure | ConnectionFailure | InternalFailure

  /** Which category the exchange falls in; `None` when the product was found. */
  function ExpectedKind(exchange: Exchange): Option<FailureKind> {
    match exchange
    case Returned(code, _) => if Is2xx(code) then None else Some(InternalFailure)
    case Threw(HttpClientErrorException(_, _)) => Some(ClientFailure)
    case Threw(HttpServerErrorException(_, _)) => Some(ServerFailure)
    case Threw(RestClientException(_)) => Some(ConnectionFailure)
    case Threw(RuntimeException(_)) => Some(InternalFailure)
  }

  /** The category a message announces by its first words. */
  function KindOfMessage(m: string): Option<FailureKind> {
    if ServerErrorPrefix <= m then Some(ServerFailure)
    else if ClientErrorPrefix <= m then Some(ClientFailure)
    else if ConnectionErrorPrefix <= m then Some(ConnectionFailure)
    else if InternalErrorPrefix <= m then Some(InternalFailure)
    else None
  }

  /** A string that differs from `q` at a position inside both does not extend `q`. */
  lemma NotPrefixAt(q: string, p: string, s: string, i: nat)
    requires i < |p| && i < |q| && p[i] != q[i]
    ensures !(q <= p + s)
  {
    assert (p + s)[i] == p[i];
  }

  /** The message of the client-error catch clause is read as a client failure. */
  lemma ClientMessageKind(status: string, body: string)
    ensures KindOfMessage(CatchMessage(HttpClientErrorException(status, body))) == Some(ClientFailure)
  {
    var rest := ClientErrorDetail + status + "): " + body;
    assert CatchMessage(HttpClientErrorException(status, body)) == ClientErrorPrefix + rest;
    NotPrefixAt(ServerErrorPrefix, ClientErrorPrefix, rest, 31);
  }

  /** The message of the server-error catch clause is read as a server failure. */
  lemma ServerMessageKind(status: string, body: string)
    ensures KindOfMessage(CatchMessage(HttpServerErrorException(status, body))) == Some(ServerFailure)
  {
    var rest := ServerErrorDetail + status + "): " + body;
    assert CatchMessage(HttpServerErrorException(status, body)) == ServerErrorPrefix + rest;
  }

  /** The message of the connection-failure catch clause is read as a connection failure. */
  lemma ConnectionMessageKind(message: string)
    ensures KindOfMessage(CatchMessage(RestClientException(message))) == Some(ConnectionFailure)
  {
    NotPrefixAt(ServerErrorPrefix, ConnectionErrorPrefix, message, 35);
    NotPrefixAt(ClientErrorPrefix, ConnectionErrorPrefix, message, 32);
  }

  /** The message of the catch-all clause is read as an internal failure. */
  lemma InternalMessageKind(message: string)
    ensures KindOfMessage(CatchMessage(RuntimeException(message))) == Some(InternalFailure)
  {
    NotPrefixAt(ServerErrorPrefix, InternalErrorPrefix, message, 41);
    NotPrefixAt(ClientErrorPrefix, InternalErrorPrefix, message, 32);
    NotPrefixAt(ConnectionErrorPrefix, InternalErrorPrefix, message, 34);
  }

  /**
   * All failures share one exception type; only the message tells them apart,
   * and it always does: its prefix names the catch clause that produced it.
   * A non-2xx response is reported as an internal error.
   */
  lemma FailureMessageIdentifiesKind(productoId: int, exchange: Exchange)
    ensures var r := ValidarExistenciaProducto(productoId, exchange);
      r.NotFound? ==> KindOfMessage(r.message) == ExpectedKind(exchange)
  {
    match TryExchange(productoId, exchange)
    case Returns(_) =>
    case Raises(e) =>
      match e
      case HttpClientErrorException(status, body) => ClientMessageKind(status, body);
      case HttpServerErrorException(status, body) => ServerMessageKind(status, body);
      case RestClientException(message) => ConnectionMessageKind(message);
      case RuntimeException(message) => InternalMessageKind(message);
  }

  /** The message for a non-2xx response names the product: its identifier can be read back from it. */
  lemma UnexpectedStatusNamesProduct(productoId: int, code: int, body: string)
    requires !Is2xx(code)
    ensures var m := ValidarExistenciaProducto(productoId, Returned(code, body)).message;
      var prefix := InternalErrorPrefix + UnexpectedStatusPrefix;
      prefix <= m && ParseLong(m[|prefix|..]) == Some(productoId)
  {
    var prefix := InternalErrorPrefix + UnexpectedStatusPrefix;
    var m := ValidarExistenciaProducto(productoId, Returned(code, body)).message;
    assert m == prefix + LongToString(productoId);
    assert m[|prefix|..] == LongToString(productoId);
    LongRoundTrip(productoId);
  }

  // ---------------------------------------------------------------------
  // The operations, on values
  // ---------------------------------------------------------------------

  /** `InventarioDto`. */
  datatype InventarioDto = InventarioDto(id: Option<int>, productoId: int, cantidad: Int32)

  /** `toDto`: the DTO carries the entity's three fields and nothing else. */
  function ToDto(entity: InventarioEntity): (dto: InventarioDto)
    ensures dto.id == entity.id && dto.productoId == entity.productoId && dto.cantidad == entity.cantidad
  {
    InventarioDto(entity.id, entity.productoId, entity.cantidad)
  }

  /**
   * The effect of one service call on the table: the outcome, the rows and
   * the next identifier afterwards, and the repository calls made, in order.
   */
  datatype Transition = Transition(
    result: Outcome<InventarioDto>,
    rows: seq<InventarioEntity>,
    nextId: int,
    calls: seq<RepoCall>)

  /** `consultarInventarioPorProductoId`: the product service's answer, passed through; the table is not consulted. */
  function ConsultarInventarioPorProductoId(productoId: int, exchange: Exchange): (r: Outcome<string>)
    ensures r.Success? <==> exchange.Returned? && Is2xx(exchange.code)
    ensures r.Success? ==> r.value == exchange.body
    ensures !r.Success? ==> r == ValidarExistenciaProducto(productoId, exchange)
  {
    ValidarExistenciaProducto(productoId, exchange)
  }

  /**
   * `actualizarCantidadInventario`: after validation, a new entity for the
   * product with the given quantity (negative ones included) is saved; no
   * existing row is looked up.
   */
  function ActualizarCantidad(
    rows: seq<InventarioEntity>, nextId: int, productoId: int, nuevaCantidad: Int32, exchange: Exchange)
    : Transition
  {
    var v := ValidarExistenciaProducto(productoId, exchange);
    if v.IsFailure() then Transition(v.PropagateFailure(), rows, nextId, [])
    else
      var entity := InventarioEntity(None, productoId, nuevaCantidad);
      if Lookup(rows, productoId).Some? then
        Transition(DataIntegrityViolation, rows, nextId, [SaveCall(entity)])
      else
        var saved := entity.(id := Some(nextId));
        Transition(Success(ToDto(saved)), rows + [saved], nextId + 1, [SaveCall(entity)])
  }

  /**
   * `comprarProducto`: after validation, the product's row is looked up; the
   * purchase fails if there is none or if it holds less than asked for, and
   * otherwise that row's quantity is decremented (with Java `int` arithmetic)
   * and the row is saved back.
   */
  function Comprar(
    rows: seq<InventarioEntity>, nextId: int, productoId: int, cantidad: Int32, exchange: Exchange)
    : Transition
  {
    var v := ValidarExistenciaProducto(productoId, exchange);
    if v.IsFailure() then Transition(v.PropagateFailure(), rows, nextId, [])
    else
      var find := [FindByProductoIdCall(productoId)];
      match Lookup(rows, productoId)
      case None => Transition(NotFound(InventoryNotFoundMessage), rows, nextId, find)
      case Some(inventario) =>
        if inventario.cantidad < cantidad then
          Transition(IllegalArgument(InsufficientInventoryMessage), rows, nextId, find)
        else
          var debited := inventario.(cantidad := IntSub(inventario.cantidad, cantidad));
          Transition(Success(ToDto(debited)), UpdateRow(rows, debited), nextId, find + [SaveCall(debited)])
  }

  // ---------------------------------------------------------------------
  // Properties of the operations
  // ---------------------------------------------------------------------

  /**
   * When the product service does not confirm the product, the update and
   * the purchase fail with the validation's exception and make no repository
   * call at all.
   */
  lemma FailedValidationTouchesNothing(
    rows: seq<InventarioEntity>, nextId: int, productoId: int, cantidad: Int32, exchange: Exchange)
    requires !ValidarExistenciaProducto(productoId, exchange).Success?
    ensures var m := ValidarExistenciaProducto(productoId, exchange).message;
      && ActualizarCantidad(rows, nextId, productoId, cantidad, exchange) == Transition(NotFound(m), rows, nextId, [])
      && Comprar(rows, nextId, productoId, cantidad, exchange) == Transition(NotFound(m), rows, nextId, [])
  {
  }

  /**
   * A confirmed update for a product without a row inserts exactly one row
   * holding the given product and quantity under a fresh identifier, returns
   * its DTO, calls `save` once and never `findByProductoId`, and keeps the
   * table's invariant.
   */
  lemma ActualizarInsertsOneRow(
    rows: seq<InventarioEntity>, nextId: int, productoId: int, nuevaCantidad: Int32, exchange: Exchange)
    requires WellFormed(rows, nextId) && 1 <= nextId
    requires ValidarExistenciaProducto(productoId, exchange).Success?
    requires Lookup(rows, productoId).None?
    ensures var t := ActualizarCantidad(rows, nextId, productoId, nuevaCantidad, exchange);
      var row := InventarioEntity(Some(nextId), productoId, nuevaCantidad);
      && t.result == Success(InventarioDto(Some(nextId), productoId, nuevaCantidad))
      && t.rows == rows + [row]
      && (forall i :: 0 <= i < |rows| ==> rows[i].id != row.id)
      && t.calls == [SaveCall(InventarioEntity(None, productoId, nuevaCantidad))]
      && WellFormed(t.rows, t.nextId)
      && Lookup(t.rows, productoId) == Some(row)
  {
    InsertKeepsWellFormed(rows, nextId, productoId, nuevaCantidad);
  }

  /**
   * A second update for a product that already has a row does not replace
   * it: the insert breaks the uniqueness constraint and the table is left as
   * it was.
   */
  lemma ActualizarExistingProductFails(
    rows: seq<InventarioEntity>, nextId: int, productoId: int, nuevaCantidad: Int32, exchange: Exchange)
    requires ValidarExistenciaProducto(productoId, exchange).Success?
    requires Lookup(rows, productoId).Some?
    ensures var t := ActualizarCantidad(rows, nextId, productoId, nuevaCantidad, exchange);
      t.result == DataIntegrityViolation && t.rows == rows && t.nextId == nextId
  {
  }

  /** Every update keeps the table's invariant, and no update ever looks a row up. */
  lemma ActualizarKeepsWellFormed(
    rows: seq<InventarioEntity>, nextId: int, productoId: int, nuevaCantidad: Int32, exchange: Exchange)
    requires WellFormed(rows, nextId) && 1 <= nextId
    ensures var t := ActualizarCantidad(rows, nextId, productoId, nuevaCantidad, exchange);
      && WellFormed(t.rows, t.nextId) && 1 <= t.nextId
      && forall i :: 0 <= i < |t.calls| ==> t.calls[i].SaveCall?
  {
    if ValidarExistenciaProducto(productoId, exchange).Success? && Lookup(rows, productoId).None? {
      InsertKeepsWellFormed(rows, nextId, productoId, nuevaCantidad);
    }
  }

  /** A failed purchase writes nothing: the table and the identifier counter are unchanged and `save` is never called. */
  lemma ComprarFailureWritesNothing(
    rows: seq<InventarioEntity>, nextId: int, productoId: int, cantidad: Int32, exchange: Exchange)
    ensures var t := Comprar(rows, nextId, productoId, cantidad, exchange);
      !t.result.Success? ==>
        t.rows == rows && t.nextId == nextId && forall i :: 0 <= i < |t.calls| ==> !t.calls[i].SaveCall?
  {
  }

  /** A confirmed purchase for a product without a row fails with "Inventario no encontrado" after one lookup. */
  lemma ComprarWithoutRow(
    rows: seq<InventarioEntity>, nextId: int, productoId: int, cantidad: Int32, exchange: Exchange)
    requires ValidarExistenciaProducto(productoId, exchange).Success?
    requires forall i :: 0 <= i < |rows| ==> rows[i].productoId != productoId
    ensures Comprar(rows, nextId, productoId, cantidad, exchange)
      == Transition(NotFound(InventoryNotFoundMessage), rows, nextId, [FindByProductoIdCall(productoId)])
  {
  }

  /**
   * A confirmed purchase of more than the row holds fails with
   * "Inventario insuficiente" and leaves the table unchanged; asking for
   * exactly what it holds is allowed.
   */
  lemma ComprarInsufficient(
    rows: seq<InventarioEntity>, nextId: int, k: int, cantidad: Int32, exchange: Exchange)
    requires WellFormed(rows, nextId)
    requires 0 <= k < |rows|
    requires ValidarExistenciaProducto(rows[k].productoId, exchange).Success?
    ensures var t := Comprar(rows, nextId, rows[k].productoId, cantidad, exchange);
      && (t.result.IllegalArgument? <==> rows[k].cantidad < cantidad)
      && (t.result.IllegalArgument? ==>
           t == Transition(IllegalArgument(InsufficientInventoryMessage), rows, nextId,
                           [FindByProductoIdCall(rows[k].productoId)]))
  {
  }

  /**
   * A successful purchase changes exactly one row, the product's: it keeps
   * its identifier and product, its quantity becomes the old one minus the
   * amount (as Java `int`s), every other row is unchanged, that row is what
   * `save` receives, and the result is its DTO.
   */
  lemma ComprarSuccess(
    rows: seq<InventarioEntity>, nextId: int, k: int, cantidad: Int32, exchange: Exchange)
    requires WellFormed(rows, nextId)
    requires 0 <= k < |rows|
    requires ValidarExistenciaProducto(rows[k].productoId, exchange).Success?
    requires cantidad <= rows[k].cantidad
    ensures var t := Comprar(rows, nextId, rows[k].productoId, cantidad, exchange);
      var debited := InventarioEntity(rows[k].id, rows[k].productoId, IntSub(rows[k].cantidad, cantidad));
      && t.result == Success(ToDto(debited))
      && |t.rows| == |rows| && t.rows[k] == debited
      && (forall i :: 0 <= i < |rows| && i != k ==> t.rows[i] == rows[i])
      && t.nextId == nextId
      && t.calls == [FindByProductoIdCall(rows[k].productoId), SaveCall(debited)]
      && WellFormed(t.rows, t.nextId)
      && Lookup(t.rows, rows[k].productoId) == Some(debited)
  {
    var productoId := rows[k].productoId;
    LookupFindsRow(rows, nextId, k);
    var debited := rows[k].(cantidad := IntSub(rows[k].cantidad, cantidad));
    assert Comprar(rows, nextId, productoId, cantidad, exchange) == Transition(
      Success(ToDto(debited)), UpdateRow(rows, debited), nextId,
      [FindByProductoIdCall(productoId)] + [SaveCall(debited)]);
    assert IsStored(rows, debited);
    UpdateKeepsWellFormed(rows, nextId, debited);
  }

  /**
   * A successful purchase takes exactly the amount asked for from the
   * product's row and never leaves it negative, whenever the difference fits
   * in an `int`; a non-negative amount always fits.
   */
  lemma ComprarTakesExactAmount(
    rows: seq<InventarioEntity>, nextId: int, productoId: int, cantidad: Int32, exchange: Exchange)
    requires WellFormed(rows, nextId)
    ensures var t := Comprar(rows, nextId, productoId, cantidad, exchange);
      t.result.Success? ==>
        && Lookup(rows, productoId).Some?
        && Lookup(t.rows, productoId) == Some(InventarioEntity(t.result.value.id, productoId, t.result.value.cantidad))
        && var stock := Lookup(rows, productoId).value.cantidad;
           (stock - cantidad <= MaxInt ==> t.result.value.cantidad == stock - cantidad >= 0)
           && (0 <= cantidad ==> stock - cantidad <= MaxInt)
  {
    var t := Comprar(rows, nextId, productoId, cantidad, exchange);
    if t.result.Success? {
      var e := Lookup(rows, productoId).value;
      var k :| 0 <= k < |rows| && rows[k] == e;
      ComprarSuccess(rows, nextId, k, cantidad, exchange);
      if e.cantidad - cantidad <= MaxInt {
        IntSubWithinStock(e.cantidad, cantidad);
      }
    }
  }

  /** Every purchase keeps the table's invariant. */
  lemma ComprarKeepsWellFormed(
    rows: seq<InventarioEntity>, nextId: int, productoId: int, cantidad: Int32, exchange: Exchange)
    requires WellFormed(rows, nextId)
    ensures var t := Comprar(rows, nextId, productoId, cantidad, exchange);
      WellFormed(t.rows, t.nextId)
  {
    var t := Comprar(rows, nextId, productoId, cantidad, exchange);
    if t.result.Success? {
      var e := Lookup(rows, productoId).value;
      var k :| 0 <= k < |rows| && rows[k] == e;
      ComprarSuccess(rows, nextId, k, cantidad, exchange);
    }
  }

  /**
   * The sufficiency check does not reject negative amounts, and the
   * decrement is Java `int` arithmetic: buying -1 units of a product whose
   * row holds `Integer.MAX_VALUE` succeeds and leaves a negative quantity.
   */
  lemma ComprarNegativeAmountWraps()
    ensures var rows := [InventarioEntity(Some(1), 101, MaxInt)];
      Comprar(rows, 2, 101, -1, Returned(200, "Producto existe")).result
        == Success(InventarioDto(Some(1), 101, MinInt))
  {
    IntSubWraps();
  }

  // ---------------------------------------------------------------------
  // The service object
  // ---------------------------------------------------------------------

  class InventarioServiceImpl {
    const repository: Repository

    constructor (repository: Repository)
      ensures this.repository == repository
    {
      this.repository := repository;
    }

    /** `actualizarCantidadInventario`, on the repository: its effect is `ActualizarCantidad`. */
    method ActualizarCantidadInventario(productoId: int, nuevaCantidad: Int32, exchange: Exchange)
      returns (r: Outcome<InventarioDto>)
      requires repository.Valid()
      modifies repository
      ensures repository.Valid()
      ensures var t := ActualizarCantidad(old(repository.rows), old(repository.nextId), productoId, nuevaCantidad, exchange);
        && r == t.result
        && repository.rows == t.rows && repository.nextId == t.nextId
        && repository.calls == old(repository.calls) + t.calls
    {
      var _ :- ValidarExistenciaProducto(productoId, exchange);
      var entity := InventarioEntity(None, productoId, nuevaCantidad);
      var guardado := repository.Save(entity);
      if guardado.None? {
        return DataIntegrityViolation;
      }
      r := Success(ToDto(guardado.value));
    }

    /** `comprarProducto`, on the repository: its effect is `Comprar`. */
    method ComprarProducto(productoId: int, cantidad: Int32, exchange: Exchange)
      returns (r: Outcome<InventarioDto>)
      requires repository.Valid()
      modifies repository
      ensures repository.Valid()
      ensures var t := Comprar(old(repository.rows), old(repository.nextId), productoId, cantidad, exchange);
        && r == t.result
        && repository.rows == t.rows && repository.nextId == t.nextId
        && repository.calls == old(repository.calls) + t.calls
    {
      var _ :- ValidarExistenciaProducto(productoId, exchange);
      var found := repository.FindByProductoId(productoId);
      if found.None? {
        return NotFound(InventoryNotFoundMessage);
      }
      var inventario := found.value;
      if inventario.cantidad < cantidad {
        return IllegalArgument(InsufficientInventoryMessage);
      }
      ghost var rows := repository.rows;
      ghost var k :| 0 <= k < |rows| && rows[k] == inventario;
      ComprarSuccess(rows, repository.nextId, k, cantidad, exchange);
      inventario := inventario.(cantidad := IntSub(inventario.cantidad, cantidad));
      assert IsStored(rows, inventario);
      var _ := repository.Save(inventario);
      r := Success(ToDto(inventario));
    }
  }

  /** A purchase scenario on one repository: stock, buy, overbuy, restock, and an unknown product. */
  method PurchaseScenario() {
    var repository := new Repository();
    var service := new InventarioServiceImpl(repository);
    var found := Returned(200, "Producto existe");

    assert ValidarExistenciaProducto(101, found) == Success("Producto existe");
    var created := service.ActualizarCantidadInventario(101, 100, found);
    assert created == Success(InventarioDto(Some(1), 101, 100));

    var bought := service.ComprarProducto(101, 10, found);
    assert Lookup(repository.rows, 101) == Some(repository.rows[0]);
    assert bought == Success(InventarioDto(Some(1), 101, 90));

    var tooMany := service.ComprarProducto(101, 91, found);
    assert tooMany == IllegalArgument("Inventario insuficiente");

    var again := service.ActualizarCantidadInventario(101, 70, found);
    assert again == DataIntegrityViolation;

    var missing := service.ComprarProducto(999, 10, Threw(HttpClientErrorException("404 NOT_FOUND", "")));
    assert missing.NotFound?;
    assert repository.rows == [InventarioEntity(Some(1), 101, 90)];
  }
}
