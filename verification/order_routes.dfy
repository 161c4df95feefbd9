/**
 * The order routes of the back end and the client-deletion guard, each as a
 * pure transition from the database to a new database and a reply. The
 * source chains SQLite callbacks; what is modelled is the outcome once every
 * statement a request issues has run, in the order the request issues them.
 */
module OrderRoutes {
  import opened Wrappers
  import opened OrderStore

  /** The status classes the routes answer with: 200/201, 400, 404, 500. */
  datatype Reply<+T> = Ok(value: T) | BadRequest | NotFound | ServerError

  datatype Outcome<T> = Outcome(db: Db, reply: Reply<T>)

  /** JavaScript truthiness of an id field: absent (`undefined`, `null`) and 0 are falsy. */
  predicate Given(v: Option<int>)
  {
    v.Some? && v.value != 0
  }

  /** JavaScript truthiness of a text field: absent and "" are falsy. */
  predicate GivenText(v: Option<string>)
  {
    v.Some? && v.value != ""
  }

  /** `itens && itens.length`: an array that is present and not empty. */
  predicate NonEmpty(v: Option<seq<Line>>)
  {
    v.Some? && |v.value| > 0
  }

  // ---------------------------------------------------------------------
  // POST /pedidos
  // ---------------------------------------------------------------------

  datatype CreateBody = CreateBody(clienteId: Option<int>, itens: Option<seq<Line>>)

  /**
   * Creates an order: 400 without a truthy clienteId or a non-empty item
   * array, otherwise a Pendente order stamped `now`, one item row per payload
   * entry, and the total of the payload. Neither the client nor the products
   * are looked up.
   */
  function CreateOrder(db: Db, body: CreateBody, now: string): (r: Outcome<int>)
    ensures r.reply.Ok? || r.reply.BadRequest?
    ensures r.reply.BadRequest? <==> !Given(body.clienteId) || !NonEmpty(body.itens)
    ensures r.reply.BadRequest? ==> r.db == db
  {
    if !Given(body.clienteId) || !NonEmpty(body.itens) then
      Outcome(db, BadRequest)
    else
      var id := db.nextPedidoId;
      var lines := body.itens.value;
      var db' := db.(
        pedidos := db.pedidos[id := Pedido(now, body.clienteId.value, Pendente, Total(lines))],
        itens := db.itens + NewRows(id, lines, db.nextItemId),
        nextPedidoId := id + 1,
        nextItemId := db.nextItemId + |lines|);
      Outcome(db', Ok(id))
  }

  /**
   * What a successful create writes: the order under the next key, Pendente,
   * for the given client, with the payload's total; one row per payload
   * entry appended after the existing rows, each naming the new order and
   * copying product, quantity and price; nothing else changed.
   */
  lemma CreateOrderEffect(db: Db, body: CreateBody, now: string)
    requires Given(body.clienteId) && NonEmpty(body.itens)
    ensures var r := CreateOrder(db, body, now);
      var id := db.nextPedidoId;
      var lines := body.itens.value;
      && r.reply == Ok(id)
      && r.db.pedidos.Keys == db.pedidos.Keys + {id}
      && r.db.pedidos[id] == Pedido(now, body.clienteId.value, Pendente, Total(lines))
      && (forall k :: k in db.pedidos && k != id ==> r.db.pedidos[k] == db.pedidos[k])
      && |r.db.itens| == |db.itens| + |lines|
      && r.db.itens[..|db.itens|] == db.itens
      && (forall i :: 0 <= i < |lines| ==>
            r.db.itens[|db.itens| + i].pedidoId == id && LineOf(r.db.itens[|db.itens| + i]) == lines[i])
      && r.db.clientes == db.clientes
      && r.db.produtos == db.produtos
  {
  }

  /** The running sum the route keeps while it walks the payload. */
  method AccumulateTotal(lines: seq<Line>) returns (total: real)
    ensures total == Total(lines)
  {
    total := 0.0;
    var i := 0;
    while i < |lines|
      invariant 0 <= i <= |lines|
      invariant total == Total(lines[..i])
    {
      assert lines[..i + 1][..i] == lines[..i];
      total := total + Amount(lines[i]);
      i := i + 1;
    }
    assert lines[..|lines|] == lines;
  }

  /**
   * On a valid database a created order's key is new, the order owns
   * exactly the rows of its payload, and every other order keeps its rows.
   */
  lemma CreateOrderRows(db: Db, body: CreateBody, now: string)
    requires Valid(db)
    requires Given(body.clienteId) && NonEmpty(body.itens)
    ensures var r := CreateOrder(db, body, now);
      && r.reply.value !in db.pedidos
      && LinesOf(RowsOf(r.db.itens, r.reply.value)) == body.itens.value
      && (forall k :: k != r.reply.value ==> RowsOf(r.db.itens, k) == RowsOf(db.itens, k))
  {
    var r := CreateOrder(db, body, now);
    var id := r.reply.value;
    var lines := body.itens.value;
    var added := NewRows(id, lines, db.nextItemId);
    assert r.db.itens == db.itens + added;
    forall k
      ensures RowsOf(r.db.itens, k) == if k == id then added else RowsOf(db.itens, k)
    {
      RowsAfterAppend(db.itens, id, lines, db.nextItemId, k);
    }
    assert LinesOf(added) == lines;
  }

  /** Creating an order keeps every total in agreement with its rows. */
  lemma CreateOrderKeepsTotals(db: Db, body: CreateBody, now: string)
    requires Valid(db)
    ensures TotalsAgree(CreateOrder(db, body, now).db)
  {
    if Given(body.clienteId) && NonEmpty(body.itens) {
      var id := db.nextPedidoId;
      var db' := CreateOrder(db, body, now).db;
      CreateOrderRows(db, body, now);
      forall k | k in db'.pedidos
        ensures db'.pedidos[k].total == StoredTotal(db', k)
      {
        if k != id {
          assert db'.pedidos[k] == db.pedidos[k];
          assert RowsOf(db'.itens, k) == RowsOf(db.itens, k);
        }
      }
    }
  }

  /** Creating an order keeps the database invariant. */
  lemma CreateOrderValid(db: Db, body: CreateBody, now: string)
    requires Valid(db)
    ensures Valid(CreateOrder(db, body, now).db)
  {
    CreateOrderKeepsTotals(db, body, now);
    if Given(body.clienteId) && NonEmpty(body.itens) {
      var id := db.nextPedidoId;
      var lines := body.itens.value;
      var db' := CreateOrder(db, body, now).db;
      assert db'.itens == db.itens + NewRows(id, lines, db.nextItemId);
      AppendNewRowsWellKeyed(db.itens, id, lines, id + 1, db.nextItemId);
    }
  }

  // ---------------------------------------------------------------------
  // PUT /pedidos/:id
  // ---------------------------------------------------------------------

  datatype UpdateBody = UpdateBody(clienteId: Option<int>, status: Option<string>, itens: Option<seq<Line>>)

  /**
   * The column UPDATE fails on the CHECK constraint when a status outside the
   * two admitted texts is written to a row that exists; it is atomic, so
   * clienteId is not written either.
   */
  predicate StatusRefused(db: Db, id: int, body: UpdateBody)
  {
    id in db.pedidos && GivenText(body.status) && ParseStatus(body.status.value).None?
  }

  /** The order row after `UPDATE Pedidos SET <given columns>`. */
  function Patch(p: Pedido, body: UpdateBody): Pedido
    requires GivenText(body.status) ==> ParseStatus(body.status.value).Some?
  {
    p.(clienteId := if Given(body.clienteId) then body.clienteId.value else p.clienteId,
       status := if GivenText(body.status) then ParseStatus(body.status.value).value else p.status)
  }

  /**
   * `DELETE FROM ItensPedido WHERE pedidoId = id`, one INSERT per payload
   * entry, then `UPDATE Pedidos SET total` (which touches nothing when no
   * order has that key).
   */
  function ReplaceItems(db: Db, id: int, lines: seq<Line>): Db
  {
    db.(
      pedidos := if id in db.pedidos then db.pedidos[id := db.pedidos[id].(total := Total(lines))] else db.pedidos,
      itens := RowsNotOf(db.itens, id) + NewRows(id, lines, db.nextItemId),
      nextItemId := db.nextItemId + |lines|)
  }

  /**
   * Updates an order as the route does: 400 when no field is given;
   * otherwise the given columns are patched and, when the item array is
   * non-empty, the order's rows are replaced and its total reset. There is no
   * existence check: an absent key still answers 200, and its rows are
   * inserted all the same.
   */
  function UpdateOrder(db: Db, id: int, body: UpdateBody): (r: Outcome<()>)
    ensures !r.reply.NotFound?
    ensures r.reply.BadRequest? <==> !Given(body.clienteId) && !GivenText(body.status) && body.itens.None?
    ensures r.reply.BadRequest? ==> r.db == db
    ensures r.reply.ServerError? <==> !r.reply.BadRequest? && StatusRefused(db, id, body)
  {
    if !Given(body.clienteId) && !GivenText(body.status) && body.itens.None? then
      Outcome(db, BadRequest)
    else
      var refused := StatusRefused(db, id, body);
      var patched :=
        if (Given(body.clienteId) || GivenText(body.status)) && !refused && id in db.pedidos
        then db.(pedidos := db.pedidos[id := Patch(db.pedidos[id], body)])
        else db;
      var replaced := if NonEmpty(body.itens) then ReplaceItems(patched, id, body.itens.value) else patched;
      Outcome(replaced, if refused then ServerError else Ok(()))
  }

  /**
   * What an update writes to Pedidos: no order is created or removed, other
   * orders are untouched, the named columns of this one are patched unless
   * the write was refused, and its total changes only with a non-empty item
   * array.
   */
  lemma UpdateOrderEffect(db: Db, id: int, body: UpdateBody)
    ensures var r := UpdateOrder(db, id, body);
      && r.db.pedidos.Keys == db.pedidos.Keys
      && r.db.clientes == db.clientes && r.db.produtos == db.produtos
      && r.db.nextPedidoId == db.nextPedidoId
      && (forall k :: k in db.pedidos && k != id ==> r.db.pedidos[k] == db.pedidos[k])
      && (id in db.pedidos ==> r.db.pedidos[id].data == db.pedidos[id].data)
      && (id in db.pedidos && r.reply.Ok? ==>
            && r.db.pedidos[id].clienteId == (if Given(body.clienteId) then body.clienteId.value else db.pedidos[id].clienteId)
            && (GivenText(body.status) ==> StatusText(r.db.pedidos[id].status) == body.status.value)
            && (!GivenText(body.status) ==> r.db.pedidos[id].status == db.pedidos[id].status))
      && (id in db.pedidos && !r.reply.Ok? ==>
            r.db.pedidos[id].clienteId == db.pedidos[id].clienteId && r.db.pedidos[id].status == db.pedidos[id].status)
      && (!NonEmpty(body.itens) ==>
            r.db.itens == db.itens && (id in db.pedidos ==> r.db.pedidos[id].total == db.pedidos[id].total))
      && (NonEmpty(body.itens) && id in db.pedidos ==> r.db.pedidos[id].total == Total(body.itens.value))
  {
  }

  /**
   * A non-empty item array replaces the order's rows wholesale: afterwards
   * they are exactly the payload, and the rows of every other order are as
   * they were.
   */
  lemma UpdateOrderRows(db: Db, id: int, body: UpdateBody)
    requires NonEmpty(body.itens)
    ensures var r := UpdateOrder(db, id, body);
      && LinesOf(RowsOf(r.db.itens, id)) == body.itens.value
      && (forall k :: k != id ==> RowsOf(r.db.itens, k) == RowsOf(db.itens, k))
  {
    var r := UpdateOrder(db, id, body);
    var lines := body.itens.value;
    var added := NewRows(id, lines, db.nextItemId);
    assert r.db.itens == RowsNotOf(db.itens, id) + added;
    forall k
      ensures RowsOf(r.db.itens, k) == if k == id then added else RowsOf(db.itens, k)
    {
      RowsAfterReplace(db.itens, id, lines, db.nextItemId, k);
    }
    assert LinesOf(added) == lines;
  }

  /** Every update keeps each existing order's total in agreement with its rows. */
  lemma UpdateOrderKeepsTotals(db: Db, id: int, body: UpdateBody)
    requires TotalsAgree(db)
    ensures TotalsAgree(UpdateOrder(db, id, body).db)
  {
    var r := UpdateOrder(db, id, body);
    UpdateOrderEffect(db, id, body);
    if NonEmpty(body.itens) {
      UpdateOrderRows(db, id, body);
      forall k | k in r.db.pedidos
        ensures r.db.pedidos[k].total == StoredTotal(r.db, k)
      {
        if k != id {
          assert r.db.pedidos[k] == db.pedidos[k];
          assert RowsOf(r.db.itens, k) == RowsOf(db.itens, k);
        }
      }
    } else {
      assert r.db.itens == db.itens;
      forall k | k in r.db.pedidos
        ensures r.db.pedidos[k].total == StoredTotal(r.db, k)
      {
        assert r.db.pedidos[k].total == db.pedidos[k].total;
      }
    }
  }

  /**
   * An update keeps the whole invariant unless it writes rows for a key
   * that AUTOINCREMENT has not handed out yet.
   */
  lemma UpdateOrderValid(db: Db, id: int, body: UpdateBody)
    requires Valid(db)
    requires id < db.nextPedidoId || !NonEmpty(body.itens)
    ensures Valid(UpdateOrder(db, id, body).db)
  {
    var r := UpdateOrder(db, id, body);
    UpdateOrderKeepsTotals(db, id, body);
    if NonEmpty(body.itens) {
      var lines := body.itens.value;
      var kept := RowsNotOf(db.itens, id);
      var added := NewRows(id, lines, db.nextItemId);
      assert r.db.itens == kept + added;
      RowsNotOfWellKeyed(db.itens, id, db.nextPedidoId, db.nextItemId);
      AppendNewRowsWellKeyed(kept, id, lines, db.nextPedidoId, db.nextItemId);
    }
  }

  /** Writing the same status twice leaves the order as writing it once. */
  lemma UpdateStatusIdempotent(db: Db, id: int, s: string)
    ensures var body := UpdateBody(None, Some(s), None);
      var once := UpdateOrder(db, id, body);
      UpdateOrder(once.db, id, body) == once
  {
  }

  // ---------------------------------------------------------------------
  // DELETE /pedidos/:id
  // ---------------------------------------------------------------------

  /**
   * Deletes an order's rows, then the order: always 200, also for a key no
   * order has.
   */
  function DeleteOrder(db: Db, id: int): (r: Outcome<()>)
    ensures r.reply == Ok(())
    ensures r.db.pedidos.Keys == db.pedidos.Keys - {id}
    ensures forall k :: k in r.db.pedidos ==> r.db.pedidos[k] == db.pedidos[k]
    ensures forall x :: x in r.db.itens <==> x in db.itens && x.pedidoId != id
    ensures r.db.clientes == db.clientes && r.db.produtos == db.produtos
    ensures r.db.nextPedidoId == db.nextPedidoId && r.db.nextItemId == db.nextItemId
  {
    Outcome(db.(itens := RowsNotOf(db.itens, id), pedidos := db.pedidos - {id}), Ok(()))
  }

  /** After a delete the order has no rows and every other order keeps its own. */
  lemma DeleteOrderRows(db: Db, id: int, k: int)
    ensures RowsOf(DeleteOrder(db, id).db.itens, k) == if k == id then [] else RowsOf(db.itens, k)
  {
    RowsOfRowsNotOf(db.itens, id, k);
  }

  /** Deleting is idempotent: a second delete of the same key changes nothing. */
  lemma DeleteOrderIdempotent(db: Db, id: int)
    ensures var once := DeleteOrder(db, id);
      DeleteOrder(once.db, id) == once
  {
    RowsNotOfTwice(db.itens, id);
  }

  lemma DeleteOrderValid(db: Db, id: int)
    requires Valid(db)
    ensures Valid(DeleteOrder(db, id).db)
  {
    var r := DeleteOrder(db, id);
    RowsNotOfWellKeyed(db.itens, id, db.nextPedidoId, db.nextItemId);
    forall k | k in r.db.pedidos
      ensures r.db.pedidos[k].total == StoredTotal(r.db, k)
    {
      DeleteOrderRows(db, id, k);
    }
  }

  // ---------------------------------------------------------------------
  // GET /pedidos/:id
  // ---------------------------------------------------------------------

  /** An item row joined with its product's name (NULL when the product is missing). */
  datatype ItemView = ItemView(row: ItemRow, produtoNome: Option<string>)

  /** An order joined with its client's name, and its rows. */
  datatype OrderView = OrderView(id: int, pedido: Pedido, clienteNome: Option<string>, itens: seq<ItemView>)

  function ViewLines(items: seq<ItemView>): (r: seq<Line>)
    ensures |r| == |items|
    ensures forall i :: 0 <= i < |items| ==> r[i] == LineOf(items[i].row)
  {
    seq(|items|, i requires 0 <= i < |items| => LineOf(items[i].row))
  }

  /** The LEFT JOIN on Produtos: the product's name, or NULL. */
  function ProdutoNome(db: Db, produtoId: int): (r: Option<string>)
    ensures r.Some? <==> produtoId in db.produtos
    ensures r.Some? ==> r.value == db.produtos[produtoId].nome
  {
    if produtoId in db.produtos then Some(db.produtos[produtoId].nome) else None
  }

  /** The LEFT JOIN on Clientes: the client's name, or NULL. */
  function ClienteNome(db: Db, clienteId: int): (r: Option<string>)
    ensures r.Some? <==> clienteId in db.clientes
    ensures r.Some? ==> r.value == db.clientes[clienteId].nome
  {
    if clienteId in db.clientes then Some(db.clientes[clienteId].nome) else None
  }

  /**
   * Reads an order with its rows: 404 exactly when no order has the key. On
   * a database whose totals agree, the total returned is the sum over the
   * rows returned.
   */
  function GetOrder(db: Db, id: int): (r: Reply<OrderView>)
    ensures r.Ok? || r.NotFound?
    ensures r.NotFound? <==> id !in db.pedidos
    ensures r.Ok? ==> r.value.id == id && r.value.pedido == db.pedidos[id]
    ensures r.Ok? ==> r.value.clienteNome == ClienteNome(db, db.pedidos[id].clienteId)
    ensures r.Ok? ==>
      && |r.value.itens| == |RowsOf(db.itens, id)|
      && (forall i :: 0 <= i < |r.value.itens| ==>
            r.value.itens[i].row == RowsOf(db.itens, id)[i]
            && r.value.itens[i].row.pedidoId == id
            && r.value.itens[i].produtoNome == ProdutoNome(db, r.value.itens[i].row.produtoId))
    ensures r.Ok? && TotalsAgree(db) ==> r.value.pedido.total == Total(ViewLines(r.value.itens))
  {
    if id !in db.pedidos then NotFound
    else
      var rows := RowsOf(db.itens, id);
      var items := seq(|rows|, i requires 0 <= i < |rows| => ItemView(rows[i], ProdutoNome(db, rows[i].produtoId)));
      assert forall i :: 0 <= i < |rows| ==> rows[i] in rows;
      assert ViewLines(items) == LinesOf(rows);
      Ok(OrderView(id, db.pedidos[id], ClienteNome(db, db.pedidos[id].clienteId), items))
  }

  /** A read shows an order's rows as stored. */
  lemma ReadBack(db: Db, id: int)
    requires id in db.pedidos
    ensures GetOrder(db, id).Ok?
    ensures ViewLines(GetOrder(db, id).value.itens) == LinesOf(RowsOf(db.itens, id))
  {
  }

  /** A created order reads back Pendente, with the payload's rows and total. */
  lemma CreateThenGet(db: Db, body: CreateBody, now: string)
    requires Valid(db)
    requires Given(body.clienteId) && NonEmpty(body.itens)
    ensures var r := CreateOrder(db, body, now);
      var g := GetOrder(r.db, r.reply.value);
      && g.Ok?
      && g.value.pedido.status == Pendente
      && g.value.pedido.clienteId == body.clienteId.value
      && ViewLines(g.value.itens) == body.itens.value
      && g.value.pedido.total == Total(ViewLines(g.value.itens))
  {
    CreateOrderRows(db, body, now);
    var r := CreateOrder(db, body, now);
    var g := GetOrder(r.db, r.reply.value);
    assert ViewLines(g.value.itens) == LinesOf(RowsOf(r.db.itens, r.reply.value));
    assert g.value.pedido.total == Total(body.itens.value);
  }

  /** An update with items reads back exactly those items and their total. */
  lemma UpdateThenGet(db: Db, id: int, body: UpdateBody)
    requires id in db.pedidos && NonEmpty(body.itens)
    ensures var r := UpdateOrder(db, id, body);
      var g := GetOrder(r.db, id);
      && g.Ok?
      && ViewLines(g.value.itens) == body.itens.value
      && g.value.pedido.total == Total(body.itens.value)
  {
    UpdateOrderEffect(db, id, body);
    UpdateOrderRows(db, id, body);
    ReadBack(UpdateOrder(db, id, body).db, id);
  }

  /** After a delete the key reads back 404. */
  lemma DeleteThenGet(db: Db, id: int)
    ensures GetOrder(DeleteOrder(db, id).db, id) == NotFound
  {
  }

  // ---------------------------------------------------------------------
  // DELETE /clientes/:id
  // ---------------------------------------------------------------------

  predicate HasOrders(db: Db, clienteId: int)
  {
    exists k :: k in db.pedidos && db.pedidos[k].clienteId == clienteId
  }

  /**
   * Refuses (400) while any order names the client; otherwise marks the
   * client inactive. No client row is ever removed and no order is touched;
   * a key no client has still answers 200.
   */
  function DeleteClient(db: Db, clienteId: int): (r: Outcome<()>)
    ensures r.reply.Ok? || r.reply.BadRequest?
    ensures r.reply.BadRequest? <==> exists k :: k in db.pedidos && db.pedidos[k].clienteId == clienteId
    ensures r.db.pedidos == db.pedidos && r.db.itens == db.itens && r.db.produtos == db.produtos
    ensures r.db.nextPedidoId == db.nextPedidoId && r.db.nextItemId == db.nextItemId
    ensures r.db.clientes.Keys == db.clientes.Keys
    ensures forall c :: c in db.clientes && (c != clienteId || r.reply.BadRequest?) ==>
      r.db.clientes[c] == db.clientes[c]
    ensures r.reply.Ok? && clienteId in db.clientes ==>
      !r.db.clientes[clienteId].ativo
      && r.db.clientes[clienteId].(ativo := true) == db.clientes[clienteId].(ativo := true)
  {
    if HasOrders(db, clienteId) then Outcome(db, BadRequest)
    else if clienteId in db.clientes then
      Outcome(db.(clientes := db.clientes[clienteId := db.clientes[clienteId].(ativo := false)]), Ok(()))
    else
      Outcome(db, Ok(()))
  }

  /** Deletes the orders of `ids` one request after another. */
  function DeleteOrders(db: Db, ids: seq<int>): Db
    decreases |ids|
  {
    if |ids| == 0 then db else DeleteOrders(DeleteOrder(db, ids[0]).db, ids[1..])
  }

  lemma {:induction false} DeleteOrdersKeys(db: Db, ids: seq<int>)
    ensures DeleteOrders(db, ids).pedidos.Keys == db.pedidos.Keys - (set k | k in ids)
    ensures forall k :: k in DeleteOrders(db, ids).pedidos ==> DeleteOrders(db, ids).pedidos[k] == db.pedidos[k]
    decreases |ids|
  {
    if |ids| > 0 {
      DeleteOrdersKeys(DeleteOrder(db, ids[0]).db, ids[1..]);
      assert (set k | k in ids) == {ids[0]} + (set k | k in ids[1..]);
    }
  }

  /** Once every order of a client has been deleted, deleting the client is allowed. */
  lemma ClientFreedAfterOrdersDeleted(db: Db, clienteId: int, ids: seq<int>)
    requires forall k :: k in db.pedidos && db.pedidos[k].clienteId == clienteId ==> k in ids
    ensures DeleteClient(DeleteOrders(db, ids), clienteId).reply.Ok?
  {
    DeleteOrdersKeys(db, ids);
  }

  /**
   * DELETE /clientes/:id against the Clientes table exactly as the server
   * declares it, without an `ativo` column: the UPDATE names a column the
   * table lacks, SQLite rejects the statement, and the route answers 500.
   */
  function DeleteClientDeclaredSchema(db: Db, clienteId: int): (r: Outcome<()>)
    ensures r.db == db
    ensures r.reply.BadRequest? <==> HasOrders(db, clienteId)
    ensures r.reply.ServerError? <==> !HasOrders(db, clienteId)
  {
    if HasOrders(db, clienteId) then Outcome(db, BadRequest) else Outcome(db, ServerError)
  }

  /**
   * With the table as declared, no client can ever be deactivated: every
   * delete the order check lets through fails, where the route with the
   * column it evidently expects succeeds.
   */
  lemma DeclaredSchemaNeverDeactivates(db: Db, clienteId: int)
    requires clienteId in db.clientes && db.clientes[clienteId].ativo
    requires !HasOrders(db, clienteId)
    ensures DeleteClientDeclaredSchema(db, clienteId).reply == ServerError
    ensures DeleteClientDeclaredSchema(db, clienteId).db.clientes[clienteId].ativo
    ensures DeleteClient(db, clienteId).reply == Ok(())
    ensures !DeleteClient(db, clienteId).db.clientes[clienteId].ativo
  {
    assert !(exists k :: k in db.pedidos && db.pedidos[k].clienteId == clienteId);
  }

  // ---------------------------------------------------------------------
  // An update on a key not yet handed out
  // ---------------------------------------------------------------------

  /** The database the PUT leaves behind: no order, one row naming order 1. */
  const OrphanDb := Db(map[], [ItemRow(1, 1, 10, 2, 5.0)], map[], map[], 1, 2)

  /** The PUT on an empty database succeeds and leaves a row for order 1. */
  lemma PutBeforeCreate()
    ensures var put := UpdateOrder(EmptyDb(map[], map[]), 1, UpdateBody(None, None, Some([Line(10, 2, 5.0)])));
      put.reply.Ok? && put.db == OrphanDb
  {
    assert EmptyDb(map[], map[]) == Db(map[], [], map[], map[], 1, 1);
    assert NewRows(1, [Line(10, 2, 5.0)], 1) == [ItemRow(1, 1, 10, 2, 5.0)];
  }

  /** The next POST receives key 1 and stores the total of its own payload only. */
  lemma PostAfterPut()
    ensures var post := CreateOrder(OrphanDb, CreateBody(Some(7), Some([Line(11, 1, 3.5)])), "2024-01-01");
      && post.reply == Ok(1)
      && post.db.pedidos[1].total == 3.5
      && post.db.itens == [ItemRow(1, 1, 10, 2, 5.0), ItemRow(2, 1, 11, 1, 3.5)]
  {
    assert NewRows(1, [Line(11, 1, 3.5)], 2) == [ItemRow(2, 1, 11, 1, 3.5)];
    assert Total([Line(11, 1, 3.5)]) == 3.5 by {
      assert [Line(11, 1, 3.5)][..0] == [];
    }
  }

  /** Both rows name order 1, so the order's rows sum to 13.5. */
  lemma OrphanRowsSum(rows: seq<ItemRow>)
    requires rows == [ItemRow(1, 1, 10, 2, 5.0), ItemRow(2, 1, 11, 1, 3.5)]
    ensures Total(LinesOf(RowsOf(rows, 1))) == 13.5
  {
    assert RowsOf(rows, 1) == rows by {
      assert rows[..1] == [ItemRow(1, 1, 10, 2, 5.0)];
      assert rows[..1][..0] == [];
    }
    var lines := LinesOf(rows);
    assert lines == [Line(10, 2, 5.0), Line(11, 1, 3.5)];
    assert lines[..1] == [Line(10, 2, 5.0)];
    assert lines[..1][..0] == [];
    assert Total(lines[..1]) == 10.0;
    assert Total(lines) == 13.5;
  }

  /**
   * On an empty database, a PUT with items for key 1 answers 200 and leaves a
   * row naming order 1; the next POST receives key 1, and that order's
   * total no longer agrees with its rows.
   */
  lemma UpdateBeforeCreateBreaksTotals()
    ensures var db0 := EmptyDb(map[], map[]);
      var put := UpdateOrder(db0, 1, UpdateBody(None, None, Some([Line(10, 2, 5.0)])));
      var post := CreateOrder(put.db, CreateBody(Some(7), Some([Line(11, 1, 3.5)])), "2024-01-01");
      && put.reply.Ok?
      && post.reply == Ok(1)
      && post.db.pedidos[1].total == 3.5
      && StoredTotal(post.db, 1) == 13.5
      && !TotalsAgree(post.db)
  {
    PutBeforeCreate();
    PostAfterPut();
    var post := CreateOrder(OrphanDb, CreateBody(Some(7), Some([Line(11, 1, 3.5)])), "2024-01-01");
    OrphanRowsSum(post.db.itens);
  }

  /**
   * PUT as it evidently should behave: like GET, it answers 404 for a key no
   * order has and writes nothing, so no row can be left for a key that a
   * later POST will hand out.
   */
  function UpdateExisting(db: Db, id: int, body: UpdateBody): (r: Outcome<()>)
    ensures id in db.pedidos ==> r == UpdateOrder(db, id, body)
    ensures r.reply.NotFound? <==> id !in db.pedidos && !UpdateOrder(db, id, body).reply.BadRequest?
    ensures id !in db.pedidos ==> r.db == db
  {
    var r := UpdateOrder(db, id, body);
    if id in db.pedidos || r.reply.BadRequest? then r else Outcome(db, NotFound)
  }

  /** The guarded update keeps the invariant on every key, with no condition on the key. */
  lemma UpdateExistingValid(db: Db, id: int, body: UpdateBody)
    requires Valid(db)
    ensures Valid(UpdateExisting(db, id, body).db)
  {
    if id in db.pedidos {
      UpdateOrderValid(db, id, body);
    }
  }

  /** On the trace that breaks the totals, the guarded PUT refuses and the POST then agrees with its rows. */
  lemma UpdateExistingBeforeCreate()
    ensures var db0 := EmptyDb(map[], map[]);
      var put := UpdateExisting(db0, 1, UpdateBody(None, None, Some([Line(10, 2, 5.0)])));
      var post := CreateOrder(put.db, CreateBody(Some(7), Some([Line(11, 1, 3.5)])), "2024-01-01");
      && put == Outcome(db0, NotFound)
      && post.reply == Ok(1)
      && TotalsAgree(post.db)
  {
    var db0 := EmptyDb(map[], map[]);
    var put := UpdateExisting(db0, 1, UpdateBody(None, None, Some([Line(10, 2, 5.0)])));
    CreateOrderValid(db0, CreateBody(Some(7), Some([Line(11, 1, 3.5)])), "2024-01-01");
  }
}
