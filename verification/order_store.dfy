/**
 * The tables behind the order routes of the back end: Pedidos, ItensPedido,
 * Clientes and Produtos, held as immutable values. Row order in ItensPedido
 * is insertion order, which is the order SQLite returns them in for the
 * unsorted queries the routes issue.
 */
module OrderStore {
  import opened Wrappers

  /** The two values the CHECK constraint on Pedidos.status admits. */
  datatype Status = Pendente | Concluido

  function StatusText(s: Status): string
  {
    match s
    case Pendente => "Pendente"
    case Concluido => "Conclu\U{ED}do"
  }

  /** Reads a status text as the CHECK constraint does: anything else is refused. */
  function ParseStatus(t: string): (r: Option<Status>)
    ensures r.Some? ==> StatusText(r.value) == t
    ensures forall s: Status :: StatusText(s) == t ==> r == Some(s)
  {
    if t == StatusText(Pendente) then Some(Pendente)
    else if t == StatusText(Concluido) then Some(Concluido)
    else None
  }

  /** A row of Pedidos, without its key. */
  datatype Pedido = Pedido(data: string, clienteId: int, status: Status, total: real)

  /** A row of ItensPedido. */
  datatype ItemRow = ItemRow(id: int, pedidoId: int, produtoId: int, quantidade: int, precoUnitario: real)

  /** One entry of the `itens` array of a request body. */
  datatype Line = Line(produtoId: int, quantidade: int, precoUnitario: real)

  /** A row of Clientes, without its key. */
  datatype Cliente = Cliente(nome: string, cpfCnpj: string, contato: string, endereco: string, ativo: bool)

  /** A row of Produtos, reduced to the column the order reads join on. */
  datatype Produto = Produto(nome: string)

  /**
   * The database. `nextPedidoId` and `nextItemId` are the AUTOINCREMENT
   * counters: the key the next INSERT into each table receives.
   */
  datatype Db = Db(
    pedidos: map<int, Pedido>,
    itens: seq<ItemRow>,
    clientes: map<int, Cliente>,
    produtos: map<int, Produto>,
    nextPedidoId: int,
    nextItemId: int)

  /** A database whose order tables are empty; AUTOINCREMENT keys start at 1. */
  function EmptyDb(clientes: map<int, Cliente>, produtos: map<int, Produto>): (db: Db)
    ensures Valid(db)
    ensures db.pedidos == map[] && db.itens == []
    ensures db.nextPedidoId == 1 && db.nextItemId == 1
    ensures db.clientes == clientes && db.produtos == produtos
  {
    Db(map[], [], clientes, produtos, 1, 1)
  }

  /** The payload part of a stored item row. */
  function LineOf(row: ItemRow): Line
  {
    Line(row.produtoId, row.quantidade, row.precoUnitario)
  }

  function LinesOf(rows: seq<ItemRow>): (r: seq<Line>)
    ensures |r| == |rows|
    ensures forall i :: 0 <= i < |rows| ==> r[i] == LineOf(rows[i])
  {
    seq(|rows|, i requires 0 <= i < |rows| => LineOf(rows[i]))
  }

  function Amount(l: Line): real
  {
    l.quantidade as real * l.precoUnitario
  }

  /** The sum of quantidade x precoUnitario, accumulated left to right. */
  function Total(lines: seq<Line>): real
  {
    if |lines| == 0 then 0.0 else Total(lines[..|lines| - 1]) + Amount(lines[|lines| - 1])
  }

  /** `SELECT ... FROM ItensPedido WHERE pedidoId = ?`, in table order. */
  function RowsOf(rows: seq<ItemRow>, pedidoId: int): (r: seq<ItemRow>)
    ensures |r| <= |rows|
    ensures forall x :: x in r <==> x in rows && x.pedidoId == pedidoId
  {
    if |rows| == 0 then []
    else
      var last := rows[|rows| - 1];
      RowsOf(rows[..|rows| - 1], pedidoId) + (if last.pedidoId == pedidoId then [last] else [])
  }

  /** The table left by `DELETE FROM ItensPedido WHERE pedidoId = ?`. */
  function RowsNotOf(rows: seq<ItemRow>, pedidoId: int): (r: seq<ItemRow>)
    ensures |r| <= |rows|
    ensures forall x :: x in r <==> x in rows && x.pedidoId != pedidoId
  {
    if |rows| == 0 then []
    else
      var last := rows[|rows| - 1];
      RowsNotOf(rows[..|rows| - 1], pedidoId) + (if last.pedidoId != pedidoId then [last] else [])
  }

  /**
   * The rows one INSERT per payload entry produces: consecutive keys from
   * `firstId`, all tied to `pedidoId`, product, quantity and price copied.
   */
  function NewRows(pedidoId: int, lines: seq<Line>, firstId: int): (r: seq<ItemRow>)
    ensures |r| == |lines|
    ensures forall i :: 0 <= i < |r| ==>
      r[i].id == firstId + i && r[i].pedidoId == pedidoId && LineOf(r[i]) == lines[i]
  {
    seq(|lines|, i requires 0 <= i < |lines| =>
      ItemRow(firstId + i, pedidoId, lines[i].produtoId, lines[i].quantidade, lines[i].precoUnitario))
  }

  /** The total an order ought to carry: the sum over the rows that name it. */
  function StoredTotal(db: Db, pedidoId: int): real
  {
    Total(LinesOf(RowsOf(db.itens, pedidoId)))
  }

  /** Every order's cached total equals the sum over its item rows. */
  predicate TotalsAgree(db: Db)
  {
    forall k :: k in db.pedidos ==> db.pedidos[k].total == StoredTotal(db, k)
  }

  /**
   * The database invariant: keys below the AUTOINCREMENT counters, item keys
   * increasing in table order, no item row naming an order key not yet
   * handed out, and every total agreeing with its rows.
   */
  predicate Valid(db: Db)
  {
    && db.nextPedidoId >= 1
    && db.nextItemId >= 1
    && (forall k :: k in db.pedidos ==> k < db.nextPedidoId)
    && WellKeyed(db.itens, db.nextPedidoId, db.nextItemId)
    && TotalsAgree(db)
  }

  /**
   * Item rows name only order keys below `nextPedidoId`, carry keys below
   * `nextItemId`, and their keys increase in table order (so no two rows
   * share one).
   */
  predicate WellKeyed(rows: seq<ItemRow>, nextPedidoId: int, nextItemId: int)
  {
    && (forall i :: 0 <= i < |rows| ==> rows[i].pedidoId < nextPedidoId && rows[i].id < nextItemId)
    && (forall i, j :: 0 <= i < j < |rows| ==> rows[i].id < rows[j].id)
  }

  // ---------------------------------------------------------------------
  // Lemmas about sums and row selections
  // ---------------------------------------------------------------------

  lemma {:induction false} TotalAppend(a: seq<Line>, b: seq<Line>)
    ensures Total(a + b) == Total(a) + Total(b)
    decreases |b|
  {
    if |b| == 0 {
      assert a + b == a;
    } else {
      var b' := b[..|b| - 1];
      assert (a + b)[..|a + b| - 1] == a + b';
      TotalAppend(a, b');
    }
  }

  lemma {:induction false} RowsOfAppend(a: seq<ItemRow>, b: seq<ItemRow>, k: int)
    ensures RowsOf(a + b, k) == RowsOf(a, k) + RowsOf(b, k)
    decreases |b|
  {
    if |b| == 0 {
      assert a + b == a;
    } else {
      var b' := b[..|b| - 1];
      assert (a + b)[..|a + b| - 1] == a + b';
      RowsOfAppend(a, b', k);
    }
  }

  lemma {:induction false} RowsNotOfAppend(a: seq<ItemRow>, b: seq<ItemRow>, k: int)
    ensures RowsNotOf(a + b, k) == RowsNotOf(a, k) + RowsNotOf(b, k)
    decreases |b|
  {
    if |b| == 0 {
      assert a + b == a;
    } else {
      var b' := b[..|b| - 1];
      assert (a + b)[..|a + b| - 1] == a + b';
      RowsNotOfAppend(a, b', k);
    }
  }

  /** Deleting the rows of one order leaves the rows of every other order as they were. */
  lemma {:induction false} RowsOfRowsNotOf(rows: seq<ItemRow>, id: int, k: int)
    ensures RowsOf(RowsNotOf(rows, id), k) == if k == id then [] else RowsOf(rows, k)
    decreases |rows|
  {
    if |rows| > 0 {
      var init := rows[..|rows| - 1];
      var last := rows[|rows| - 1];
      RowsOfRowsNotOf(init, id, k);
      var tail := if last.pedidoId != id then [last] else [];
      RowsOfAppend(RowsNotOf(init, id), tail, k);
    }
  }

  /** Deleting the rows of one order twice is deleting them once. */
  lemma {:induction false} RowsNotOfTwice(rows: seq<ItemRow>, id: int)
    ensures RowsNotOf(RowsNotOf(rows, id), id) == RowsNotOf(rows, id)
    decreases |rows|
  {
    if |rows| > 0 {
      var init := rows[..|rows| - 1];
      var last := rows[|rows| - 1];
      RowsNotOfTwice(init, id);
      var tail := if last.pedidoId != id then [last] else [];
      RowsNotOfAppend(RowsNotOf(init, id), tail, id);
    }
  }

  /** Freshly inserted rows belong to their order and to no other. */
  lemma {:induction false} RowsOfNewRows(id: int, lines: seq<Line>, firstId: int, k: int)
    ensures RowsOf(NewRows(id, lines, firstId), k) == if k == id then NewRows(id, lines, firstId) else []
    decreases |lines|
  {
    var rows := NewRows(id, lines, firstId);
    if |lines| > 0 {
      var init := lines[..|lines| - 1];
      assert rows[..|rows| - 1] == NewRows(id, init, firstId);
      RowsOfNewRows(id, init, firstId, k);
    }
  }

  /** The rows of an order after a wholesale replacement are exactly the new ones. */
  lemma RowsAfterReplace(rows: seq<ItemRow>, id: int, lines: seq<Line>, firstId: int, k: int)
    ensures RowsOf(RowsNotOf(rows, id) + NewRows(id, lines, firstId), k)
         == if k == id then NewRows(id, lines, firstId) else RowsOf(rows, k)
  {
    RowsOfAppend(RowsNotOf(rows, id), NewRows(id, lines, firstId), k);
    RowsOfRowsNotOf(rows, id, k);
    RowsOfNewRows(id, lines, firstId, k);
  }

  /** Appending rows of a new order to a table that has none of its rows. */
  lemma RowsAfterAppend(rows: seq<ItemRow>, id: int, lines: seq<Line>, firstId: int, k: int)
    requires forall i :: 0 <= i < |rows| ==> rows[i].pedidoId != id
    ensures RowsOf(rows + NewRows(id, lines, firstId), k)
         == if k == id then NewRows(id, lines, firstId) else RowsOf(rows, k)
  {
    RowsOfAppend(rows, NewRows(id, lines, firstId), k);
    RowsOfNewRows(id, lines, firstId, k);
    if k == id {
      RowsOfNone(rows, id);
    }
  }

  /** An order no row names has no rows. */
  lemma {:induction false} RowsOfNone(rows: seq<ItemRow>, k: int)
    requires forall i :: 0 <= i < |rows| ==> rows[i].pedidoId != k
    ensures RowsOf(rows, k) == []
    decreases |rows|
  {
    if |rows| > 0 {
      RowsOfNone(rows[..|rows| - 1], k);
    }
  }

  /** Deleting rows keeps the table well keyed. */
  lemma {:induction false} RowsNotOfWellKeyed(rows: seq<ItemRow>, id: int, nextPedidoId: int, nextItemId: int)
    requires WellKeyed(rows, nextPedidoId, nextItemId)
    ensures WellKeyed(RowsNotOf(rows, id), nextPedidoId, nextItemId)
    decreases |rows|
  {
    if |rows| > 0 {
      var init := rows[..|rows| - 1];
      var last := rows[|rows| - 1];
      RowsNotOfWellKeyed(init, id, nextPedidoId, last.id);
      var ri := RowsNotOf(init, id);
      assert forall i :: 0 <= i < |ri| ==> ri[i] in ri;
    }
  }

  /** Appending freshly keyed rows of an order already handed out keeps the table well keyed. */
  lemma AppendNewRowsWellKeyed(rows: seq<ItemRow>, id: int, lines: seq<Line>, nextPedidoId: int, nextItemId: int)
    requires WellKeyed(rows, nextPedidoId, nextItemId)
    requires id < nextPedidoId
    ensures WellKeyed(rows + NewRows(id, lines, nextItemId), nextPedidoId, nextItemId + |lines|)
  {
    var added := NewRows(id, lines, nextItemId);
    var t := rows + added;
    forall i | 0 <= i < |t|
      ensures t[i].pedidoId < nextPedidoId && t[i].id < nextItemId + |lines|
    {
      if i >= |rows| {
        assert t[i] == added[i - |rows|];
      }
    }
    forall i, j | 0 <= i < j < |t|
      ensures t[i].id < t[j].id
    {
      if i >= |rows| {
        assert t[i] == added[i - |rows|];
        assert t[j] == added[j - |rows|];
      } else if j >= |rows| {
        assert t[j] == added[j - |rows|];
      }
    }
  }
}
