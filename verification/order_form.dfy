/**
 * The order form of the front end: the editable list of items and the
 * state a new form starts from. Prices are kept as the text the user typed
 * (a decimal comma, as in "1,00"); turning them into numbers belongs to
 * submission, which is not modelled here.
 */
module OrderForm {
  import opened Wrappers
  import opened OrderStore
  import opened OrderRoutes

  datatype FormItem = FormItem(produtoId: int, quantidade: int, precoUnitario: string)

  /** One field of an item together with its new value: `[field]: value`. */
  datatype FieldEdit =
    | SetProduto(produtoId: int)
    | SetQuantidade(quantidade: int)
    | SetPreco(precoUnitario: string)

  datatype FormState = FormState(clienteId: Option<int>, status: string, itens: seq<FormItem>)

  /** The item `handleAddItem` appends: no product yet, one unit at "1,00". */
  const BlankItem := FormItem(0, 1, "1,00")

  /**
   * A new form: no client, no items, and the status the back end gives a
   * new order.
   */
  function NewForm(): (f: FormState)
    ensures f.clienteId.None? && f.itens == []
    ensures ParseStatus(f.status) == Some(Pendente)
  {
    FormState(None, "Pendente", [])
  }

  /** `handleAddItem`: the blank item goes to the end. */
  function AddItem(itens: seq<FormItem>): (r: seq<FormItem>)
    ensures |r| == |itens| + 1
    ensures r[..|itens|] == itens && r[|itens|] == FormItem(0, 1, "1,00")
  {
    itens + [BlankItem]
  }

  /** `{ ...item, [field]: value }`. */
  function Apply(item: FormItem, edit: FieldEdit): FormItem
  {
    match edit
    case SetProduto(p) => item.(produtoId := p)
    case SetQuantidade(q) => item.(quantidade := q)
    case SetPreco(t) => item.(precoUnitario := t)
  }

  /** `handleItemChange`: a copy of the list with item `index` rewritten. */
  function ChangeItem(itens: seq<FormItem>, index: int, edit: FieldEdit): (r: seq<FormItem>)
    requires 0 <= index < |itens|
    ensures |r| == |itens|
    ensures forall i :: 0 <= i < |itens| && i != index ==> r[i] == itens[i]
    ensures match edit
      case SetProduto(p) => r[index] == itens[index].(produtoId := p)
      case SetQuantidade(q) => r[index] == itens[index].(quantidade := q)
      case SetPreco(t) => r[index] == itens[index].(precoUnitario := t)
  {
    itens[index := Apply(itens[index], edit)]
  }

  /** `itens.filter((_, i) => i !== index)`, walking the list as the filter does. */
  function FilterIndex(itens: seq<FormItem>, index: int, from: nat): (r: seq<FormItem>)
    requires from <= |itens|
    decreases |itens| - from
  {
    if from == |itens| then []
    else (if from == index then [] else [itens[from]]) + FilterIndex(itens, index, from + 1)
  }

  /** `handleRemoveItem`. */
  function RemoveItem(itens: seq<FormItem>, index: int): (r: seq<FormItem>)
  {
    FilterIndex(itens, index, 0)
  }

  /** The filter from `from` on, with the removed position outside that stretch, keeps it whole. */
  lemma {:induction false} FilterIndexNone(itens: seq<FormItem>, index: int, from: nat)
    requires from <= |itens|
    requires index < from || index >= |itens|
    ensures FilterIndex(itens, index, from) == itens[from..]
    decreases |itens| - from
  {
    if from < |itens| {
      FilterIndexNone(itens, index, from + 1);
    }
  }

  lemma {:induction false} FilterIndexSome(itens: seq<FormItem>, index: int, from: nat)
    requires from <= index < |itens|
    ensures FilterIndex(itens, index, from) == itens[from..index] + itens[index + 1..]
    decreases |itens| - from
  {
    if from == index {
      FilterIndexNone(itens, index, from + 1);
      assert itens[from..index] == [];
    } else {
      assert FilterIndex(itens, index, from) == [itens[from]] + FilterIndex(itens, index, from + 1);
      FilterIndexSome(itens, index, from + 1);
      assert itens[from..index] == [itens[from]] + itens[from + 1..index];
    }
  }

  /** Removing a position in range takes out exactly that item and keeps the rest in order. */
  lemma RemoveItemInRange(itens: seq<FormItem>, index: int)
    requires 0 <= index < |itens|
    ensures RemoveItem(itens, index) == itens[..index] + itens[index + 1..]
    ensures |RemoveItem(itens, index)| == |itens| - 1
  {
    FilterIndexSome(itens, index, 0);
  }

  /** Removing a position outside the list changes nothing. */
  lemma RemoveItemOutOfRange(itens: seq<FormItem>, index: int)
    requires index < 0 || index >= |itens|
    ensures RemoveItem(itens, index) == itens
  {
    FilterIndexNone(itens, index, 0);
  }

  /** Adding an item and removing the last position gives the list back. */
  lemma RemoveAfterAdd(itens: seq<FormItem>)
    ensures RemoveItem(AddItem(itens), |itens|) == itens
  {
    RemoveItemInRange(AddItem(itens), |itens|);
    assert AddItem(itens)[..|itens|] == itens;
  }

  /**
   * The items of the submitted payload: each form item with its price text
   * read as a number by `parse`, which stands for `parseFloat` after the
   * decimal comma is turned into a point.
   */
  function PayloadLines(itens: seq<FormItem>, parse: string -> real): (r: seq<Line>)
    ensures |r| == |itens|
    ensures forall i :: 0 <= i < |itens| ==>
      r[i].produtoId == itens[i].produtoId && r[i].quantidade == itens[i].quantidade &&
      r[i].precoUnitario == parse(itens[i].precoUnitario)
  {
    seq(|itens|, i requires 0 <= i < |itens| => Line(itens[i].produtoId, itens[i].quantidade, parse(itens[i].precoUnitario)))
  }

  /** Submitting a new form untouched is refused by the create route, which writes nothing. */
  lemma NewFormRefused(db: Db, now: string, parse: string -> real)
    ensures var f := NewForm();
      CreateOrder(db, CreateBody(f.clienteId, Some(PayloadLines(f.itens, parse))), now) == Outcome(db, BadRequest)
  {
    assert !NonEmpty(Some(PayloadLines(NewForm().itens, parse)));
  }
}
