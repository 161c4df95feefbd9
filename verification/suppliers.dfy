/**
 * The supplier list kept in front-end state: the three list updates of the
 * suppliers hook, and the page handler that picks the id of a new supplier
 * and clears the form.
 */
module Suppliers {

  datatype Supplier = Supplier(id: int, name: string, contact: string, address: string)

  /** The three text fields of the "new supplier" form. */
  datatype SupplierFields = SupplierFields(name: string, contact: string, address: string)

  const EmptyFields := SupplierFields("", "", "")

  /** `[...suppliers, supplier]`. */
  function AddSupplier(suppliers: seq<Supplier>, supplier: Supplier): (r: seq<Supplier>)
    ensures |r| == |suppliers| + 1
    ensures r[..|suppliers|] == suppliers && r[|suppliers|] == supplier
  {
    suppliers + [supplier]
  }

  /** `suppliers.map(s => s.id === supplierId ? updated : s)`. */
  function EditSupplier(suppliers: seq<Supplier>, supplierId: int, updated: Supplier): (r: seq<Supplier>)
    ensures |r| == |suppliers|
  {
    if |suppliers| == 0 then []
    else
      var s := suppliers[|suppliers| - 1];
      EditSupplier(suppliers[..|suppliers| - 1], supplierId, updated) + [if s.id == supplierId then updated else s]
  }

  /** `suppliers.filter(s => s.id !== supplierId)`. */
  function DeleteSupplier(suppliers: seq<Supplier>, supplierId: int): (r: seq<Supplier>)
    ensures |r| <= |suppliers|
  {
    if |suppliers| == 0 then []
    else
      var s := suppliers[|suppliers| - 1];
      DeleteSupplier(suppliers[..|suppliers| - 1], supplierId) + (if s.id == supplierId then [] else [s])
  }

  /** The id `handleAddSupplier` gives a new supplier: one past the last, or 1 for an empty list. */
  function NextId(suppliers: seq<Supplier>): (id: int)
    ensures |suppliers| == 0 ==> id == 1
    ensures |suppliers| > 0 ==> id == suppliers[|suppliers| - 1].id + 1
  {
    if |suppliers| > 0 then suppliers[|suppliers| - 1].id + 1 else 1
  }

  /** `handleAddSupplier`: the list with the new supplier appended, and the cleared form. */
  function HandleAddSupplier(suppliers: seq<Supplier>, fields: SupplierFields): (r: (seq<Supplier>, SupplierFields))
    ensures r.1 == EmptyFields
    ensures |r.0| == |suppliers| + 1 && r.0[..|suppliers|] == suppliers
    ensures var added := r.0[|suppliers|];
      added.id == (if |suppliers| == 0 then 1 else suppliers[|suppliers| - 1].id + 1) &&
      added.name == fields.name && added.contact == fields.contact && added.address == fields.address
  {
    var f := fields;
    (AddSupplier(suppliers, Supplier(NextId(suppliers), f.name, f.contact, f.address)), EmptyFields)
  }

  predicate Increasing(suppliers: seq<Supplier>)
  {
    forall i, j :: 0 <= i < j < |suppliers| ==> suppliers[i].id < suppliers[j].id
  }

  predicate UniqueIds(suppliers: seq<Supplier>)
  {
    forall i, j :: 0 <= i < |suppliers| && 0 <= j < |suppliers| && i != j ==> suppliers[i].id != suppliers[j].id
  }

  // ---------------------------------------------------------------------
  // Properties
  // ---------------------------------------------------------------------

  /** Editing keeps positions and replaces exactly the entries carrying the id. */
  lemma {:induction false} EditSupplierPointwise(suppliers: seq<Supplier>, supplierId: int, updated: Supplier)
    ensures var r := EditSupplier(suppliers, supplierId, updated);
      forall i :: 0 <= i < |suppliers| ==>
        r[i] == if suppliers[i].id == supplierId then updated else suppliers[i]
    decreases |suppliers|
  {
    if |suppliers| > 0 {
      EditSupplierPointwise(suppliers[..|suppliers| - 1], supplierId, updated);
    }
  }

  /** Editing an id nobody carries changes nothing. */
  lemma EditAbsentSupplier(suppliers: seq<Supplier>, supplierId: int, updated: Supplier)
    requires forall i :: 0 <= i < |suppliers| ==> suppliers[i].id != supplierId
    ensures EditSupplier(suppliers, supplierId, updated) == suppliers
  {
    EditSupplierPointwise(suppliers, supplierId, updated);
  }

  /** Deleting keeps exactly the entries without the id. */
  lemma {:induction false} DeleteSupplierKeeps(suppliers: seq<Supplier>, supplierId: int)
    ensures var r := DeleteSupplier(suppliers, supplierId);
      (forall i :: 0 <= i < |r| ==> r[i].id != supplierId) &&
      (forall s :: s in r <==> s in suppliers && s.id != supplierId)
    decreases |suppliers|
  {
    if |suppliers| > 0 {
      var init := suppliers[..|suppliers| - 1];
      DeleteSupplierKeeps(init, supplierId);
      assert suppliers == init + [suppliers[|suppliers| - 1]];
    }
  }

  /**
   * Deleting distributes over concatenation: each part is filtered in place,
   * so the entries that remain keep their relative order.
   */
  lemma {:induction false} DeleteSupplierAppend(a: seq<Supplier>, b: seq<Supplier>, supplierId: int)
    ensures DeleteSupplier(a + b, supplierId) == DeleteSupplier(a, supplierId) + DeleteSupplier(b, supplierId)
    decreases |b|
  {
    if |b| == 0 {
      assert a + b == a;
    } else {
      var init := b[..|b| - 1];
      assert (a + b)[..|a + b| - 1] == a + init;
      DeleteSupplierAppend(a, init, supplierId);
    }
  }

  /** Deleting an id nobody carries changes nothing. */
  lemma {:induction false} DeleteAbsentSupplier(suppliers: seq<Supplier>, supplierId: int)
    requires forall i :: 0 <= i < |suppliers| ==> suppliers[i].id != supplierId
    ensures DeleteSupplier(suppliers, supplierId) == suppliers
    decreases |suppliers|
  {
    if |suppliers| > 0 {
      var init := suppliers[..|suppliers| - 1];
      DeleteAbsentSupplier(init, supplierId);
      assert suppliers == init + [suppliers[|suppliers| - 1]];
    }
  }

  /** Deleting twice is deleting once. */
  lemma DeleteSupplierIdempotent(suppliers: seq<Supplier>, supplierId: int)
    ensures DeleteSupplier(DeleteSupplier(suppliers, supplierId), supplierId) == DeleteSupplier(suppliers, supplierId)
  {
    DeleteSupplierKeeps(suppliers, supplierId);
    DeleteAbsentSupplier(DeleteSupplier(suppliers, supplierId), supplierId);
  }

  /** Deleting from a list with strictly increasing ids keeps them strictly increasing. */
  lemma {:induction false} DeleteSupplierOrdered(suppliers: seq<Supplier>, supplierId: int)
    requires Increasing(suppliers)
    ensures Increasing(DeleteSupplier(suppliers, supplierId))
    decreases |suppliers|
  {
    if |suppliers| > 0 {
      var init := suppliers[..|suppliers| - 1];
      var last := suppliers[|suppliers| - 1];
      DeleteSupplierOrdered(init, supplierId);
      DeleteSupplierKeeps(init, supplierId);
      var d := DeleteSupplier(init, supplierId);
      forall i | 0 <= i < |d|
        ensures d[i].id < last.id
      {
        assert d[i] in init;
      }
    }
  }

  /** Strictly increasing ids are unique ids. */
  lemma IncreasingUnique(suppliers: seq<Supplier>)
    requires Increasing(suppliers)
    ensures UniqueIds(suppliers)
  {
    forall i, j | 0 <= i < |suppliers| && 0 <= j < |suppliers| && i != j
      ensures suppliers[i].id != suppliers[j].id
    {
      if i < j {
        assert suppliers[i].id < suppliers[j].id;
      } else {
        assert suppliers[j].id < suppliers[i].id;
      }
    }
  }

  /** Adding through the page keeps the ids strictly increasing, hence unique. */
  lemma AddKeepsIncreasing(suppliers: seq<Supplier>, fields: SupplierFields)
    requires Increasing(suppliers)
    ensures Increasing(HandleAddSupplier(suppliers, fields).0)
    ensures UniqueIds(HandleAddSupplier(suppliers, fields).0)
  {
    var r := HandleAddSupplier(suppliers, fields).0;
    assert r[|suppliers|].id == NextId(suppliers);
    forall i, j | 0 <= i < j < |r|
      ensures r[i].id < r[j].id
    {
      if j == |suppliers| {
        assert r[i] == suppliers[i];
        assert suppliers[i].id <= suppliers[|suppliers| - 1].id;
      }
    }
    IncreasingUnique(r);
  }
}
