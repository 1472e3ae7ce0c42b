/** What the store promises across many requests. Because every store
    operation runs under one lock, any run of the service is some sequence of
    operations applied one after the other; these lemmas hold for every such
    sequence. */
module History {
  import opened Catalog

  /** The table after running `ops` in order from `db`. */
  function Run(db: Db, ops: seq<StoreOp>): Db
    decreases |ops|
  {
    if ops == [] then db else Run(Apply(db, ops[0]).db, ops[1..])
  }

  /** The ids that clients received in "created" responses while `ops` ran,
      in order. */
  function CreatedIds(db: Db, ops: seq<StoreOp>): seq<int>
    decreases |ops|
  {
    if ops == [] then []
    else
      var o := Apply(db, ops[0]);
      (if o.resp.Json? && o.resp.status == Created then [o.resp.item.id] else [])
      + CreatedIds(o.db, ops[1..])
  }

  /** One create per payload. */
  function Creates(payloads: seq<Product>): (ops: seq<StoreOp>)
    ensures |ops| == |payloads|
    ensures forall i :: 0 <= i < |ops| ==> ops[i] == Create(payloads[i])
  {
    if payloads == [] then [] else [Create(payloads[0])] + Creates(payloads[1..])
  }

  /** Every run keeps the invariant and never lowers the counter. */
  lemma {:induction false} RunKeepsValid(db: Db, ops: seq<StoreOp>)
    requires Valid(db)
    ensures Valid(Run(db, ops))
    ensures db.nextID <= Run(db, ops).nextID
    decreases |ops|
  {
    if ops != [] {
      RunKeepsValid(Apply(db, ops[0]).db, ops[1..]);
    }
  }

  /** The ids handed out by creates are the counter's values in order, with
      no duplicate and no gap: the i-th create of a run gets the starting
      counter plus i, and the run ends with the counter just past the last
      one handed out. Deletes in between do not bring an id back. */
  lemma {:induction false} CreatedIdsAreConsecutive(db: Db, ops: seq<StoreOp>)
    ensures |CreatedIds(db, ops)| == Run(db, ops).nextID - db.nextID
    ensures forall i :: 0 <= i < |CreatedIds(db, ops)| ==> CreatedIds(db, ops)[i] == db.nextID + i
    decreases |ops|
  {
    if ops != [] {
      var o := Apply(db, ops[0]);
      CreatedIdsAreConsecutive(o.db, ops[1..]);
    }
  }

  /** On a valid table no create of any later run hands out an id that was
      stored when the run began. */
  lemma CreatedIdsAreFresh(db: Db, ops: seq<StoreOp>)
    requires Valid(db)
    ensures forall i :: 0 <= i < |CreatedIds(db, ops)| ==> CreatedIds(db, ops)[i] !in db.products
  {
    CreatedIdsAreConsecutive(db, ops);
  }

  /** An id below the counter that is not stored (it was deleted) is never
      stored again, whatever runs next. */
  lemma {:induction false} AbsentIdStaysAbsent(db: Db, id: int, ops: seq<StoreOp>)
    requires Valid(db) && id < db.nextID && id !in db.products
    ensures id !in Run(db, ops).products
    decreases |ops|
  {
    if ops != [] {
      var o := Apply(db, ops[0]);
      AbsentIdStaysAbsent(o.db, id, ops[1..]);
    }
  }

  /** After a record is deleted, every later lookup, update or delete of its
      id is NotFound, whatever ran in between; in particular a second delete
      of the same id is NotFound. */
  lemma DeletedIdIsNotFound(db: Db, id: int, ops: seq<StoreOp>, payload: Product)
    requires Valid(db) && id in db.products
    ensures var later := Run(DeleteProduct(db, id).db, ops);
      && GetProductByID(later, id).resp == Error(NotFound, NotFoundMessage)
      && UpdateProduct(later, id, payload).resp == Error(NotFound, NotFoundMessage)
      && DeleteProduct(later, id).resp == Error(NotFound, NotFoundMessage)
  {
    var after := DeleteProduct(db, id).db;
    AbsentIdStaysAbsent(after, id, ops);
  }

  /** A run of creates alone adds one record per create and keeps every
      record already stored. */
  lemma {:induction false} CreatesAddOneRecordEach(db: Db, payloads: seq<Product>)
    requires Valid(db)
    ensures var r := Run(db, Creates(payloads));
      && r.nextID == db.nextID + |payloads|
      && |r.products| == |db.products| + |payloads|
      && (forall k :: k in db.products ==> k in r.products && r.products[k] == db.products[k])
    decreases |payloads|
  {
    if payloads != [] {
      var o := CreatesStep(db, payloads);
      CreatesAddOneRecordEach(o.db, payloads[1..]);
    }
  }

  /** A run of creates alone stores new records under exactly the ids from
      the counter's starting value up to its final one. */
  lemma {:induction false} CreatesFillCounterRange(db: Db, payloads: seq<Product>)
    ensures var r := Run(db, Creates(payloads));
      && r.nextID == db.nextID + |payloads|
      && forall k :: k in r.products <==> k in db.products || db.nextID <= k < r.nextID
    decreases |payloads|
  {
    if payloads != [] {
      var o := CreatesStep(db, payloads);
      CreatesFillCounterRange(o.db, payloads[1..]);
    }
  }

  /** Unfolds a run of creates by its first step. */
  lemma CreatesStep(db: Db, payloads: seq<Product>) returns (o: Outcome)
    requires payloads != []
    ensures o == CreateProduct(db, payloads[0])
    ensures Run(db, Creates(payloads)) == Run(o.db, Creates(payloads[1..]))
  {
    var ops := Creates(payloads);
    o := CreateProduct(db, payloads[0]);
    assert Apply(db, ops[0]) == o;
    assert ops[1..] == Creates(payloads[1..]);
  }

  /** A run with no delete in it. */
  predicate NoDeletes(ops: seq<StoreOp>)
  {
    forall i :: 0 <= i < |ops| ==> !ops[i].Delete?
  }

  /** How many creates a run holds. */
  function CountCreates(ops: seq<StoreOp>): (n: nat)
    ensures n <= |ops|
    decreases |ops|
  {
    if ops == [] then 0 else (if ops[0].Create? then 1 else 0) + CountCreates(ops[1..])
  }

  /** The stored ids are exactly 1 up to the counter: nothing was deleted. */
  ghost predicate IdsContiguous(db: Db)
  {
    forall k :: k in db.products <==> 1 <= k < db.nextID
  }

  /** One operation other than a delete keeps the ids contiguous and adds
      one record exactly when it creates; a failed one changes nothing. */
  lemma NonDeleteStep(db: Db, op: StoreOp)
    requires Valid(db) && IdsContiguous(db) && !op.Delete?
    ensures var o := Apply(db, op);
      && Valid(o.db) && IdsContiguous(o.db)
      && o.db.nextID == db.nextID + (if op.Create? then 1 else 0)
      && |o.db.products| == |db.products| + (if op.Create? then 1 else 0)
  {
    var o := Apply(db, op);
    assert o.db.products.Keys == db.products.Keys + (if op.Create? then {db.nextID} else {});
  }

  /** When the stored ids are exactly 1 up to the counter, any run without
      a delete (creates, lookups and updates, failed ones included) keeps
      them so, and adds one record per create. */
  lemma {:induction false} DeleteFreeRunKeepsIdsContiguous(db: Db, ops: seq<StoreOp>)
    requires Valid(db) && IdsContiguous(db) && NoDeletes(ops)
    ensures var r := Run(db, ops);
      && Valid(r) && IdsContiguous(r)
      && r.nextID == db.nextID + CountCreates(ops)
      && |r.products| == |db.products| + CountCreates(ops)
    decreases |ops|
  {
    if ops != [] {
      NonDeleteStep(db, ops[0]);
      assert NoDeletes(ops[1..]) by {
        forall i | 0 <= i < |ops[1..]| ensures !ops[1..][i].Delete? {
          assert ops[1..][i] == ops[i + 1];
        }
      }
      DeleteFreeRunKeepsIdsContiguous(Apply(db, ops[0]).db, ops[1..]);
    }
  }

  /** From the startup table, a run with N creates and no deletes (whatever
      lookups and updates it also holds) leaves N + 2 records, and each of
      the ids 1 to N + 2 is found by a lookup. */
  lemma SeededThenCreates(ops: seq<StoreOp>)
    requires NoDeletes(ops)
    ensures |Run(Startup(), ops).products| == CountCreates(ops) + 2
    ensures forall k :: 1 <= k <= CountCreates(ops) + 2 ==>
              GetProductByID(Run(Startup(), ops), k).resp.Json?
  {
    DeleteFreeRunKeepsIdsContiguous(Startup(), ops);
  }
}
