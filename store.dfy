/** The product store as the service keeps it: one shared table and one
    counter, changed in place by the request handlers. Each method is one
    handler's critical section (the store's lock makes it atomic) and is
    proved against the table-level function in `Catalog` that states its
    effect. */
module Store {
  import opened Catalog
  import Router

  class ProductStore {
    var products: map<int, Product>
    var nextID: int

    /** The table and counter as a value. */
    function State(): Db
      reads this
    {
      Db(products, nextID)
    }

    /** The store's invariant: that of its table. */
    ghost predicate Valid()
      reads this
    {
      Catalog.Valid(State())
    }

    /** The state before startup: no records, counter at 1. */
    constructor ()
      ensures State() == Initial
      ensures Valid()
    {
      products := map[];
      nextID := 1;
    }

    /** Startup seeding: each of the two fixed records goes in under the
        counter, which is bumped after each. */
    method Seed()
      requires Valid()
      modifies this
      ensures Valid()
      ensures State() == Catalog.Seed(old(State()))
    {
      products := products[nextID := Product(nextID, "Laptop", 1200.0)];
      nextID := nextID + 1;
      products := products[nextID := Product(nextID, "Mouse", 25.0)];
      nextID := nextID + 1;
    }

    /** Listing: one pass over the table, appending each stored record. The
        order the keys are visited in is left open, as the map's iteration
        order is; whatever it is, the result lists every record once. */
    method GetProducts() returns (r: Response)
      requires Valid()
      ensures r.JsonList? && r.status == OK
      ensures IsListing(products, r.items)
    {
      var items: seq<Product> := [];
      var pending := products.Keys;
      ghost var visited: seq<int> := [];
      while pending != {}
        invariant pending <= products.Keys
        invariant forall k :: k in visited <==> k in products && k !in pending
        invariant |items| == |visited|
        invariant forall i :: 0 <= i < |items| ==> visited[i] in products && items[i] == products[visited[i]]
        invariant forall i, j :: 0 <= i < j < |visited| ==> visited[i] != visited[j]
        decreases pending
      {
        // Not read: the lemma's witness is what lets Dafny accept the
        // choice of a key on the next line.
        ghost var picked := Element(pending);
        var k :| k in pending;
        items := items + [products[k]];
        visited := visited + [k];
        pending := pending - {k};
      }
      KeyOrderGivesListing(State(), visited, items);
      r := JsonList(OK, items);
    }

    /** Looking up one record; the store is only read. */
    method GetProductByID(id: int) returns (r: Response)
      ensures Outcome(State(), r) == Catalog.GetProductByID(State(), id)
      ensures r.Json? <==> id in products
    {
      if id !in products {
        r := Error(NotFound, NotFoundMessage);
        return;
      }
      r := Json(OK, products[id]);
    }

    /** Creating a record under the counter, which is then bumped. */
    method CreateProduct(payload: Product) returns (r: Response)
      requires Valid()
      modifies this
      ensures Valid()
      ensures Outcome(State(), r) == Catalog.CreateProduct(old(State()), payload)
      ensures old(nextID) !in old(products) && nextID == old(nextID) + 1
    {
      var stored := payload.(id := nextID);
      products := products[stored.id := stored];
      nextID := nextID + 1;
      r := Json(Created, stored);
    }

    /** Replacing a record after the existence check and the id check. */
    method UpdateProduct(id: int, payload: Product) returns (r: Response)
      requires Valid()
      modifies this
      ensures Valid()
      ensures Outcome(State(), r) == Catalog.UpdateProduct(old(State()), id, payload)
      ensures r.Error? ==> State() == old(State())
    {
      if id !in products {
        r := Error(NotFound, NotFoundMessage);
        return;
      }
      if payload.id != 0 && payload.id != id {
        r := Error(BadRequest, MismatchMessage);
        return;
      }
      var stored := payload.(id := id);
      products := products[id := stored];
      r := Json(OK, stored);
    }

    /** Removing a record after the existence check. */
    method DeleteProduct(id: int) returns (r: Response)
      requires Valid()
      modifies this
      ensures Valid()
      ensures Outcome(State(), r) == Catalog.DeleteProduct(old(State()), id)
      ensures id !in products
    {
      if id !in products {
        r := Error(NotFound, NotFoundMessage);
        return;
      }
      products := products - {id};
      r := Empty(NoContent);
    }

    /** Serving one request: dispatch, then at most one store operation. A
        rejected request leaves the store as it was; the listing leaves it
        as it was and lists it; a store operation has exactly the effect its
        table-level function states. */
    method Serve(req: Router.Request) returns (r: Response)
      requires Valid()
      modifies this
      ensures Valid()
      ensures match Router.Dispatch(req)
        case Reject(status, message) => r == Error(status, message) && State() == old(State())
        case ListAll => State() == old(State()) && r.JsonList? && r.status == OK && IsListing(products, r.items)
        case Call(op) => Outcome(State(), r) == Apply(old(State()), op)
    {
      match Router.Dispatch(req)
      case Reject(status, message) =>
        r := Error(status, message);
      case ListAll =>
        r := GetProducts();
      case Call(op) =>
        match op
        case Get(id) => r := GetProductByID(id);
        case Create(payload) => r := CreateProduct(payload);
        case Update(id, payload) => r := UpdateProduct(id, payload);
        case Delete(id) => r := DeleteProduct(id);
    }
  }

  /** The service at startup: package state, then the seeding in `main`. */
  method Start() returns (s: ProductStore)
    ensures fresh(s) && s.Valid()
    ensures s.State() == Startup()
  {
    s := new ProductStore();
    s.Seed();
  }

  /** Reading a table's records off a repetition-free order of its keys
      gives a listing of the table. */
  lemma KeyOrderGivesListing(db: Db, keys: seq<int>, items: seq<Product>)
    requires Catalog.Valid(db)
    requires forall k :: k in keys <==> k in db.products
    requires forall i, j :: 0 <= i < j < |keys| ==> keys[i] != keys[j]
    requires |items| == |keys|
    requires forall i :: 0 <= i < |items| ==> keys[i] in db.products && items[i] == db.products[keys[i]]
    ensures IsListing(db.products, items)
  {
    KeyOrderCount(db.products.Keys, keys);
    assert |db.products| == |db.products.Keys|;
    forall k | k in db.products ensures exists i :: 0 <= i < |items| && items[i].id == k {
      var i :| 0 <= i < |keys| && keys[i] == k;
      assert items[i].id == k;
    }
  }

  /** A repetition-free sequence of exactly the elements of a set is as
      long as the set is large. */
  lemma {:induction false} KeyOrderCount(ks: set<int>, keys: seq<int>)
    requires forall k :: k in keys <==> k in ks
    requires forall i, j :: 0 <= i < j < |keys| ==> keys[i] != keys[j]
    ensures |keys| == |ks|
  {
    if keys == [] {
      if ks != {} {
        var k := Element(ks);
        assert false;
      }
    } else {
      var x := keys[0];
      assert x in keys;
      var rest := ks - {x};
      forall k ensures k in keys[1..] <==> k in rest {
        if k in keys[1..] {
          var i :| 0 <= i < |keys[1..]| && keys[1..][i] == k;
          assert keys[i + 1] == k;
        }
        if k in keys && k != x {
          var i :| 0 <= i < |keys| && keys[i] == k;
          assert keys[1..][i - 1] == k;
        }
      }
      KeyOrderCount(rest, keys[1..]);
      assert ks == rest + {x};
    }
  }

  /** A non-empty set has an element. */
  lemma Element(s: set<int>) returns (k: int)
    requires s != {}
    ensures k in s
  {
    if forall x :: x !in s {
      assert false;
    }
    k :| k in s;
  }
}
