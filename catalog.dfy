/** The product records, the in-memory table that holds them, and the effect
    of each store operation stated as a function of that table.

    The table is a value `Db(products, nextID)`: `products` maps an id to the
    record stored under it and `nextID` is the id the next create hands out.
    Each store operation runs atomically under the store's single lock, so it
    is a function from the table before to the table after plus the response
    the client sees. */
module Catalog {

  /** One product record. The price is a float64 that the service only
      carries, so it is kept as a real that no operation computes on. */
  datatype Product = Product(id: int, name: string, price: real)

  /** The statuses the service answers with. */
  datatype Status = OK | Created | NoContent | BadRequest | NotFound | MethodNotAllowed

  /** The HTTP status code written for each status. */
  function Code(s: Status): int
  {
    match s
    case OK => 200
    case Created => 201
    case NoContent => 204
    case BadRequest => 400
    case NotFound => 404
    case MethodNotAllowed => 405
  }

  const NotFoundMessage := "Product not found"
  const MismatchMessage := "ID in the URL and the Body do not match"

  /** What a handler writes back: one record as JSON, a list of records as
      JSON, a bare status with no body, or a plain-text error. */
  datatype Response =
    | Json(status: Status, item: Product)
    | JsonList(status: Status, items: seq<Product>)
    | Empty(status: Status)
    | Error(status: Status, message: string)

  /** The shared state: the table and the counter that numbers new records. */
  datatype Db = Db(products: map<int, Product>, nextID: int)

  /** The table's invariant: every record sits under its own id, and every
      id in use is positive and below the counter, so the counter never
      names a record that already exists. */
  predicate Valid(db: Db)
  {
    && 1 <= db.nextID
    && forall k :: k in db.products ==> db.products[k].id == k && 1 <= k < db.nextID
  }

  /** The table after an operation, with the response it produced. */
  datatype Outcome = Outcome(db: Db, resp: Response)

  /** The store operations a request can be routed to (listing aside). */
  datatype StoreOp =
    | Get(id: int)
    | Create(payload: Product)
    | Update(id: int, payload: Product)
    | Delete(id: int)

  /** Looking up one record: found or NotFound, and the table is untouched. */
  function GetProductByID(db: Db, id: int): (o: Outcome)
    ensures o.db == db
    ensures o.resp.Json? <==> id in db.products
    ensures o.resp.Json? ==> o.resp.status == OK && o.resp.item == db.products[id]
    ensures Valid(db) && o.resp.Json? ==> o.resp.item.id == id
    ensures !o.resp.Json? ==> o.resp == Error(NotFound, NotFoundMessage)
  {
    if id in db.products then Outcome(db, Json(OK, db.products[id]))
    else Outcome(db, Error(NotFound, NotFoundMessage))
  }

  /** Creating a record: the payload is stored under the counter's value,
      with its id overwritten by that value whatever the client sent; the
      counter moves up by one; on a valid table nothing already stored is
      overwritten. */
  function CreateProduct(db: Db, payload: Product): (o: Outcome)
    ensures o.db.nextID == db.nextID + 1
    ensures o.db.products.Keys == db.products.Keys + {db.nextID}
    ensures o.resp == Json(Created, o.db.products[db.nextID])
    ensures o.resp.item.id == db.nextID
    ensures o.resp.item.name == payload.name && o.resp.item.price == payload.price
    ensures forall k :: k in db.products && k != db.nextID ==> o.db.products[k] == db.products[k]
    ensures Valid(db) ==> db.nextID !in db.products && Valid(o.db)
  {
    var stored := payload.(id := db.nextID);
    Outcome(Db(db.products[stored.id := stored], db.nextID + 1), Json(Created, stored))
  }

  /** Replacing a record. An absent id is NotFound; then a non-zero body id
      that differs from the path id is BadRequest; both leave the table as it
      was. Otherwise the record under `id` becomes the payload carrying `id`,
      and every other record and the counter stay put. */
  function UpdateProduct(db: Db, id: int, payload: Product): (o: Outcome)
    ensures id !in db.products ==> o == Outcome(db, Error(NotFound, NotFoundMessage))
    ensures id in db.products && payload.id != 0 && payload.id != id ==>
              o == Outcome(db, Error(BadRequest, MismatchMessage))
    ensures o.resp.Json? <==> id in db.products && payload.id in {0, id}
    ensures o.resp.Json? ==>
              && o.resp.status == OK
              && o.db.products.Keys == db.products.Keys
              && o.db.nextID == db.nextID
              && o.resp.item == o.db.products[id]
              && o.resp.item.id == id
              && o.resp.item.name == payload.name
              && o.resp.item.price == payload.price
    ensures forall k :: k in db.products && k != id ==> k in o.db.products && o.db.products[k] == db.products[k]
    ensures Valid(db) ==> Valid(o.db)
  {
    if id !in db.products then
      Outcome(db, Error(NotFound, NotFoundMessage))
    else if payload.id != 0 && payload.id != id then
      Outcome(db, Error(BadRequest, MismatchMessage))
    else
      var stored := payload.(id := id);
      Outcome(Db(db.products[id := stored], db.nextID), Json(OK, stored))
  }

  /** Removing a record: an absent id is NotFound with no change; otherwise
      exactly that key goes and every other record and the counter stay. */
  function DeleteProduct(db: Db, id: int): (o: Outcome)
    ensures id !in db.products ==> o == Outcome(db, Error(NotFound, NotFoundMessage))
    ensures id in db.products ==>
              && o.resp == Empty(NoContent)
              && o.db.products.Keys == db.products.Keys - {id}
              && o.db.nextID == db.nextID
    ensures forall k :: k in o.db.products ==> k in db.products && o.db.products[k] == db.products[k]
    ensures Valid(db) ==> Valid(o.db)
  {
    if id !in db.products then Outcome(db, Error(NotFound, NotFoundMessage))
    else Outcome(Db(db.products - {id}, db.nextID), Empty(NoContent))
  }

  /** The one key an operation may touch. */
  function Target(db: Db, op: StoreOp): int
  {
    match op
    case Create(_) => db.nextID
    case Get(id) => id
    case Update(id, _) => id
    case Delete(id) => id
  }

  /** Running one store operation. Every operation keeps the invariant,
      touches at most its own key, changes nothing when it fails (and fails
      exactly when its answer carries a 4xx code), and moves the counter
      only when it creates, by one, handing the old value out. */
  function Apply(db: Db, op: StoreOp): (o: Outcome)
    ensures Valid(db) ==> Valid(o.db)
    ensures o.resp.Error? ==> o.db == db && o.resp.status in {BadRequest, NotFound}
    ensures o.resp.Error? <==> 400 <= Code(o.resp.status) < 500
    ensures !o.resp.Error? ==> 200 <= Code(o.resp.status) < 300
    ensures op.Get? ==> o.db == db
    ensures o.db.nextID == if o.resp.status == Created then db.nextID + 1 else db.nextID
    ensures o.resp.status == Created ==> o.resp.Json? && o.resp.item.id == db.nextID
    ensures forall k :: k != Target(db, op) ==>
              && (k in o.db.products <==> k in db.products)
              && (k in db.products ==> o.db.products[k] == db.products[k])
  {
    match op
    case Get(id) => GetProductByID(db, id)
    case Create(payload) => CreateProduct(db, payload)
    case Update(id, payload) => UpdateProduct(db, id, payload)
    case Delete(id) => DeleteProduct(db, id)
  }

  /** The table before startup: empty, counter at 1. */
  const Initial := Db(map[], 1)

  /** Startup seeding: two fixed records go in under the next two ids and
      the counter moves past them. */
  function Seed(db: Db): (r: Db)
    ensures r.nextID == db.nextID + 2
    ensures r.products.Keys == db.products.Keys + {db.nextID, db.nextID + 1}
    ensures r.products[db.nextID] == Product(db.nextID, "Laptop", 1200.0)
    ensures r.products[db.nextID + 1] == Product(db.nextID + 1, "Mouse", 25.0)
    ensures Valid(db) ==> Valid(r)
  {
    var first := Db(db.products[db.nextID := Product(db.nextID, "Laptop", 1200.0)], db.nextID + 1);
    Db(first.products[first.nextID := Product(first.nextID, "Mouse", 25.0)], first.nextID + 1)
  }

  /** The table the service starts serving with: exactly ids 1 and 2,
      counter at 3. */
  function Startup(): (db: Db)
    ensures Valid(db)
    ensures db.products.Keys == {1, 2} && |db.products| == 2 && db.nextID == 3
    // the key set once more, per key, so that callers quantifying over keys
    // have a term to match without reasoning about set equality
    ensures forall k :: k in db.products <==> k == 1 || k == 2
    ensures db.products[1] == Product(1, "Laptop", 1200.0)
    ensures db.products[2] == Product(2, "Mouse", 25.0)
  {
    var db := Seed(Initial);
    assert db.products.Keys == {1, 2};
    db
  }

  /** `items` lists the records of table `m`: each stored record exactly
      once, in some order. Elements are matched to keys through their ids,
      as the table's invariant lets one do. */
  predicate IsListing(m: map<int, Product>, items: seq<Product>)
  {
    && |items| == |m|
    && (forall i :: 0 <= i < |items| ==> items[i].id in m && m[items[i].id] == items[i])
    && (forall k :: k in m ==> exists i :: 0 <= i < |items| && items[i].id == k)
    && (forall i, j :: 0 <= i < j < |items| ==> items[i].id != items[j].id)
  }

  /** A sequence whose elements have pairwise different ids holds each of
      them once. */
  lemma {:induction false} DistinctIdsCountOnce(s: seq<Product>)
    requires forall i, j :: 0 <= i < j < |s| ==> s[i].id != s[j].id
    ensures forall x :: multiset(s)[x] == if x in s then 1 else 0
  {
    if s != [] {
      DistinctIdsCountOnce(s[1..]);
      assert s == [s[0]] + s[1..];
      assert s[0] !in s[1..] by {
        forall i | 0 <= i < |s[1..]| ensures s[1..][i] != s[0] {
          assert s[1..][i] == s[i + 1];
        }
      }
      forall x ensures multiset(s)[x] == if x in s then 1 else 0 {
        assert multiset(s) == multiset{s[0]} + multiset(s[1..]);
        assert x in s <==> x == s[0] || x in s[1..];
      }
    }
  }

  /** A listing holds a record exactly when the table stores that record
      under the record's id. */
  lemma ListingMembership(m: map<int, Product>, items: seq<Product>, x: Product)
    requires IsListing(m, items)
    ensures x in items <==> x.id in m && m[x.id] == x
  {
    if x.id in m && m[x.id] == x {
      var i :| 0 <= i < |items| && items[i].id == x.id;
    }
  }

  /** The order of a listing is all that is left open: any two listings of
      the same table are permutations of each other. */
  lemma ListingsArePermutations(m: map<int, Product>, a: seq<Product>, b: seq<Product>)
    requires IsListing(m, a) && IsListing(m, b)
    ensures multiset(a) == multiset(b)
  {
    DistinctIdsCountOnce(a);
    DistinctIdsCountOnce(b);
    forall x ensures multiset(a)[x] == multiset(b)[x] {
      ListingMembership(m, a, x);
      ListingMembership(m, b, x);
    }
  }

  /** On a valid table every element of a listing is what a lookup of its
      id returns. */
  lemma ListingAgreesWithLookup(db: Db, items: seq<Product>)
    requires Valid(db) && IsListing(db.products, items)
    ensures forall i :: 0 <= i < |items| ==> GetProductByID(db, items[i].id).resp == Json(OK, items[i])
    ensures forall k :: GetProductByID(db, k).resp.Json? ==> GetProductByID(db, k).resp.item in items
  {
  }
}
