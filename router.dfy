/** Request dispatch: the two handlers registered for the collection path and
    the item path, which pick a store operation from the path shape, the
    parsed id, the method and the decoded body, or reject the request before
    the store is touched. */
module Router {
  import opened Catalog

  datatype Option<T> = None | Some(value: T)

  /** The two path shapes served: the collection itself, or an item whose
      trailing segment either parsed as an integer id or did not. */
  datatype Path = Collection | Item(id: Option<int>)

  /** A request as the handlers see it: the path shape, the method name
      (`verb`) and the body as decoded into a product (None when decoding
      failed; a body without an id decodes with id 0). */
  datatype Request = Request(path: Path, verb: string, body: Option<Product>)

  /** Where a request goes: the listing, one store operation, or an error
      written straight back. */
  datatype Route = ListAll | Call(op: StoreOp) | Reject(status: Status, message: string)

  const InvalidIdMessage := "Invalid Product Id"
  const InvalidBodyMessage := "Invalid request Body"
  const MethodNotAllowedMessage := "Method Not Allowed"

  /** The methods each path shape answers. */
  function Allowed(path: Path): set<string>
  {
    match path
    case Collection => {"GET", "POST"}
    case Item(_) => {"GET", "PUT", "DELETE"}
  }

  /** The methods whose handler decodes a request body. */
  predicate ReadsBody(verb: string)
  {
    verb == "POST" || verb == "PUT"
  }

  /** The method that calls each store operation. */
  function MethodOf(op: StoreOp): string
  {
    match op
    case Get(_) => "GET"
    case Create(_) => "POST"
    case Update(_, _) => "PUT"
    case Delete(_) => "DELETE"
  }

  /** Choosing what a request does. The checks run in a fixed order: on the
      item path an id that did not parse is rejected whatever the method and
      body; then a method outside the path's table is refused whatever the
      body; then a body that did not decode is rejected, before any store
      operation is chosen; only then is the listing or a store operation
      picked, on the parsed id and with the decoded body. */
  function Dispatch(req: Request): (r: Route)
    ensures r.Reject? ==> 400 <= Code(r.status) < 500
    ensures req.path == Item(None) ==> r == Reject(BadRequest, InvalidIdMessage)
    ensures req.path != Item(None) ==>
              (r == Reject(MethodNotAllowed, MethodNotAllowedMessage) <==> req.verb !in Allowed(req.path))
    ensures r == Reject(BadRequest, InvalidBodyMessage) <==>
              && req.path != Item(None)
              && req.verb in Allowed(req.path)
              && ReadsBody(req.verb)
              && req.body == None
    ensures r.ListAll? <==> req.path == Collection && req.verb == "GET"
    ensures r.Call? <==>
              && req.path != Item(None)
              && req.verb in Allowed(req.path)
              && !(req.path == Collection && req.verb == "GET")
              && (ReadsBody(req.verb) ==> req.body != None)
    ensures r.Call? ==>
              && MethodOf(r.op) == req.verb
              && (r.op.Create? <==> req.path == Collection)
              && (!r.op.Create? ==> req.path == Item(Some(r.op.id)))
              && (r.op.Create? || r.op.Update? ==> req.body == Some(r.op.payload))
  {
    match req.path
    case Collection =>
      if req.verb == "GET" then ListAll
      else if req.verb == "POST" then
        match req.body
        case None => Reject(BadRequest, InvalidBodyMessage)
        case Some(p) => Call(Create(p))
      else Reject(MethodNotAllowed, MethodNotAllowedMessage)
    case Item(parsed) =>
      match parsed
      case None => Reject(BadRequest, InvalidIdMessage)
      case Some(id) =>
        if req.verb == "GET" then Call(Get(id))
        else if req.verb == "DELETE" then Call(Delete(id))
        else if req.verb == "PUT" then
          match req.body
          case None => Reject(BadRequest, InvalidBodyMessage)
          case Some(p) => Call(Update(id, p))
        else Reject(MethodNotAllowed, MethodNotAllowedMessage)
  }

  /** Only create and update read the body: for every other method the
      route does not depend on it. */
  lemma BodyIgnoredUnlessRead(req: Request, body: Option<Product>)
    requires !ReadsBody(req.verb)
    ensures Dispatch(req.(body := body)) == Dispatch(req)
  {
  }

  /** A body that fails to decode wins even over an id that is not stored:
      the update that would have answered NotFound is never reached. */
  lemma BadBodyBeatsNotFound(db: Db, id: int, payload: Product)
    requires id !in db.products
    ensures Dispatch(Request(Item(Some(id)), "PUT", None)) == Reject(BadRequest, InvalidBodyMessage)
    ensures Dispatch(Request(Item(Some(id)), "PUT", Some(payload))) == Call(Update(id, payload))
    ensures UpdateProduct(db, id, payload).resp == Error(NotFound, NotFoundMessage)
  {
  }

  /** A walk through the service from its startup table: create a keyboard
      (it gets id 3), read it back, update it, delete it, and read it again. */
  lemma KeyboardWalkthrough()
    ensures
      var post := Dispatch(Request(Collection, "POST", Some(Product(0, "Keyboard", 45.0))));
      var get := Dispatch(Request(Item(Some(3)), "GET", None));
      var put := Dispatch(Request(Item(Some(3)), "PUT", Some(Product(0, "Keyboard Pro", 60.0))));
      var del := Dispatch(Request(Item(Some(3)), "DELETE", None));
      && post.Call? && get.Call? && put.Call? && del.Call?
      && var s1 := Apply(Startup(), post.op);
      && var s2 := Apply(s1.db, get.op);
      && var s3 := Apply(s2.db, put.op);
      && var s4 := Apply(s3.db, del.op);
      && var s5 := Apply(s4.db, get.op);
      && s1.resp == Json(Created, Product(3, "Keyboard", 45.0))
      && s2.resp == Json(OK, Product(3, "Keyboard", 45.0))
      && s3.resp == Json(OK, Product(3, "Keyboard Pro", 60.0))
      && s4.resp == Empty(NoContent)
      && s5.resp == Error(NotFound, NotFoundMessage)
  {
  }
}
