/** The route table of src/routes/products.routes.js: which product handlers
    run behind the authentication gate. */
module Routes {
  import opened Wrappers
  import opened Crypto
  import opened Middleware

  datatype Verb = Get | Post | Put | Delete

  datatype Handler = GetAllProducts | GetProductById | CreateProduct | UpdateProduct | DeleteProduct

  datatype Route = Route(verb: Verb, path: string, handler: Handler, gated: bool)

  /** The five product routes as the router registers them. */
  const ProductRoutes: seq<Route> := [
    Route(Get, "/", GetAllProducts, false),
    Route(Get, "/:id", GetProductById, false),
    Route(Post, "/create", CreateProduct, true),
    Route(Put, "/:id", UpdateProduct, true),
    Route(Delete, "/:id", DeleteProduct, true)
  ]

  /** Whether a request on `route` reaches its handler: a public route always
      does, a gated one only when the gate calls `next()`. */
  predicate Reaches(route: Route, header: Option<string>, signer: Signer, now: nat)
  {
    !route.gated || Gate(header, signer, now).Next?
  }

  /** Reads are public and every write is gated; each handler has one route. */
  lemma GatedIffWrite()
    ensures forall r | r in ProductRoutes :: r.gated <==> r.verb != Get
    ensures forall i, j | 0 <= i < j < |ProductRoutes| :: ProductRoutes[i].handler != ProductRoutes[j].handler
  {
  }

  /** A read reaches its handler whatever the header. */
  lemma ReadsArePublic(route: Route, h1: Option<string>, h2: Option<string>, signer: Signer, now: nat)
    requires route in ProductRoutes && route.verb == Get
    ensures Reaches(route, h1, signer, now) && Reaches(route, h2, signer, now)
  {
  }

  /** Under the signer's assumptions, a write reaches its handler only with a
      header whose second field is a genuine, unexpired token. */
  lemma WritesNeedSignedToken(route: Route, header: Option<string>, signer: Signer, now: nat)
    requires SignerAxioms(signer)
    requires route in ProductRoutes && route.verb != Get
    requires Reaches(route, header, signer, now)
    ensures header.Some? && exists d :: TokenField(header.value) == Some(signer.sign(d)) && now < d.exp
  {
    GatedIffWrite();
    var d := Gate(header, signer, now).user;
    GateAcceptsOnlySigned(header, signer, now);
    assert TokenField(header.value) == Some(signer.sign(d)) && now < d.exp;
  }

  /** With no header at all, a write is answered 401 and never reaches its
      handler. */
  lemma WritesWithoutHeaderRejected(route: Route, signer: Signer, now: nat)
    requires route in ProductRoutes && route.verb != Get
    ensures !Reaches(route, None, signer, now)
    ensures Gate(None, signer, now) == Reject(401, MissingToken)
  {
  }
}
