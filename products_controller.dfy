/** The product controller (src/controllers/products.controller.js): five
    handlers, each a function of the request's id or body and of the
    service's outcome. A missing id or required field is answered before the
    outcome is looked at; an error is mapped to a status by its message. */
module ProductsController {
  import opened Wrappers
  import opened Text
  import opened Documents
  import opened Http
  import ProductsService

  const IdRequired := "ID de producto requerido"
  const ListFailed := "Error al obtener productos"
  const GetFailed := "Error al obtener producto"
  const CreateMissing := "Nombre y precio son requeridos"
  const Created := "Producto creado exitosamente"
  const CreateFailed := "Error al crear producto"
  const Updated := "Producto actualizado exitosamente"
  const UpdateFailed := "Error al actualizar producto"
  const Deleted := "Producto eliminado exitosamente"
  const DeleteFailed := "Error al eliminar producto"

  /** `getAllProducts(req, res)`: the list and its length, or a generic 500. */
  function GetAllProducts(outcome: Result<seq<Doc>, string>): (r: Reply)
    ensures outcome.Success? ==>
      r.status == 200 && r.success && r.data == ProductList(outcome.value) && r.count == Some(|outcome.value|)
    ensures outcome.Failure? ==> r == Fail(500, ListFailed)
  {
    match outcome
    case Success(products) => Reply(200, true, None, ProductList(products), Some(|products|), None)
    case Failure(_) => Fail(500, ListFailed)
  }

  /** `getProductById(req, res)`. */
  function GetProductById(id: string, outcome: Result<Doc, string>): (r: Reply)
    ensures id == [] ==> r == Fail(400, IdRequired)
    ensures id != [] && outcome.Success? ==> r == Reply(200, true, None, OneProduct(outcome.value), None, None)
    ensures id != [] && outcome.Failure? ==>
      r == if outcome.error == ProductsService.ProductNotFound then Fail(404, outcome.error) else Fail(500, GetFailed)
  {
    if id == [] then Fail(400, IdRequired)
    else match outcome
      case Success(product) => Reply(200, true, None, OneProduct(product), None, None)
      case Failure(message) =>
        if message == ProductsService.ProductNotFound then Fail(404, message) else Fail(500, GetFailed)
  }

  /** `createProduct(req, res)`: the presence check on `name` and `price`
      first; then a message mentioning "requeridos" or "precio" is the
      client's fault (400) and anything else a generic 500. */
  function CreateProduct(body: Doc, outcome: Result<string, string>): (r: Reply)
    ensures !Truthy(Field(body, "name")) || !Truthy(Field(body, "price")) ==> r == Fail(400, CreateMissing)
    ensures Truthy(Field(body, "name")) && Truthy(Field(body, "price")) ==>
      match outcome
      case Success(id) => r == Reply(201, true, Some(Created), ProductId(id), None, None)
      case Failure(message) =>
        r == if Contains(message, "requeridos") || Contains(message, "precio") then Fail(400, message)
             else Fail(500, CreateFailed)
  {
    if !Truthy(Field(body, "name")) || !Truthy(Field(body, "price")) then Fail(400, CreateMissing)
    else match outcome
      case Success(id) => Reply(201, true, Some(Created), ProductId(id), None, None)
      case Failure(message) =>
        if Contains(message, "requeridos") || Contains(message, "precio") then Fail(400, message)
        else Fail(500, CreateFailed)
  }

  /** `updateProduct(req, res)`: not found is 404, a price message 400. */
  function UpdateProduct(id: string, outcome: Result<string, string>): (r: Reply)
    ensures id == [] ==> r == Fail(400, IdRequired)
    ensures id != [] ==>
      match outcome
      case Success(updated) => r == Reply(200, true, Some(Updated), ProductId(updated), None, None)
      case Failure(message) =>
        r == if message == ProductsService.ProductNotFound then Fail(404, message)
             else if Contains(message, "precio") then Fail(400, message)
             else Fail(500, UpdateFailed)
  {
    if id == [] then Fail(400, IdRequired)
    else match outcome
      case Success(updated) => Reply(200, true, Some(Updated), ProductId(updated), None, None)
      case Failure(message) =>
        if message == ProductsService.ProductNotFound then Fail(404, message)
        else if Contains(message, "precio") then Fail(400, message)
        else Fail(500, UpdateFailed)
  }

  /** `deleteProduct(req, res)`. */
  function DeleteProduct(id: string, outcome: Result<string, string>): (r: Reply)
    ensures id == [] ==> r == Fail(400, IdRequired)
    ensures id != [] ==>
      match outcome
      case Success(_) => r == Reply(200, true, Some(Deleted), NoData, None, None)
      case Failure(message) =>
        r == if message == ProductsService.ProductNotFound then Fail(404, message) else Fail(500, DeleteFailed)
  {
    if id == [] then Fail(400, IdRequired)
    else match outcome
      case Success(_) => Reply(200, true, Some(Deleted), NoData, None, None)
      case Failure(message) =>
        if message == ProductsService.ProductNotFound then Fail(404, message) else Fail(500, DeleteFailed)
  }

  /** A 500 happens exactly when the service failed with a message the
      handler does not recognise as the client's fault, and its body is then
      the handler's fixed text: the service's message is never echoed. */
  lemma ServerErrorsAreGeneric(id: string, body: Doc, all: Result<seq<Doc>, string>, one: Result<Doc, string>,
                               created: Result<string, string>, updated: Result<string, string>,
                               deleted: Result<string, string>)
    ensures GetAllProducts(all).status == 500 <==> all.Failure?
    ensures GetProductById(id, one).status == 500 <==>
      id != [] && one.Failure? && one.error != ProductsService.ProductNotFound
    ensures CreateProduct(body, created).status == 500 <==>
      && Truthy(Field(body, "name")) && Truthy(Field(body, "price")) && created.Failure?
      && !Contains(created.error, "requeridos") && !Contains(created.error, "precio")
    ensures UpdateProduct(id, updated).status == 500 <==>
      id != [] && updated.Failure? && updated.error != ProductsService.ProductNotFound
      && !Contains(updated.error, "precio")
    ensures DeleteProduct(id, deleted).status == 500 <==>
      id != [] && deleted.Failure? && deleted.error != ProductsService.ProductNotFound
    ensures GetAllProducts(all).status == 500 ==> GetAllProducts(all) == Fail(500, ListFailed)
    ensures GetProductById(id, one).status == 500 ==> GetProductById(id, one) == Fail(500, GetFailed)
    ensures CreateProduct(body, created).status == 500 ==> CreateProduct(body, created) == Fail(500, CreateFailed)
    ensures UpdateProduct(id, updated).status == 500 ==> UpdateProduct(id, updated) == Fail(500, UpdateFailed)
    ensures DeleteProduct(id, deleted).status == 500 ==> DeleteProduct(id, deleted) == Fail(500, DeleteFailed)
  {
  }

  /** Both validation messages of the product service name the field. */
  lemma ServiceMessagesMentionFields()
    ensures Contains(ProductsService.NameAndPriceRequired, "requeridos")
    ensures Contains(ProductsService.PriceMustBePositive, "precio")
  {
    ContainsAt(ProductsService.NameAndPriceRequired, "requeridos", 20);
    ghost var m := ProductsService.PriceMustBePositive;
    assert m[3] == 'p' && m[4] == 'r' && m[5] == 'e' && m[6] == 'c' && m[7] == 'i' && m[8] == 'o';
    assert m[3..9] == "precio";
    ContainsAt(m, "precio", 3);
  }

  /** The service's own messages get their intended statuses: both
      `createProduct` messages 400, the price message of `updateProduct` 400,
      and "Producto no encontrado" 404 in get, update and delete. */
  lemma ServiceMessagesStatuses(body: Doc, id: string)
    requires id != []
    requires Truthy(Field(body, "name")) && Truthy(Field(body, "price"))
    ensures forall m | m in [ProductsService.NameAndPriceRequired, ProductsService.PriceMustBePositive] ::
      CreateProduct(body, Failure(m)).status == 400
    ensures UpdateProduct(id, Failure(ProductsService.PriceMustBePositive)).status == 400
    ensures GetProductById(id, Failure(ProductsService.ProductNotFound)).status == 404
    ensures UpdateProduct(id, Failure(ProductsService.ProductNotFound)).status == 404
    ensures DeleteProduct(id, Failure(ProductsService.ProductNotFound)).status == 404
  {
    ServiceMessagesMentionFields();
  }

  /** A missing id or required field is answered without looking at the
      service's outcome. */
  lemma PrechecksIgnoreService(id: string, body: Doc, o1: Result<Doc, string>, o2: Result<Doc, string>,
                               w1: Result<string, string>, w2: Result<string, string>)
    ensures id == [] ==> GetProductById(id, o1) == GetProductById(id, o2)
    ensures id == [] ==> UpdateProduct(id, w1) == UpdateProduct(id, w2) && DeleteProduct(id, w1) == DeleteProduct(id, w2)
    ensures !Truthy(Field(body, "name")) || !Truthy(Field(body, "price")) ==> CreateProduct(body, w1) == CreateProduct(body, w2)
  {
  }
}
