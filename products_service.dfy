/** The product service (src/services/products.service.js): field checks on
    the request data and an existence check before every write, over the
    product store. Each check runs before the store call it guards, and each
    write touches only the document it names. */
module ProductsService {
  import opened Wrappers
  import opened Documents
  import opened ProductsModel

  const ProductNotFound := "Producto no encontrado"
  const NameAndPriceRequired := "Nombre y precio son requeridos"
  const PriceMustBePositive := "El precio debe ser un número positivo"

  /** `typeof v === "number" && v > 0`. */
  predicate IsPositiveNumber(v: Option<Value>)
  {
    v.Some? && v.value.Num? && v.value.n > 0.0
  }

  /** `createProduct`'s two checks, in order. Because the first one tests
      truthiness, a price of 0 counts as missing. */
  function CreateValidation(data: Doc): (e: Option<string>)
    ensures e == Some(NameAndPriceRequired) <==> !Truthy(Field(data, "name")) || !Truthy(Field(data, "price"))
    ensures e == Some(PriceMustBePositive) <==>
      Truthy(Field(data, "name")) && Truthy(Field(data, "price")) && !IsPositiveNumber(Field(data, "price"))
    ensures e.None? <==> Truthy(Field(data, "name")) && IsPositiveNumber(Field(data, "price"))
    ensures Field(data, "price") == Some(Num(0.0)) ==> e == Some(NameAndPriceRequired)
  {
    if !Truthy(Field(data, "name")) || !Truthy(Field(data, "price")) then Some(NameAndPriceRequired)
    else if !IsPositiveNumber(Field(data, "price")) then Some(PriceMustBePositive)
    else None
  }

  /** `updateProduct`'s price check: only a price that is supplied is
      checked, and any supplied value (`null` included) must be a positive
      number. */
  function UpdateValidation(data: Doc): (e: Option<string>)
    ensures e.None? <==> "price" !in data || IsPositiveNumber(Field(data, "price"))
    ensures e.Some? ==> e.value == PriceMustBePositive
  {
    if Field(data, "price").Some? && !IsPositiveNumber(Field(data, "price")) then Some(PriceMustBePositive)
    else None
  }

  /** `a` and `b` agree on every id other than `id`. */
  ghost predicate SameExcept(a: map<string, Doc>, b: map<string, Doc>, id: string)
  {
    forall other | other != id :: (other in a <==> other in b) && (other in a ==> a[other] == b[other])
  }

  /** `getAllProducts`. */
  method GetAllProducts(store: ProductStore, fault: Option<string>) returns (r: Result<seq<Doc>, string>, ghost order: seq<string>)
    ensures fault.Some? ==> r == Failure(fault.value)
    ensures fault.None? ==>
      && r.Success? && |r.value| == |order| == |store.docs| && Distinct(order)
      && (forall id :: id in store.docs <==> id in order)
      && (forall i | 0 <= i < |order| :: order[i] in store.docs && r.value[i] == WithId(order[i], store.docs[order[i]]))
  {
    r, order := store.GetAll(fault);
  }

  /** `getProductById`: "Producto no encontrado" exactly when the store has
      no document with that id. */
  method GetProductById(store: ProductStore, id: string, fault: Option<string>) returns (r: Result<Doc, string>)
    ensures fault.Some? ==> r == Failure(fault.value)
    ensures fault.None? ==> (r == Failure(ProductNotFound) <==> id !in store.docs)
    ensures fault.None? && id in store.docs ==> r == Success(WithId(id, store.docs[id]))
  {
    var product := store.GetById(id, fault);
    if product.Failure? {
      return Failure(product.error);
    }
    if product.value.None? {
      return Failure(ProductNotFound);
    }
    r := Success(product.value.value);
  }

  /** `createProduct`: both checks before the store is called; on success one
      new document under the id the store assigns. */
  method CreateProduct(store: ProductStore, data: Doc, newId: string, stamp: string, fault: Option<string>)
    returns (r: Result<string, string>)
    requires newId !in store.docs
    modifies store
    ensures CreateValidation(data).Some? ==> r == Failure(CreateValidation(data).value) && store.docs == old(store.docs)
    ensures CreateValidation(data).None? && fault.Some? ==> r == Failure(fault.value) && store.docs == old(store.docs)
    ensures CreateValidation(data).None? && fault.None? ==>
      && r == Success(newId) && newId !in old(store.docs)
      && store.docs == old(store.docs)[newId := Stamped(data, stamp)]
      && SameExcept(store.docs, old(store.docs), newId)
  {
    var invalid := CreateValidation(data);
    if invalid.Some? {
      return Failure(invalid.value);
    }
    r := store.Create(data, newId, stamp, fault);
  }

  /** `updateProduct`: existence first, then the price, then the write, which
      changes only that document. */
  method UpdateProduct(store: ProductStore, id: string, data: Doc, stamp: string,
                       readFault: Option<string>, writeFault: Option<string>)
    returns (r: Result<string, string>)
    modifies store
    ensures readFault.Some? ==> r == Failure(readFault.value) && store.docs == old(store.docs)
    ensures readFault.None? && id !in old(store.docs) ==> r == Failure(ProductNotFound) && store.docs == old(store.docs)
    ensures readFault.None? && id in old(store.docs) && UpdateValidation(data).Some? ==>
      r == Failure(PriceMustBePositive) && store.docs == old(store.docs)
    ensures readFault.None? && id in old(store.docs) && UpdateValidation(data).None? && writeFault.Some? ==>
      r == Failure(writeFault.value) && store.docs == old(store.docs)
    ensures readFault.None? && id in old(store.docs) && UpdateValidation(data).None? && writeFault.None? ==>
      && r == Success(id)
      && store.docs == old(store.docs)[id := Merged(old(store.docs)[id], data, stamp)]
      && SameExcept(store.docs, old(store.docs), id)
  {
    var existing := store.GetById(id, readFault);
    if existing.Failure? {
      return Failure(existing.error);
    }
    if existing.value.None? {
      return Failure(ProductNotFound);
    }
    var invalid := UpdateValidation(data);
    if invalid.Some? {
      return Failure(invalid.value);
    }
    r := store.Update(id, data, stamp, writeFault);
  }

  /** `deleteProduct`: existence first, then the deletion of that one document. */
  method DeleteProduct(store: ProductStore, id: string, readFault: Option<string>, writeFault: Option<string>)
    returns (r: Result<string, string>)
    modifies store
    ensures readFault.Some? ==> r == Failure(readFault.value) && store.docs == old(store.docs)
    ensures readFault.None? && id !in old(store.docs) ==> r == Failure(ProductNotFound) && store.docs == old(store.docs)
    ensures readFault.None? && id in old(store.docs) && writeFault.Some? ==>
      r == Failure(writeFault.value) && store.docs == old(store.docs)
    ensures readFault.None? && id in old(store.docs) && writeFault.None? ==>
      r == Success(id) && store.docs == old(store.docs) - {id} && SameExcept(store.docs, old(store.docs), id)
  {
    var existing := store.GetById(id, readFault);
    if existing.Failure? {
      return Failure(existing.error);
    }
    if existing.value.None? {
      return Failure(ProductNotFound);
    }
    r := store.Remove(id, writeFault);
  }
}
