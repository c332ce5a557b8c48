/**
  The product catalogue: the `Products` table and the five actions of
  `ProductsController` over it. The table is a map from id to row, held in a
  field of the controller; a database-assigned id is modelled as an identity
  counter that starts at 1 and is never reused.
 */
module ProductCatalog {
  import opened Wrappers
  import opened Dtos
  import opened ActionResults
  import opened Identity
  import Tables

  /** A stored product row (its id is its key in the table). */
  datatype Product = Product(
    name: string, description: Option<string>, price: real, stock: int, updatedAt: Option<DateTime>)

  const ProductListMessage: string := "Product list retrieved"
  const ProductFoundMessage: string := "Product retrieved"
  const ProductNotFoundMessage: string := "Product not found"
  const ProductCreatedMessage: string := "Product created"
  const ProductUpdatedMessage: string := "Product updated"

  /** The Product -> ProductDto projection: it copies the id and the four exposed fields and drops the timestamp. */
  function ToDto(id: int, p: Product): (d: ProductDto)
    ensures d.id == id && d.name == p.name && d.description == p.description
    ensures d.price == p.price && d.stock == p.stock
  {
    ProductDto(id, p.name, p.description, p.price, p.stock)
  }

  /** The id a ProductDto carries. */
  function DtoId(d: ProductDto): int {
    d.id
  }

  /** The bounds a row keeps when every request that reached it passed validation. */
  predicate ValidRow(p: Product) {
    LengthWithin(p.name, 1, 200) && PriceInRange(p.price) && StockInRange(p.stock)
  }

  /** The row CreateProduct stores: the request's fields, never updated yet. */
  function NewRow(request: CreateProductRequest): Product {
    Product(request.name, request.description, request.price, request.stock, None)
  }

  /**
    The partial update of a stored row: each field the request carries
    overwrites the stored one, each absent (null) field keeps its stored value,
    and the row is stamped with `now`.
   */
  function Merge(stored: Product, request: UpdateProductRequest, now: DateTime): (r: Product)
    ensures request.name.Some? ==> r.name == request.name.value
    ensures request.name.None? ==> r.name == stored.name
    ensures request.description.Some? ==> r.description == request.description
    ensures request.description.None? ==> r.description == stored.description
    ensures request.price.Some? ==> r.price == request.price.value
    ensures request.price.None? ==> r.price == stored.price
    ensures request.stock.Some? ==> r.stock == request.stock.value
    ensures request.stock.None? ==> r.stock == stored.stock
    ensures r.updatedAt == Some(now)
  {
    Product(
      request.name.GetOr(stored.name),
      if request.description.Some? then request.description else stored.description,
      request.price.GetOr(stored.price),
      request.stock.GetOr(stored.stock),
      Some(now))
  }

  class ProductsController {
    /** The `Products` table. */
    var products: map<int, Product>
    /** The next id the database hands out. */
    var nextId: int

    /** Every id was handed out before, and every row satisfies the request bounds. */
    ghost predicate Valid()
      reads this
    {
      && 1 <= nextId
      && (forall id :: id in products ==> 1 <= id < nextId)
      && (forall id :: id in products ==> ValidRow(products[id]))
    }

    /** The table starts empty: no product is seeded. */
    constructor ()
      ensures Valid() && products == map[] && nextId == 1
    {
      products := map[];
      nextId := 1;
    }

    /** GET api/products: every row's projection, in a successful envelope. */
    function GetAllProducts(): (r: ActionResult<seq<ProductDto>>)
      reads this
      ensures r.Ok? && r.body.success && r.body.errors.None?
      ensures r.body.data.Some? && Tables.IsListing(products, r.body.data.value, ToDto, DtoId)
      ensures forall i, j :: 0 <= i < j < |r.body.data.value| ==> r.body.data.value[i].id < r.body.data.value[j].id
    {
      Ok(Succeeded(ProductListMessage, Tables.Listing(products, ToDto, DtoId)))
    }

    /** GET api/products/{id}: not found, or the row's projection. */
    function GetProductById(id: int): (r: ActionResult<ProductDto>)
      reads this
      ensures r.NotFound? <==> id !in products
      ensures r.NotFound? ==> !r.body.success && r.body.data.None?
      ensures r.Ok? <==> id in products
      ensures r.Ok? ==> r.body.success && r.body.data == Some(ToDto(id, products[id]))
    {
      if id !in products then NotFound(Failed(ProductNotFoundMessage))
      else Ok(Succeeded(ProductFoundMessage, ToDto(id, products[id])))
    }

    /** POST api/products (AdminOnly): adds one row under a fresh id. */
    method CreateProduct(ghost caller: Principal, request: CreateProductRequest)
      returns (result: ActionResult<ProductDto>)
      requires Valid() && IsAdmin(caller) && ValidCreateProductRequest(request)
      modifies this
      ensures Valid()
      ensures result.CreatedAt? && result.id !in old(products)
      ensures result.id == old(nextId) && nextId == old(nextId) + 1
      ensures products == old(products)[result.id := NewRow(request)]
      ensures |products| == |old(products)| + 1
      ensures result.body.success
      ensures result.body.data == Some(ToDto(result.id, products[result.id]))
      ensures result.body.data == Some(ProductDto(result.id, request.name, request.description, request.price, request.stock))
    {
      var product := NewRow(request);
      var id := nextId;
      products := products[id := product];
      nextId := nextId + 1;
      result := CreatedAt(id, Succeeded(ProductCreatedMessage, ToDto(id, product)));
    }

    /** PUT api/products/{id} (AdminOnly): partial update of one row. */
    method UpdateProduct(ghost caller: Principal, id: int, request: UpdateProductRequest, now: DateTime)
      returns (result: ActionResult<ProductDto>)
      requires Valid() && IsAdmin(caller) && ValidUpdateProductRequest(request)
      modifies this
      ensures Valid() && nextId == old(nextId)
      ensures id !in old(products) ==>
        && result.NotFound? && !result.body.success && result.body.data.None?
        && products == old(products)
      ensures id in old(products) ==>
        && products == old(products)[id := Merge(old(products)[id], request, now)]
        && result.Ok? && result.body.success
        && result.body.data == Some(ToDto(id, products[id]))
    {
      if id !in products {
        result := NotFound(Failed(ProductNotFoundMessage));
        return;
      }
      var product := products[id];
      if request.name.Some? {
        product := product.(name := request.name.value);
      }
      if request.description.Some? {
        product := product.(description := request.description);
      }
      if request.price.Some? {
        product := product.(price := request.price.value);
      }
      if request.stock.Some? {
        product := product.(stock := request.stock.value);
      }
      product := product.(updatedAt := Some(now));
      assert product == Merge(products[id], request, now);
      MergeKeepsValidRow(products[id], request, now);
      products := products[id := product];
      result := Ok(Succeeded(ProductUpdatedMessage, ToDto(id, product)));
    }

    /** DELETE api/products/{id} (AdminOnly): removes exactly that row. */
    method DeleteProduct(ghost caller: Principal, id: int) returns (result: ActionResult<()>)
      requires Valid() && IsAdmin(caller)
      modifies this
      ensures Valid() && nextId == old(nextId)
      ensures id !in old(products) ==>
        && result.NotFound? && !result.body.success && result.body.data.None?
        && products == old(products)
      ensures id in old(products) ==>
        && result.NoContent?
        && products == old(products) - {id}
        && |products| == |old(products)| - 1
    {
      if id !in products {
        result := NotFound(Failed(ProductNotFoundMessage));
        return;
      }
      products := products - {id};
      result := NoContent;
    }
  }

  /**
    A deleted id is not handed out again: on a fresh catalogue, create, delete
    that row and create again; the second row gets the next id.
   */
  method IdsAreNotReused(admin: Principal, request: CreateProductRequest) returns (first: int, second: int)
    requires IsAdmin(admin) && ValidCreateProductRequest(request)
    ensures first == 1 && second == 2
  {
    var catalog := new ProductsController();
    var created := catalog.CreateProduct(admin, request);
    first := created.id;
    var deleted := catalog.DeleteProduct(admin, first);
    created := catalog.CreateProduct(admin, request);
    second := created.id;
  }

  // ------------------------------------------------------------------- lemmas

  /** The projection exposes no timestamp: rows that differ only in UpdatedAt project alike. */
  lemma ProjectionHidesTimestamp(id: int, p: Product, stamp: Option<DateTime>)
    ensures ToDto(id, p.(updatedAt := stamp)) == ToDto(id, p)
  {
  }

  /** A row created from a valid request satisfies the row bounds. */
  lemma NewRowIsValid(request: CreateProductRequest)
    requires ValidCreateProductRequest(request)
    ensures ValidRow(NewRow(request))
  {
  }

  /** A valid partial update keeps a row within the bounds: price and stock stay non-negative. */
  lemma MergeKeepsValidRow(stored: Product, request: UpdateProductRequest, now: DateTime)
    requires ValidRow(stored) && ValidUpdateProductRequest(request)
    ensures ValidRow(Merge(stored, request, now))
  {
  }

  /** A null Description in the request never clears a stored one. */
  lemma MergeNeverClearsDescription(stored: Product, request: UpdateProductRequest, now: DateTime)
    requires stored.description.Some?
    ensures Merge(stored, request, now).description.Some?
  {
  }

  /** The timestamp is always set, even by a request that carries no field at all. */
  lemma MergeEmptyRequestOnlyStamps(stored: Product, now: DateTime)
    ensures Merge(stored, UpdateProductRequest(None, None, None, None), now) == stored.(updatedAt := Some(now))
    ensures Merge(stored, UpdateProductRequest(None, None, None, None), now).updatedAt == Some(now)
  {
  }

  /** Applying a request twice gives the row of applying it once, stamped with the later time. */
  lemma MergeIdempotent(stored: Product, request: UpdateProductRequest, first: DateTime, second: DateTime)
    ensures Merge(Merge(stored, request, first), request, second) == Merge(stored, request, second)
  {
  }

  /** A request that carries every field no longer depends on what was stored. */
  lemma MergeOfFullRequest(a: Product, b: Product, request: UpdateProductRequest, now: DateTime)
    requires request.name.Some? && request.description.Some? && request.price.Some? && request.stock.Some?
    ensures Merge(a, request, now) == Merge(b, request, now)
  {
  }

  /** Stored {name "A", price 10, stock 5} updated with {price 12} becomes {"A", 12, 5}, stamped. */
  lemma PartialUpdateExample(now: DateTime)
    ensures var stored := Product("A", None, 10.0, 5, None);
      Merge(stored, UpdateProductRequest(None, None, Some(12.0), None), now) == Product("A", None, 12.0, 5, Some(now))
  {
  }
}
