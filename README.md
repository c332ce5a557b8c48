# WebApiBase catalogue and user-read rules in Dafny

This project models the rules that WebApiBase's controllers and user service
apply on top of their database context. WebApiBase is a small ASP.NET Core
CRUD API with a product catalogue and role-gated user records.

- **Products** (`product_catalog.dfy`, module `ProductCatalog`). The `Products`
  table is a `map<int, Product>` held in a field of the class
  `ProductsController`. A second field, `nextId`, stands for the database's
  identity column: it starts at 1, each create takes its value and advances
  it, and a delete never moves it back, so an id is never reused. The class has five
  actions:
  - `GetAllProducts` and `GetProductById` read the table and are functions.
  - `CreateProduct`, `UpdateProduct` and `DeleteProduct` change the table and
    are methods.
  - `UpdateProduct` copies the request's non-null fields onto the stored row
    one at a time, then stamps `UpdatedAt`. This is the same as the function
    `Merge`.
  - The class invariant `Valid()` says that every stored row keeps the request
    bounds: a name of 1 to 200 characters, a non-negative price, and a stock in
    `[0, int.MaxValue]`. Every action preserves it.
- **Users** (`user_service.dfy`, module `UserService`). Both service operations
  are pure projections of a `map<int, User>` to `UserDto`. Neither one can
  change the store.
- **User read rule** (`users_controller.dfy`, module `UsersController`). The
  predicate `MayReadUser` is the explicit check in `GetUserById`. It compares
  the caller's role claim with `"Admin"`, and the caller's NameIdentifier claim
  with the decimal spelling of the requested id. `IntToString` models
  `int.ToString()` and is proved injective. The action returns `Forbid`,
  `NotFound` or `Ok`, and the access decision does not depend on the store.
- **Shapes and validation** (`dtos.dfy`, module `Dtos`). The request records,
  the DTOs and the `ApiResponse<T>` envelope are datatypes. The validation
  attributes become predicates:
  - `[Required]` on a string: not null, and not made only of white space.
  - `[StringLength]`: the length bounds.
  - `[Range]`: the numeric bounds.
  - `[EmailAddress]`: exactly one '@', and it is neither the first nor the last
    character.

  The framework checks these rules before an action runs, so they are
  preconditions of the create and update actions. `[Authorize(Policy =
  "AdminOnly")]` is also a precondition: the (ghost) caller's role claim is
  `"Admin"`.
- `action_results.dfy` (module `ActionResults`) holds the outcome datatype that
  replaces HTTP status codes. `identity.dfy` (module `Identity`) holds the
  caller's claims. `tables.dfy` (module `Tables`) enumerates a table's keys in
  ascending order and lists a table through a projection; both listings use it. `wrappers.dfy` (module `Wrappers`) is the Option type.

Two modelling choices about the product record:

- The product entity class, Models/Product.cs, is not part of this model. A
  row carries the fields that the controller reads and writes. The documented
  creation stamp would come from the entity's own initializer, so a row has no
  creation stamp, and a new row has `UpdatedAt` null.
- The update rules are weaker than the create rules. `UpdateProductRequest.Name`
  has no `[Required]`, so an update can store a name made only of white space,
  which a create rejects. `Dtos.BlankNamePassesOnlyUpdateRules` shows this
  with the name `" "`.

## Model

| member | source | states |
|---|---|---|
| `Tables.Listing` | Controllers/ProductsController.cs:28-37 | for any projection that records the key it is given, the list has exactly one entry per stored row, with no duplicate ids, and each entry equals the projection of that row; entries come in ascending id order |
| `ProductCatalog.ToDto` | Controllers/ProductsController.cs:29-36 | the ProductDto copies the id and the row's Name, Description, Price and Stock unchanged |
| `ProductCatalog.Merge` | Controllers/ProductsController.cs:139-144 | each field that the request carries (non-null or HasValue) overwrites the stored field; each absent field keeps the stored value; UpdatedAt becomes now |
| `ProductCatalog.ProductsController.GetAllProducts` | Controllers/ProductsController.cs:26-45 | Ok in an envelope with Success=true and no Errors, whose Data lists every stored product exactly once as its projection, in ascending id order; it only reads the table |
| `ProductCatalog.ProductsController.GetProductById` | Controllers/ProductsController.cs:53-81 | NotFound with Success=false and no Data exactly when the id is absent; otherwise Ok with Success=true and Data equal to the stored row's projection |
| `ProductCatalog.ProductsController.constructor` | Data/ApplicationDbContext.cs:14 | the Products table starts empty (only users are seeded), the identity counter at 1, and the invariant holds |
| `ProductCatalog.ProductsController.CreateProduct` | Controllers/ProductsController.cs:89-117 | adds exactly one row, under an id not in the table before, whose fields are the request's; other rows are unchanged and the count rises by one; returns CreatedAt with the new row's projection, which carries the request's fields; the id is the identity counter's value and the counter advances by one; keeps every row within bounds |
| `ProductCatalog.IdsAreNotReused` | Controllers/ProductsController.cs:99-100 | on a fresh catalogue, create, delete that row, create again: the ids are 1 and 2, so the deleted id is not handed out again |
| `ProductCatalog.ProductsController.UpdateProduct` | Controllers/ProductsController.cs:126-163 | absent id: NotFound with Success=false and no Data, table unchanged; present id: only that row changes, it becomes Merge(stored, request, now), and Ok carries its projection; keeps every row within bounds |
| `ProductCatalog.ProductsController.DeleteProduct` | Controllers/ProductsController.cs:172-189 | absent id: NotFound with Success=false and no Data, table unchanged; present id: NoContent, exactly that key is removed, every other row is identical, and the count drops by one; the identity counter is unchanged in both cases |
| `ProductCatalog.ProjectionHidesTimestamp` | Models/DTOs.cs:50-57 | ProductDto carries no timestamp: rows that differ only in UpdatedAt project to the same DTO |
| `ProductCatalog.NewRowIsValid` | Controllers/ProductsController.cs:91-97 | a row built from a valid create request has a name of 1 to 200 characters, price >= 0 and stock in [0, int.MaxValue] |
| `ProductCatalog.MergeKeepsValidRow` | Controllers/ProductsController.cs:139-142 | a valid update request applied to a row within bounds leaves it within bounds, so price and stock stay non-negative |
| `ProductCatalog.MergeNeverClearsDescription` | Controllers/ProductsController.cs:140 | a stored Description is never cleared, because a null request Description means "leave alone" |
| `ProductCatalog.MergeEmptyRequestOnlyStamps` | Controllers/ProductsController.cs:139-144 | a request with every field null changes nothing but UpdatedAt, which is still set to now |
| `ProductCatalog.MergeIdempotent` | Controllers/ProductsController.cs:139-144 | applying the same request twice gives the row of applying it once, apart from UpdatedAt, which holds the later time |
| `ProductCatalog.MergeOfFullRequest` | Controllers/ProductsController.cs:139-142 | a request that carries every field gives the same row whatever was stored |
| `ProductCatalog.PartialUpdateExample` | Controllers/ProductsController.cs:139-144 | stored {"A", 10, 5} updated with only {price 12} becomes {"A", 12, 5} with UpdatedAt = now |
| `UserService.GetAllUsers` | Services/UserService.cs:22-34 | one UserDto per stored user (same count, no duplicate ids, every user present), each equal to that user's projection; ascending id order |
| `UserService.GetUserById` | Services/UserService.cs:36-51 | null exactly when no user has the id; otherwise a DTO whose Id is the requested id and which equals that user's projection |
| `UserService.ToUserDto` | Services/UserService.cs:43-50 | the DTO copies Id, Username, Email, Role and CreatedAt from the user |
| `UserService.ProjectionHidesPasswordHash` | Models/DTOs.cs:40-47 | the DTO has no password hash: users that differ only in their hash project to the same DTO |
| `UserService.LookupAgreesWithListing` | Services/UserService.cs:22-51 | the lookup finds an id exactly when the listing contains it, and then returns the listing's entry |
| `UsersController.MayReadUser` | Controllers/UsersController.cs:52 | the caller may read user `id` exactly when its role claim is "Admin" or its NameIdentifier claim equals `id.ToString()` |
| `UsersController.IntToString` | Controllers/UsersController.cs:52 | `id.ToString()` is never empty and starts with '-' exactly for negative ids |
| `UsersController.NatToStringInjective` | Controllers/UsersController.cs:52 | two naturals with the same decimal spelling are equal |
| `UsersController.IntToStringInjective` | Controllers/UsersController.cs:52 | two ids with the same `ToString()` are equal, so an id claim can match at most one id |
| `UsersController.GetAllUsers` | Controllers/UsersController.cs:26-36 | for an admin caller: Ok with Success=true and no Errors, Data is the service's list unchanged, so it lists every user exactly once |
| `UsersController.GetUserById` | Controllers/UsersController.cs:46-74 | Forbid exactly when the access check fails; NotFound with Success=false and no Data exactly when the check passes and the service returns null; Ok with Success=true and the service's DTO exactly when the check passes and the user exists |
| `UsersController.AdminNeverForbidden` | Controllers/UsersController.cs:50-52 | a caller whose role claim is "Admin" is never forbidden, whatever the id |
| `UsersController.NonAdminOnlyOwnId` | Controllers/UsersController.cs:49-54 | a caller that is not an admin passes exactly when its NameIdentifier claim equals `id.ToString()` |
| `UsersController.MissingClaimsForbidden` | Controllers/UsersController.cs:49-54 | a caller with no role claim and no NameIdentifier claim is always forbidden |
| `UsersController.NonAdminReadsOnlySelf` | Controllers/UsersController.cs:49-54 | a non-admin caller whose id claim spells `self` may read user `id` exactly when `id == self` |
| `UsersController.ForbidIgnoresStore` | Controllers/UsersController.cs:52-57 | the access decision comes before the lookup: whether a caller is forbidden does not depend on the user store |
| `UsersController.SelfOrAdminExamples` | Controllers/UsersController.cs:52-54 | user 5 may read user 5 but not user 7; a caller with id 5 and role "Admin" may read user 7 |
| `Identity.IsAdmin` | Controllers/ProductsController.cs:87 | the "AdminOnly" policy passes only a caller whose role claim is present and equals "Admin"; a token without a role claim never passes |
| `Dtos.Required` | Models/DTOs.cs:61-63 | `[Required]` rejects the empty string and a blank one, and a string that passes it is never empty |
| `Dtos.EmailAddress` | Models/DTOs.cs:8-10 | an address accepted by `[EmailAddress]` has at least 3 characters, contains exactly one '@', and neither starts nor ends with '@' |
| `Dtos.ValidLoginRequest` | Models/DTOs.cs:6-14 | a valid login has an Email with an '@' and at least 3 characters, and a non-empty Password |
| `Dtos.ValidRegisterRequest` | Models/DTOs.cs:16-29 | a valid registration has a Username of 3 to 50 characters and a Password of 6 to 100 characters, and its Email contains an '@' |
| `Dtos.ValidCreateProductRequest` | Models/DTOs.cs:59-74 | a valid create request has a Name of 1 to 200 characters, Price >= 0 and Stock in [0, int.MaxValue]; read as an update that sets every field, it is a valid update request |
| `Dtos.ValidUpdateProductRequest` | Models/DTOs.cs:76-88 | no field is required: a request without Name, Price and Stock is valid whatever its Description; a present Stock lies in [0, int.MaxValue] |
| `Dtos.BlankNamePassesOnlyUpdateRules` | Models/DTOs.cs:59-88 | a blank name passes the update rules but fails the create rules |

## Left out

- Controllers/AuthController.cs and the authentication service it calls are not part of this model. That covers BCrypt hashing, token issuance and verification, and the mapping of login and registration results to 401, 400, 200 and 201. The authentication service is not modelled, and the rest is cryptography inside external libraries.
- The user store is never written. Registration, which adds users, belongs to the authentication service, which is not modelled.
- The model has no async/await, `SaveChangesAsync`, change tracking or `FindAsync`. Each action's effect is one update of the map. Concurrent requests and database failures (a generic 500) are not modelled.
- Entity configuration and seeding in Data/ApplicationDbContext.cs are left out. This covers the unique index on Email, the column lengths and the BCrypt-hashed seed users. The database, not the code, enforces them.
- Models/Product.cs and Models/User.cs are not part of this model. A row carries the fields that the controllers, the service and the database context read and write. A product row has no CreatedAt, since its default would come from the entity's initializer. A created row's UpdatedAt is null, because `CreateProduct` does not set it.
- Decimal(18,2) rounding and the range of `decimal` are left out. The database applies the rounding. Price is a Dafny `real`.
- Integers are unbounded. For Stock, the 32-bit width shows up only through the `[Range(0, int.MaxValue)]` bound. Ids are not bounded, so running out of identity values is not modelled.
- HTTP status codes, route values and `CreatedAtAction` headers become the `ActionResult` datatype. `CreatedAt` keeps only the new id.
- The response messages are short English constants. They replace the original Vietnamese texts.
- Listing order is unspecified in the source, which leaves it to the database. The model fixes ascending id order. The listing properties say "each row exactly once", which holds for any order.
- The policies "AdminOnly" and "UserOrAdmin" are registered at startup, which is not modelled. `AdminOnly` is a precondition that the caller's role claim is "Admin". `UserOrAdmin` is taken as passed, and the action's own check is modelled.
- The unauthenticated (401) path is not modelled. The framework rejects a missing or invalid token before any action runs.
- The validation-failure (400) path is not modelled. The framework answers it before an action runs, so the request rules are preconditions.
- `IsWhiteSpace` covers only the ASCII white-space characters. Unicode's other space separators are not modelled.
- String lengths count Unicode scalar values rather than UTF-16 code units. `int.ToString()` is modelled with '-' as the negative sign, whatever the current culture.
- The `[EmailAddress]` rule is the framework's check for exactly one '@'. It is not a full address grammar.
