/**
  The request and transfer shapes of the API and the validation rules that the
  framework applies to a request body before an action runs.
  A `[Required]` string must be non-null and not blank, `[StringLength(max,
  MinimumLength = min)]` bounds the length of a present string, `[Range(lo, hi)]`
  bounds a present number and `[EmailAddress]` asks for exactly one '@' that is
  neither the first nor the last character.
 */
module Dtos {
  import opened Wrappers

  /** A UTC timestamp, as a tick count. */
  type DateTime = int

  /** The largest value of a 32-bit C# `int`. */
  const IntMax: int := 0x7FFF_FFFF

  // ---------------------------------------------------------------- auth shapes

  datatype LoginRequest = LoginRequest(email: string, password: string)

  datatype RegisterRequest = RegisterRequest(username: string, email: string, password: string)

  datatype AuthResponse = AuthResponse(token: string, email: string, username: string, role: string)

  // ---------------------------------------------------------------- user shapes

  /** What a user looks like from outside: there is no password hash in it. */
  datatype UserDto = UserDto(id: int, username: string, email: string, role: string, createdAt: DateTime)

  // ------------------------------------------------------------- product shapes

  /** What a product looks like from outside: no timestamps. */
  datatype ProductDto = ProductDto(id: int, name: string, description: Option<string>, price: real, stock: int)

  datatype CreateProductRequest = CreateProductRequest(
    name: string, description: Option<string>, price: real, stock: int)

  /** Every field may be left out (null); a present field is to overwrite the stored one. */
  datatype UpdateProductRequest = UpdateProductRequest(
    name: Option<string>, description: Option<string>, price: Option<real>, stock: Option<int>)

  // ------------------------------------------------------------------- envelope

  /** The envelope of every response body. */
  datatype ApiResponse<T> = ApiResponse(success: bool, message: string, data: Option<T>, errors: Option<seq<string>>)

  /** A successful envelope carrying `data`; the actions never fill in `errors`. */
  function Succeeded<T>(message: string, data: T): ApiResponse<T> {
    ApiResponse(true, message, Some(data), None)
  }

  /** A failed envelope without data or errors. */
  function Failed<T>(message: string): ApiResponse<T> {
    ApiResponse(false, message, None, None)
  }

  // ------------------------------------------------------------ attribute rules

  /**
    The characters `char.IsWhiteSpace` accepts that this model knows about;
    `[Required]` rejects a string through `string.IsNullOrWhiteSpace`, which
    applies that test to every character.
   */
  predicate IsWhiteSpace(c: char) {
    c == ' ' || c == '\t' || c == '\n' || c == '\r' || c == '\U{000B}' || c == '\U{000C}'
  }

  /**
    `[Required]` on a string: present and not made of white space only. A
    required string is never empty, so `MinimumLength = 1` adds nothing to it.
   */
  predicate Required(s: string)
    ensures Required(s) ==> |s| >= 1
    ensures s == [] || s == " " ==> !Required(s)
  {
    exists i :: 0 <= i < |s| && !IsWhiteSpace(s[i])
  }

  /** `[StringLength(max, MinimumLength = min)]` on a present string. */
  predicate LengthWithin(s: string, min: nat, max: nat) {
    min <= |s| <= max
  }

  /**
    `[EmailAddress]`: exactly one '@', and it is neither the first nor the last
    character, so an accepted address has a local part, the '@' and a domain part.
   */
  predicate EmailAddress(s: string)
    ensures EmailAddress(s) ==> |s| >= 3 && '@' in s && s[0] != '@' && s[|s| - 1] != '@'
    ensures EmailAddress(s) ==> forall i, j :: 0 <= i < j < |s| ==> !(s[i] == '@' && s[j] == '@')
  {
    exists i :: 0 < i < |s| - 1 && s[i] == '@' && forall j :: 0 <= j < |s| && s[j] == '@' ==> j == i
  }

  /** A valid login has both fields present and an address of the right shape. */
  predicate ValidLoginRequest(r: LoginRequest)
    ensures ValidLoginRequest(r) ==> |r.email| >= 3 && '@' in r.email && |r.password| >= 1
  {
    && Required(r.email) && EmailAddress(r.email)
    && Required(r.password)
  }

  /** The bounds a valid registration carries. */
  predicate ValidRegisterRequest(r: RegisterRequest)
    ensures ValidRegisterRequest(r) ==> 3 <= |r.username| <= 50 && 6 <= |r.password| <= 100
    ensures ValidRegisterRequest(r) ==> |r.email| >= 3 && '@' in r.email
  {
    && Required(r.username) && LengthWithin(r.username, 3, 50)
    && Required(r.email) && EmailAddress(r.email)
    && Required(r.password) && LengthWithin(r.password, 6, 100)
  }

  /** `[Range(0, double.MaxValue)]` on a decimal: every decimal is below double.MaxValue. */
  predicate PriceInRange(p: real) {
    0.0 <= p
  }

  /** `[Range(0, int.MaxValue)]` on an int. */
  predicate StockInRange(s: int) {
    0 <= s <= IntMax
  }

  /**
    `[Required]` on `Price` and `Stock` always holds: a value type is never null.
    The create rules are the update rules with every field present, plus
    `[Required]` on the name.
   */
  predicate ValidCreateProductRequest(r: CreateProductRequest)
    ensures ValidCreateProductRequest(r) ==> ValidUpdateProductRequest(AsUpdate(r))
    ensures ValidCreateProductRequest(r) ==> 1 <= |r.name| <= 200 && 0.0 <= r.price && 0 <= r.stock <= IntMax
  {
    && Required(r.name) && LengthWithin(r.name, 1, 200)
    && PriceInRange(r.price)
    && StockInRange(r.stock)
  }

  /**
    No field is required, so a request that leaves every bounded field out is
    valid whatever its description; the bounds apply to the fields that are present.
   */
  predicate ValidUpdateProductRequest(r: UpdateProductRequest)
    ensures r.name.None? && r.price.None? && r.stock.None? ==> ValidUpdateProductRequest(r)
    ensures ValidUpdateProductRequest(r) && r.stock.Some? ==> 0 <= r.stock.value <= IntMax
  {
    && (r.name.Some? ==> LengthWithin(r.name.value, 1, 200))
    && (r.price.Some? ==> PriceInRange(r.price.value))
    && (r.stock.Some? ==> StockInRange(r.stock.value))
  }

  // --------------------------------------------------------------------- lemmas

  /** The update request that sets every field of a create request. */
  function AsUpdate(r: CreateProductRequest): UpdateProductRequest {
    UpdateProductRequest(Some(r.name), r.description, Some(r.price), Some(r.stock))
  }

  /**
    The update rules lack `[Required]` on the name: a blank name passes them
    but fails the create rules.
   */
  lemma BlankNamePassesOnlyUpdateRules()
    ensures ValidUpdateProductRequest(UpdateProductRequest(Some(" "), None, None, None))
    ensures !ValidCreateProductRequest(CreateProductRequest(" ", None, 0.0, 0))
  {
  }
}
