/**
  `UsersController`: the admin-only listing and the self-or-admin read of one
  user. The read decides access from the caller's claims before it looks the
  user up, so the outcome is Forbid, NotFound or Ok, in that order.
 */
module UsersController {
  import opened Wrappers
  import opened Dtos
  import opened ActionResults
  import opened Identity
  import UserService
  import Tables

  const UserListMessage: string := "User list retrieved"
  const UserFoundMessage: string := "User retrieved"
  const UserNotFoundMessage: string := "User not found"

  // ------------------------------------------------------ int.ToString()

  function DigitChar(d: nat): (c: char)
    requires d < 10
    ensures '0' <= c <= '9'
  {
    "0123456789"[d]
  }

  /** The decimal digits of `n`, most significant first, without leading zeros. */
  function NatToString(n: nat): (s: string)
    ensures |s| >= 1
    ensures forall i :: 0 <= i < |s| ==> '0' <= s[i] <= '9'
    ensures n >= 10 <==> |s| >= 2
    decreases n
  {
    if n < 10 then [DigitChar(n)]
    else NatToString(n / 10) + [DigitChar(n % 10)]
  }

  /** `int.ToString()`: a '-' before the digits of a negative number. */
  function IntToString(n: int): (s: string)
    ensures |s| >= 1
    ensures s[0] == '-' <==> n < 0
  {
    if n < 0 then "-" + NatToString(-n) else NatToString(n)
  }

  lemma {:induction false} NatToStringInjective(a: nat, b: nat)
    requires NatToString(a) == NatToString(b)
    ensures a == b
    decreases a
  {
    var s := NatToString(a);
    if a >= 10 {
      assert b >= 10;
      var k := |s| - 1;
      assert s[..k] == NatToString(a / 10) && s[..k] == NatToString(b / 10);
      NatToStringInjective(a / 10, b / 10);
      assert DigitChar(a % 10) == s[k] == DigitChar(b % 10);
    } else {
      assert b < 10;
      assert DigitChar(a) == s[0] == DigitChar(b);
    }
  }

  /** Distinct ids have distinct decimal spellings. */
  lemma IntToStringInjective(a: int, b: int)
    requires IntToString(a) == IntToString(b)
    ensures a == b
  {
    var s := IntToString(a);
    if a < 0 {
      assert s[1..] == NatToString(-a) && s[1..] == NatToString(-b);
      NatToStringInjective(-a, -b);
    } else {
      NatToStringInjective(a, b);
    }
  }

  // ------------------------------------------------------------ access rule

  /**
    The read check of GetUserById: the caller passes unless its role claim is
    not "Admin" AND its NameIdentifier claim is not the requested id's decimal
    spelling (a missing claim compares unequal to both).
   */
  predicate MayReadUser(caller: Principal, id: int)
    ensures MayReadUser(caller, id) <==> IsAdmin(caller) || caller.nameIdentifier == Some(IntToString(id))
  {
    !(caller.role != Some(AdminRole) && caller.nameIdentifier != Some(IntToString(id)))
  }

  // ---------------------------------------------------------------- actions

  /** GET api/users (AdminOnly): the service's list, unchanged, in a successful envelope. */
  function GetAllUsers(ghost caller: Principal, users: map<int, UserService.User>): (r: ActionResult<seq<UserDto>>)
    requires IsAdmin(caller)
    ensures r.Ok? && r.body.success && r.body.errors.None?
    ensures r.body.data == Some(UserService.GetAllUsers(users))
    ensures Tables.IsListing(users, r.body.data.value, UserService.ToUserDto, UserService.DtoId)
  {
    Ok(Succeeded(UserListMessage, UserService.GetAllUsers(users)))
  }

  /** GET api/users/{id} (UserOrAdmin): Forbid, then NotFound, then Ok. */
  function GetUserById(caller: Principal, users: map<int, UserService.User>, id: int): (r: ActionResult<UserDto>)
    ensures r.Forbid? <==> !MayReadUser(caller, id)
    ensures r.NotFound? <==> MayReadUser(caller, id) && UserService.GetUserById(users, id).None?
    ensures r.NotFound? ==> !r.body.success && r.body.data.None?
    ensures r.Ok? <==> MayReadUser(caller, id) && id in users
    ensures r.Ok? ==> r.body.success && r.body.data == UserService.GetUserById(users, id)
    ensures r.Ok? ==> r.body.data == Some(UserService.ToUserDto(id, users[id]))
  {
    if !MayReadUser(caller, id) then Forbid
    else
      var user := UserService.GetUserById(users, id);
      if user.None? then NotFound(Failed(UserNotFoundMessage))
      else Ok(Succeeded(UserFoundMessage, user.value))
  }

  // ----------------------------------------------------------------- lemmas

  /** An admin is never forbidden, whatever id it asks for. */
  lemma AdminNeverForbidden(caller: Principal, users: map<int, UserService.User>, id: int)
    requires IsAdmin(caller)
    ensures !GetUserById(caller, users, id).Forbid?
  {
  }

  /** A caller that is not an admin passes exactly when its NameIdentifier claim spells the id. */
  lemma NonAdminOnlyOwnId(caller: Principal, id: int)
    requires !IsAdmin(caller)
    ensures MayReadUser(caller, id) <==> caller.nameIdentifier == Some(IntToString(id))
  {
  }

  /** A caller with neither an admin role nor a NameIdentifier claim is always forbidden. */
  lemma MissingClaimsForbidden(users: map<int, UserService.User>, id: int)
    ensures GetUserById(Principal(None, None), users, id) == Forbid
  {
  }

  /** A non-admin user whose id claim is `self` may read `id` exactly when `id == self`. */
  lemma NonAdminReadsOnlySelf(self: int, role: Option<string>, id: int)
    requires role != Some(AdminRole)
    ensures MayReadUser(Principal(Some(IntToString(self)), role), id) <==> id == self
  {
    if MayReadUser(Principal(Some(IntToString(self)), role), id) {
      IntToStringInjective(self, id);
    }
  }

  /** The access decision comes first: it does not depend on whether the user exists. */
  lemma ForbidIgnoresStore(caller: Principal, before: map<int, UserService.User>, after: map<int, UserService.User>, id: int)
    ensures GetUserById(caller, before, id).Forbid? <==> GetUserById(caller, after, id).Forbid?
  {
  }

  /** User 5 reads user 5 but not user 7; an admin whose id is 5 reads user 7. */
  lemma SelfOrAdminExamples(users: map<int, UserService.User>)
    ensures !GetUserById(Principal(Some("5"), Some("User")), users, 5).Forbid?
    ensures GetUserById(Principal(Some("5"), Some("User")), users, 7).Forbid?
    ensures !GetUserById(Principal(Some("5"), Some("Admin")), users, 7).Forbid?
  {
  }
}
