/**
  `UserService`: read-only projections of the `Users` table to `UserDto`.
  Both operations are functions of the table, so neither changes it.
 */
module UserService {
  import opened Wrappers
  import opened Dtos
  import Tables

  /** A stored user (its id is its key in the table). */
  datatype User = User(
    username: string, email: string, passwordHash: string, role: string,
    createdAt: DateTime, updatedAt: Option<DateTime>)

  /** The User -> UserDto projection: it copies the id and the exposed fields; the password hash has no place in the result. */
  function ToUserDto(id: int, u: User): (d: UserDto)
    ensures d.id == id && d.username == u.username && d.email == u.email
    ensures d.role == u.role && d.createdAt == u.createdAt
  {
    UserDto(id, u.username, u.email, u.role, u.createdAt)
  }

  /** The id a UserDto carries. */
  function DtoId(d: UserDto): int {
    d.id
  }

  /** GetAllUsersAsync: every user's projection, in ascending id order. */
  function GetAllUsers(users: map<int, User>): (list: seq<UserDto>)
    ensures Tables.IsListing(users, list, ToUserDto, DtoId)
    ensures forall i, j :: 0 <= i < j < |list| ==> list[i].id < list[j].id
  {
    Tables.Listing(users, ToUserDto, DtoId)
  }

  /** GetUserByIdAsync: null exactly when no user has that id, else that user's projection. */
  function GetUserById(users: map<int, User>, id: int): (r: Option<UserDto>)
    ensures r.None? <==> id !in users
    ensures r.Some? ==> r.value.id == id && r.value == ToUserDto(id, users[id])
  {
    if id !in users then None else Some(ToUserDto(id, users[id]))
  }

  /** Two users that differ only in their password hash project to the same DTO. */
  lemma ProjectionHidesPasswordHash(id: int, u: User, otherHash: string)
    ensures ToUserDto(id, u.(passwordHash := otherHash)) == ToUserDto(id, u)
  {
  }

  /** The single lookup agrees with the full listing. */
  lemma LookupAgreesWithListing(users: map<int, User>, id: int)
    ensures GetUserById(users, id).Some? <==> exists i :: 0 <= i < |GetAllUsers(users)| && GetAllUsers(users)[i].id == id
    ensures forall i :: 0 <= i < |GetAllUsers(users)| && GetAllUsers(users)[i].id == id ==>
      GetUserById(users, id) == Some(GetAllUsers(users)[i])
  {
    var list := GetAllUsers(users);
    if id in users {
      var i :| 0 <= i < |list| && list[i].id == id;
    }
  }
}
