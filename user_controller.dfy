/** UserController's read endpoints under /api/users: the full listing,
    the listing four users to a page, and the lookup by id. */
module UserController {
  import opened Common
  import opened Entities
  import opened UserStore

  /** Users per page of GET /api/users/page/{page}. */
  const PageSize: nat := 4

  const NotFoundError: string := "User not found"

  datatype Body =
    | UserBody(user: UserJson)
    | ErrorBody(fields: map<string, string>)

  /** ResponseEntity: status and body. */
  datatype Response = Response(status: int, body: Body)

  /** GET /api/users: every stored user, in store order, as Jackson
      writes it. */
  function GetAllUsers(users: seq<User>): (r: seq<UserJson>)
    ensures |r| == |users|
    ensures forall i | 0 <= i < |users| :: r[i] == JsonView(users[i])
  {
    if users == [] then [] else [JsonView(users[0])] + GetAllUsers(users[1..])
  }

  /** GET /api/users/page/{page}: PageRequest.of(page, 4); a negative
      index is an IllegalArgumentException. */
  function GetAllUsersPage(users: seq<User>, page: int): (r: Result<Page>)
    ensures r.Failure? <==> page < 0
    ensures r.Failure? ==> r.message == "Page index must not be less than zero"
    ensures r.Success? ==>
      && r.value.number == page && r.value.size == PageSize && r.value.totalElements == |users|
      && r.value.content == PageContent(users, page, PageSize)
      && (r.value.content != [] <==> page < r.value.totalPages)
  {
    match PageRequestOf(page, PageSize)
    case Failure(message) => Failure(message)
    case Success(request) => Success(FindPage(users, request))
  }

  /** GET /api/users/{id}: 200 with the user, or 404 with
      {"error": "User not found"}. */
  function GetUserById(users: seq<User>, id: int): (r: Response)
    ensures r.status == 200 || r.status == 404
    ensures r.status == 200 <==> exists i | 0 <= i < |users| :: users[i].id == Some(id)
    ensures r.status == 200 ==>
      r.body.UserBody? && r.body.user.id == Some(id) && exists u | u in users :: JsonView(u) == r.body.user
    ensures r.status == 404 ==> r.body == ErrorBody(map["error" := NotFoundError])
  {
    match FindById(users, id)
    case Some(user) => Response(200, UserBody(JsonView(user)))
    case None => Response(404, ErrorBody(map["error" := NotFoundError]))
  }

  /** The paged endpoint and the full listing agree: reading pages 0, 1, ...
      up to the last one gives the users of the full listing, in its
      order, and each of those pages is served. */
  lemma ListingIsAllPages(users: seq<User>)
    ensures GetAllUsersPage(users, 0).Success?
    ensures var total := GetAllUsersPage(users, 0).value.totalPages;
      && GetAllUsers(FirstPages(users, PageSize, total)) == GetAllUsers(users)
      && forall p | 0 <= p < total :: GetAllUsersPage(users, p).Success? && GetAllUsersPage(users, p).value.content != []
  {
    PagesCoverStore(users, PageSize);
  }

  /** Eight stored users fill pages 0 and 1 with four each; page 2 is
      empty. Seven users leave three on page 1. */
  lemma PagingExamples(users: seq<User>)
    ensures |users| == 8 ==>
      && |GetAllUsersPage(users, 0).value.content| == 4
      && GetAllUsersPage(users, 0).value.totalElements == 8
      && GetAllUsersPage(users, 0).value.totalPages == 2
      && |GetAllUsersPage(users, 1).value.content| == 4
      && GetAllUsersPage(users, 2).value.content == []
    ensures |users| == 7 ==>
      && |GetAllUsersPage(users, 1).value.content| == 3
      && GetAllUsersPage(users, 1).value.totalPages == 2
  {
  }

  /** Looking up a stored user by its id finds a user with that id; an id
      no user has is a 404. */
  lemma LookupOfStoredUser(users: seq<User>, i: nat)
    requires i < |users| && users[i].id.Some?
    ensures GetUserById(users, users[i].id.value).status == 200
    ensures GetUserById(users, users[i].id.value).body.user.id == users[i].id
  {
  }
}
