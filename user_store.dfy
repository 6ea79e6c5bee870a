/** The user repository as the controller and the user-details service
    query it: the stored users in store order, lookups by id and by
    username, and Spring Data's page requests and pages. */
module UserStore {
  import opened Common
  import opened Entities

  datatype Result<T> = Success(value: T) | Failure(message: string)

  /** PageRequest.of(page, size), once its arguments were accepted. */
  datatype PageRequest = PageRequest(page: nat, size: nat)

  /** The Page a paged findAll returns. */
  datatype Page = Page(content: seq<User>, number: nat, size: nat, totalElements: nat, totalPages: nat)

  function Min(a: int, b: int): int {
    if a <= b then a else b
  }

  /** PageRequest.of refuses a negative page index and a size below one
      with an IllegalArgumentException. */
  function PageRequestOf(page: int, size: int): (r: Result<PageRequest>)
    ensures r.Success? <==> page >= 0 && size >= 1
    ensures r.Success? ==> r.value.page == page && r.value.size == size
    ensures page < 0 ==> r == Failure("Page index must not be less than zero")
    ensures page >= 0 && size < 1 ==> r == Failure("Page size must not be less than one")
  {
    if page < 0 then Failure("Page index must not be less than zero")
    else if size < 1 then Failure("Page size must not be less than one")
    else Success(PageRequest(page, size))
  }

  /** The first stored user satisfying `p`. */
  function FindFirst(users: seq<User>, p: User -> bool): (r: Option<User>)
    ensures r.None? <==> forall i | 0 <= i < |users| :: !p(users[i])
    ensures r.Some? ==> exists i | 0 <= i < |users| ::
      users[i] == r.value && p(users[i]) && forall j | 0 <= j < i :: !p(users[j])
  {
    if users == [] then None
    else if p(users[0]) then Some(users[0])
    else
      var r := FindFirst(users[1..], p);
      assert forall j | 1 <= j < |users| :: users[j] == users[1..][j - 1];
      if r.Some? then
        var i :| 0 <= i < |users[1..]| && users[1..][i] == r.value && p(users[1..][i])
                 && forall j | 0 <= j < i :: !p(users[1..][j]);
        assert users[i + 1] == r.value;
        r
      else r
  }

  /** findById */
  function FindById(users: seq<User>, id: int): (r: Option<User>)
    ensures r.None? <==> forall i | 0 <= i < |users| :: users[i].id != Some(id)
    ensures r.Some? ==> r.value in users && r.value.id == Some(id)
  {
    FindFirst(users, (u: User) => u.id == Some(id))
  }

  /** findByUsername */
  function FindByUsername(users: seq<User>, username: string): (r: Option<User>)
    ensures r.None? <==> forall i | 0 <= i < |users| :: users[i].username != Some(username)
    ensures r.Some? ==> r.value in users && r.value.username == Some(username)
  {
    FindFirst(users, (u: User) => u.username == Some(username))
  }

  /** Pages needed for `n` elements, `size` to a page. */
  function PageCount(n: nat, size: nat): (k: nat)
    requires size >= 1
    ensures k * size >= n && (k == 0 || (k - 1) * size < n)
  {
    if n == 0 then 0 else 1 + PageCount(if n <= size then 0 else n - size, size)
  }

  /** The users on page `page`: those at offsets page * size and on, at
      most `size` of them. */
  function PageContent(users: seq<User>, page: nat, size: nat): (content: seq<User>)
    requires size >= 1
    ensures |content| <= size
    ensures page * size >= |users| ==> content == []
    ensures page * size < |users| ==> |content| == Min(size, |users| - page * size)
    ensures forall k | 0 <= k < |content| :: page * size + k < |users| && content[k] == users[page * size + k]
  {
    var start := Min(page * size, |users|);
    users[start..Min(start + size, |users|)]
  }

  /** findAll(pageable) */
  function FindPage(users: seq<User>, request: PageRequest): (p: Page)
    requires request.size >= 1
    ensures p.number == request.page && p.size == request.size && p.totalElements == |users|
    ensures p.content == PageContent(users, request.page, request.size)
    ensures p.totalPages * request.size >= |users|
    ensures p.totalPages == 0 || (p.totalPages - 1) * request.size < |users|
    ensures p.content != [] <==> request.page < p.totalPages
  {
    var total := PageCount(|users|, request.size);
    var content := PageContent(users, request.page, request.size);
    assert request.page < total ==> request.page * request.size < |users| by {
      if request.page < total {
        MulMonotone(request.page, total - 1, request.size);
      }
    }
    assert request.page >= total ==> request.page * request.size >= |users| by {
      if request.page >= total {
        MulMonotone(total, request.page, request.size);
      }
    }
    Page(content, request.page, request.size, |users|, total)
  }

  lemma MulMonotone(a: nat, b: nat, c: nat)
    requires a <= b
    ensures a * c <= b * c
  {
  }

  /** Pages 0 to k - 1, one after the other. */
  function FirstPages(users: seq<User>, size: nat, k: nat): seq<User>
    requires size >= 1
  {
    if k == 0 then [] else FirstPages(users, size, k - 1) + PageContent(users, k - 1, size)
  }

  lemma {:induction false} FirstPagesArePrefix(users: seq<User>, size: nat, k: nat)
    requires size >= 1
    ensures FirstPages(users, size, k) == users[..Min(k * size, |users|)]
  {
    if k > 0 {
      FirstPagesArePrefix(users, size, k - 1);
      var lo := Min((k - 1) * size, |users|);
      assert k * size == (k - 1) * size + size;
      assert PageContent(users, k - 1, size) == users[lo..Min(k * size, |users|)];
      assert users[..lo] + users[lo..Min(k * size, |users|)] == users[..Min(k * size, |users|)];
    }
  }

  /** Reading every page in order gives back every stored user, in order,
      each exactly once. */
  lemma PagesCoverStore(users: seq<User>, size: nat)
    requires size >= 1
    ensures FirstPages(users, size, PageCount(|users|, size)) == users
  {
    FirstPagesArePrefix(users, size, PageCount(|users|, size));
  }

  /** The user at offset i is on page i / size, at position i % size. */
  lemma UserOnItsPage(users: seq<User>, size: nat, i: nat)
    requires size >= 1 && i < |users|
    ensures i % size < |PageContent(users, i / size, size)|
    ensures PageContent(users, i / size, size)[i % size] == users[i]
  {
    var page, k := i / size, i % size;
    assert page * size + k == i;
  }
}
