/**
 * The listing response and what the users table renders from it.
 *
 * The table first checks the token (a falsy token redirects to the login
 * page), then the stored response (`null` renders nothing), and otherwise
 * renders one row per user plus the paginator.  Labels, avatars and icons
 * are not modelled; a row keeps the fields the table shows.
 */
module Listing {
  import opened Filters

  datatype UserSummary = UserSummary(username: string, pictureUrl: string, mappingLevel: string, role: string)

  datatype Pagination = Pagination(total: int, pages: int)

  datatype ListingResult = ListingResult(users: seq<UserSummary>, pagination: Pagination)

  /** The auth token from the store: absent, or a string. */
  type Token = Option<string>

  /** JavaScript truthiness of the token: absent and '' are falsy. */
  predicate Truthy(token: Token) {
    token.Some? && token.value != ""
  }

  /** One table row: the avatar picture, the profile link, level and role. */
  datatype Row = Row(username: string, profileLink: string, pictureUrl: string, mappingLevel: string, role: string)

  /**
   * The three outcomes of rendering the table.  `activePage` is whatever
   * `filters.page` holds and `lastPage` comes from the response.
   */
  datatype Screen =
    | LoginRedirect
    | Nothing
    | UsersTable(total: int, rows: seq<Row>, activePage: Option<Value>, lastPage: int)

  function RowOf(u: UserSummary): (row: Row) {
    Row(u.username, "/users/" + u.username, u.pictureUrl, u.mappingLevel, u.role)
  }

  /** `response.users.map(...)` */
  function Rows(users: seq<UserSummary>): (rows: seq<Row>)
    ensures |rows| == |users|
  {
    if users == [] then [] else [RowOf(users[0])] + Rows(users[1..])
  }

  function Render(token: Token, response: Option<ListingResult>, filters: Filters): (screen: Screen) {
    if !Truthy(token) then LoginRedirect
    else if response.None? then Nothing
    else
      var r := response.value;
      UsersTable(r.pagination.total, Rows(r.users), Get(filters, "page"), r.pagination.pages)
  }

  /** Each user gets one row, in the response's order, linking to that user's profile. */
  lemma {:induction false} RowsFaithful(users: seq<UserSummary>, i: nat)
    requires i < |users|
    ensures Rows(users)[i].username == users[i].username
    ensures Rows(users)[i].profileLink == "/users/" + users[i].username
    ensures Rows(users)[i].mappingLevel == users[i].mappingLevel && Rows(users)[i].role == users[i].role
  {
    if i > 0 {
      RowsFaithful(users[1..], i - 1);
    }
  }

  /**
   * The render decision: a redirect exactly when the token is falsy, nothing
   * exactly when the token is truthy and no response has arrived, and the
   * table of the stored response otherwise.
   */
  lemma RenderOutcomes(token: Token, response: Option<ListingResult>, filters: Filters)
    ensures Render(token, response, filters) == LoginRedirect <==> !Truthy(token)
    ensures Render(token, response, filters) == Nothing <==> Truthy(token) && response.None?
    ensures Render(token, response, filters).UsersTable? <==> Truthy(token) && response.Some?
    ensures Render(token, response, filters).UsersTable? ==>
      var s := Render(token, response, filters);
      |s.rows| == |response.value.users| && s.total == response.value.pagination.total
      && s.lastPage == response.value.pagination.pages && s.activePage == Get(filters, "page")
  {
  }
}
