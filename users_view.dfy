/**
 * The users page: one `filters` state cell shared by the search panel and
 * the users table, the table's `response` cell, and the requests the page
 * sends.
 *
 * The page owns `filters` and passes the same value and setter to both
 * children, so both act on the one field of this class.  Every change of
 * `filters` (a new object on each update) or of the token re-runs the
 * table's effect, which derives the query and starts a listing fetch, with
 * or without a token.  Each fetch that resolves stores its result in
 * `response`, whatever was started after it.  Fetches are events: starting
 * one appends it to `inFlight`, and `Resolve`/`Reject` take any one of
 * them, in any order.
 */
module UsersView {
  import opened Filters
  import opened QueryBuilder
  import opened Listing
  import opened EditMenu

  /** A listing request: `fetchLocalJSONAPI(url, token)`. */
  datatype Fetch = Fetch(url: string, token: Token)

  /** The response cell after a sequence of resolutions: the last one, or `null`. */
  function LastResult(resolved: seq<ListingResult>): (r: Option<ListingResult>)
    ensures r.Some? <==> resolved != []
  {
    if resolved == [] then None else Some(resolved[|resolved| - 1])
  }

  function RemoveAt<T>(s: seq<T>, k: nat): (r: seq<T>)
    requires k < |s|
    ensures |r| == |s| - 1
  {
    s[..k] + s[k + 1..]
  }

  lemma RemoveAtMultiset<T>(s: seq<T>, k: nat)
    requires k < |s|
    ensures multiset(RemoveAt(s, k)) + multiset{s[k]} == multiset(s)
  {
    assert s == s[..k] + [s[k]] + s[k + 1..];
  }

  function OptionToSeq<T>(o: Option<T>): (s: seq<T>)
    ensures |s| <= 1
  {
    if o.Some? then [o.value] else []
  }

  class UsersList {
    var filters: Filters
    var token: Token
    var response: Option<ListingResult>
    /** Listing fetches started and not yet settled. */
    var inFlight: seq<Fetch>
    /** Every listing fetch started, in order. */
    var issued: seq<Fetch>
    /** Every request sent from an edit menu, in order. */
    var mutations: seq<Mutation>
    /** The results of the fetches that resolved, in order of resolution. */
    ghost var resolved: seq<ListingResult>

    /**
     * The filter object has distinct keys; the response cell holds the
     * result of the fetch that resolved last; the latest fetch started is
     * the one for the current filters and token; and only started fetches
     * are in flight.
     */
    ghost predicate Valid()
      reads this
    {
      && UniqueKeys(filters)
      && response == LastResult(resolved)
      && |issued| >= 1
      && issued[|issued| - 1] == Fetch(ListingUrl(filters), token)
      && multiset(inFlight) <= multiset(issued)
    }

    /** What the users table renders now. */
    function CurrentScreen(): (screen: Screen)
      reads this
    {
      Render(token, response, filters)
    }

    /** Mounting: the initial filter state, an empty response cell, and the first fetch. */
    constructor (token: Token)
      ensures Valid()
      ensures filters == InitialFilters && this.token == token && response == None
      ensures issued == [Fetch("users/?page=1", token)] && inFlight == issued
      ensures mutations == [] && resolved == []
    {
      InitialKeyOrder();
      InitialQuery();
      filters := InitialFilters;
      this.token := token;
      response := None;
      resolved := [];
      mutations := [];
      issued := [Fetch(ListingUrl(InitialFilters), token)];
      inFlight := [Fetch(ListingUrl(InitialFilters), token)];
    }

    /** The table's effect: derive the query from the current filters and start a fetch. */
    method RunEffect()
      requires UniqueKeys(filters) && response == LastResult(resolved)
      requires multiset(inFlight) <= multiset(issued)
      modifies this`issued, this`inFlight
      ensures Valid()
      ensures issued == old(issued) + [Fetch(ListingUrl(filters), token)]
      ensures inFlight == old(inFlight) + [Fetch(ListingUrl(filters), token)]
    {
      var fetch := Fetch(ListingUrl(filters), token);
      issued := issued + [fetch];
      inFlight := inFlight + [fetch];
    }

    /** `updateFilters(field, value)` of the search panel. */
    method UpdateFilters(field: string, value: Value)
      requires Valid()
      modifies this
      ensures Valid()
      ensures filters == Update(old(filters), field, value)
      ensures Get(filters, field) == Some(value)
      ensures forall k :: k != field ==> Get(filters, k) == Get(old(filters), k)
      ensures field in Keys(old(filters)) ==> Keys(filters) == Keys(old(filters))
      ensures token == old(token) && response == old(response)
      ensures mutations == old(mutations) && resolved == old(resolved)
      ensures issued == old(issued) + [Fetch(ListingUrl(filters), token)]
      ensures inFlight == old(inFlight) + [Fetch(ListingUrl(filters), token)]
    {
      UpdateFacts(filters, field, value);
      filters := Update(filters, field, value);
      RunEffect();
    }

    /**
     * The paginator's `setPageFn(page)` of the users table: the paginator
     * exists only while the table is rendered.
     */
    method SelectPage(page: int)
      requires Valid()
      requires CurrentScreen().UsersTable?
      modifies this
      ensures Valid()
      ensures filters == SetPage(old(filters), page)
      ensures Get(filters, "page") == Some(Num(page))
      ensures forall k :: k != "page" ==> Get(filters, k) == Get(old(filters), k)
      ensures "page" in Keys(old(filters)) ==> Keys(filters) == Keys(old(filters))
      ensures token == old(token) && response == old(response)
      ensures mutations == old(mutations) && resolved == old(resolved)
      ensures issued == old(issued) + [Fetch(ListingUrl(filters), token)]
      ensures inFlight == old(inFlight) + [Fetch(ListingUrl(filters), token)]
    {
      SetPageFacts(filters, page);
      filters := SetPage(filters, page);
      RunEffect();
    }

    /** The store's token changes: the effect re-runs only when the value differs. */
    method ChangeToken(t: Token)
      requires Valid()
      modifies this
      ensures Valid()
      ensures token == t && filters == old(filters) && response == old(response)
      ensures mutations == old(mutations) && resolved == old(resolved)
      ensures issued == old(issued) + (if t != old(token) then [Fetch(ListingUrl(filters), t)] else [])
      ensures inFlight == old(inFlight) + (if t != old(token) then [Fetch(ListingUrl(filters), t)] else [])
    {
      if t != token {
        token := t;
        RunEffect();
      }
    }

    /**
     * The in-flight fetch `k` resolves with `result`: `setResponse(res)`
     * stores it, whether or not a later fetch was started or has resolved.
     */
    method Resolve(k: nat, result: ListingResult)
      requires Valid() && k < |inFlight|
      modifies this
      ensures Valid()
      ensures response == Some(result)
      ensures resolved == old(resolved) + [result]
      ensures inFlight == RemoveAt(old(inFlight), k)
      ensures filters == old(filters) && token == old(token)
      ensures issued == old(issued) && mutations == old(mutations)
    {
      RemoveAtMultiset(inFlight, k);
      response := Some(result);
      resolved := resolved + [result];
      inFlight := RemoveAt(inFlight, k);
    }

    /** The in-flight fetch `k` fails: `setResponse` is never reached. */
    method Reject(k: nat)
      requires Valid() && k < |inFlight|
      modifies this
      ensures Valid()
      ensures inFlight == RemoveAt(old(inFlight), k)
      ensures response == old(response) && resolved == old(resolved)
      ensures filters == old(filters) && token == old(token)
      ensures issued == old(issued) && mutations == old(mutations)
    {
      RemoveAtMultiset(inFlight, k);
      inFlight := RemoveAt(inFlight, k);
    }

    /**
     * A click in the edit menu of `user`: a role sends the set-role request,
     * a level sends nothing.  Neither touches the filters, the response or
     * the listing fetches.
     */
    method ChooseMenuItem(user: UserSummary, item: MenuItem)
      requires Valid()
      requires CurrentScreen().UsersTable? && user in response.value.users
      modifies this`mutations
      ensures Valid()
      ensures mutations == old(mutations) + OptionToSeq(Click(item, user, token))
    {
      mutations := mutations + OptionToSeq(Click(item, user, token));
    }
  }

  /** Typing "john" into the initial state asks for `users/?username=john&page=1`. */
  lemma UsernameUrl()
    ensures ListingUrl(Update(InitialFilters, "username", Str("john"))) == "users/?username=john&page=1"
  {
    assert Update(InitialFilters, "username", Str("john")) ==
      [Entry("level", Str("ALL")), Entry("role", Str("ALL")), Entry("username", Str("john")), Entry("page", Num(1))];
    DefaultRoleLevelQuery("john", 1);
  }

  /** Going to page 3 and then typing "john" asks for `users/?username=john&page=3`. */
  lemma PageThenUsernameUrl()
    ensures ListingUrl(Update(SetPage(InitialFilters, 3), "username", Str("john"))) == "users/?username=john&page=3"
  {
    assert Update(SetPage(InitialFilters, 3), "username", Str("john")) ==
      [Entry("level", Str("ALL")), Entry("role", Str("ALL")), Entry("username", Str("john")), Entry("page", Num(3))];
    DefaultRoleLevelQuery("john", 3);
  }

  /**
   * A fetch for page 1 is in flight when the username changes; the newer
   * fetch resolves first and the older one last, so the stored response is
   * the older fetch's result.
   */
  method StaleResponseWins(token: Token, older: ListingResult, newer: ListingResult)
    returns (urls: seq<string>, stored: Option<ListingResult>)
    ensures urls == ["users/?page=1", "users/?username=john&page=1"]
    ensures stored == Some(older)
  {
    UsernameUrl();
    var page := new UsersList(token);
    page.UpdateFilters("username", Str("john"));
    page.Resolve(1, newer);
    page.Resolve(0, older);
    urls := [page.issued[0].url, page.issued[1].url];
    stored := page.response;
  }

  /**
   * The paginator and the search panel write the same filter cell: once the
   * first listing has arrived under a valid token, going to page 3 in the
   * table and then typing a username asks for that username on page 3.
   */
  method SharedFiltersKeepPage(token: Token, first: ListingResult) returns (url: string)
    requires Truthy(token)
    ensures url == "users/?username=john&page=3"
  {
    PageThenUsernameUrl();
    var page := new UsersList(token);
    page.Resolve(0, first);
    page.SelectPage(3);
    page.UpdateFilters("username", Str("john"));
    url := page.issued[|page.issued| - 1].url;
  }

  /** Without a token the page still fetches, and renders the login redirect. */
  method NoTokenStillFetches() returns (sent: seq<Fetch>, screen: Screen)
    ensures sent == [Fetch("users/?page=1", None)]
    ensures screen == LoginRedirect
  {
    var page := new UsersList(None);
    sent := page.issued;
    screen := page.CurrentScreen();
  }
}
