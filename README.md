# User directory filters: a Dafny model

This project models the filter engine behind the administrators' user
directory of the Tasking Manager frontend: the page `UsersList`
(`frontend/src/views/users.js`) and its two children, the search panel
`SearchNav` and the paginated `UsersTable`, plus the per-user `UserEditMenu`
(`frontend/src/components/userList.js`).

- **Filter state** (`filters.dfy`, module `Filters`). The filter object
  `{ level: 'ALL', role: 'ALL', username: '', page: 1 }` is an ordered list of
  key/value entries, because its own key order decides the query. `Update` is
  the spread `{ ...f, [field]: value }`: an existing key is overwritten where
  it stands, and a new key that is not an array index goes last. `SetPage` is what the paginator applies.
- **Query derivation** (`query.dfy`, module `QueryBuilder`). `Pairs` keeps
  `key=value` for each entry that survives the filter step. `role` and `level`
  are dropped when they are `'ALL'`. Any other key is dropped only when its
  value is exactly `''`, so a numeric `page` is never dropped. `Query` joins
  the pairs with `&`, and `ListingUrl` is `users/?` followed by the query.
  Values are not URL-encoded. `Split` is `split('&')`, used only to state when
  the query can be read back.
- **Number rendering** (`decimal.dfy`, module `Decimal`). This is how a
  template literal writes an integer page number of ordinary size.
- **Rendering** (`listing.dfy`, module `Listing`). A falsy token gives the
  login redirect. Otherwise a `null` response renders nothing, and a stored
  response renders one row per user plus the paginator.
- **Edit menu** (`edit_menu.dfy`, module `EditMenu`). An option gets a check
  mark exactly when it equals the user's role or level. Clicking a role
  fetches `users/<username>/actions/set-role/` with no token, whatever role
  was clicked. Level options do nothing when clicked.
- **The page** (`users_view.dfy`, module `UsersView`). Class `UsersList`
  holds the one `filters` cell that both children read and write. It also
  holds the auth `token`, the table's `response` cell, and logs of the
  listing fetches started (`issued`), the fetches still pending
  (`inFlight`) and the edit-menu requests sent (`mutations`).
  - Every filter update, page selection and token change re-runs the table's
    effect, which starts a fetch even without a token.
  - `Resolve(k, result)` settles any pending fetch, in any order, and
    overwrites `response` without checking for newer requests.
  - `Reject(k)` settles a fetch that failed and leaves `response` as it was.
  - `SelectPage` and `ChooseMenuItem` need the table on screen, because the
    paginator and the edit menus exist only inside it. A menu click also needs
    its user to be one of the stored response's users.
  - The invariant `Valid()` says four things. The filter object has distinct
    keys. The response is the result of the fetch that resolved last. The latest fetch started is the one for the
    current filters and token. Only started fetches are pending.

Behaviours of the code that are easy to assume otherwise:
- The query order is level, role, username, page, because that is the key
  order of the object literal in `users.js`. It is not username first.
- `page` is omitted only when it is `''`, not when it is merely falsy. A
  number is never `''`, so `page=<n>` is always sent. The initial query is
  `page=1`.
- A listing fetch is issued even when there is no token. Only rendering
  checks the token.
- A response that resolves late overwrites a newer one. Nothing guards
  against this.
- Changing username, role or level does not reset the page.
- The set-role request carries neither the chosen role nor the token. Mapper
  levels have no request at all.

## Model

| member | source | states |
|---|---|---|
| Decimal.NatToDecimal | frontend/src/components/userList.js:138 | a non-negative page number renders as at least one digit, digits only, with no leading zero |
| Decimal.IntToDecimal | frontend/src/components/userList.js:138 | a rendered integer is an optional '-' then digits, so it never holds the separators '&' or '=' |
| Decimal.NatRoundTrip | frontend/src/components/userList.js:138 | reading the rendered digits back gives the number |
| Decimal.IntRoundTrip | frontend/src/components/userList.js:138 | rendering an integer loses nothing, so distinct pages give distinct `page=` pairs |
| Filters.InitialFilters | frontend/src/views/users.js:7 | the object literal `{ level: 'ALL', role: 'ALL', username: '', page: 1 }`, entries in literal order; its key order is stated by InitialKeyOrder |
| Filters.Get | frontend/src/components/userList.js:214 | `f[k]`: a value it returns is the value of an entry for `k` in the object; GetDefined says it is defined exactly for the object's keys |
| Filters.Update | frontend/src/components/userList.js:89 | `{ ...f, [k]: v }`: overwrite the key in place, else append it; its properties are UpdateGet, UpdateKeys, UpdateInPlace, UpdateUnique and UpdateIdempotent |
| Filters.SetPage | frontend/src/components/userList.js:215-218 | `{ ...f, page: val }`, the spread with key `page`; its properties are SetPageOnlyPage and SetPageFacts |
| Filters.UpdateFacts | frontend/src/components/userList.js:87-91 | on an object with distinct keys, an update keeps the keys distinct and in place when the key exists, writes the key and keeps every other value |
| Filters.UpdateGet | frontend/src/components/userList.js:87-91 | after `{ ...f, [k]: v }`, key `k` holds `v` and every other key holds what it held before |
| Filters.UpdateKeys | frontend/src/components/userList.js:87-91 | the update never reorders keys: an existing key stays in place, and a new key is appended last |
| Filters.UpdateInPlace | frontend/src/components/userList.js:87-91 | on an object with distinct keys, updating an existing key changes exactly that entry and keeps the length |
| Filters.UpdateUnique | frontend/src/components/userList.js:87-91 | the update keeps the keys distinct |
| Filters.UpdateIdempotent | frontend/src/components/userList.js:87-91 | applying the same field update twice equals applying it once |
| Filters.NoPageReset | frontend/src/components/userList.js:87-91 | changing any key other than `page` leaves `page` as it was, so there is no reset to page 1 |
| Filters.SetPageOnlyPage | frontend/src/components/userList.js:215-219 | selecting page `n` sets `page` to `n` and leaves every other key unchanged |
| Filters.SetPageFacts | frontend/src/components/userList.js:215-219 | on an object with distinct keys, selecting a page keeps the keys distinct and in place, sets `page` and keeps every other value |
| Filters.InitialKeyOrder | frontend/src/views/users.js:7 | the initial state has the distinct keys level, role, username, page, in that order |
| Filters.KeyOrderStable | frontend/src/views/users.js:7 | updating any of the four initial keys keeps the key order level, role, username, page |
| QueryBuilder.Text | frontend/src/components/userList.js:131 | `${val}`: a string as is, a number through IntToDecimal; PageAlwaysEmitted and IntRoundTrip pin the number case |
| QueryBuilder.PairText | frontend/src/components/userList.js:131 | `${key}=${val}`; SameKey and PairMembership read the key and the text back from it when the key has no '=' |
| QueryBuilder.Emits | frontend/src/components/userList.js:129-140 | whether an entry survives the map and the `!== null` filter; RoleLevelRule and OtherKeyRule state the two drop rules as iffs |
| QueryBuilder.Join | frontend/src/components/userList.js:143 | `parts.join('&')`; SplitJoin says splitting the join on '&' gives the parts back, and JoinEmpty says it is '' exactly when there are no parts, if none is empty |
| QueryBuilder.Split | frontend/src/components/userList.js:143 | `s.split('&')`, used only to read a query back: at least one part; SplitJoin is its round trip with Join |
| QueryBuilder.Query | frontend/src/components/userList.js:127-143 | the query string of the effect: the surviving pairs joined with '&'; QueryEmptyIff, QuerySegments, DefaultRoleLevelQuery and InitialQuery state what it is |
| QueryBuilder.ListingUrl | frontend/src/components/userList.js:121 | `users/?${filters}` for the derived query; InitialQuery, UsernameUrl and PageThenUsernameUrl give its concrete values |
| QueryBuilder.Pairs | frontend/src/components/userList.js:127-142 | at most one pair per entry, and every pair contains '=' |
| QueryBuilder.PairsAppend | frontend/src/components/userList.js:127-142 | the pairs of two consecutive parts of the object are the pairs of the first followed by the pairs of the second |
| QueryBuilder.PairsLength | frontend/src/components/userList.js:127-142 | there is one pair for each entry that survives the filter step |
| QueryBuilder.PairPosition | frontend/src/components/userList.js:127-142 | the pair of a surviving entry stands at the position given by the number of surviving entries before it |
| QueryBuilder.PairsInKeyOrder | frontend/src/components/userList.js:127-142 | of two surviving entries, the earlier key's pair comes first |
| QueryBuilder.PairsOfFour | frontend/src/components/userList.js:127-142 | a four-key object gives its pairs key by key, in the object's order |
| QueryBuilder.PairMembership | frontend/src/components/userList.js:128-141 | for distinct keys without '=', `k=t` is a pair if and only if `k` is present, its entry survives, and its value renders as `t` |
| QueryBuilder.RoleLevelRule | frontend/src/components/userList.js:129-135 | `role=t` or `level=t` is sent if and only if the key's value is not 'ALL' and renders as `t` |
| QueryBuilder.OtherKeyRule | frontend/src/components/userList.js:137-140 | any other key's pair is sent if and only if the value is not exactly '' |
| QueryBuilder.PageAlwaysEmitted | frontend/src/components/userList.js:137-140 | a numeric page always gives `page=<n>` |
| QueryBuilder.EmptyUsernameOmitted | frontend/src/components/userList.js:137-140 | an empty username gives no `username=` pair |
| QueryBuilder.QueryEmptyIff | frontend/src/components/userList.js:127-143 | the query is '' if and only if every entry is dropped |
| QueryBuilder.SplitJoin | frontend/src/components/userList.js:143 | joining parts free of '&' and splitting on '&' gives the parts back |
| QueryBuilder.QuerySegments | frontend/src/components/userList.js:127-143 | when no key or value contains '&', the segments of the query are exactly the pairs in order, none of them empty |
| QueryBuilder.DefaultRoleLevelQuery | frontend/src/components/userList.js:127-143 | with role and level at 'ALL', the query is `username=<u>&` (only when u is not '') followed by `page=<n>` |
| QueryBuilder.InitialQuery | frontend/src/views/users.js:7 | the initial state queries exactly `page=1`, so the first URL is `users/?page=1` |
| QueryBuilder.ExampleQuery | frontend/src/components/userList.js:127-143 | `{level:'ALL', role:'ADMIN', username:'john', page:2}` gives `role=ADMIN&username=john&page=2` |
| Listing.Render | frontend/src/components/userList.js:148-154 | the three render branches; RenderOutcomes states which applies, as iffs, and what the table carries |
| Listing.Rows | frontend/src/components/userList.js:163-211 | the table has exactly one row per user in the response |
| Listing.RowsFaithful | frontend/src/components/userList.js:163-189 | row `i` shows user `i`'s name, level and role, and links to `/users/<username>` |
| Listing.RenderOutcomes | frontend/src/components/userList.js:148-222 | redirect if and only if the token is falsy; nothing if and only if the token is truthy and the response is `null`; otherwise the table, with the response's total and last page and the filter's page |
| EditMenu.CheckMarks | frontend/src/components/userList.js:247 | `r === user.role` (and line 260 for levels) for each option, one mark per option; CheckMarkAt and CheckMarkCount state its meaning |
| EditMenu.SetRoleUrl | frontend/src/components/userList.js:234 | `users/${username}/actions/set-role/`: its length is the username's plus the fixed text; SetRoleUrlDependsOnlyOnUser says it ignores the role and tells users apart |
| EditMenu.Click | frontend/src/components/userList.js:244 | the `onClick` of a role calls `updateRole`; level options have none: a click gives a request exactly on a role item; ClickRequests states the request |
| EditMenu.CheckMarkAt | frontend/src/components/userList.js:241-263 | an option is check-marked if and only if it equals the user's current role or level |
| EditMenu.CheckMarkCount | frontend/src/components/userList.js:241-263 | among distinct options there is one check mark if the current value is listed, and none otherwise |
| EditMenu.MenuCheckMarks | frontend/src/components/userList.js:229-263 | a user's menu shows at most one role check mark and at most one level check mark |
| EditMenu.SetRoleUrlDependsOnlyOnUser | frontend/src/components/userList.js:233-235 | two set-role URLs are equal if and only if they are for the same username, whatever the roles |
| EditMenu.ClickRequests | frontend/src/components/userList.js:233-258 | a click sends a request if and only if it is on a role; the request goes to the user's set-role URL with no token; the chosen role and the menu's token do not affect it |
| UsersView.LastResult | frontend/src/components/userList.js:123 | the response cell after `setResponse` calls: defined exactly when some fetch has resolved, and then the last result; Resolve and StaleResponseWins use it |
| UsersView.UsersList.Valid | frontend/src/components/userList.js:116-146 | the invariant every method keeps: distinct filter keys, response is the last resolved result, the latest fetch is for the current filters and token, and only started fetches are pending |
| UsersView.UsersList.CurrentScreen | frontend/src/components/userList.js:148-154 | what the table renders from the current token, response and filters, by Render; NoTokenStillFetches shows the redirect case |
| UsersView.UsersList.constructor | frontend/src/views/users.js:7 | mounting sets the initial filters and a `null` response, and starts exactly one fetch, of `users/?page=1` with the current token |
| UsersView.UsersList.RunEffect | frontend/src/components/userList.js:119-146 | the effect starts one fetch of `ListingUrl(filters)` with the current token, whatever the token is |
| UsersView.UsersList.UpdateFilters | frontend/src/components/userList.js:87-91 | the new filters are `Update(old, field, value)`: the field holds the value, other keys are unchanged, and the key order is kept; one fetch for the new filters is started; the token and the response are unchanged |
| UsersView.UsersList.SelectPage | frontend/src/components/userList.js:213-219 | callable only while the table (and so its paginator) is rendered; the new filters are `SetPage(old, n)`: only `page` changes; one fetch for the new filters is started |
| UsersView.UsersList.ChangeToken | frontend/src/components/userList.js:116-146 | a different token starts one fetch for the unchanged filters; the same token starts none |
| UsersView.UsersList.Resolve | frontend/src/components/userList.js:120-124 | any pending fetch may resolve; its result becomes the response even if a newer fetch is pending or has already resolved |
| UsersView.UsersList.Reject | frontend/src/components/userList.js:120-124 | a failed fetch leaves the response unchanged and is no longer pending |
| UsersView.UsersList.ChooseMenuItem | frontend/src/components/userList.js:163-258 | callable only while the table is rendered and for a user of the stored response; a menu click adds the click's request, if any, to the mutation log and leaves filters, response and listing fetches untouched |
| UsersView.UsernameUrl | frontend/src/components/userList.js:87-145 | typing "john" into the initial state fetches `users/?username=john&page=1` |
| UsersView.PageThenUsernameUrl | frontend/src/views/users.js:15-16 | going to page 3 and then typing "john" fetches `users/?username=john&page=3` |
| UsersView.StaleResponseWins | frontend/src/components/userList.js:119-124 | the page-1 fetch starts, then the username fetch starts; the newer fetch resolves first and the older one last; the stored response is the older result |
| UsersView.SharedFiltersKeepPage | frontend/src/views/users.js:15-16 | under a truthy token and once the first listing has arrived, a page chosen in the table survives a username typed in the search panel, because both write the same cell |
| UsersView.NoTokenStillFetches | frontend/src/components/userList.js:119-150 | without a token the page still fetches `users/?page=1`, and it renders the login redirect |

## Left out

- `migrations/versions/7bbc01082457_.py` is a database migration that only runs SQL. It is not part of this model.
- The JSX markup, CSS classes, translated labels (`FormattedMessage`), `UserAvatar`, `Popup`, the icons and the `Redirect` component are left out. Rendering is reduced to the `Screen` value: redirect, nothing, or the table's data.
- `fetchLocalJSONAPI` is left out: its HTTP method, headers, JSON decoding and error reporting. A listing fetch is a `Fetch` value (URL and token). Its settling is a `Resolve` or `Reject` event, and the listing's shape is assumed.
- The redux store behind `useSelector` is left out. The token is a parameter of the constructor and of `ChangeToken`.
- The internals of `PaginatorLine` are left out. `SelectPage` accepts any integer, and the model does not restrict it to `1..lastPage`.
- Real asynchrony and React's scheduling are left out. The effect runs at once after each state change, so several updates batched into one render would start a fetch each here, but only one in React. Pending fetches settle in any order the caller chooses.
- Unmounting the page is left out. The source does nothing on unmount.
- The radio buttons of the search panel (`checked={filters.role === role}`) and the text box's displayed value are left out. They only display state that the model already holds.
- Filter values are strings or integers. These are the only kinds the source writes. Non-integer numbers and their rendering are not modelled.
- Decimal.IntToDecimal: renders every integer as plain digits. JavaScript numbers are doubles, so the source loses precision beyond 2^53 and writes exponent notation (`1e+21`) from 10^21 up. Page numbers never get near these values.
- Filters.Update: a new key is always appended last. JavaScript lists array-index keys such as `"0"` first, in ascending order, so this does not hold for them. The source only writes `level`, `role`, `username` and `page`, which all exist from the start.
- QueryBuilder.QuerySegments: it holds only when no value contains '&'. Values are not URL-encoded, so a username such as `a&role=ADMIN` yields the same query as a different filter state. The query therefore does not parse back in general.
