/**
 * The filter state of the user directory.
 *
 * In the source the filter state is a plain object.  For keys that are not
 * array indices its own key order is the order in which the keys were first
 * written.  It is modelled as an ordered list of key/value entries; `Update`
 * is the object spread `{ ...f, [field]: value }`, which overwrites an
 * existing key where it stands and appends a new (non-index) key at the end.
 */
module Filters {

  datatype Option<T> = None | Some(value: T)

  /** A filter value: the text inputs and radio buttons give strings, the paginator a number. */
  datatype Value = Str(s: string) | Num(n: int)

  datatype Entry = Entry(key: string, val: Value)

  type Filters = seq<Entry>

  /** The initial state `{ level: 'ALL', role: 'ALL', username: '', page: 1 }`. */
  const InitialFilters: Filters :=
    [Entry("level", Str("ALL")), Entry("role", Str("ALL")), Entry("username", Str("")), Entry("page", Num(1))]

  /** `Object.keys(f)`: the keys in the object's own order. */
  function Keys(f: Filters): (ks: seq<string>)
    ensures |ks| == |f|
  {
    if f == [] then [] else [f[0].key] + Keys(f[1..])
  }

  predicate UniqueKeys(f: Filters) {
    forall i, j :: 0 <= i < j < |f| ==> f[i].key != f[j].key
  }

  /** `f[k]`, with None for a key the object does not have. */
  function Get(f: Filters, k: string): (r: Option<Value>)
    ensures r.Some? ==> Entry(k, r.value) in f
  {
    if f == [] then None
    else if f[0].key == k then Some(f[0].val)
    else Get(f[1..], k)
  }

  /** `{ ...f, [k]: v }`. */
  function Update(f: Filters, k: string, v: Value): (r: Filters) {
    if f == [] then [Entry(k, v)]
    else if f[0].key == k then [Entry(k, v)] + f[1..]
    else [f[0]] + Update(f[1..], k, v)
  }

  /** What the paginator's `setPageFn` applies: `{ ...f, page: n }`. */
  function SetPage(f: Filters, n: int): (r: Filters) {
    Update(f, "page", Num(n))
  }

  lemma {:induction false} KeyAt(f: Filters, i: nat)
    requires i < |f|
    ensures Keys(f)[i] == f[i].key
  {
    if i > 0 {
      KeyAt(f[1..], i - 1);
    }
  }

  lemma {:induction false} KeysMembership(f: Filters, k: string)
    ensures k in Keys(f) <==> exists i :: 0 <= i < |f| && f[i].key == k
  {
    if k in Keys(f) {
      var i :| 0 <= i < |Keys(f)| && Keys(f)[i] == k;
      KeyAt(f, i);
    }
    if exists i :: 0 <= i < |f| && f[i].key == k {
      var i :| 0 <= i < |f| && f[i].key == k;
      KeyAt(f, i);
    }
  }

  /** A key has a value exactly when it is one of the object's keys. */
  lemma {:induction false} GetDefined(f: Filters, k: string)
    ensures Get(f, k).Some? <==> k in Keys(f)
  {
    if f != [] {
      GetDefined(f[1..], k);
    }
  }

  /** The update writes its key and leaves every other key's value as it was. */
  lemma {:induction false} UpdateGet(f: Filters, k: string, v: Value, k': string)
    ensures Get(Update(f, k, v), k') == if k' == k then Some(v) else Get(f, k')
  {
    if f != [] && f[0].key != k {
      UpdateGet(f[1..], k, v, k');
    }
  }

  /**
   * The update never reorders keys: an existing key stays where it is and
   * a new key goes last (as JavaScript does for keys that are not array indices).
   */
  lemma {:induction false} UpdateKeys(f: Filters, k: string, v: Value)
    ensures Keys(Update(f, k, v)) == if k in Keys(f) then Keys(f) else Keys(f) + [k]
  {
    if f != [] && f[0].key != k {
      UpdateKeys(f[1..], k, v);
      assert k in Keys(f) <==> k in Keys(f[1..]);
    }
  }

  /**
   * On an object with distinct keys, updating an existing key changes that
   * entry in place and no other.
   */
  lemma {:induction false} UpdateInPlace(f: Filters, k: string, v: Value)
    requires UniqueKeys(f)
    requires k in Keys(f)
    ensures |Update(f, k, v)| == |f|
    ensures forall i :: 0 <= i < |f| ==>
      Update(f, k, v)[i] == if f[i].key == k then Entry(k, v) else f[i]
  {
    var u := Update(f, k, v);
    if f[0].key == k {
      forall i | 1 <= i < |f|
        ensures f[i].key != k
      {
      }
    } else {
      assert k in Keys(f[1..]);
      UpdateInPlace(f[1..], k, v);
      forall i | 0 <= i < |f|
        ensures u[i] == if f[i].key == k then Entry(k, v) else f[i]
      {
        if i > 0 {
          assert u[i] == Update(f[1..], k, v)[i - 1];
        }
      }
    }
  }

  /** Distinct keys stay distinct. */
  lemma UpdateUnique(f: Filters, k: string, v: Value)
    requires UniqueKeys(f)
    ensures UniqueKeys(Update(f, k, v))
  {
    var u := Update(f, k, v);
    UpdateKeys(f, k, v);
    KeysMembership(f, k);
    forall i, j | 0 <= i < j < |u|
      ensures u[i].key != u[j].key
    {
      KeyAt(u, i);
      KeyAt(u, j);
      if j < |f| {
        KeyAt(f, i);
        KeyAt(f, j);
      } else {
        KeyAt(f, i);
      }
    }
  }

  /** Writing the same value to the same key twice is writing it once. */
  lemma {:induction false} UpdateIdempotent(f: Filters, k: string, v: Value)
    ensures Update(Update(f, k, v), k, v) == Update(f, k, v)
  {
    if f != [] && f[0].key != k {
      UpdateIdempotent(f[1..], k, v);
    }
  }

  /**
   * Changing username, role or level keeps the page number: there is no
   * reset to the first page.
   */
  lemma NoPageReset(f: Filters, k: string, v: Value)
    requires k != "page"
    ensures Get(Update(f, k, v), "page") == Get(f, "page")
  {
    UpdateGet(f, k, v, "page");
  }

  /** Updating an object with distinct keys: the facts the page's setter needs. */
  lemma UpdateFacts(f: Filters, k: string, v: Value)
    requires UniqueKeys(f)
    ensures UniqueKeys(Update(f, k, v))
    ensures Get(Update(f, k, v), k) == Some(v)
    ensures forall k' :: k' != k ==> Get(Update(f, k, v), k') == Get(f, k')
    ensures k in Keys(f) ==> Keys(Update(f, k, v)) == Keys(f)
  {
    UpdateUnique(f, k, v);
    UpdateKeys(f, k, v);
    forall k' | k' != k
      ensures Get(Update(f, k, v), k') == Get(f, k')
    {
      UpdateGet(f, k, v, k');
    }
    UpdateGet(f, k, v, k);
  }

  /** Selecting a page on an object with distinct keys: the facts the page's setter needs. */
  lemma SetPageFacts(f: Filters, n: int)
    requires UniqueKeys(f)
    ensures UniqueKeys(SetPage(f, n))
    ensures Get(SetPage(f, n), "page") == Some(Num(n))
    ensures forall k :: k != "page" ==> Get(SetPage(f, n), k) == Get(f, k)
    ensures "page" in Keys(f) ==> Keys(SetPage(f, n)) == Keys(f)
  {
    UpdateUnique(f, "page", Num(n));
    UpdateKeys(f, "page", Num(n));
    forall k | k != "page"
      ensures Get(SetPage(f, n), k) == Get(f, k)
    {
      SetPageOnlyPage(f, n, k);
    }
    SetPageOnlyPage(f, n, "page");
  }

  /** Selecting a page writes `page` and nothing else. */
  lemma SetPageOnlyPage(f: Filters, n: int, k: string)
    ensures Get(SetPage(f, n), "page") == Some(Num(n))
    ensures k != "page" ==> Get(SetPage(f, n), k) == Get(f, k)
  {
    UpdateGet(f, "page", Num(n), k);
    UpdateGet(f, "page", Num(n), "page");
  }

  /** The initial state has keys level, role, username, page, in that order. */
  lemma InitialKeyOrder()
    ensures Keys(InitialFilters) == ["level", "role", "username", "page"]
    ensures UniqueKeys(InitialFilters)
  {
  }

  /** No sequence of updates of the four initial keys changes the key order. */
  lemma KeyOrderStable(f: Filters, k: string, v: Value)
    requires Keys(f) == ["level", "role", "username", "page"]
    requires k in ["level", "role", "username", "page"]
    ensures Keys(Update(f, k, v)) == ["level", "role", "username", "page"]
  {
    UpdateKeys(f, k, v);
  }
}
