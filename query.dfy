/**
 * Query derivation: the `Object.entries(filters).map(...).filter(...).join('&')`
 * expression of the users table effect, and the listing URL built from it.
 *
 * `role` and `level` give no pair when their value is 'ALL'; every other key
 * gives no pair only when its value is exactly the empty string (a number is
 * never `''`, so `page` always gives one).  Values are interpolated as they
 * are, with no URL encoding.
 */
module QueryBuilder {
  import opened Filters
  import Decimal

  /** `${val}` */
  function Text(v: Value): (s: string) {
    match v
    case Str(s) => s
    case Num(n) => Decimal.IntToDecimal(n)
  }

  predicate IsRoleOrLevel(k: string) {
    k == "role" || k == "level"
  }

  /** Whether an entry survives the `filter(v => v !== null)` step. */
  predicate Emits(e: Entry) {
    if IsRoleOrLevel(e.key) then e.val != Str("ALL") else e.val != Str("")
  }

  /** `${key}=${val}` */
  function PairText(e: Entry): (p: string) {
    e.key + "=" + Text(e.val)
  }

  /** The surviving `key=value` pairs, in the object's key order. */
  function Pairs(f: Filters): (ps: seq<string>)
    ensures |ps| <= |f|
    ensures forall p :: p in ps ==> '=' in p
  {
    if f == [] then []
    else
      var rest := Pairs(f[1..]);
      if Emits(f[0]) then
        assert '=' in PairText(f[0]) by { assert PairText(f[0])[|f[0].key|] == '='; }
        [PairText(f[0])] + rest
      else rest
  }

  /** `parts.join('&')` */
  function Join(parts: seq<string>): (s: string) {
    if parts == [] then ""
    else if |parts| == 1 then parts[0]
    else parts[0] + "&" + Join(parts[1..])
  }

  /** `s.split('&')`: a string without '&' is one part, "" included. */
  function Split(s: string): (parts: seq<string>)
    ensures |parts| >= 1
  {
    if s == [] then [""]
    else if s[0] == '&' then [""] + Split(s[1..])
    else
      var t := Split(s[1..]);
      [[s[0]] + t[0]] + t[1..]
  }

  /** The query string the users table derives from the filter state. */
  function Query(f: Filters): (q: string) {
    Join(Pairs(f))
  }

  /** The URL of the listing request. */
  function ListingUrl(f: Filters): (url: string) {
    "users/?" + Query(f)
  }

  /** How many entries of `f` give a pair. */
  function EmittedCount(f: Filters): (n: nat) {
    if f == [] then 0 else (if Emits(f[0]) then 1 else 0) + EmittedCount(f[1..])
  }

  /** No key contains a separator of the query. */
  predicate PlainKeys(f: Filters) {
    forall i :: 0 <= i < |f| ==> '=' !in f[i].key && '&' !in f[i].key
  }

  /** No key and no string value contains '&'. */
  predicate NoAmpersand(f: Filters) {
    forall i :: 0 <= i < |f| ==> '&' !in f[i].key && (f[i].val.Str? ==> '&' !in f[i].val.s)
  }

  // ---------------------------------------------------------------------
  // Order: the k-th pair comes from the k-th entry that survives.

  lemma PairsCons(e: Entry, rest: Filters)
    ensures Pairs([e] + rest) == (if Emits(e) then [PairText(e)] else []) + Pairs(rest)
  {
    assert ([e] + rest)[0] == e;
    assert ([e] + rest)[1..] == rest;
  }

  lemma {:induction false} PairsAppend(a: Filters, b: Filters)
    ensures Pairs(a + b) == Pairs(a) + Pairs(b)
  {
    if a != [] {
      assert a == [a[0]] + a[1..];
      assert a + b == [a[0]] + (a[1..] + b);
      PairsCons(a[0], a[1..] + b);
      PairsCons(a[0], a[1..]);
      PairsAppend(a[1..], b);
    } else {
      assert a + b == b;
    }
  }

  lemma {:induction false} PairsLength(f: Filters)
    ensures |Pairs(f)| == EmittedCount(f)
  {
    if f != [] {
      PairsLength(f[1..]);
    }
  }

  /**
   * The pair of a surviving entry `f[i]` sits at the position given by the
   * number of surviving entries before it.
   */
  lemma {:induction false} PairPosition(f: Filters, i: nat)
    requires i < |f| && Emits(f[i])
    ensures EmittedCount(f[..i]) < |Pairs(f)|
    ensures Pairs(f)[EmittedCount(f[..i])] == PairText(f[i])
  {
    if i > 0 {
      PairPosition(f[1..], i - 1);
      assert f[..i][1..] == f[1..][..i - 1];
      assert f[..i][0] == f[0];
    }
  }

  /** Of two surviving entries, the earlier key's pair comes first. */
  lemma {:induction false} PairsInKeyOrder(f: Filters, i: nat, j: nat)
    requires i < j < |f| && Emits(f[i]) && Emits(f[j])
    ensures EmittedCount(f[..i]) < EmittedCount(f[..j])
  {
    assert f[..j][0] == f[0];
    assert f[..j][1..] == f[1..][..j - 1];
    if i == 0 {
      assert f[..0] == [];
    } else {
      assert f[..i][0] == f[0];
      assert f[..i][1..] == f[1..][..i - 1];
      PairsInKeyOrder(f[1..], i - 1, j - 1);
    }
  }

  // ---------------------------------------------------------------------
  // Which keys give a pair.

  /** Position of the first '=' in `s`, or `|s|` when there is none. */
  function IndexOfEq(s: string): (i: nat)
    ensures i <= |s|
  {
    if s == [] then 0 else if s[0] == '=' then 0 else 1 + IndexOfEq(s[1..])
  }

  lemma {:induction false} IndexOfEqAfterKey(a: string, b: string)
    requires '=' !in a
    ensures IndexOfEq(a + "=" + b) == |a|
  {
    var s := a + "=" + b;
    if a != [] {
      assert a[0] in a;
      assert s[1..] == a[1..] + "=" + b;
      IndexOfEqAfterKey(a[1..], b);
    }
  }

  /** A pair `key=value` with a separator-free key splits back into key and value. */
  lemma SameKey(a: string, b: string, c: string, d: string)
    requires '=' !in a && '=' !in c
    requires a + "=" + b == c + "=" + d
    ensures a == c && b == d
  {
    var s := a + "=" + b;
    IndexOfEqAfterKey(a, b);
    IndexOfEqAfterKey(c, d);
    assert a == s[..|a|] == c;
    assert b == s[|a| + 1..] == d;
  }

  /**
   * On an object with distinct, separator-free keys, `k=t` is one of the
   * pairs exactly when `k` is a key, its entry survives the filter, and its
   * value renders as `t`.
   */
  lemma {:induction false} PairMembership(f: Filters, k: string, t: string)
    requires UniqueKeys(f) && PlainKeys(f) && '=' !in k
    ensures k + "=" + t in Pairs(f) <==>
      Get(f, k).Some? && Emits(Entry(k, Get(f, k).value)) && Text(Get(f, k).value) == t
  {
    if f != [] {
      var e := f[0];
      var rest := f[1..];
      PairMembership(rest, k, t);
      var head := if Emits(e) then [PairText(e)] else [];
      assert Pairs(f) == head + Pairs(rest);
      if e.key == k {
        GetDefined(rest, k);
        KeysMembership(rest, k);
        if k + "=" + t == PairText(e) {
          SameKey(k, t, e.key, Text(e.val));
        }
      } else {
        if k + "=" + t == PairText(e) {
          SameKey(k, t, e.key, Text(e.val));
        }
      }
    }
  }

  /** `role` and `level`: a pair exactly when the value is not 'ALL'. */
  lemma RoleLevelRule(f: Filters, k: string, t: string)
    requires UniqueKeys(f) && PlainKeys(f) && IsRoleOrLevel(k)
    ensures k + "=" + t in Pairs(f) <==>
      Get(f, k).Some? && Get(f, k).value != Str("ALL") && Text(Get(f, k).value) == t
  {
    PairMembership(f, k, t);
  }

  /** Every other key: a pair unless the value is exactly ''. */
  lemma OtherKeyRule(f: Filters, k: string, t: string)
    requires UniqueKeys(f) && PlainKeys(f) && '=' !in k && !IsRoleOrLevel(k)
    ensures k + "=" + t in Pairs(f) <==>
      Get(f, k).Some? && Get(f, k).value != Str("") && Text(Get(f, k).value) == t
  {
    PairMembership(f, k, t);
  }

  /** A numeric page always gives `page=<n>`. */
  lemma PageAlwaysEmitted(f: Filters, n: int)
    requires UniqueKeys(f) && PlainKeys(f)
    requires Get(f, "page") == Some(Num(n))
    ensures "page=" + Decimal.IntToDecimal(n) in Pairs(f)
  {
    assert !IsRoleOrLevel("page") && '=' !in "page";
    assert "page=" + Decimal.IntToDecimal(n) == "page" + "=" + Decimal.IntToDecimal(n);
    PairMembership(f, "page", Decimal.IntToDecimal(n));
  }

  /** An empty username gives no `username=` pair at all. */
  lemma EmptyUsernameOmitted(f: Filters, t: string)
    requires UniqueKeys(f) && PlainKeys(f)
    requires Get(f, "username") == Some(Str(""))
    ensures "username=" + t !in Pairs(f)
  {
    assert !IsRoleOrLevel("username") && '=' !in "username";
    assert "username=" + t == "username" + "=" + t;
    PairMembership(f, "username", t);
  }

  // ---------------------------------------------------------------------
  // Joining: no empty segment, and the segments are the pairs.

  lemma {:induction false} JoinEmpty(ps: seq<string>)
    requires forall p :: p in ps ==> p != ""
    ensures Join(ps) == "" <==> ps == []
  {
    if |ps| > 1 {
      assert Join(ps)[|ps[0]|] == '&';
    } else if |ps| == 1 {
      assert ps[0] in ps;
    }
  }

  lemma {:induction false} PairsEmpty(f: Filters)
    ensures Pairs(f) == [] <==> forall i :: 0 <= i < |f| ==> !Emits(f[i])
  {
    if f != [] {
      PairsEmpty(f[1..]);
      if Pairs(f) == [] {
        forall i | 0 <= i < |f|
          ensures !Emits(f[i])
        {
          if i > 0 {
            assert f[i] == f[1..][i - 1];
          }
        }
      }
      if forall i :: 0 <= i < |f| ==> !Emits(f[i]) {
        assert !Emits(f[0]);
        forall i | 0 <= i < |f[1..]|
          ensures !Emits(f[1..][i])
        {
          assert f[1..][i] == f[i + 1];
        }
      }
    }
  }

  /** The query is empty exactly when every entry is dropped. */
  lemma QueryEmptyIff(f: Filters)
    ensures Query(f) == "" <==> forall i :: 0 <= i < |f| ==> !Emits(f[i])
  {
    var ps := Pairs(f);
    forall p | p in ps
      ensures p != ""
    {
      assert '=' in p;
    }
    JoinEmpty(ps);
    PairsEmpty(f);
  }

  lemma {:induction false} SplitNoSeparator(p: string)
    requires '&' !in p
    ensures Split(p) == [p]
  {
    if p != [] {
      assert p[0] in p;
      SplitNoSeparator(p[1..]);
      assert [p[0]] + p[1..] == p;
    }
  }

  lemma {:induction false} SplitCons(p: string, r: string)
    requires '&' !in p
    ensures Split(p + "&" + r) == [p] + Split(r)
  {
    var s := p + "&" + r;
    if p == [] {
      assert s[1..] == r;
    } else {
      assert p[0] in p;
      assert s[0] == p[0];
      assert s[1..] == p[1..] + "&" + r;
      SplitCons(p[1..], r);
      assert [p[0]] + p[1..] == p;
    }
  }

  /** Splitting a join of '&'-free parts gives the parts back. */
  lemma {:induction false} SplitJoin(ps: seq<string>)
    requires ps != []
    requires forall p :: p in ps ==> '&' !in p
    ensures Split(Join(ps)) == ps
  {
    assert ps[0] in ps;
    if |ps| == 1 {
      SplitNoSeparator(ps[0]);
    } else {
      SplitCons(ps[0], Join(ps[1..]));
      SplitJoin(ps[1..]);
    }
  }

  lemma {:induction false} PairsNoAmpersand(f: Filters)
    requires NoAmpersand(f)
    ensures forall p :: p in Pairs(f) ==> '&' !in p
  {
    if f != [] {
      assert NoAmpersand(f[1..]) by {
        forall i | 0 <= i < |f[1..]|
          ensures '&' !in f[1..][i].key && (f[1..][i].val.Str? ==> '&' !in f[1..][i].val.s)
        {
          assert f[1..][i] == f[i + 1];
        }
      }
      PairsNoAmpersand(f[1..]);
      if Emits(f[0]) {
        var e := f[0];
        assert '&' !in Text(e.val);
        assert PairText(e) == e.key + ("=" + Text(e.val));
        assert '&' !in PairText(e);
      }
    }
  }

  /**
   * When no key or value contains '&', the segments of the query are
   * exactly the pairs, in order, and none of them is empty.
   */
  lemma QuerySegments(f: Filters)
    requires NoAmpersand(f)
    requires Pairs(f) != []
    ensures Split(Query(f)) == Pairs(f)
    ensures forall seg :: seg in Split(Query(f)) ==> seg != "" && '=' in seg
  {
    PairsNoAmpersand(f);
    SplitJoin(Pairs(f));
  }

  // ---------------------------------------------------------------------
  // Concrete queries.

  /** The pairs of a four-key object, one key at a time. */
  lemma PairsOfFour(a: Entry, b: Entry, c: Entry, d: Entry)
    ensures Pairs([a, b, c, d]) ==
      (if Emits(a) then [PairText(a)] else []) + (if Emits(b) then [PairText(b)] else [])
      + (if Emits(c) then [PairText(c)] else []) + (if Emits(d) then [PairText(d)] else [])
  {
    PairsCons(d, []);
    PairsCons(c, [d]);
    PairsCons(b, [c, d]);
    PairsCons(a, [b, c, d]);
  }

  lemma PagePair(n: nat)
    requires n < 10
    ensures PairText(Entry("page", Num(n))) == "page=" + [Decimal.DigitChar(n)]
  {
    var t := Decimal.IntToDecimal(n);
    assert t == [Decimal.DigitChar(n)];
    assert PairText(Entry("page", Num(n))) == "page" + "=" + t;
  }

  /** `[a, b, c].join('&')` */
  lemma JoinThree(a: string, b: string, c: string)
    ensures Join([a, b, c]) == a + "&" + b + "&" + c
  {
    assert [a, b, c][1..] == [b, c];
    assert [b, c][1..] == [c];
    assert Join([b, c]) == b + "&" + c;
    assert Join([a, b, c]) == a + "&" + (b + "&" + c);
  }

  /** `[a, b].join('&')` */
  lemma JoinTwo(a: string, b: string)
    ensures Join([a, b]) == a + "&" + b
  {
    assert [a, b][1..] == [b];
  }

  /**
   * With role and level at 'ALL', the query is the username pair (when the
   * username is not empty) followed by the page pair.
   */
  lemma DefaultRoleLevelQuery(u: string, n: nat)
    ensures Query([Entry("level", Str("ALL")), Entry("role", Str("ALL")), Entry("username", Str(u)), Entry("page", Num(n))])
         == (if u == "" then "" else "username=" + u + "&") + "page=" + Decimal.NatToDecimal(n)
  {
    var f := [Entry("level", Str("ALL")), Entry("role", Str("ALL")), Entry("username", Str(u)), Entry("page", Num(n))];
    PairsOfFour(f[0], f[1], f[2], f[3]);
    assert f == [f[0], f[1], f[2], f[3]];
    assert !Emits(f[0]) && !Emits(f[1]) && Emits(f[3]);
    assert Emits(f[2]) <==> u != "";
    var page := "page=" + Decimal.NatToDecimal(n);
    assert PairText(f[3]) == page;
    if u == "" {
      assert Pairs(f) == [page];
    } else {
      var user := "username=" + u;
      assert PairText(f[2]) == user;
      assert Pairs(f) == [user, page];
      JoinTwo(user, page);
    }
  }

  /** The initial state `{ level: 'ALL', role: 'ALL', username: '', page: 1 }` queries `page=1`. */
  lemma InitialQuery()
    ensures Query(InitialFilters) == "page=1"
    ensures ListingUrl(InitialFilters) == "users/?page=1"
  {
    var f := InitialFilters;
    PairsOfFour(f[0], f[1], f[2], f[3]);
    PagePair(1);
    assert f == [f[0], f[1], f[2], f[3]];
    assert !Emits(f[0]) && !Emits(f[1]) && !Emits(f[2]) && Emits(f[3]);
    assert Decimal.DigitChar(1) == '1';
    assert PairText(f[3]) == "page=1";
    assert Pairs(f) == ["page=1"];
  }

  /** `{ level: 'ALL', role: 'ADMIN', username: 'john', page: 2 }` */
  const ExampleFilters: Filters :=
    [Entry("level", Str("ALL")), Entry("role", Str("ADMIN")), Entry("username", Str("john")), Entry("page", Num(2))]

  lemma ExamplePairs()
    ensures Pairs(ExampleFilters) == ["role=ADMIN", "username=john", "page=2"]
  {
    var level, role := Entry("level", Str("ALL")), Entry("role", Str("ADMIN"));
    var user, page := Entry("username", Str("john")), Entry("page", Num(2));
    PairsOfFour(level, role, user, page);
    PagePair(2);
    assert !Emits(level) && Emits(role) && Emits(user) && Emits(page);
    assert PairText(role) == "role=ADMIN";
    assert PairText(user) == "username=john";
    assert Decimal.DigitChar(2) == '2';
    assert PairText(page) == "page=2";
  }

  /** Key order is the object's: level, role, username, page. */
  lemma ExampleQuery()
    ensures Query(ExampleFilters) == "role=ADMIN&username=john&page=2"
  {
    ExamplePairs();
    JoinThree("role=ADMIN", "username=john", "page=2");
  }
}
