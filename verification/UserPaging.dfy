/** Keyset pagination over the users: the in-memory repository against the SQL query. */
module UserPaging {

  type ID = string
  type Login = string

  datatype User = User(id: ID, login: Login)

  const UINT_RANGE := 0x1_0000_0000_0000_0000

  /** Go's order on strings. */
  predicate Less(a: Login, b: Login) {
    b != "" && (a == "" || a[0] < b[0] || (a[0] == b[0] && Less(a[1..], b[1..])))
  }

  lemma {:induction false} LessIsTotal(a: Login, b: Login)
    ensures a == b || Less(a, b) || Less(b, a)
    ensures !(Less(a, b) && Less(b, a)) && (a == b ==> !Less(a, b))
  {
    if a != "" && b != "" {
      LessIsTotal(a[1..], b[1..]);
      if a[0] == b[0] && a[1..] == b[1..] {
        assert a == [a[0]] + a[1..] && b == [b[0]] + b[1..];
      }
    }
  }

  lemma {:induction false} LessIsTransitive(a: Login, b: Login, c: Login)
    requires Less(a, b) && Less(b, c)
    ensures Less(a, c)
  {
    if a != "" && a[0] == b[0] && b[0] == c[0] { LessIsTransitive(a[1..], b[1..], c[1..]); }
  }

  /** At the first place where they differ, the smaller text ends or has the smaller character. */
  lemma {:induction false} LessIff(a: Login, b: Login)
    ensures Less(a, b) <==>
              exists k :: 0 <= k <= |a| && k < |b| && a[..k] == b[..k] && (k == |a| || a[k] < b[k])
  {
    if b == "" || a == "" || a[0] != b[0] {
      if Less(a, b) { assert a[..0] == b[..0]; }
      if k :| 0 <= k <= |a| && k < |b| && a[..k] == b[..k] && (k == |a| || a[k] < b[k]) {
        if k > 0 { assert a[..k][0] == b[..k][0]; }
      }
    } else {
      LessIff(a[1..], b[1..]);
      if Less(a[1..], b[1..]) {
        var k :| 0 <= k <= |a[1..]| && k < |b[1..]| && a[1..][..k] == b[1..][..k] && (k == |a[1..]| || a[1..][k] < b[1..][k]);
        assert a[..k + 1] == [a[0]] + a[1..][..k] && b[..k + 1] == [b[0]] + b[1..][..k];
      }
      if k :| 0 <= k <= |a| && k < |b| && a[..k] == b[..k] && (k == |a| || a[k] < b[k]) {
        if k > 0 {
          assert a[1..][..k - 1] == a[..k][1..] && b[1..][..k - 1] == b[..k][1..];
          assert k - 1 == |a[1..]| || a[1..][k - 1] < b[1..][k - 1];
        }
      }
    }
  }

  // ----- the sorted list of the users -----

  ghost predicate Sorted(l: seq<User>) {
    forall i, j :: 0 <= i < j < |l| ==> Less(l[i].login, l[j].login)
  }

  ghost predicate UniqueLogins(data: map<ID, User>) {
    && (forall a, b :: a in data && b in data && data[a].login == data[b].login ==> a == b)
    && (forall a :: a in data ==> data[a].login != "")
  }

  /** `l` is the login-sorted list of the users in `data`. */
  ghost predicate IsListing(l: seq<User>, data: map<ID, User>) {
    Sorted(l) && forall u :: u in l <==> u in data.Values
  }

  lemma NotEmpty(l: seq<User>, m: seq<User>)
    requires l != [] && forall u :: u in l ==> u in m
    ensures m != []
  {
    assert l[0] in l;
  }

  lemma {:induction false} SortedIsUnique(l: seq<User>, m: seq<User>)
    requires Sorted(l) && Sorted(m) && forall u :: u in l <==> u in m
    ensures l == m
  {
    if l != [] { NotEmpty(l, m); }
    if m != [] { NotEmpty(m, l); }
    if l == [] {
    } else {
      assert l[0] in m;
      var i :| 0 <= i < |m| && m[i] == l[0];
      assert m[0] in l;
      var j :| 0 <= j < |l| && l[j] == m[0];
      LessIsTotal(l[0].login, m[0].login);
      assert l[0] == m[0];
      forall u ensures u in l[1..] <==> u in m[1..] {
        LessIsTotal(l[0].login, l[0].login);
        if u in l[1..] { assert u in m && u != l[0]; }
        if u in m[1..] { assert u in l && u != m[0]; }
      }
      SortedIsUnique(l[1..], m[1..]);
      assert l == [l[0]] + l[1..] && m == [m[0]] + m[1..];
    }
  }

  // ----- pages -----

  function Take(l: seq<User>, n: nat): seq<User> { if n < |l| then l[..n] else l }

  /** WHERE offset < login, on the sorted list; everything for the empty offset, as no login is empty. */
  function After(l: seq<User>, offset: Login): seq<User> {
    if l == [] then [] else if Less(offset, l[0].login) then l else After(l[1..], offset)
  }

  predicate HasLogin(l: seq<User>, login: Login) { exists i :: 0 <= i < |l| && l[i].login == login }

  /** limit-- on a 64-bit uint */
  function Decremented(n: nat): nat { if n == 0 then UINT_RANGE - 1 else n - 1 }

  /** CASE WHEN offset <> '' THEN offset < login ELSE TRUE END ORDER BY login LIMIT n */
  function SqlPage(l: seq<User>, offset: Login, n: nat): seq<User> { Take(After(l, offset), n) }

  /** The page of the in-memory repository; limit 0 means no limit. */
  function MemoryPage(l: seq<User>, offset: Login, limit: nat): seq<User> {
    if offset != "" && !HasLogin(l, offset) then []
    else if limit == 0 then After(l, offset)
    else Take(After(l, offset), limit)
  }

  lemma {:induction false} AfterIsTail(l: seq<User>, offset: Login)
    ensures |After(l, offset)| <= |l| && After(l, offset) == l[|l| - |After(l, offset)|..]
  {
    if l != [] && !Less(offset, l[0].login) {
      AfterIsTail(l[1..], offset);
      var k := |After(l[1..], offset)|;
      assert l[1..][|l| - 1 - k..] == l[|l| - k..];
    }
  }

  lemma {:induction false} AfterSelects(l: seq<User>, offset: Login)
    requires Sorted(l)
    ensures forall u :: u in After(l, offset) <==> u in l && Less(offset, u.login)
  {
    if l == [] {
    } else {
      if Less(offset, l[0].login) {
        forall u | u in l ensures Less(offset, u.login) {
          var i :| 0 <= i < |l| && l[i] == u;
          if i > 0 { LessIsTransitive(offset, l[0].login, u.login); }
        }
      } else {
        AfterSelects(l[1..], offset);
      }
    }
  }

  lemma {:induction false} AfterLogin(l: seq<User>, i: nat)
    requires Sorted(l) && i < |l|
    ensures After(l, l[i].login) == l[i + 1..]
  {
    LessIsTotal(l[0].login, l[i].login);
    if i == 0 {
      if |l| > 1 { assert Less(l[0].login, l[1].login); }
      assert After(l, l[0].login) == After(l[1..], l[0].login);
    } else {
      AfterLogin(l[1..], i - 1);
      assert l[1..][i - 1] == l[i] && l[1..][i..] == l[i + 1..];
    }
  }

  ghost predicate NonEmptyLogins(l: seq<User>) { forall i :: 0 <= i < |l| ==> l[i].login != "" }

  /** With a positive limit both pages are the same exactly if the offset is empty, is a login, or is behind all of them. */
  lemma PagesAgreeIff(l: seq<User>, offset: Login, n: nat)
    requires Sorted(l) && NonEmptyLogins(l) && n >= 1
    ensures MemoryPage(l, offset, n) == SqlPage(l, offset, n)
       <==> offset == "" || HasLogin(l, offset) || !exists i :: 0 <= i < |l| && Less(offset, l[i].login)
  {
    AfterSelects(l, offset);
    if offset != "" && !HasLogin(l, offset) {
      if After(l, offset) != [] {
        var u := After(l, offset)[0];
        assert u in After(l, offset);
        assert u in l && Less(offset, u.login);
      } else {
        forall i | 0 <= i < |l| ensures !Less(offset, l[i].login) { assert l[i] in l; }
      }
    }
  }

  /** Both pages are as long as the limit allows and what lies behind the offset is enough for. */
  lemma PageIsFull(l: seq<User>, offset: Login, n: nat)
    ensures var rest := |After(l, offset)|;
            && |SqlPage(l, offset, n)| == (if rest <= n then rest else n)
            && (offset == "" || HasLogin(l, offset) ==>
                  |MemoryPage(l, offset, n)| == if n == 0 || rest <= n then rest else n)
  {
  }

  // ----- walking through all pages -----

  lemma Tail(l: seq<User>, start: nat, m: nat)
    requires start + m <= |l|
    ensures l[start..][m..] == l[start + m..] && l[start..] == l[start..][..m] + l[start + m..]
  {
  }

  lemma PageIsPrefix(l: seq<User>, offset: Login, n: nat)
    requires n >= 1 && MemoryPage(l, offset, n) != []
    ensures |MemoryPage(l, offset, n)| <= |After(l, offset)|
    ensures MemoryPage(l, offset, n) == After(l, offset)[..|MemoryPage(l, offset, n)|]
  {
  }

  lemma NextOffset(l: seq<User>, offset: Login, n: nat)
    requires Sorted(l) && NonEmptyLogins(l) && n >= 1 && MemoryPage(l, offset, n) != []
    ensures var page := MemoryPage(l, offset, n);
            var last := page[|page| - 1].login;
            HasLogin(l, last) && last != "" && After(l, offset) == page + After(l, last)
  {
    var page, after := MemoryPage(l, offset, n), After(l, offset);
    var start, m := |l| - |after|, |page|;
    AfterIsTail(l, offset);
    PageIsPrefix(l, offset, n);
    Tail(l, start, m);
    var last := start + m - 1;
    assert l[last] == after[m - 1] == page[m - 1];
    AfterLogin(l, last);
  }

  /** Asks for page after page, each time from the last login of the page before, until a page is empty. */
  function Walk(l: seq<User>, offset: Login, n: nat): seq<User>
    requires Sorted(l) && NonEmptyLogins(l) && n >= 1
    decreases |After(l, offset)|
  {
    var page := MemoryPage(l, offset, n);
    if page == [] then []
    else
      NextOffset(l, offset, n);
      page + Walk(l, page[|page| - 1].login, n)
  }

  lemma {:induction false} WalkFrom(l: seq<User>, offset: Login, n: nat)
    requires Sorted(l) && NonEmptyLogins(l) && n >= 1 && (offset == "" || HasLogin(l, offset))
    ensures Walk(l, offset, n) == After(l, offset)
    decreases |After(l, offset)|
  {
    var page := MemoryPage(l, offset, n);
    if page == [] {
    } else {
      NextOffset(l, offset, n);
      WalkFrom(l, page[|page| - 1].login, n);
    }
  }

  /** Page walking is complete: it ends, and has then listed every user exactly once, in the order of the logins. */
  lemma WalkListsEveryUserOnce(l: seq<User>, n: nat)
    requires Sorted(l) && NonEmptyLogins(l) && n >= 1
    ensures Walk(l, "", n) == l
  {
    WalkFrom(l, "", n);
    if l != [] { assert Less("", l[0].login); }
  }

  // ----- any users: repeated and empty logins too -----

  /** sort.Slice leaves users of one login in any order. */
  ghost predicate WeaklySorted(l: seq<User>) {
    forall i, j :: 0 <= i < j < |l| ==> !Less(l[j].login, l[i].login)
  }

  /** What is left of the list behind the first user with the login, without all others of that login. */
  function Behind(l: seq<User>, offset: Login): seq<User> {
    if l == [] then [] else if l[0].login == offset then Without(l[1..], offset) else Behind(l[1..], offset)
  }

  function Without(l: seq<User>, login: Login): seq<User> {
    if l == [] then [] else (if l[0].login == login then [] else [l[0]]) + Without(l[1..], login)
  }

  /** The page of any sorted list; a user with an empty login is never listed. */
  function ListPage(l: seq<User>, offset: Login, limit: nat): seq<User> {
    var rest := Rest(l, offset, false);
    if limit == 0 then rest else Take(rest, limit)
  }

  lemma {:induction false} WithoutNone(l: seq<User>, login: Login)
    requires forall i :: 0 <= i < |l| ==> l[i].login != login
    ensures Without(l, login) == l
  {
    if l == [] {
    } else {
      WithoutNone(l[1..], login);
      assert l == [l[0]] + l[1..];
    }
  }

  lemma {:induction false} BehindIsAfter(l: seq<User>, offset: Login)
    requires Sorted(l) && NonEmptyLogins(l) && offset != ""
    ensures Behind(l, offset) == if HasLogin(l, offset) then After(l, offset) else []
  {
    if l == [] {
    } else {
      LessIsTotal(offset, l[0].login);
      if l[0].login == offset {
        forall i | 0 <= i < |l[1..]| ensures l[1..][i].login != offset { LessIsTotal(offset, l[i + 1].login); }
        WithoutNone(l[1..], offset);
        AfterLogin(l, 0);
      } else {
        BehindIsAfter(l[1..], offset);
        assert HasLogin(l, offset) <==> HasLogin(l[1..], offset) by { LoginOfTail(l, offset); }
        if HasLogin(l, offset) {
          var i :| 0 <= i < |l| && l[i].login == offset;
          assert Less(l[0].login, l[i].login);
        }
      }
    }
  }

  lemma LoginOfTail(l: seq<User>, login: Login)
    requires l != [] && l[0].login != login
    ensures HasLogin(l, login) <==> HasLogin(l[1..], login)
  {
    if i :| 0 <= i < |l| && l[i].login == login { assert l[1..][i - 1].login == login; }
    if i :| 0 <= i < |l[1..]| && l[1..][i].login == login { assert l[i + 1].login == login; }
  }

  /** With unique, non-empty logins the page of the list is what the sections above are about. */
  lemma ListPageIsMemoryPage(l: seq<User>, offset: Login, limit: nat)
    requires Sorted(l) && NonEmptyLogins(l)
    ensures ListPage(l, offset, limit) == MemoryPage(l, offset, limit)
  {
    if offset == "" {
      WithoutNone(l, "");
      if l != [] { assert Less("", l[0].login); }
    } else {
      BehindIsAfter(l, offset);
    }
  }

  // ----- sorting -----

  lemma NotLessIsTransitive(a: Login, b: Login, c: Login)
    requires !Less(b, a) && !Less(c, b)
    ensures !Less(c, a)
  {
    LessIsTotal(a, b);
    LessIsTotal(b, c);
    LessIsTotal(a, c);
    if a != b && b != c { LessIsTransitive(a, b, c); }
  }

  lemma InsertedFits(l: seq<User>, i: nat, user: User)
    requires WeaklySorted(l) && i <= |l|
    requires i > 0 ==> !Less(user.login, l[i - 1].login)
    requires forall k :: i <= k < |l| ==> Less(user.login, l[k].login)
    ensures forall k :: 0 <= k < i ==> !Less(user.login, l[k].login)
    ensures forall k :: i <= k < |l| ==> !Less(l[k].login, user.login)
  {
    forall k | 0 <= k < i ensures !Less(user.login, l[k].login) {
      if k < i - 1 { NotLessIsTransitive(l[k].login, l[i - 1].login, user.login); }
    }
    forall k | i <= k < |l| ensures !Less(l[k].login, user.login) { LessIsTotal(user.login, l[k].login); }
  }

  lemma InsertKeepsSorted(l: seq<User>, i: nat, user: User)
    requires WeaklySorted(l) && i <= |l|
    requires i > 0 ==> !Less(user.login, l[i - 1].login)
    requires forall k :: i <= k < |l| ==> Less(user.login, l[k].login)
    ensures WeaklySorted(l[..i] + [user] + l[i..])
  {
    InsertedFits(l, i, user);
    var m := l[..i] + [user] + l[i..];
    forall j, k | 0 <= j < k < |m| ensures !Less(m[k].login, m[j].login) {
      if j != i && k != i {
        var j', k' := if j < i then j else j - 1, if k < i then k else k - 1;
        assert m[j] == l[j'] && m[k] == l[k'];
      }
    }
  }

  lemma InsertKeepsUsers(l: seq<User>, i: nat, user: User)
    requires i <= |l|
    ensures multiset(l[..i] + [user] + l[i..]) == multiset(l) + multiset{user}
  {
    assert l == l[..i] + l[i..];
  }

  /** The IDs are all keys of the map, each once. */
  ghost predicate Enumerates(ids: seq<ID>, data: map<ID, User>) {
    && (forall i, j :: 0 <= i < j < |ids| ==> ids[i] != ids[j])
    && (forall id :: id in ids <==> id in data)
  }

  /** The list holds the users of the map, each as often, in the order of the logins. */
  ghost predicate SortsUsers(l: seq<User>, data: map<ID, User>) {
    WeaklySorted(l) && exists ids :: Enumerates(ids, data) && multiset(l) == multiset(Values(ids, data))
  }

  ghost function Values(ids: seq<ID>, data: map<ID, User>): seq<User>
    requires forall id :: id in ids ==> id in data
  {
    seq(|ids|, k requires 0 <= k < |ids| => data[ids[k]])
  }

  lemma {:induction false} EnumerationCounts(ids: seq<ID>, data: map<ID, User>)
    requires Enumerates(ids, data)
    ensures |ids| == |data|
    decreases |ids|
  {
    if ids == [] {
      assert data.Keys == set id | id in ids;
      assert (set id | id in ids) == {};
    } else {
      var n := |ids| - 1;
      var rest := data - {ids[n]};
      forall id ensures id in ids[..n] <==> id in rest {
        if id in rest { assert id in ids; }
      }
      EnumerationCounts(ids[..n], rest);
      assert data.Keys == rest.Keys + {ids[n]};
    }
  }

  lemma {:induction false} NoRepeats(s: seq<User>, u: User)
    requires forall i, j :: 0 <= i < j < |s| ==> s[i] != s[j]
    ensures multiset(s)[u] <= 1
  {
    if s == [] {
    } else {
      var n := |s| - 1;
      NoRepeats(s[..n], u);
      assert s == s[..n] + [s[n]];
      if s[n] == u { assert u !in s[..n]; }
    }
  }

  lemma TwicePresent(s: seq<User>, i: nat, j: nat)
    requires i < j < |s| && s[i] == s[j]
    ensures multiset(s)[s[i]] >= 2
  {
    assert s == s[..j] + [s[j]] + s[j + 1..];
    assert s[..j][i] == s[i];
  }

  /** With unique logins the sorted users are the listing that pages are taken from. */
  lemma SortedUsersAreListing(l: seq<User>, ids: seq<ID>, data: map<ID, User>)
    requires UniqueLogins(data) && Enumerates(ids, data) && WeaklySorted(l)
    requires multiset(l) == multiset(Values(ids, data))
    ensures IsListing(l, data) && NonEmptyLogins(l)
  {
    var values := Values(ids, data);
    forall u ensures u in l <==> u in data.Values {
      assert u in l <==> u in multiset(l);
      if u in values { var k :| 0 <= k < |values| && values[k] == u; assert ids[k] in data; }
      if u in data.Values { var id :| id in data && data[id] == u; assert id in ids; IndexOfID(ids, data, id); }
    }
    forall i | 0 <= i < |l| ensures l[i].login != "" { assert l[i] in l; }
    forall i, j | 0 <= i < j < |l| ensures Less(l[i].login, l[j].login) {
      LessIsTotal(l[i].login, l[j].login);
      if l[i].login == l[j].login {
        assert l[i] in l && l[j] in l;
        TwicePresent(l, i, j);
        DifferentValues(ids, data);
        NoRepeats(values, l[i]);
      }
    }
  }

  lemma IndexOfID(ids: seq<ID>, data: map<ID, User>, id: ID)
    requires Enumerates(ids, data) && id in data
    ensures data[id] in Values(ids, data)
  {
    assert id in ids;
    var k :| 0 <= k < |ids| && ids[k] == id;
    assert Values(ids, data)[k] == data[id];
  }

  lemma DifferentValues(ids: seq<ID>, data: map<ID, User>)
    requires UniqueLogins(data) && Enumerates(ids, data)
    ensures forall i, j :: 0 <= i < j < |ids| ==> Values(ids, data)[i] != Values(ids, data)[j]
  {
    forall i, j | 0 <= i < j < |ids| ensures Values(ids, data)[i] != Values(ids, data)[j] {
      assert ids[i] in data && ids[j] in data;
    }
  }

  // ----- the repository itself -----

  class UserRepository {
    var data: map<ID, User>

    constructor ()
      ensures data == map[]
    {
      data := map[];
    }

    /** The users of the map, in any order. */
    method Users() returns (all: seq<User>, ghost ids: seq<ID>)
      ensures Enumerates(ids, data) && all == Values(ids, data)
    {
      all, ids := [], [];
      var left := data.Keys;
      while left != {}
        invariant left <= data.Keys && |all| == |ids|
        invariant forall k :: 0 <= k < |ids| ==> ids[k] in data && all[k] == data[ids[k]]
        invariant forall id :: id in ids <==> id in data.Keys - left
        invariant forall i, j :: 0 <= i < j < |ids| ==> ids[i] != ids[j]
      {
        var id :| id in left;
        forall k | 0 <= k < |ids| ensures ids[k] != id { assert ids[k] in ids; }
        all, ids := all + [data[id]], ids + [id];
        left := left - {id};
      }
    }

    /** sort.Slice by login */
    method SortByLogin(all: seq<User>) returns (sorted: seq<User>)
      ensures WeaklySorted(sorted) && multiset(sorted) == multiset(all)
    {
      sorted := [];
      for n := 0 to |all|
        invariant WeaklySorted(sorted) && multiset(sorted) == multiset(all[..n])
      {
        var i := |sorted|;
        while i > 0 && Less(all[n].login, sorted[i - 1].login)
          invariant 0 <= i <= |sorted|
          invariant forall k :: i <= k < |sorted| ==> Less(all[n].login, sorted[k].login)
        {
          i := i - 1;
        }
        InsertKeepsSorted(sorted, i, all[n]);
        InsertKeepsUsers(sorted, i, all[n]);
        sorted := sorted[..i] + [all[n]] + sorted[i..];
        assert all[..n + 1] == all[..n] + [all[n]];
      }
      assert all[..|all|] == all;
    }

    /** The page of some sorted list of the users; with unique, non-empty logins there is only one. */
    method All(offset: Login, limit: nat) returns (users: seq<User>)
      requires |data| < UINT_RANGE && limit < UINT_RANGE
      ensures exists l :: SortsUsers(l, data) && users == ListPage(l, offset, limit)
      ensures UniqueLogins(data) ==> forall l :: IsListing(l, data) ==> users == MemoryPage(l, offset, limit)
    {
      var unsorted, ids := Users();
      var all := SortByLogin(unsorted);
      EnumerationCounts(ids, data);
      assert |multiset(all)| == |all| && |multiset(unsorted)| == |unsorted|;
      users := PageOf(all, offset, limit);
      assert SortsUsers(all, data);
      if UniqueLogins(data) {
        SortedUsersAreListing(all, ids, data);
        ListPageIsMemoryPage(all, offset, limit);
        forall l | IsListing(l, data) ensures l == all { SortedIsUnique(l, all); }
      }
    }

    method PageOf(all: seq<User>, offset: Login, limit: nat) returns (users: seq<User>)
      requires |all| < UINT_RANGE && limit < UINT_RANGE
      ensures users == ListPage(all, offset, limit)
    {
      users := [];
      var remaining := limit;
      var found := false;
      ghost var whole := RestFrom(all, 0, offset, false);
      RestFromIsRest(all, 0, offset, false);
      assert all[0..] == all;
      for i := 0 to |all|
        invariant whole == users + RestFrom(all, i, offset, found)
        invariant |users| <= i && (limit > 0 ==> remaining == limit - |users| > 0)
        invariant limit == 0 ==> remaining == if users == [] then 0 else UINT_RANGE - |users|
      {
        if !found && offset != "" && all[i].login != offset { continue; }
        found := true;
        if offset == all[i].login { continue; }
        users := users + [all[i]];
        remaining := Decremented(remaining);
        if remaining == 0 {
          assert users == whole[..limit];
          return;
        }
      }
      assert whole == users + [] == users;
    }
  }

  /** What is still to come for the page, once the offset is found or before. */
  function Rest(l: seq<User>, offset: Login, found: bool): seq<User> {
    if found || offset == "" then Without(l, offset) else Behind(l, offset)
  }

  /** The same from a position on. */
  function RestFrom(l: seq<User>, i: nat, offset: Login, found: bool): seq<User>
    requires i <= |l|
    decreases |l| - i
  {
    if i == |l| then []
    else if !found && offset != "" && l[i].login != offset then RestFrom(l, i + 1, offset, false)
    else if l[i].login == offset then RestFrom(l, i + 1, offset, true)
    else [l[i]] + RestFrom(l, i + 1, offset, true)
  }

  lemma {:induction false} RestFromIsRest(l: seq<User>, i: nat, offset: Login, found: bool)
    requires i <= |l|
    ensures RestFrom(l, i, offset, found) == Rest(l[i..], offset, found)
    decreases |l| - i
  {
    if i < |l| {
      assert l[i..][1..] == l[i + 1..] && l[i..][0] == l[i];
      RestFromIsRest(l, i + 1, offset, true);
      RestFromIsRest(l, i + 1, offset, false);
    }
  }
}
