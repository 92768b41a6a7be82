/**
  The room's member list: the order it is shown in (the current user first,
  then everyone else by name) and the marker on the current user's row.

  `localeCompare` is taken to be lexicographic order on code points, a total
  order; the sort is stable, as `Array.prototype.sort` is.
 */
module UserList {
  import opened Entities

  /** `a` sorts no later than `b`: lexicographic order on code points. */
  predicate NameLe(a: string, b: string)
    decreases |a|
  {
    a == [] || (b != [] && (a[0] < b[0] || (a[0] == b[0] && NameLe(a[1..], b[1..]))))
  }

  lemma {:induction false} NameLeTotal(a: string, b: string)
    ensures NameLe(a, b) || NameLe(b, a)
    decreases |a|
  {
    if a != [] && b != [] && a[0] == b[0] {
      NameLeTotal(a[1..], b[1..]);
    }
  }

  lemma {:induction false} NameLeTransitive(a: string, b: string, c: string)
    requires NameLe(a, b) && NameLe(b, c)
    ensures NameLe(a, c)
    decreases |a|
  {
    if a != [] && b != [] && c != [] && a[0] == b[0] && b[0] == c[0] {
      NameLeTransitive(a[1..], b[1..], c[1..]);
    }
  }

  /** The row belongs to the user currently looking at the page; with no
      current id, no row does. */
  predicate IsCurrent(u: User, currentUserId: Option<string>) {
    currentUserId == Some(u.id)
  }

  /** The users with the current id, in input order. */
  function Currents(users: seq<User>, cur: Option<string>): (r: seq<User>)
    ensures forall i :: 0 <= i < |r| ==> IsCurrent(r[i], cur)
  {
    if users == [] then []
    else if IsCurrent(users[0], cur) then [users[0]] + Currents(users[1..], cur)
    else Currents(users[1..], cur)
  }

  /** Everyone else, in input order. */
  function Others(users: seq<User>, cur: Option<string>): (r: seq<User>)
    ensures forall i :: 0 <= i < |r| ==> !IsCurrent(r[i], cur)
  {
    if users == [] then []
    else if IsCurrent(users[0], cur) then Others(users[1..], cur)
    else [users[0]] + Others(users[1..], cur)
  }

  lemma {:induction false} PartitionKeepsUsers(users: seq<User>, cur: Option<string>)
    ensures multiset(Currents(users, cur)) + multiset(Others(users, cur)) == multiset(users)
    decreases |users|
  {
    if users != [] {
      PartitionKeepsUsers(users[1..], cur);
      assert users == [users[0]] + users[1..];
    }
  }

  /** Sorted by name, pairwise. */
  predicate SortedByName(s: seq<User>) {
    forall i, j :: 0 <= i < j < |s| ==> NameLe(s[i].username, s[j].username)
  }

  /** Every user of `s` sorts no earlier than `u`. */
  predicate AllAfter(u: User, s: seq<User>) {
    forall i :: 0 <= i < |s| ==> NameLe(u.username, s[i].username)
  }

  /** Inserting `u` before the first user it sorts no later than. `u` goes
      before users of the same name, which keeps the sort stable: the list it is
      inserted into holds the users that came after `u` in the input. */
  function InsertByName(u: User, s: seq<User>): (r: seq<User>)
    ensures multiset(r) == multiset(s) + multiset{u}
    ensures |r| == |s| + 1
  {
    if s == [] || NameLe(u.username, s[0].username) then [u] + s
    else
      assert s == [s[0]] + s[1..];
      [s[0]] + InsertByName(u, s[1..])
  }

  lemma {:induction false} InsertKeepsBound(v: User, u: User, s: seq<User>)
    requires AllAfter(v, s) && NameLe(v.username, u.username)
    ensures AllAfter(v, InsertByName(u, s))
  {
    var r := InsertByName(u, s);
    forall i | 0 <= i < |r| ensures NameLe(v.username, r[i].username) {
      assert r[i] in multiset(s) + multiset{u};
      if r[i] != u {
        assert r[i] in s;
      }
    }
  }

  lemma {:induction false} InsertKeepsSorted(u: User, s: seq<User>)
    requires SortedByName(s)
    ensures SortedByName(InsertByName(u, s))
    decreases |s|
  {
    if s == [] || NameLe(u.username, s[0].username) {
      var r := [u] + s;
      forall i, j | 0 <= i < j < |r| ensures NameLe(r[i].username, r[j].username) {
        if i == 0 && j > 1 {
          NameLeTransitive(u.username, s[0].username, s[j - 1].username);
        }
      }
    } else {
      NameLeTotal(u.username, s[0].username);
      InsertKeepsSorted(u, s[1..]);
      assert AllAfter(s[0], s[1..]);
      InsertKeepsBound(s[0], u, s[1..]);
    }
  }

  /** Insertion sort by name, stable. */
  function SortByName(s: seq<User>): (r: seq<User>)
    ensures multiset(r) == multiset(s)
    ensures |r| == |s|
  {
    if s == [] then []
    else
      assert s == [s[0]] + s[1..];
      InsertByName(s[0], SortByName(s[1..]))
  }

  lemma {:induction false} SortByNameSorts(s: seq<User>)
    ensures SortedByName(SortByName(s))
    decreases |s|
  {
    if s != [] {
      SortByNameSorts(s[1..]);
      InsertKeepsSorted(s[0], SortByName(s[1..]));
    }
  }

  /** `sortedUsers`: a new list (the input is not changed) holding the same
      users, the current user's rows first in their input order, then the
      others by name. */
  function SortUsers(users: seq<User>, cur: Option<string>): (r: seq<User>)
    ensures multiset(r) == multiset(users)
    ensures |r| == |users|
  {
    PartitionKeepsUsers(users, cur);
    var r := Currents(users, cur) + SortByName(Others(users, cur));
    assert |multiset(r)| == |multiset(users)|;
    r
  }

  /** Every row of the current user precedes every other row, and the other
      rows are sorted by name. */
  lemma SortUsersOrder(users: seq<User>, cur: Option<string>)
    ensures forall i, j :: 0 <= i < j < |SortUsers(users, cur)| && IsCurrent(SortUsers(users, cur)[j], cur) ==>
      IsCurrent(SortUsers(users, cur)[i], cur)
    ensures forall i, j :: 0 <= i < j < |SortUsers(users, cur)| && !IsCurrent(SortUsers(users, cur)[i], cur) ==>
      NameLe(SortUsers(users, cur)[i].username, SortUsers(users, cur)[j].username)
  {
    var c := Currents(users, cur);
    var o := SortByName(Others(users, cur));
    var r := c + o;
    SortByNameSorts(Others(users, cur));
    forall k | 0 <= k < |o| ensures !IsCurrent(o[k], cur) {
      assert o[k] in multiset(Others(users, cur));
    }
  }

  /** One row of the list: the user and whether it carries the "(You)" marker
      and the distinct icon. */
  datatype Row = Row(user: User, isYou: bool)

  /** The rendered rows, in display order. */
  function Rows(users: seq<User>, cur: Option<string>): (rows: seq<Row>)
    ensures |rows| == |users|
    ensures forall i :: 0 <= i < |rows| ==> rows[i].user == SortUsers(users, cur)[i]
    ensures forall i :: 0 <= i < |rows| ==> (rows[i].isYou <==> IsCurrent(rows[i].user, cur))
  {
    var sorted := SortUsers(users, cur);
    seq(|sorted|, i requires 0 <= i < |sorted| => Row(sorted[i], IsCurrent(sorted[i], cur)))
  }

  /** The heading's count is the number of users given, and each user's row
      carries the marker exactly when the user's id is the current id. */
  lemma CountAndMarkers(users: seq<User>, cur: Option<string>)
    ensures |Rows(users, cur)| == |users|
    ensures forall u :: u in users ==> (IsCurrent(u, cur) <==> Row(u, true) in Rows(users, cur))
  {
    var rows := Rows(users, cur);
    forall u | u in users ensures IsCurrent(u, cur) <==> Row(u, true) in rows {
      assert u in multiset(SortUsers(users, cur));
      var i :| 0 <= i < |rows| && rows[i].user == u;
      if Row(u, true) in rows {
        var j :| 0 <= j < |rows| && rows[j] == Row(u, true);
      }
    }
  }
}
