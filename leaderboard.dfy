/**
 * The admin leaderboard: `sorted(users.items(), key=balance, reverse=True)[:10]`.
 * Python's sort is stable also with `reverse=True`, so users with equal
 * balances keep the dict's insertion order.
 */
module Leaderboard {
  import opened Ledger

  /** One leaderboard line: a user id and its balance. */
  type Row = (UserId, int)

  /** How many lines the leaderboard shows. */
  const TopCount: nat := 10

  /** `users.items()` in insertion order, reduced to (id, balance). */
  function RowsOf(order: seq<UserId>, users: map<UserId, User>): (r: seq<Row>)
    requires forall u :: u in order ==> u in users
    ensures |r| == |order|
    ensures forall i :: 0 <= i < |r| ==> r[i] == (order[i], users[order[i]].balance)
  {
    if order == [] then [] else [(order[0], users[order[0]].balance)] + RowsOf(order[1..], users)
  }

  /** Non-increasing by balance. */
  predicate Descending(r: seq<Row>) {
    forall i, j :: 0 <= i < j < |r| ==> r[i].1 >= r[j].1
  }

  /** The rows of `r` whose balance is `b`, in their order in `r`. */
  function Tied(r: seq<Row>, b: int): seq<Row> {
    if r == [] then [] else (if r[0].1 == b then [r[0]] else []) + Tied(r[1..], b)
  }

  /** Inserts `x` before the first row whose balance is not greater than its own. */
  function Insert(x: Row, t: seq<Row>): (r: seq<Row>)
    requires Descending(t)
    ensures Descending(r)
    ensures multiset(r) == multiset(t) + multiset{x}
  {
    if t == [] || x.1 >= t[0].1 then [x] + t
    else
      var rest := Insert(x, t[1..]);
      HeadDominates(t, x, rest);
      [t[0]] + rest
  }

  /** Behind a head that outranks `x`, the tail with `x` inserted keeps the list descending and a permutation. */
  lemma HeadDominates(t: seq<Row>, x: Row, rest: seq<Row>)
    requires t != [] && Descending(t) && x.1 < t[0].1
    requires Descending(rest) && multiset(rest) == multiset(t[1..]) + multiset{x}
    ensures Descending([t[0]] + rest)
    ensures multiset([t[0]] + rest) == multiset(t) + multiset{x}
  {
    forall e | e in rest ensures t[0].1 >= e.1 {
      assert e in multiset(rest);
      if e != x {
        assert e in multiset(t[1..]);
        var k :| 0 <= k < |t[1..]| && t[1..][k] == e;
        assert t[k + 1] == e;
      }
    }
    var r := [t[0]] + rest;
    forall i, j | 0 <= i < j < |r| ensures r[i].1 >= r[j].1 {
      assert r[j] == rest[j - 1];
      if i > 0 {
        assert r[i] == rest[i - 1];
      } else {
        assert r[j] in rest;
      }
    }
    assert t == [t[0]] + t[1..];
  }

  /** A stable sort by balance, highest first. */
  function SortDesc(s: seq<Row>): (r: seq<Row>)
    ensures Descending(r)
    ensures multiset(r) == multiset(s)
  {
    if s == [] then []
    else
      assert s == [s[0]] + s[1..];
      Insert(s[0], SortDesc(s[1..]))
  }

  /** The leaderboard the admin is shown. */
  function Top(s: Store): (r: seq<Row>)
    requires Wf(s)
    ensures |r| <= TopCount && Descending(r)
  {
    var sorted := SortDesc(RowsOf(s.order, s.users));
    if |sorted| <= TopCount then sorted else sorted[..TopCount]
  }

  lemma {:induction false} TiedAppend(a: seq<Row>, c: seq<Row>, b: int)
    ensures Tied(a + c, b) == Tied(a, b) + Tied(c, b)
  {
    if a == [] {
      assert a + c == c;
    } else {
      var ac := a + c;
      assert ac[0] == a[0] && ac[1..] == a[1..] + c;
      TiedAppend(a[1..], c, b);
      assert Tied(ac, b) == (if a[0].1 == b then [a[0]] else []) + Tied(a[1..] + c, b);
      assert Tied(a, b) == (if a[0].1 == b then [a[0]] else []) + Tied(a[1..], b);
    }
  }

  lemma TiedSingle(e: Row, b: int)
    ensures Tied([e], b) == if e.1 == b then [e] else []
  {
    assert [e][1..] == [];
  }

  /** The step of the stability proof: a row overtaken by `y` lands behind it. */
  lemma StableStep(x: Row, y: Row, ins: seq<Row>, rest: seq<Row>, b: int)
    requires x.1 != y.1
    requires Tied(ins, b) == Tied([x] + rest, b)
    ensures Tied([y] + ins, b) == Tied([x] + ([y] + rest), b)
  {
    var tx, ty, tr := Tied([x], b), Tied([y], b), Tied(rest, b);
    TiedAppend([y], ins, b);
    TiedAppend([x], rest, b);
    TiedAppend([x], [y] + rest, b);
    TiedAppend([y], rest, b);
    assert Tied([y] + ins, b) == ty + (tx + tr);
    assert Tied([x] + ([y] + rest), b) == tx + (ty + tr);
    TiedSingle(x, b);
    TiedSingle(y, b);
    if tx == [] {
      assert tx + tr == tr;
      assert ty + (tx + tr) == tx + (ty + tr);
    } else {
      assert ty == [];
      assert ty + tr == tr;
      assert ty + (tx + tr) == tx + (ty + tr);
    }
  }

  /** Inserting keeps the relative order of every group of equal balances. */
  lemma {:induction false} InsertStable(x: Row, t: seq<Row>, b: int)
    requires Descending(t)
    ensures Tied(Insert(x, t), b) == Tied([x] + t, b)
  {
    if t != [] && x.1 < t[0].1 {
      var y, rest := t[0], t[1..];
      assert t == [y] + rest;
      InsertStable(x, rest, b);
      StableStep(x, y, Insert(x, rest), rest, b);
    }
  }

  /** The sort is stable: the rows of each balance keep their original order. */
  lemma {:induction false} SortStable(s: seq<Row>, b: int)
    ensures Tied(SortDesc(s), b) == Tied(s, b)
  {
    if s != [] {
      SortStable(s[1..], b);
      SortStep(s[0], s[1..], SortDesc(s[1..]), b);
      assert s == [s[0]] + s[1..];
    }
  }

  /** The step of the stability proof: inserting the head into the sorted tail. */
  lemma SortStep(x: Row, rest: seq<Row>, sortedRest: seq<Row>, b: int)
    requires Descending(sortedRest) && Tied(sortedRest, b) == Tied(rest, b)
    ensures Tied(Insert(x, sortedRest), b) == Tied([x] + rest, b)
  {
    InsertStable(x, sortedRest, b);
    TiedAppend([x], sortedRest, b);
    TiedAppend([x], rest, b);
  }

  lemma {:induction false} DistinctCount(order: seq<UserId>, keys: set<UserId>)
    requires NoDup(order)
    requires forall u :: u in order ==> u in keys
    requires forall u :: u in keys ==> u in order
    ensures |keys| == |order|
    decreases |order|
  {
    if order != [] {
      var last := order[|order| - 1];
      var init := order[..|order| - 1];
      assert forall u :: u in init ==> u in order;
      forall u | u in keys - {last} ensures u in init {
        var k :| 0 <= k < |order| && order[k] == u;
        assert k != |order| - 1;
      }
      DistinctCount(init, keys - {last});
    }
  }

  lemma {:induction false} NoDupAtMostOnce(s: seq<Row>, x: Row)
    requires NoDup(s)
    ensures multiset(s)[x] <= 1
  {
    if s != [] {
      assert s == [s[0]] + s[1..];
      NoDupAtMostOnce(s[1..], x);
      if s[0] == x {
        assert x !in s[1..];
      }
    }
  }

  lemma TwiceCounted(s: seq<Row>, i: nat, j: nat)
    requires i < j < |s| && s[i] == s[j]
    ensures multiset(s)[s[i]] >= 2
  {
    assert s == s[..j] + s[j..];
    assert s[i] in s[..j];
    assert s[j] in s[j..];
  }

  /** Every row of the sorted list is the row of some user, with that user's balance. */
  lemma SortedRowsFromUsers(s: Store, x: Row)
    requires Wf(s)
    requires x in SortDesc(RowsOf(s.order, s.users))
    ensures x.0 in s.users && x.1 == s.users[x.0].balance
  {
    var rows := RowsOf(s.order, s.users);
    assert x in multiset(rows);
    var k :| 0 <= k < |rows| && rows[k] == x;
  }

  /**
   * The leaderboard shows min(10, number of users) lines, highest balance
   * first, each a distinct user with that user's balance.
   */
  lemma TopShape(s: Store)
    requires Wf(s)
    ensures var r := Top(s);
      && |r| == (if |s.users| < TopCount then |s.users| else TopCount)
      && Descending(r)
      && (forall i :: 0 <= i < |r| ==> r[i].0 in s.users && r[i].1 == s.users[r[i].0].balance)
      && (forall i, j :: 0 <= i < j < |r| ==> r[i].0 != r[j].0)
  {
    var rows := RowsOf(s.order, s.users);
    var sorted := SortDesc(rows);
    var r := Top(s);
    DistinctCount(s.order, s.users.Keys);
    assert |sorted| == |rows| by {
      assert |multiset(sorted)| == |multiset(rows)|;
    }
    forall i | 0 <= i < |r| ensures r[i].0 in s.users && r[i].1 == s.users[r[i].0].balance {
      assert r[i] == sorted[i];
      SortedRowsFromUsers(s, sorted[i]);
    }
    forall i, j | 0 <= i < j < |r| ensures r[i].0 != r[j].0 {
      if r[i].0 == r[j].0 {
        assert sorted[i] == sorted[j];
        TwiceCounted(sorted, i, j);
        assert NoDup(rows) by {
          forall a, b | 0 <= a < b < |rows| ensures rows[a] != rows[b] {
            assert s.order[a] != s.order[b];
          }
        }
        NoDupAtMostOnce(rows, sorted[i]);
        assert false;
      }
    }
  }

  /**
   * Ties keep insertion order: for every balance, the lines with that
   * balance are the first users with that balance in insertion order.
   */
  lemma TopStable(s: Store, b: int)
    requires Wf(s)
    ensures Tied(Top(s), b) <= Tied(RowsOf(s.order, s.users), b)
  {
    var rows := RowsOf(s.order, s.users);
    var sorted := SortDesc(rows);
    SortStable(rows, b);
    if |sorted| > TopCount {
      TiedPrefix(sorted, TopCount, b);
    }
  }

  lemma TiedPrefix(a: seq<Row>, n: nat, b: int)
    requires n <= |a|
    ensures Tied(a[..n], b) <= Tied(a, b)
  {
    assert a == a[..n] + a[n..];
    TiedAppend(a[..n], a[n..], b);
  }

  /** Where the row of user `u` ends up in the sorted list. */
  lemma PlaceInSorted(s: Store, u: UserId) returns (m: nat)
    requires Wf(s) && u in s.users
    ensures m < |SortDesc(RowsOf(s.order, s.users))|
    ensures SortDesc(RowsOf(s.order, s.users))[m] == (u, s.users[u].balance)
  {
    var rows := RowsOf(s.order, s.users);
    var k :| 0 <= k < |s.order| && s.order[k] == u;
    var x := rows[k];
    assert x in multiset(rows);
    assert x in multiset(SortDesc(rows));
    m :| 0 <= m < |SortDesc(rows)| && SortDesc(rows)[m] == x;
  }

  /** Every user is on the leaderboard, or it is full and the user has no more points than its last line. */
  lemma TopComplete(s: Store, u: UserId)
    requires Wf(s) && u in s.users
    ensures || (exists i :: 0 <= i < |Top(s)| && Top(s)[i].0 == u)
            || (|Top(s)| == TopCount && s.users[u].balance <= Top(s)[TopCount - 1].1)
  {
    var sorted := SortDesc(RowsOf(s.order, s.users));
    var m := PlaceInSorted(s, u);
    if |sorted| <= TopCount {
      assert Top(s) == sorted;
      assert Top(s)[m].0 == u;
    } else if m < TopCount {
      assert Top(s) == sorted[..TopCount];
      assert Top(s)[m].0 == u;
    } else {
      assert Top(s) == sorted[..TopCount];
      assert sorted[TopCount - 1].1 >= sorted[m].1;
    }
  }
}
