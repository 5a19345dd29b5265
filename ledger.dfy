/**
 * The points ledger of the bot: user records keyed by user id (kept in the
 * order the ids were first seen, as a Python dict keeps them), the content
 * table and the per-admin pending operation, together as one value `Store`.
 */
module Ledger {

  datatype Option<T> = None | Some(value: T)

  /** A Telegram user id as the ledger stores it: the decimal string `str(id)`. */
  type UserId = string
  /** An admin is addressed by the integer Telegram id. */
  type AdminId = int
  /** An opaque Telegram file id. */
  type FileId = string

  /** Prices of the two content kinds (the help text quotes 10 and 5 points). */
  const PointsForFile: nat := 10
  const PointsForVideo: nat := 5

  datatype Content = File | Video

  function Price(c: Content): (p: nat)
    ensures p > 0
    ensures c == File ==> p == PointsForFile
    ensures c == Video ==> p == PointsForVideo
  {
    match c
    case File => PointsForFile
    case Video => PointsForVideo
  }

  /** One user record: balance, referral pointers and redemption counters. */
  datatype User = User(
    balance: int,
    refers: seq<UserId>,
    referredBy: Option<UserId>,
    redeemedFile: nat,
    redeemedVideo: nat)
  {
    /** The counter that a redemption of `c` raises. */
    function Redeemed(c: Content): nat {
      match c
      case File => redeemedFile
      case Video => redeemedVideo
    }
  }

  /** The record `get_user` inserts for an id it has not seen. */
  const NewUser := User(0, [], None, 0, 0)

  /** The pending operation an admin has selected: "ADD", "REM" or "VID". */
  datatype Pending = Add | Rem | Vid

  datatype Store = Store(
    users: map<UserId, User>,
    order: seq<UserId>,
    items: map<Content, Option<FileId>>,
    pending: map<AdminId, Pending>)

  predicate NoDup<T(==)>(s: seq<T>) {
    forall i, j :: 0 <= i < j < |s| ==> s[i] != s[j]
  }

  /** `order` lists every key of `users` exactly once, in insertion order. */
  predicate Wf(s: Store) {
    && NoDup(s.order)
    && (forall u :: u in s.order ==> u in s.users)
    && (forall u :: u in s.users ==> u in s.order)
  }

  /** `items.get(c)` is truthy: present, not None and not the empty string. */
  predicate Available(items: map<Content, Option<FileId>>, c: Content) {
    c in items && items[c].Some? && items[c].value != ""
  }

  /** The state after `get_user(uid)`: an unseen id gets a default record. */
  function WithUser(s: Store, uid: UserId): (t: Store)
    ensures uid in t.users
    ensures t.users.Keys == s.users.Keys + {uid}
    ensures uid in s.users ==> t == s
    ensures uid !in s.users ==> t.users[uid] == NewUser && t.order == s.order + [uid]
    ensures forall u :: u in s.users ==> u in t.users && t.users[u] == s.users[u]
    ensures t.items == s.items && t.pending == s.pending
    ensures Wf(s) ==> Wf(t)
  {
    if uid in s.users then s
    else s.(users := s.users[uid := NewUser], order := s.order + [uid])
  }

  /** Every balance is non-negative. */
  predicate NonNegative(s: Store) {
    forall u :: u in s.users ==> s.users[u].balance >= 0
  }

  /**
   * The referral graph is consistent: whoever appears in a referrer's
   * `refers` is a known user whose `referredBy` names that referrer, nobody
   * is referred by themself, and no `refers` list holds an id twice.
   */
  predicate ReferralsConsistent(s: Store) {
    && (forall r, u :: r in s.users && u in s.users[r].refers ==>
          u in s.users && s.users[u].referredBy == Some(r))
    && (forall u :: u in s.users ==> s.users[u].referredBy != Some(u))
    && (forall r :: r in s.users ==> NoDup(s.users[r].refers))
  }

  /** Under a consistent graph a referred user sits in exactly one `refers` list and never in its own. */
  lemma ReferredOnce(s: Store, u: UserId, r1: UserId, r2: UserId)
    requires ReferralsConsistent(s)
    requires r1 in s.users && r2 in s.users
    requires u in s.users[r1].refers && u in s.users[r2].refers
    ensures r1 == r2 && u != r1
  {
    assert s.users[u].referredBy == Some(r1);
    assert s.users[u].referredBy == Some(r2);
  }

  /** A change that leaves every record's referral fields alone keeps the graph consistent. */
  lemma SameLinksKeepReferrals(s: Store, t: Store)
    requires ReferralsConsistent(s)
    requires t.users.Keys == s.users.Keys
    requires forall u :: u in s.users ==>
      t.users[u].refers == s.users[u].refers && t.users[u].referredBy == s.users[u].referredBy
    ensures ReferralsConsistent(t)
  {
    forall r, u | r in t.users && u in t.users[r].refers
      ensures u in t.users && t.users[u].referredBy == Some(r)
    {
      assert u in s.users[r].refers;
    }
  }

  /** `get_user` keeps every invariant of the ledger. */
  lemma WithUserKeepsInvariants(s: Store, uid: UserId)
    ensures ReferralsConsistent(s) ==> ReferralsConsistent(WithUser(s, uid))
    ensures NonNegative(s) ==> NonNegative(WithUser(s, uid))
  {
  }
}
