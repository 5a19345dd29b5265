/**
 * `file_unlock` and `video_unlock`: behind the membership gate, the caller's
 * record is created lazily, the price is checked, then the content item, and
 * only then is the price debited and the matching counter raised.
 */
module Redemption {
  import opened Ledger
  import opened Gate

  /** What the handler answers: join prompt, "Not enough points", "not uploaded yet", or the unlocked item. */
  datatype UnlockReply = MustJoin | NotEnoughPoints(need: nat) | NotUploaded | Unlocked(item: FileId)

  /** The record after one successful redemption of `c`. */
  function Debit(u: User, c: Content): (v: User)
    ensures v.balance == u.balance - Price(c)
    ensures v.Redeemed(c) == u.Redeemed(c) + 1
    ensures forall d :: d != c ==> v.Redeemed(d) == u.Redeemed(d)
    ensures v.refers == u.refers && v.referredBy == u.referredBy
  {
    match c
    case File => u.(balance := u.balance - PointsForFile, redeemedFile := u.redeemedFile + 1)
    case Video => u.(balance := u.balance - PointsForVideo, redeemedVideo := u.redeemedVideo + 1)
  }

  /** One unlock request of content `c` by user `uid`; `lookups` answers the gate. */
  function Unlock(s: Store, uid: UserId, c: Content, lookups: seq<Lookup>): (r: (Store, UnlockReply))
    ensures Wf(s) ==> Wf(r.0)
  {
    if !Eligible(lookups) then (s, MustJoin)
    else
      var s1 := WithUser(s, uid);
      var u := s1.users[uid];
      if u.balance < Price(c) then (s1, NotEnoughPoints(Price(c)))
      else if !Available(s1.items, c) then (s1, NotUploaded)
      else (s1.(users := s1.users[uid := Debit(u, c)]), Unlocked(s1.items[c].value))
  }

  /**
   * The outcome is decided in the source's order: gate, then price, then
   * availability. Only a successful unlock changes a record, and then by
   * exactly the price and exactly one redemption; every failure leaves the
   * ledger as it was, apart from registering the caller once past the gate.
   */
  lemma UnlockOutcome(s: Store, uid: UserId, c: Content, lookups: seq<Lookup>)
    ensures var (t, reply) := Unlock(s, uid, c, lookups);
      var before := WithUser(s, uid).users[uid];
      && (reply == MustJoin <==> !Eligible(lookups))
      && (reply == MustJoin ==> t == s)
      && (reply.NotEnoughPoints? <==> Eligible(lookups) && before.balance < Price(c))
      && (reply.NotUploaded? <==> Eligible(lookups) && before.balance >= Price(c) && !Available(s.items, c))
      && (reply.Unlocked? <==> Eligible(lookups) && before.balance >= Price(c) && Available(s.items, c))
      && (reply.NotEnoughPoints? || reply.NotUploaded? ==> t == WithUser(s, uid))
      && (reply.Unlocked? ==>
            && reply.item == s.items[c].value
            && t.users.Keys == s.users.Keys + {uid}
            && t.order == WithUser(s, uid).order
            && t.users[uid] == Debit(before, c)
            && t.users[uid].balance == before.balance - Price(c)
            && t.users[uid].Redeemed(c) == before.Redeemed(c) + 1
            && (forall d :: d != c ==> t.users[uid].Redeemed(d) == before.Redeemed(d))
            && (forall u :: u in s.users && u != uid ==> t.users[u] == s.users[u])
            && t.items == s.items && t.pending == s.pending)
  {
  }

  /** A redemption never takes a balance below zero, so non-negative balances stay so. */
  lemma UnlockKeepsInvariants(s: Store, uid: UserId, c: Content, lookups: seq<Lookup>)
    ensures NonNegative(s) ==> NonNegative(Unlock(s, uid, c, lookups).0)
    ensures ReferralsConsistent(s) ==> ReferralsConsistent(Unlock(s, uid, c, lookups).0)
  {
    WithUserKeepsInvariants(s, uid);
    if ReferralsConsistent(s) && Eligible(lookups) {
      SameLinksKeepReferrals(WithUser(s, uid), Unlock(s, uid, c, lookups).0);
    }
  }

  /**
   * No double spend: with a balance enough for one unlock of `c` but not two,
   * two requests in a row yield exactly one unlock and one refusal for lack of
   * points, and leave the balance reduced by one price.
   */
  lemma NoDoubleSpend(s: Store, uid: UserId, c: Content, l1: seq<Lookup>, l2: seq<Lookup>)
    requires Eligible(l1) && Eligible(l2) && Available(s.items, c)
    requires uid in s.users && Price(c) <= s.users[uid].balance < 2 * Price(c)
    ensures var (t1, r1) := Unlock(s, uid, c, l1);
      var (t2, r2) := Unlock(t1, uid, c, l2);
      && r1.Unlocked? && r2 == NotEnoughPoints(Price(c))
      && t2 == t1 && t2.users[uid].balance == s.users[uid].balance - Price(c)
  {
  }
}
