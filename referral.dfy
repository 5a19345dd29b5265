/**
 * The `/start` handler's ledger effect: the caller's record is created
 * lazily, the membership gate is consulted, and a referral code (the second
 * token of the command text) credits the referrer at most once.
 */
module Referral {
  import opened Ledger
  import opened Gate
  import opened Text

  /** What `/start` shows: the join prompt, or the menu (naming the referrer credited, if any). */
  datatype StartReply = JoinPrompt | Menu(credited: Option<UserId>)

  /** The referral code carried by a `/start` text, if it has a second token. */
  function ReferralCode(text: string): (code: Option<UserId>)
    ensures code.Some? <==> |Split(text)| > 1
    ensures code.Some? ==> IsToken(code.value) && code.value == Split(text)[1]
  {
    var args := Split(text);
    if |args| > 1 then Some(args[1]) else None
  }

  /** The three guards of a referral credit, checked on the state where `uid` already exists. */
  predicate MayCredit(s: Store, uid: UserId, refId: UserId)
    requires uid in s.users
  {
    && refId != uid
    && s.users[uid].referredBy.None?
    && (refId !in s.users || uid !in s.users[refId].refers)
  }

  /** The referral transition on a state where `uid` exists and the guards hold. */
  function Credit(s: Store, uid: UserId, refId: UserId): (t: Store)
    requires uid in s.users && refId in s.users && uid != refId
    ensures t.users.Keys == s.users.Keys && t.order == s.order
    ensures t.users[uid] == s.users[uid].(referredBy := Some(refId))
    ensures t.users[refId] == s.users[refId].(refers := s.users[refId].refers + [uid],
                                              balance := s.users[refId].balance + 1)
    ensures forall u :: u in s.users && u != uid && u != refId ==> t.users[u] == s.users[u]
    ensures t.items == s.items && t.pending == s.pending
  {
    var user := s.users[uid];
    var ref := s.users[refId];
    s.(users := s.users[uid := user.(referredBy := Some(refId))]
                       [refId := ref.(refers := ref.refers + [uid], balance := ref.balance + 1)])
  }

  /**
   * The referral block of `start`, run once the gate has passed on a state
   * where `uid` exists; returns the state and the referrer credited, if any.
   */
  function ApplyReferral(s: Store, uid: UserId, text: string): (r: (Store, Option<UserId>))
    requires uid in s.users
    ensures Wf(s) ==> Wf(r.0)
  {
    match ReferralCode(text)
    case None => (s, None)
    case Some(refId) =>
      if refId != uid && s.users[uid].referredBy.None? then
        var s2 := WithUser(s, refId);
        if uid !in s2.users[refId].refers then (Credit(s2, uid, refId), Some(refId))
        else (s2, None)
      else (s, None)
  }

  /** `start(m)` on the ledger: user `uid` sends `text`; `lookups` answers the gate. */
  function Start(s: Store, uid: UserId, text: string, lookups: seq<Lookup>): (r: (Store, StartReply))
    ensures Wf(s) ==> Wf(r.0)
  {
    var s1 := WithUser(s, uid);
    if !Eligible(lookups) then (s1, JoinPrompt)
    else
      var (t, credited) := ApplyReferral(s1, uid, text);
      (t, Menu(credited))
  }

  /** The gate comes first: a user who has not joined every channel is only registered. */
  lemma StartGated(s: Store, uid: UserId, text: string, lookups: seq<Lookup>)
    requires !Eligible(lookups)
    ensures Start(s, uid, text, lookups) == (WithUser(s, uid), JoinPrompt)
  {
  }

  /**
   * A credit to `refId` happens exactly when the gate passes, the text's
   * referral code is `refId`, `refId` is not the caller, the caller has no
   * referrer yet and is not already in `refId`'s list.
   */
  lemma StartCreditsWhen(s: Store, uid: UserId, text: string, lookups: seq<Lookup>, refId: UserId)
    ensures Start(s, uid, text, lookups).1 == Menu(Some(refId)) <==>
      && Eligible(lookups)
      && ReferralCode(text) == Some(refId)
      && MayCredit(WithUser(s, uid), uid, refId)
  {
  }

  /**
   * On a credit the caller records the referrer, the referrer's list gains
   * the caller once, its balance rises by exactly one, and no other record,
   * the content table or the admin state changes.
   */
  lemma StartCreditEffect(s: Store, uid: UserId, text: string, lookups: seq<Lookup>, refId: UserId)
    requires Start(s, uid, text, lookups).1 == Menu(Some(refId))
    ensures var t := Start(s, uid, text, lookups).0;
      var before := WithUser(WithUser(s, uid), refId);
      && uid != refId
      && t.users.Keys == s.users.Keys + {uid, refId}
      && t.order == before.order
      && t.users[uid] == before.users[uid].(referredBy := Some(refId))
      && t.users[refId] == before.users[refId].(refers := before.users[refId].refers + [uid],
                                                balance := before.users[refId].balance + 1)
      && (forall u :: u in s.users && u != uid && u != refId ==> t.users[u] == s.users[u])
      && t.items == s.items && t.pending == s.pending
  {
  }

  /**
   * Without a credit `/start` only registers the caller. A named referrer
   * that is unseen is never created without a credit: its fresh record has
   * an empty list, so the third guard lets the credit through.
   */
  lemma StartWithoutCredit(s: Store, uid: UserId, text: string, lookups: seq<Lookup>)
    requires Start(s, uid, text, lookups).1 in {JoinPrompt, Menu(None)}
    ensures Start(s, uid, text, lookups).0 == WithUser(s, uid)
  {
  }

  /** Replaying `/start` after a credit credits nobody and changes nothing. */
  lemma StartReplay(s: Store, uid: UserId, text: string, lookups: seq<Lookup>, again: seq<Lookup>, refId: UserId)
    requires Start(s, uid, text, lookups).1 == Menu(Some(refId))
    ensures var t := Start(s, uid, text, lookups).0;
      Start(t, uid, text, again) == (t, if Eligible(again) then Menu(None) else JoinPrompt)
  {
  }

  /** Once a user has a referrer, no `/start` text changes any record. */
  lemma StartAfterReferred(s: Store, uid: UserId, text: string, lookups: seq<Lookup>)
    requires uid in s.users && s.users[uid].referredBy.Some?
    ensures Start(s, uid, text, lookups).0 == s
    ensures Start(s, uid, text, lookups).1 in {JoinPrompt, Menu(None)}
  {
  }

  /** A self-referral changes no balance and no record except creating the caller's. */
  lemma StartSelfReferral(s: Store, uid: UserId, text: string, lookups: seq<Lookup>)
    requires ReferralCode(text) == Some(uid)
    ensures Start(s, uid, text, lookups).0 == WithUser(s, uid)
  {
  }

  /** Under a consistent referral graph the third guard never decides: the second implies it. */
  lemma ThirdGuardImplied(s: Store, uid: UserId, refId: UserId)
    requires ReferralsConsistent(s)
    requires uid in s.users && s.users[uid].referredBy.None?
    requires refId in s.users
    ensures uid !in s.users[refId].refers
  {
  }

  /** `/start` keeps the referral graph consistent and every balance non-negative. */
  lemma StartKeepsInvariants(s: Store, uid: UserId, text: string, lookups: seq<Lookup>)
    requires ReferralsConsistent(s)
    ensures ReferralsConsistent(Start(s, uid, text, lookups).0)
    ensures NonNegative(s) ==> NonNegative(Start(s, uid, text, lookups).0)
  {
    var s1 := WithUser(s, uid);
    WithUserKeepsInvariants(s, uid);
    if Eligible(lookups) && ReferralCode(text).Some? {
      var refId := ReferralCode(text).value;
      if refId != uid && s1.users[uid].referredBy.None? {
        var s2 := WithUser(s1, refId);
        WithUserKeepsInvariants(s1, refId);
        if uid !in s2.users[refId].refers {
          CreditKeepsInvariants(s2, uid, refId);
        }
      }
    }
  }

  lemma CreditKeepsInvariants(s: Store, uid: UserId, refId: UserId)
    requires ReferralsConsistent(s)
    requires uid in s.users && refId in s.users && uid != refId
    requires s.users[uid].referredBy.None? && uid !in s.users[refId].refers
    ensures ReferralsConsistent(Credit(s, uid, refId))
    ensures NonNegative(s) ==> NonNegative(Credit(s, uid, refId))
  {
    var t := Credit(s, uid, refId);
    forall r, u | r in t.users && u in t.users[r].refers
      ensures u in t.users && t.users[u].referredBy == Some(r)
    {
      if r == refId && u == uid {
      } else {
        if r == refId {
          assert u in s.users[refId].refers;
        } else {
          assert u in s.users[r].refers;
        }
        assert u != uid;
      }
    }
    var refers := s.users[refId].refers + [uid];
    assert NoDup(s.users[refId].refers);
    assert NoDup(refers);
  }
}
