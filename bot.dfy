/**
 * The bot's global state as the Python module holds it: the `users` dict
 * (with its insertion order), the `items` dict and the `admin_state` dict,
 * updated in place by the handlers. Each handler's ledger effect is a method
 * whose new state is the corresponding transition of the pure model.
 */
module Bot {
  import opened Ledger
  import opened Gate
  import opened Text
  import Referral
  import Redemption
  import Admin
  import Leaderboard

  class Bot {
    const admins: seq<AdminId>
    var users: map<UserId, User>
    var order: seq<UserId>
    var items: map<Content, Option<FileId>>
    var adminState: map<AdminId, Pending>

    /** The state as one value of the pure model. */
    function Snapshot(): Store
      reads this
    {
      Store(users, order, items, adminState)
    }

    ghost predicate Valid()
      reads this
    {
      Wf(Snapshot())
    }

    /** Starts from the loaded `users.json` and `items.json`, with no admin pending. */
    constructor (admins: seq<AdminId>, users: map<UserId, User>, order: seq<UserId>, items: map<Content, Option<FileId>>)
      requires Wf(Store(users, order, items, map[]))
      ensures Valid()
      ensures this.admins == admins
      ensures Snapshot() == Store(users, order, items, map[])
    {
      this.admins := admins;
      this.users := users;
      this.order := order;
      this.items := items;
      this.adminState := map[];
    }

    /** `get_user`: returns the record of `uid`, inserting a default one first if the id is unseen. */
    method GetUser(uid: UserId) returns (u: User)
      requires Valid()
      modifies this
      ensures Valid()
      ensures Snapshot() == WithUser(old(Snapshot()), uid)
      ensures uid in users && u == users[uid]
      ensures uid !in old(users) ==> u == NewUser
      ensures uid in old(users) ==> u == old(users)[uid]
    {
      if uid !in users {
        users := users[uid := NewUser];
        order := order + [uid];
      }
      u := users[uid];
    }

    /** `start`: registration, the gate, then the referral block. */
    method Start(uid: UserId, text: string, lookups: seq<Lookup>) returns (reply: Referral.StartReply)
      requires Valid()
      modifies this
      ensures Valid()
      ensures (Snapshot(), reply) == Referral.Start(old(Snapshot()), uid, text, lookups)
    {
      var _ := GetUser(uid);
      var joined, _ := CheckJoin(lookups);
      if !joined {
        return Referral.JoinPrompt;
      }
      var credited := ApplyReferral(uid, text);
      return Referral.Menu(credited);
    }

    /** The referral block of `start`: credits the referrer named by the text's second token at most once. */
    method ApplyReferral(uid: UserId, text: string) returns (credited: Option<UserId>)
      requires Valid() && uid in users
      modifies this
      ensures Valid()
      ensures (Snapshot(), credited) == Referral.ApplyReferral(old(Snapshot()), uid, text)
    {
      ghost var s0 := Snapshot();
      var user := users[uid];
      var args := Split(text);
      if |args| > 1 {
        var refId := args[1];
        assert Referral.ReferralCode(text) == Some(refId);
        if refId != uid && user.referredBy.None? {
          var refUser := GetUser(refId);
          ghost var s2 := Snapshot();
          if uid !in refUser.refers {
            CreditReferrer(uid, refId);
            return Some(refId);
          }
          assert Referral.ApplyReferral(s0, uid, text) == (s2, None);
          return None;
        }
        assert Referral.ApplyReferral(s0, uid, text) == (s0, None);
        return None;
      }
      assert Referral.ReferralCode(text) == None;
      return None;
    }

    /** Links `uid` to its referrer `refId` and pays the referrer one point. */
    method CreditReferrer(uid: UserId, refId: UserId)
      requires Valid() && uid in users && refId in users && uid != refId
      modifies this
      ensures Valid()
      ensures Snapshot() == Referral.Credit(old(Snapshot()), uid, refId)
    {
      var user, refUser := users[uid], users[refId];
      users := users[uid := user.(referredBy := Some(refId))];
      users := users[refId := refUser.(refers := refUser.refers + [uid], balance := refUser.balance + 1)];
    }

    /** `file_unlock` (c = File) and `video_unlock` (c = Video). */
    method Unlock(uid: UserId, c: Content, lookups: seq<Lookup>) returns (reply: Redemption.UnlockReply)
      requires Valid()
      modifies this
      ensures Valid()
      ensures (Snapshot(), reply) == Redemption.Unlock(old(Snapshot()), uid, c, lookups)
    {
      var joined, _ := CheckJoin(lookups);
      if !joined {
        return Redemption.MustJoin;
      }
      var u := GetUser(uid);
      if u.balance < Price(c) {
        return Redemption.NotEnoughPoints(Price(c));
      }
      if !Available(items, c) {
        return Redemption.NotUploaded;
      }
      var item := items[c].value;
      match c {
        case File =>
          users := users[uid := u.(balance := u.balance - PointsForFile, redeemedFile := u.redeemedFile + 1)];
        case Video =>
          users := users[uid := u.(balance := u.balance - PointsForVideo, redeemedVideo := u.redeemedVideo + 1)];
      }
      return Redemption.Unlocked(item);
    }

    /** `admin_actions`: select a pending operation, or read the leaderboard. */
    method AdminActions(adminId: AdminId, text: string) returns (reply: Admin.ActionReply)
      requires Valid()
      modifies this
      ensures Valid()
      ensures (Snapshot(), reply) == Admin.AdminAction(old(Snapshot()), admins, adminId, text)
    {
      if adminId !in admins {
        return Admin.Silent;
      }
      var t := Lower(text);
      if t == "add balance" {
        adminState := adminState[adminId := Add];
        reply := Admin.AskUserAmount;
      } else if t == "remove balance" {
        adminState := adminState[adminId := Rem];
        reply := Admin.AskUserAmount;
      } else if t == "add video" {
        adminState := adminState[adminId := Vid];
        reply := Admin.AskVideo;
      } else if t == "top 10 leaderboard" {
        reply := Admin.Board(Leaderboard.Top(Snapshot()));
      } else {
        reply := Admin.Silent;
      }
    }

    /** `admin_input`: apply the pending operation to the message, then drop it. */
    method AdminInput(adminId: AdminId, m: Admin.Message, parseInt: string -> Option<int>)
      returns (reply: Admin.InputReply)
      requires Valid()
      modifies this
      ensures Valid()
      ensures (Snapshot(), reply) == Admin.AdminInput(old(Snapshot()), adminId, m, parseInt)
    {
      if adminId !in adminState {
        return Admin.NotPending;
      }
      reply := ApplyPending(adminState[adminId], m, parseInt);
      adminState := adminState - {adminId};
    }

    /** The `try` block of `admin_input`: the pending operation `state` applied to the message. */
    method ApplyPending(state: Pending, m: Admin.Message, parseInt: string -> Option<int>)
      returns (reply: Admin.InputReply)
      requires Valid()
      modifies this
      ensures Valid()
      ensures (Snapshot(), reply) == Admin.Apply(old(Snapshot()), state, m, parseInt)
    {
      if state == Vid {
        if m.VideoMsg? {
          items := items[Video := Some(m.fileId)];
          reply := Admin.VideoUploaded;
        } else {
          reply := Admin.SendVideo;
        }
        return;
      }
      if !m.TextMsg? {
        return Admin.FormatError;
      }
      var args := Split(m.text);
      if |args| != 2 {
        return Admin.FormatError;
      }
      var target, amount := args[0], args[1];
      var u := GetUser(target);
      var parsed := parseInt(amount);
      if parsed.None? {
        return Admin.FormatError;
      }
      if state == Add {
        users := users[target := u.(balance := u.balance + parsed.value)];
        reply := Admin.BalanceAdded;
      } else {
        var lowered := u.balance - parsed.value;
        users := users[target := u.(balance := if lowered > 0 then lowered else 0)];
        reply := Admin.BalanceRemoved;
      }
    }
  }
}
