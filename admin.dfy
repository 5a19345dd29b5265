/**
 * The admin session machine. `admin_actions` moves an admin into a pending
 * state ("ADD", "REM" or "VID") or shows the leaderboard; `admin_input`
 * applies the next message against the pending state and then always drops
 * it, whether the branch succeeded, reported an error or raised.
 */
module Admin {
  import opened Ledger
  import opened Text
  import Leaderboard

  /** `is_admin`: the id is in the configured admin list. */
  predicate IsAdmin(admins: seq<AdminId>, uid: AdminId) {
    uid in admins
  }

  /** The pending state a menu text selects, compared after lower-casing. */
  function Selection(text: string): (p: Option<Pending>)
    ensures p.Some? ==> Lower(text) in ["add balance", "remove balance", "add video"]
  {
    var t := Lower(text);
    if t == "add balance" then Some(Add)
    else if t == "remove balance" then Some(Rem)
    else if t == "add video" then Some(Vid)
    else None
  }

  /** Whether a menu text asks for the leaderboard. */
  predicate WantsBoard(text: string)
    ensures WantsBoard(text) ==> Selection(text).None?
  {
    Lower(text) == "top 10 leaderboard"
  }

  lemma LowerIs(text: string, lower: string)
    requires |text| == |lower|
    requires forall i :: 0 <= i < |text| ==> LowerChar(text[i]) == lower[i]
    ensures Lower(text) == lower
  {
  }

  /** The admin keyboard's labels select the states their names say, and the board label selects none. */
  lemma KeyboardLabels()
    ensures Selection("Add Balance") == Some(Add)
    ensures Selection("Remove Balance") == Some(Rem)
    ensures Selection("Add Video") == Some(Vid)
    ensures Selection("Top 10 Leaderboard") == None && WantsBoard("Top 10 Leaderboard")
  {
    LabelAddBalance();
    LabelRemoveBalance();
    LabelAddVideo();
    LabelBoard();
  }

  lemma LabelAddBalance() ensures Lower("Add Balance") == "add balance" {
    LowerIs("Add Balance", "add balance");
  }

  lemma LabelRemoveBalance() ensures Lower("Remove Balance") == "remove balance" {
    LowerIs("Remove Balance", "remove balance");
  }

  lemma LabelAddVideo() ensures Lower("Add Video") == "add video" {
    LowerIs("Add Video", "add video");
  }

  lemma LabelBoard() ensures Lower("Top 10 Leaderboard") == "top 10 leaderboard" {
    LowerIs("Top 10 Leaderboard", "top 10 leaderboard");
  }

  /** The selection ignores letter case. */
  lemma SelectionIgnoresCase(text: string)
    ensures Selection(Lower(text)) == Selection(text)
    ensures WantsBoard(Lower(text)) == WantsBoard(text)
  {
    LowerIdempotent(text);
  }

  /** What `admin_actions` answers. */
  datatype ActionReply = AskUserAmount | AskVideo | Board(rows: seq<Leaderboard.Row>) | Silent

  /** `admin_actions`: a text message from `adminId` while `admins` is the configured list. */
  function AdminAction(s: Store, admins: seq<AdminId>, adminId: AdminId, text: string): (r: (Store, ActionReply))
    requires Wf(s)
    ensures Wf(r.0)
  {
    if !IsAdmin(admins, adminId) then (s, Silent)
    else match Selection(text)
      case Some(p) => (s.(pending := s.pending[adminId := p]), if p == Vid then AskVideo else AskUserAmount)
      case None => if WantsBoard(text) then (s, Board(Leaderboard.Top(s))) else (s, Silent)
  }

  /**
   * A selection by an admin overwrites only that admin's pending entry; the
   * leaderboard request and every other text, or any text from a non-admin,
   * change nothing. No selection touches a user record or the content table.
   */
  lemma ActionEffect(s: Store, admins: seq<AdminId>, adminId: AdminId, text: string)
    requires Wf(s)
    ensures var (t, reply) := AdminAction(s, admins, adminId, text);
      && t.users == s.users && t.order == s.order && t.items == s.items
      && (IsAdmin(admins, adminId) && Selection(text).Some? ==>
            t.pending == s.pending[adminId := Selection(text).value])
      && (!IsAdmin(admins, adminId) || Selection(text).None? ==> t == s)
      && (IsAdmin(admins, adminId) && WantsBoard(text) ==> reply == Board(Leaderboard.Top(s)))
  {
    if WantsBoard(text) {
      assert Lower(text) == "top 10 leaderboard";
    }
  }

  /** An admin's next message: its text, a video (with its file id), or any other media. */
  datatype Message = TextMsg(text: string) | VideoMsg(fileId: FileId) | OtherMsg

  /** What `admin_input` answers. */
  datatype InputReply = BalanceAdded | BalanceRemoved | VideoUploaded | SendVideo | FormatError | NotPending

  /** The new balance of an ADD or REM of `n` points. */
  function Adjusted(p: Pending, balance: int, n: int): (b: int)
    requires p != Vid
    ensures p == Rem ==> b >= 0 && (balance - n >= 0 ==> b == balance - n)
    ensures p == Rem && balance - n < 0 ==> b == 0
    ensures p == Add ==> b == balance + n
  {
    if p == Add then balance + n
    else if balance - n > 0 then balance - n else 0
  }

  /**
   * The body of `admin_input` inside its `try`: ADD/REM split the text into
   * a user id and an amount (the target record is created before the amount
   * is parsed, as Python evaluates `get_user(uid)` first); VID stores a video.
   * `parseInt` stands for Python's `int(...)`: an integer, or a raised error.
   */
  function Apply(s: Store, p: Pending, m: Message, parseInt: string -> Option<int>): (r: (Store, InputReply))
    ensures Wf(s) ==> Wf(r.0)
    ensures r.0.pending == s.pending
  {
    match p
    case Vid =>
      if m.VideoMsg? then (s.(items := s.items[Video := Some(m.fileId)]), VideoUploaded)
      else (s, SendVideo)
    case _ =>
      if !m.TextMsg? then (s, FormatError)
      else
        var args := Split(m.text);
        if |args| != 2 then (s, FormatError)
        else
          var s1 := WithUser(s, args[0]);
          match parseInt(args[1])
          case None => (s1, FormatError)
          case Some(n) =>
            var u := s1.users[args[0]];
            (s1.(users := s1.users[args[0] := u.(balance := Adjusted(p, u.balance, n))]),
             if p == Add then BalanceAdded else BalanceRemoved)
  }

  /** `admin_input`: the pending entry of `adminId` is applied, then removed. */
  function AdminInput(s: Store, adminId: AdminId, m: Message, parseInt: string -> Option<int>): (r: (Store, InputReply))
    ensures Wf(s) ==> Wf(r.0)
  {
    if adminId !in s.pending then (s, NotPending)
    else
      var (t, reply) := Apply(s, s.pending[adminId], m, parseInt);
      (t.(pending := t.pending - {adminId}), reply)
  }

  /**
   * The pending entry is consumed exactly once: after any input it is gone,
   * whatever the reply, every other admin's entry is untouched, and a second
   * input without a new selection is not applied to anything.
   */
  lemma InputConsumesPending(s: Store, adminId: AdminId, m: Message, m2: Message, parseInt: string -> Option<int>)
    requires adminId in s.pending
    ensures var (t, reply) := AdminInput(s, adminId, m, parseInt);
      && reply != NotPending
      && t.pending == s.pending - {adminId}
      && AdminInput(t, adminId, m2, parseInt) == (t, NotPending)
  {
  }

  /**
   * ADD and REM: only a text of exactly two tokens reaches the ledger; the
   * target is registered before the amount is parsed; a parsed amount
   * changes the target's balance alone (REM never below zero); nothing
   * else in the ledger or the content table changes.
   */
  lemma BalanceInput(s: Store, adminId: AdminId, m: Message, parseInt: string -> Option<int>)
    requires adminId in s.pending && s.pending[adminId] != Vid
    ensures var (t, reply) := AdminInput(s, adminId, m, parseInt);
      var p := s.pending[adminId];
      && t.items == s.items
      && (!m.TextMsg? || |Split(m.text)| != 2 ==> reply == FormatError && t.users == s.users && t.order == s.order)
      && (m.TextMsg? && |Split(m.text)| == 2 ==>
            var target, amount := Split(m.text)[0], Split(m.text)[1];
            var before := WithUser(s, target);
            && t.users.Keys == before.users.Keys && t.order == before.order
            && (forall u :: u in s.users && u != target ==> t.users[u] == s.users[u])
            && (parseInt(amount).None? ==> reply == FormatError && t.users == before.users)
            && (parseInt(amount).Some? ==>
                  && reply == (if p == Add then BalanceAdded else BalanceRemoved)
                  && t.users[target] == before.users[target].(balance :=
                       Adjusted(p, before.users[target].balance, parseInt(amount).value))))
  {
  }

  /** VID: only a video replaces the stored video (last write wins); anything else leaves the content table alone. */
  lemma VideoInput(s: Store, adminId: AdminId, m: Message, parseInt: string -> Option<int>)
    requires adminId in s.pending && s.pending[adminId] == Vid
    ensures var (t, reply) := AdminInput(s, adminId, m, parseInt);
      && t.users == s.users && t.order == s.order
      && (m.VideoMsg? ==> reply == VideoUploaded && t.items == s.items[Video := Some(m.fileId)])
      && (!m.VideoMsg? ==> reply == SendVideo && t.items == s.items)
  {
  }

  /**
   * After a VID upload the video can be redeemed exactly when the stored id
   * is non-empty (`items.get("video")` is then truthy); the file's
   * availability is unchanged.
   */
  lemma UploadAvailable(s: Store, adminId: AdminId, fileId: FileId, parseInt: string -> Option<int>)
    requires adminId in s.pending && s.pending[adminId] == Vid
    ensures var t := AdminInput(s, adminId, VideoMsg(fileId), parseInt).0;
      && (Available(t.items, Video) <==> fileId != "")
      && (Available(t.items, File) <==> Available(s.items, File))
  {
  }

  /** ADD performs no sign check: a negative amount can drive a balance below zero. */
  lemma AddCanGoNegative()
    ensures var s := Store(map["1" := NewUser], ["1"], map[], map[7 := Add]);
      var (t, reply) := AdminInput(s, 7, TextMsg("1 -3"), (w: string) => if w == "-3" then Some(-3) else None);
      reply == BalanceAdded && t.users["1"].balance == -3
  {
    SplitSample();
  }

  lemma SplitSample()
    ensures Split("1 -3") == ["1", "-3"]
  {
    assert IsToken("1") && IsToken("-3");
    assert Separators(["", " ", ""], ["1", "-3"]);
    assert Interleave(["", " ", ""], ["1", "-3"]) == "1 -3";
    SplitUnique(["", " ", ""], ["1", "-3"]);
  }

  /** `admin_actions` keeps the referral graph consistent. */
  lemma ActionKeepsReferrals(s: Store, admins: seq<AdminId>, adminId: AdminId, text: string)
    requires Wf(s) && ReferralsConsistent(s)
    ensures ReferralsConsistent(AdminAction(s, admins, adminId, text).0)
  {
    ActionEffect(s, admins, adminId, text);
  }

  /** `admin_input` keeps the referral graph consistent: it changes balances and items only. */
  lemma InputKeepsReferrals(s: Store, adminId: AdminId, m: Message, parseInt: string -> Option<int>)
    requires ReferralsConsistent(s)
    ensures ReferralsConsistent(AdminInput(s, adminId, m, parseInt).0)
  {
    var t := AdminInput(s, adminId, m, parseInt).0;
    if adminId in s.pending && s.pending[adminId] != Vid && m.TextMsg? && |Split(m.text)| == 2 {
      var target := Split(m.text)[0];
      WithUserKeepsInvariants(s, target);
      BalanceInput(s, adminId, m, parseInt);
      SameLinksKeepReferrals(WithUser(s, target), t);
    } else {
      assert t.users == s.users;
      SameLinksKeepReferrals(s, t);
    }
  }

  /** Balances stay non-negative under every admin input except an ADD of a negative amount. */
  lemma AdminKeepsNonNegative(s: Store, adminId: AdminId, m: Message, parseInt: string -> Option<int>)
    requires NonNegative(s)
    requires adminId in s.pending && s.pending[adminId] == Add && m.TextMsg? && |Split(m.text)| == 2
             ==> parseInt(Split(m.text)[1]).None? || parseInt(Split(m.text)[1]).value >= 0
    ensures NonNegative(AdminInput(s, adminId, m, parseInt).0)
  {
    if adminId in s.pending && s.pending[adminId] != Vid && m.TextMsg? && |Split(m.text)| == 2 {
      WithUserKeepsInvariants(s, Split(m.text)[0]);
    }
  }
}
