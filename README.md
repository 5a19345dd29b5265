# Referral-points ledger of the Telegram bot, in Dafny

The bot in `main.py` rewards users with points for referring others.
Users spend points to unlock a file (10 points) or a video (5 points).
Administrators adjust balances, upload the video and read a top-10 leaderboard.
Around the Telegram glue sits a small ledger, and that ledger is modelled here:

- the `users` dict of user records, kept in the order the ids were first seen;
- the `items` content table;
- the `admin_state` dict of pending admin operations.

The model has two layers:

- **Pure transitions** over one value `Ledger.Store`, one module per concern:
  - `Ledger`: records, lazy creation and the ledger invariants;
  - `Text`: Python's `str.split()` and `str.lower()`;
  - `Gate`: the membership check;
  - `Referral`: the `/start` handler;
  - `Redemption`: `file_unlock` and `video_unlock`;
  - `Leaderboard`: the stable sort and the top-10 cut;
  - `Admin`: the admin session machine.

  Lemmas state what each handler promises about these transitions: its guards, its effects, what it leaves alone, and the invariants it keeps.
- **The class `Bot.Bot`**, which holds the dicts as mutable fields and updates them in place as the handlers do.
  - Each method's postcondition says that the new state and the reply equal the pure transition applied to the old state.
  - So every lemma about a transition carries over to the method.

Everything the handlers get from outside is an explicit input:

- the channel-membership lookups, one result per configured channel;
- the message text;
- Python's `int(...)`, passed as a function from the text to an optional integer.

## Model

| member | source | states |
|---|---|---|
| Ledger.WithUser | main.py:26-37 | `get_user`: an unseen id gets the default record (balance 0, no referrals, no referrer, counters 0) and is appended to the insertion order; a known id leaves the state unchanged; no other record, the content table or the admin state changes; the order/keys invariant is kept |
| Bot.Bot.GetUser | main.py:26-37 | the in-place `get_user` returns the stored record (the default one for an unseen id, the existing one otherwise) and leaves the state `Ledger.WithUser` describes |
| Bot.Bot.constructor | main.py:21-23 | the loaded users and items, with no admin pending |
| Ledger.Price | main.py:187-188 | both prices are positive: 10 points for the file, 5 for the video |
| Ledger.ReferredOnce | main.py:88-90 | under a consistent referral graph a user appears in at most one referrer's list, and never in its own |
| Ledger.WithUserKeepsInvariants | main.py:26-37 | creating a record keeps the referral graph consistent and balances non-negative |
| Gate.CheckJoin | main.py:43-51 | the loop answers true exactly when every channel lookup returned a status other than "left"/"kicked" (so an empty channel list admits); on false, the last lookup performed is the first one that failed or raised, and no lookup after it is made |
| Text.Word | main.py:76 | the longest whitespace-free prefix: a prefix, free of whitespace, followed by whitespace or the end |
| Text.Split | main.py:76 | `str.split()` yields only non-empty, whitespace-free tokens |
| Text.SplitUnique | main.py:76 | any way of writing a string as tokens separated by whitespace (non-empty runs between tokens, any amount at either end) gives exactly those tokens back from `Split` |
| Text.SplitRuns | main.py:76 | every string is its `Split` tokens separated by such whitespace, so with `Text.SplitUnique` the tokens are exactly the string's maximal whitespace-free runs, in order, whatever the leading, trailing or repeated whitespace |
| Text.Lower | main.py:206 | lower-casing keeps the length and maps each character by ASCII case folding |
| Text.LowerIdempotent | main.py:206 | lower-casing twice is lower-casing once |
| Referral.ReferralCode | main.py:76-84 | a referral code exists exactly when the `/start` text has a second token, and it is that token, `Split(text)[1]` |
| Referral.ApplyReferral | main.py:82-97 | the referral block keeps the order/keys invariant |
| Referral.Start | main.py:72-99 | `/start` keeps the order/keys invariant |
| Referral.StartGated | main.py:74-80 | a caller who fails the gate is only registered and gets the join prompt; no referral is looked at |
| Referral.StartCreditsWhen | main.py:78-87 | a credit to a referrer happens if and only if the gate passes, the text's second token names it, it is not the caller, the caller has no referrer yet, and the caller is not already in its list |
| Referral.StartCreditEffect | main.py:86-90 | on a credit the caller's referrer is set, the caller is appended once to the referrer's list, the referrer's balance rises by exactly 1, the insertion order is only that of the registrations, and no other record, item or pending entry changes |
| Referral.StartWithoutCredit | main.py:74-98 | without a credit the state is exactly the caller's registration: no record changes and no other record is created; in particular an unseen referrer is never created without being credited, since its fresh record has an empty list |
| Referral.StartReplay | main.py:85 | replaying `/start` after a credit credits nobody and changes nothing |
| Referral.StartAfterReferred | main.py:85 | once a user has a referrer, `/start` changes no record and credits nobody |
| Referral.StartSelfReferral | main.py:85 | a self-referral changes no balance; at most the caller's own record is created |
| Referral.ThirdGuardImplied | main.py:85-87 | under a consistent referral graph, a caller with no referrer is in no referrer's list, so the third guard never decides alone |
| Referral.StartKeepsInvariants | main.py:82-91 | `/start` keeps the referral graph consistent (every listed referral points back, no self-referral, no duplicates) and balances non-negative |
| Referral.CreditKeepsInvariants | main.py:88-90 | one guarded credit keeps the referral graph consistent and balances non-negative |
| Bot.Bot.Start | main.py:72-99 | the in-place `/start` (registration, gate, then referral block) ends in the state and reply of `Referral.Start` |
| Bot.Bot.ApplyReferral | main.py:82-97 | the in-place referral block ends in the state and credit of `Referral.ApplyReferral` |
| Referral.Credit | main.py:88-90 | a credit sets the caller's referrer, appends the caller to the referrer's list and raises the referrer's balance by exactly 1; every other field of both records stays as it was; it creates no record and changes no other record, the order, the items or the pending entries |
| Bot.Bot.CreditReferrer | main.py:88-90 | the three in-place updates of a credit give `Referral.Credit` of the old state |
| Redemption.Debit | main.py:151-152 | a redemption lowers the balance by exactly the price and raises the matching counter by exactly 1; the other counter and the referral fields are untouched |
| Redemption.Unlock | main.py:141-172 | an unlock keeps the order/keys invariant |
| Redemption.UnlockOutcome | main.py:144-170 | the outcome, in the handler's order: the gate (failure changes nothing), then the price (too few points: only the caller is registered), then availability (an absent, None or empty item costs nothing), then the item is delivered and the caller's record becomes exactly `Redemption.Debit` of it (referral fields kept), with the insertion order only that of the registration, and nothing else changes |
| Admin.UploadAvailable | main.py:237-241 | after a VID upload, `Ledger.Available` (the truthiness test `items.get(...)` of main.py:148 and 165) holds for the video exactly when the stored id is non-empty, and the file's availability is unchanged |
| Redemption.UnlockKeepsInvariants | main.py:145-152 | an unlock never takes a non-negative balance below zero and keeps the referral graph consistent |
| Redemption.NoDoubleSpend | main.py:145-152 | with points for one unlock but not two, two requests give one unlock and one "not enough points", and the balance falls by one price |
| Bot.Bot.Unlock | main.py:141-172 | the in-place `file_unlock`/`video_unlock` ends in the state and reply of `Redemption.Unlock` |
| Admin.Selection | main.py:206-215 | a selected pending operation comes only from the three menu words, after lower-casing |
| Admin.WantsBoard | main.py:216 | the leaderboard text, after lower-casing, selects no pending operation: the two branches of `admin_actions` never both apply |
| Admin.SelectionIgnoresCase | main.py:206 | selection and the leaderboard request ignore letter case |
| Admin.KeyboardLabels | main.py:198-216 | the admin keyboard's labels select ADD, REM, VID and the leaderboard as named |
| Admin.AdminAction | main.py:204-221 | `admin_actions` keeps the order/keys invariant |
| Admin.ActionEffect | main.py:204-221 | a selection by an admin overwrites only that admin's pending entry; the leaderboard request returns the top 10; any other text, or a text from a non-admin, changes nothing; no record or item is touched |
| Admin.ActionKeepsReferrals | main.py:204-221 | `admin_actions` keeps the referral graph consistent |
| Admin.Adjusted | main.py:229-234 | ADD adds the amount; REM gives `max(0, balance - amount)`: exactly `balance - amount` when that is non-negative, and exactly 0 when it is negative |
| Admin.Apply | main.py:225-245 | the body of the `try` keeps the order/keys invariant and never touches the pending entries |
| Admin.AdminInput | main.py:223-246 | `admin_input` keeps the order/keys invariant |
| Admin.InputConsumesPending | main.py:244-246 | after any input the admin's pending entry is gone, whatever the reply; other admins' entries stay; a second input without a new selection is not applied |
| Admin.BalanceInput | main.py:227-236 | ADD/REM: a text that is not exactly two tokens changes no balance and reports a format error; otherwise the target is registered before the amount is parsed; an unparsable amount changes nothing more; a parsed amount changes the target's balance alone, as `Admin.Adjusted` says; the content table is untouched |
| Admin.VideoInput | main.py:237-243 | VID: only a video replaces the stored video id (last write wins); anything else leaves the content table alone; no record changes |
| Admin.AddCanGoNegative | main.py:227-231 | ADD does no sign check: "1 -3" on a fresh user leaves balance -3 |
| Admin.InputKeepsReferrals | main.py:223-246 | `admin_input` keeps the referral graph consistent |
| Admin.AdminKeepsNonNegative | main.py:227-236 | balances stay non-negative under every admin input except an ADD of a negative amount |
| Bot.Bot.AdminActions | main.py:204-221 | the in-place `admin_actions` ends in the state and reply of `Admin.AdminAction` |
| Bot.Bot.AdminInput | main.py:223-246 | the in-place `admin_input` ends in the state and reply of `Admin.AdminInput`, with the pending entry popped |
| Bot.Bot.ApplyPending | main.py:225-245 | the in-place `try` block ends in the state and reply of `Admin.Apply` |
| Leaderboard.RowsOf | main.py:217 | `users.items()` as (id, balance) rows, one per id, in insertion order |
| Leaderboard.Insert | main.py:217 | inserting into a descending list gives a descending list with the same rows plus the new one |
| Leaderboard.SortDesc | main.py:217 | the sort's result is descending by balance and a permutation of its input |
| Leaderboard.InsertStable | main.py:217 | insertion keeps the relative order of every group of equal balances |
| Leaderboard.SortStable | main.py:217 | the sort is stable: for every balance, the rows with that balance keep their original order |
| Leaderboard.SortedRowsFromUsers | main.py:217 | every sorted row is some user's id with that user's balance |
| Leaderboard.Top | main.py:217 | the board has at most 10 lines in non-increasing balance order; `Leaderboard.TopShape`, `Leaderboard.TopStable` and `Leaderboard.TopComplete` state its length, its rows, its tie order and its completeness |
| Leaderboard.TopShape | main.py:217 | the leaderboard has min(10, number of users) lines, in non-increasing balance order, each a distinct user with that user's balance |
| Leaderboard.TopStable | main.py:217 | for every balance, the lines with that balance are the first users with that balance in insertion order |
| Leaderboard.TopComplete | main.py:217 | every user is on the leaderboard, or it is full and the user has no more points than its last line |

## Left out

- Telegram transport is not modelled: messages, keyboards, `force_join`, `menu`, `refer`, `paid_access`, `help_cmd`, `verify`, `adminpanel` and the polling loop (main.py:53-69, 101-117, 131-138, 174-201, 249-250). They are user interface and network I/O. The replies are abstract datatypes, not message texts.
- `profile` (main.py:120-129) has one effect on the ledger. Behind the membership gate it calls `get_user` (main.py:123), which registers an unseen caller, who from then on appears on the leaderboard. That effect is exactly `Ledger.WithUser` / `Bot.Bot.GetUser`. Apart from it, `profile` only reads the record and sends it, and that part is not modelled.
- JSON persistence (`load`/`save`, main.py:10-23) is not modelled. The initial state is a constructor argument, and `save` changes nothing in the abstract state.
- `bot.get_chat_member` is a network call. Its results are an input sequence with one `Status(s)` or `Error` per configured channel. `CHANNELS`, `ADMINS` and the prices come from a `config` module that is not part of this model. The prices are the ones the help text quotes.
- The referral notification inside `try/except: pass` (main.py:92-97) is not modelled, because it has no effect on the ledger.
- Handler dispatch is not modelled:
  - the `admin_actions` filter matches every admin text message before `admin_input` is tried;
  - the default content type of the handlers is text only.

  `admin_input` is modelled as a direct transition on (state, message).
- Admin.InputConsumesPending: assumes that sending a reply never raises. In `main.py` a raising send changes the outcome in two ways. If the error reply inside `except:` (main.py:245) raises, the exception leaves the handler before `admin_state.pop` (main.py:246), and the admin stays pending. If a success reply (main.py:231, 236 or 241) raises, the ledger change has already happened, but the admin is told "Error: check format" instead of `BalanceAdded`, `BalanceRemoved` or `VideoUploaded`.
- Concurrency is left out by choice. `telebot.TeleBot(token)` (main.py:7) runs handlers on a pool of worker threads by default, and nothing takes a lock. So two updates can interleave between a check and its write: the balance check and the debit of main.py:145-151, and the guards and the credit of main.py:85-90. Every transition here is one handler run to completion.
- Redemption.NoDoubleSpend: covers two requests handled one after the other only. Two requests racing on two worker threads can both pass the balance check before either debits.
- Python's `int(...)` is an input function from text to an optional integer. Its grammar is not modelled.
- Text.Lower: folds ASCII letters only, whereas Python's `str.lower()` covers all of Unicode. The comparisons it feeds are against ASCII menu words.
- Admin.AdminKeepsNonNegative: `main.py` checks neither the sign nor the size of an ADD/REM amount. The zero floor of REM (main.py:234) and the "Send: USER_ID AMOUNT" prompt suggest non-negative balances and positive amounts, but the model follows the code. So non-negativity is proved for `/start`, redemption, REM and non-negative ADDs, not for every admin input. A negative REM amount raises the balance.
- There are no aggregate counters of users or of unlocks, and no admin upload path for the file item: `main.py` has none of them, so the model has none. Reselecting an operation while one is pending overwrites it, as `admin_actions` does.
