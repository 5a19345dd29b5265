/**
 * The membership gate `check_join`: every required channel is looked up in
 * turn; the first lookup that fails or reports "left"/"kicked" closes the
 * gate. The Telegram lookup is an oracle: one result per channel, in the
 * order of the configured channel list.
 */
module Gate {

  /** The outcome of `bot.get_chat_member(channel, uid)`: a member status, or a raised error. */
  datatype Lookup = Status(status: string) | Error

  /** One lookup lets the user through. */
  predicate Admits(r: Lookup) {
    r.Status? && r.status !in ["left", "kicked"]
  }

  /** The gate's specification: every channel's lookup lets the user through. */
  predicate Eligible(lookups: seq<Lookup>) {
    forall i :: 0 <= i < |lookups| ==> Admits(lookups[i])
  }

  /**
   * `check_join`: `joined` is the verdict and `asked` the number of lookups
   * performed before the loop returned (the first rejecting one included).
   */
  method CheckJoin(lookups: seq<Lookup>) returns (joined: bool, asked: nat)
    ensures joined <==> Eligible(lookups)
    ensures asked <= |lookups|
    ensures joined ==> asked == |lookups|
    ensures !joined ==> 0 < asked && !Admits(lookups[asked - 1])
    ensures forall j :: 0 <= j < asked - 1 ==> Admits(lookups[j])
  {
    for i := 0 to |lookups|
      invariant forall j :: 0 <= j < i ==> Admits(lookups[j])
    {
      match lookups[i]
      case Error =>
        return false, i + 1;
      case Status(s) =>
        if s in ["left", "kicked"] {
          return false, i + 1;
        }
    }
    return true, |lookups|;
  }
}
