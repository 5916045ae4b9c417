/** The signing coordinator's opening move: create a signing id and publish SIGN_R1 on the
    topic named by the group (onion) id. */
module Signing {
  import opened Types
  import opened Ids
  import opened Channels

  /** `args` are the remaining words of the sign command: the onion id, then the message.
      A missing word panics at its `unwrap` before anything is sent. */
  method Sign(out: Outbox, args: seq<string>, idDraws: seq<nat>) returns (r: Outcome)
    requires |idDraws| >= IdLength
    modifies out
    ensures |args| < 2 ==> r == Panicked && out.log == old(out.log)
    ensures |args| >= 2 ==>
      r == Done && out.log == old(out.log) + [Broadcast(args[0], SignR1(RandomId(idDraws), args[0], args[1]))]
  {
    if |args| < 2 {
      return Panicked;
    }
    var onion := args[0];
    var message := args[1];
    var signingId := RandomId(idDraws);
    out.Publish(onion, SignR1(signingId, onion, message));
    return Done;
  }
}
