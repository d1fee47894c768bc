/**
 The Feishu notifier shared by all four monitors. The HTTP POST itself and the
 timestamp prefix are outside the model; what is modelled is the guard in front
 of it: nothing is posted when the destination or the message is empty, and
 otherwise exactly one post goes to the configured destination carrying the
 message. Delivery failures are swallowed by the source and never reach the
 caller, so a post here is an attempt, not a receipt.
 */
module Notifier {
  import opened Wrappers

  datatype Post = Post(destination: string, text: string)

  /** One `send_feishu(msg)` call. */
  function Send(destination: string, msg: string): (p: Option<Post>)
    ensures p.None? <==> destination == "" || msg == ""
    ensures p.Some? ==> p.value.destination == destination && p.value.text == msg
  {
    if destination == "" || msg == "" then None else Some(Post(destination, msg))
  }

  /** The posts attempted by a sequence of `send_feishu` calls, in call order. */
  function Dispatch(destination: string, msgs: seq<string>): (posts: seq<Post>)
    ensures |posts| <= |msgs|
    ensures destination == "" ==> posts == []
    ensures forall p :: p in posts ==> p.destination == destination && p.text in msgs && p.text != ""
  {
    if msgs == [] then []
    else
      var head := Send(destination, msgs[0]);
      (if head.Some? then [head.value] else []) + Dispatch(destination, msgs[1..])
  }

  /** With a destination configured and no empty message, nothing is dropped,
      reordered or de-duplicated: post `i` carries message `i`. */
  lemma {:induction false} DispatchKeepsEveryMessage(destination: string, msgs: seq<string>)
    requires destination != ""
    requires forall i :: 0 <= i < |msgs| ==> msgs[i] != ""
    ensures |Dispatch(destination, msgs)| == |msgs|
    ensures forall i :: 0 <= i < |msgs| ==> Dispatch(destination, msgs)[i] == Post(destination, msgs[i])
  {
    if msgs != [] {
      DispatchKeepsEveryMessage(destination, msgs[1..]);
      var rest := Dispatch(destination, msgs[1..]);
      assert Dispatch(destination, msgs) == [Post(destination, msgs[0])] + rest;
    }
  }
}
