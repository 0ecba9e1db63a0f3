/**
  The parts of an Express request/response pair the core touches: `req.user`,
  the JSON replies written to `res`, and the `next` continuation.
*/
module Http {

  import opened Wrappers
  import opened Store

  /** A reply: HTTP status and the `message` of the JSON envelope. */
  datatype Reply = Reply(status: nat, message: string)

  /** A response accepts one reply; a later write fails because the headers were sent. */
  function Sent(replies: seq<Reply>, r: Reply): seq<Reply>
  {
    if replies == [] then [r] else replies
  }

  class Exchange {
    /** `req.user`, set by the credential check. */
    var user: Option<PublicUser>
    /** What was written to `res`. */
    var replies: seq<Reply>

    /** A request as it reaches the first middleware. */
    constructor ()
      ensures user.None? && replies == []
    {
      user := None;
      replies := [];
    }

    /** `res.status(r.status).json(...)`. */
    method Send(r: Reply)
      modifies this
      ensures user == old(user)
      ensures replies == Sent(old(replies), r)
    {
      if replies == [] {
        replies := [r];
      }
    }
  }

  /** A `next` callback; `calls` counts how often it was invoked. */
  class Continuation {
    var calls: nat

    constructor ()
      ensures calls == 0
    {
      calls := 0;
    }

    method Call()
      modifies this
      ensures calls == old(calls) + 1
    {
      calls := calls + 1;
    }
  }
}
