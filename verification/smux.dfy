/** What the tunnel sees of a smux session. */
module Smux {
  /** A smux session: `accepting` says whether opening a stream and sending its target would succeed now. */
  class Session {
    var closed: bool
    var accepting: bool
    var streams: nat

    constructor (accepting: bool)
      ensures !closed && this.accepting == accepting && streams == 0
    {
      closed, this.accepting, streams := false, accepting, 0;
    }

    predicate Usable()
      reads this
    {
      !closed && accepting
    }

    method Close()
      modifies this`closed
      ensures closed
    {
      closed := true;
    }

    method OpenStream() returns (ok: bool)
      modifies this`streams
      ensures ok == Usable()
      ensures streams == if ok then old(streams) + 1 else old(streams)
    {
      ok := !closed && accepting;
      if ok {
        streams := streams + 1;
      }
    }
  }
}
