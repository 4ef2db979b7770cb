/** A connection seen frame by frame: what recv_frame will still return, what send_frame has sent.
    Protocol.FramesRoundTrip says the bytes in between deliver exactly this to the peer. */
module Channel {
  import opened Bytes
  import opened Json
  import opened CryptoUtils

  /** send_frame accepts it: its text does not exceed MAX_FRAME. */
  predicate Fits(env: J) { |Dumps(env)| <= MAX_FRAME }

  class Channel {
    var incoming: seq<J>
    var sent: seq<J>

    constructor (frames: seq<J>)
      ensures incoming == frames && sent == []
    {
      incoming, sent := frames, [];
    }

    /** recv_frame; None is any exception it raises, after which nothing more can be read. */
    method Receive() returns (r: Option<J>)
      modifies this`incoming
      ensures old(incoming) == [] ==> r == None && incoming == []
      ensures old(incoming) != [] ==> r == Some(old(incoming)[0]) && incoming == old(incoming)[1..]
    {
      if incoming == [] {
        return None;
      }
      r := Some(incoming[0]);
      incoming := incoming[1..];
    }

    /** send_frame; false is its ValueError. */
    method Send(env: J) returns (ok: bool)
      modifies this`sent
      ensures ok == Fits(env)
      ensures sent == old(sent) + if ok then [env] else []
    {
      ok := |Dumps(env)| <= MAX_FRAME;
      if ok {
        sent := sent + [env];
      }
    }
  }
}
