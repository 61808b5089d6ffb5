/**
 * The collaborators at the edge of the core, stated only by their
 * interface: a client's WebSocket session and a Reactor subscription
 * handle.
 */
module Transport {
  import opened Wrappers

  /** The close status the feeds use (CloseStatus.SERVER_ERROR). */
  datatype CloseStatus = ServerError

  /** One attempted binary frame, and whether the transport accepted it. */
  datatype Frame = Frame(payload: string, delivered: bool)

  /** The frames a run of payloads leaves in a session's log. */
  function Attempts(payloads: seq<string>, delivered: bool): (fs: seq<Frame>)
    ensures |fs| == |payloads|
    ensures forall k | 0 <= k < |fs| :: fs[k] == Frame(payloads[k], delivered)
  {
    if payloads == [] then []
    else Attempts(payloads[..|payloads| - 1], delivered) + [Frame(payloads[|payloads| - 1], delivered)]
  }

  /** One more payload leaves one more frame at the end of the log. */
  lemma AttemptsStep(payloads: seq<string>, i: nat, delivered: bool)
    requires i < |payloads|
    ensures Attempts(payloads[..i + 1], delivered) == Attempts(payloads[..i], delivered) + [Frame(payloads[i], delivered)]
  {
    assert payloads[..i + 1][..i] == payloads[..i];
  }

  /** A Reactor Disposable: the handle that cancels one subscription. */
  datatype Disposable = Disposable(serial: nat)

  /**
   * A WebSocketSession. `ioFaulty` says that the underlying connection
   * raises IOException on sendMessage and close; `frames` logs every
   * sendMessage call.
   */
  class Session {
    const id: string
    var open: bool
    var ioFaulty: bool
    var frames: seq<Frame>
    var closedWith: Option<CloseStatus>

    constructor (id: string, ioFaulty: bool)
      ensures this.id == id && open && this.ioFaulty == ioFaulty
      ensures frames == [] && closedWith == None
    {
      this.id := id;
      open := true;
      this.ioFaulty := ioFaulty;
      frames := [];
      closedWith := None;
    }

    /** sendMessage: the frame is attempted; `thrown` is the IOException. */
    method SendMessage(payload: string) returns (thrown: bool)
      modifies this
      ensures thrown == ioFaulty
      ensures frames == old(frames) + [Frame(payload, !ioFaulty)]
      ensures open == old(open) && ioFaulty == old(ioFaulty) && closedWith == old(closedWith)
    {
      thrown := ioFaulty;
      frames := frames + [Frame(payload, !ioFaulty)];
    }

    /** close(status): closes the session unless it raises IOException. */
    method Close(status: CloseStatus) returns (thrown: bool)
      modifies this
      ensures thrown == ioFaulty
      ensures thrown ==> open == old(open) && closedWith == old(closedWith)
      ensures !thrown ==> !open && closedWith == Some(status)
      ensures frames == old(frames) && ioFaulty == old(ioFaulty)
    {
      thrown := ioFaulty;
      if !thrown {
        open := false;
        closedWith := Some(status);
      }
    }

    /** The client closes its end; the session reports not open from then on. */
    method PeerClose()
      modifies this
      ensures !open
      ensures frames == old(frames) && ioFaulty == old(ioFaulty) && closedWith == old(closedWith)
    {
      open := false;
    }
  }
}
