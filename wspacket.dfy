/** WsPacket: the one place where a text message becomes a binary frame. */
module WsPacket {
  import opened Transport

  /**
   * WsPacket.send: nothing is sent to a closed session and the answer is
   * false; an open session gets exactly one frame and the answer is true,
   * even when the transport raised IOException, which is swallowed. The
   * session is otherwise left as it was.
   */
  method Send(session: Session, msg: string) returns (ok: bool)
    modifies session
    ensures ok == old(session.open)
    ensures session.frames == old(session.frames) + if ok then [Frame(msg, !session.ioFaulty)] else []
    ensures session.open == old(session.open) && session.ioFaulty == old(session.ioFaulty)
    ensures session.closedWith == old(session.closedWith)
  {
    if !session.open {
      return false;
    }
    var thrown := session.SendMessage(msg);
    return true;
  }
}
