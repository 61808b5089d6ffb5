/**
 * Lab1: the heat-map feed. A supplier publishes coordinates on a topic
 * whose messages reach this consumer's queue; a self-re-arming callback
 * turns every batch read from the queue into lines on a hot stream, and
 * every connected client receives each line tagged "m1,".
 */
module Lab1 {
  import opened Wrappers
  import opened Seqs
  import opened Strings
  import opened Transport
  import WsPacket

  // ---------------------------------------------------------------------
  // Decoding a batch

  /** An SQS message; only its body is read. */
  datatype Message = Message(body: string)

  /** The Throwable a queue read completes with. */
  datatype Failure = Failure(reason: string)

  /**
   * msgs.stream().map(Message::body).flatMap(Pattern.compile("\n")::splitAsStream):
   * each body split into its lines, bodies in message order.
   */
  function Decode(msgs: seq<Message>): seq<string>
  {
    if msgs == [] then [] else Split(msgs[0].body, '\n') + Decode(msgs[1..])
  }

  /** Decoding two batches one after the other decodes their concatenation. */
  lemma {:induction false} DecodeAppend(a: seq<Message>, b: seq<Message>)
    ensures Decode(a + b) == Decode(a) + Decode(b)
  {
    if a != [] {
      assert (a + b)[1..] == a[1..] + b;
      DecodeAppend(a[1..], b);
    } else {
      assert a + b == b;
    }
  }

  /** No decoded line holds a line break. */
  lemma {:induction false} DecodeLines(msgs: seq<Message>)
    ensures forall l | l in Decode(msgs) :: '\n' !in l
  {
    if msgs != [] {
      SplitPieces(msgs[0].body, '\n');
      DecodeLines(msgs[1..]);
    }
  }

  /** The body a supplier writes for a run of lines: the lines joined by line breaks. */
  function Encode(batches: seq<seq<string>>): (msgs: seq<Message>)
    ensures |msgs| == |batches|
  {
    if batches == [] then [] else [Message(Join(batches[0], '\n'))] + Encode(batches[1..])
  }

  /** A batch of line-free run bodies, each ending in a non-empty line. */
  predicate Encodable(batches: seq<seq<string>>) {
    forall b | b in batches :: b != [] && b[|b| - 1] != "" && forall l | l in b :: '\n' !in l
  }

  /** Decoding gives back every line of every body, bodies in message order. */
  lemma {:induction false} DecodeEncode(batches: seq<seq<string>>)
    requires Encodable(batches)
    ensures Decode(Encode(batches)) == Concat(batches)
  {
    if batches != [] {
      SplitJoin(batches[0], '\n');
      assert Encodable(batches[1..]) by {
        forall b | b in batches[1..] ensures b in batches { }
      }
      DecodeEncode(batches[1..]);
      assert Encode(batches)[1..] == Encode(batches[1..]);
    }
  }

  /** Two coordinates in one body are two records, in order. */
  lemma DecodeTwoLines()
    ensures Decode([Message("1.0,51.5\n1.0,51.6")]) == ["1.0,51.5", "1.0,51.6"]
  {
    var batches := [["1.0,51.5", "1.0,51.6"]];
    assert Join(batches[0], '\n') == "1.0,51.5\n1.0,51.6";
    DecodeEncode(batches);
    assert Encode(batches) == [Message("1.0,51.5\n1.0,51.6")];
  }

  /** The library returns a body without line breaks as it is, so an empty body is one empty record. */
  lemma DecodeEmptyBody()
    ensures Decode([Message("")]) == [""]
  {
  }

  /** A body of line breaks only yields no record: the trailing empty pieces are dropped. */
  lemma DecodeOnlyBreaks()
    ensures Decode([Message("\n\n")]) == []
  {
    assert "\n"[1..] == "" && "\n\n"[1..] == "\n";
    assert Pieces("\n", '\n') == ["", ""];
    assert Pieces("\n\n", '\n') == ["", "", ""];
  }

  /** A trailing line break adds no record. */
  lemma DecodeTrailingBreak()
    ensures Decode([Message("7\n")]) == ["7"]
  {
    assert "\n"[1..] == "" && "7\n"[1..] == "\n";
    assert Pieces("\n", '\n') == ["", ""];
    assert ['7'] + "" == "7";
    assert Pieces("7\n", '\n') == ["7", ""];
  }

  // ---------------------------------------------------------------------
  // The queue callback

  /**
   * How one asynchronous read of the queue completes: `whenComplete`
   * receives the batch (null is None) and the error (null is None).
   */
  datatype Completion = Completion(msgs: Option<seq<Message>>, err: Option<Failure>)

  /**
   * The bridge: reading the queue, the sink errored, or neither batch nor
   * error arrived and the callback did not re-arm.
   */
  datatype BridgeState = Polling | Failed(err: Failure) | Stalled

  /**
   * The Flux.create bridge between the asynchronous queue reads and the hot
   * stream of records. `armed` counts the reads whose completion is still
   * to come; `fetches` counts every read ever armed; `pushed` is what
   * sink.next received, in order.
   */
  class Bridge {
    var state: BridgeState
    var armed: nat
    var fetches: nat
    var pushed: seq<string>

    /** While polling exactly one read is outstanding; otherwise none. */
    ghost predicate Valid()
      reads this
    {
      (state.Polling? ==> armed == 1) && (!state.Polling? ==> armed == 0) && armed <= fetches
    }

    /** Flux.create: the first read is armed with the callback. */
    constructor ()
      ensures Valid()
      ensures state == Polling && armed == 1 && fetches == 1 && pushed == []
    {
      state := Polling;
      armed := 1;
      fetches := 1;
      pushed := [];
    }

    /**
     * consumeHeatmap: a batch (even an empty one) is decoded onto the
     * stream and one new read is armed, whatever the error says; with no
     * batch an error fails the sink and nothing is re-armed; with neither
     * nothing happens and nothing is re-armed.
     */
    method OnComplete(c: Completion)
      requires Valid() && state.Polling?
      modifies this
      ensures Valid()
      ensures c.msgs.Some? ==>
        state == Polling && pushed == old(pushed) + Decode(c.msgs.value) && fetches == old(fetches) + 1
      ensures c.msgs.None? ==> pushed == old(pushed) && fetches == old(fetches)
      ensures c.msgs.None? && c.err.Some? ==> state == Failed(c.err.value)
      ensures c.msgs.None? && c.err.None? ==> state == Stalled
    {
      armed := armed - 1;
      if c.msgs.Some? {
        var lines := Decode(c.msgs.value);
        pushed := pushed + lines;
        armed := armed + 1;
        fetches := fetches + 1;
      } else if c.err.Some? {
        state := Failed(c.err.value);
      } else {
        state := Stalled;
      }
    }

    /**
     * Completions that all carry a batch: the callback decodes the first,
     * re-arms, and the next completion is answered by the same callback.
     */
    method Poll(cs: seq<Completion>)
      requires Valid() && state.Polling? && AllBatches(cs)
      modifies this
      ensures Valid() && state.Polling?
      ensures pushed == old(pushed) + DecodeRun(cs)
      ensures fetches == old(fetches) + |cs|
      decreases |cs|
    {
      if cs != [] {
        ghost var before := pushed;
        OnComplete(cs[0]);
        ghost var first := Decode(cs[0].msgs.value);
        Poll(cs[1..]);
        AppendAssoc(before, first, DecodeRun(cs[1..]));
      }
    }

    /**
     * A run of reads: the completions are answered one after the other
     * while the bridge is polling. No read is armed after the first
     * completion without a batch, so the later ones never arrive.
     */
    method Drain(cs: seq<Completion>)
      requires Valid() && state.Polling?
      modifies this
      ensures Valid()
      ensures var n := FirstStop(cs);
        && pushed == old(pushed) + DecodeRun(cs[..n])
        && fetches == old(fetches) + n
        && state == Outcome(cs)
    {
      var n := FirstStop(cs);
      Poll(cs[..n]);
      if n < |cs| {
        OnComplete(cs[n]);
      }
    }
  }

  /** Every completion carries a batch. */
  predicate AllBatches(cs: seq<Completion>) {
    forall k | 0 <= k < |cs| :: cs[k].msgs.Some?
  }

  /** Index of the first completion that carries no batch, or |cs|. */
  function FirstStop(cs: seq<Completion>): (n: nat)
    ensures n <= |cs| && AllBatches(cs[..n])
    ensures n < |cs| ==> cs[n].msgs.None?
  {
    if cs == [] || cs[0].msgs.None? then 0 else 1 + FirstStop(cs[1..])
  }

  /** The messages of a run of completions that all carry a batch, in order. */
  function Received(cs: seq<Completion>): seq<Message>
    requires AllBatches(cs)
  {
    if cs == [] then [] else cs[0].msgs.value + Received(cs[1..])
  }

  /** What the callback pushes for a run of completions that all carry a batch. */
  function DecodeRun(cs: seq<Completion>): seq<string>
    requires AllBatches(cs)
  {
    if cs == [] then [] else Decode(cs[0].msgs.value) + DecodeRun(cs[1..])
  }

  /** The callback pushes exactly the decoded messages of all the batches, in arrival order. */
  lemma {:induction false} DecodeRunReceived(cs: seq<Completion>)
    requires AllBatches(cs)
    ensures DecodeRun(cs) == Decode(Received(cs))
  {
    if cs != [] {
      DecodeRunReceived(cs[1..]);
      DecodeAppend(cs[0].msgs.value, Received(cs[1..]));
    }
  }

  /** Where a run of completions leaves the bridge. */
  function Outcome(cs: seq<Completion>): (s: BridgeState)
    ensures s.Polling? <==> FirstStop(cs) == |cs|
  {
    var n := FirstStop(cs);
    if n == |cs| then Polling
    else if cs[n].err.Some? then Failed(cs[n].err.value)
    else Stalled
  }

  /**
   * A batch that arrives with an error is still decoded: the batch branch
   * is tested first, so the error is dropped and polling goes on.
   */
  lemma BatchBeatsError(msgs: seq<Message>, e: Failure, rest: seq<Completion>)
    ensures Outcome([Completion(Some(msgs), Some(e))] + rest) == Outcome(rest)
    ensures FirstStop([Completion(Some(msgs), Some(e))] + rest) == 1 + FirstStop(rest)
  {
    assert ([Completion(Some(msgs), Some(e))] + rest)[1..] == rest;
  }

  // ---------------------------------------------------------------------
  // Clients

  /** What a client receives for one record. */
  function Tagged(event: string): (frame: string)
    ensures |frame| == |event| + 3 && frame[..3] == "m1," && frame[3..] == event
  {
    "m1," + event
  }

  /**
   * The tag comes off again: a client splitting a frame on commas gets
   * "m1" followed by the fields of the record, commas in it included; an
   * empty record leaves the tag alone.
   */
  lemma TaggedSplits(event: string)
    ensures event != "" ==> Split(Tagged(event), ',') == ["m1"] + Split(event, ',')
    ensures event == "" ==> Split(Tagged(event), ',') == ["m1"]
  {
    assert Tagged(event) == "m1" + [','] + event;
    PiecesAfterPiece("m1", ',', event);
    DropTrailingEmptyFront("m1", Pieces(event, ','));
  }

  /**
   * The CLIENTS registry of the Lab1 singleton, and the messages put on
   * the supplier's command queue.
   */
  class Feed {
    /** CLIENTS: the subscription of each connected client, by session id. */
    var clients: map<string, Disposable>
    /** The subscriptions that have been disposed. */
    var disposed: set<Disposable>
    var nextSerial: nat
    /** The commands put on the supplier's queue, in order. */
    var supplierQueue: seq<string>

    ghost predicate Valid()
      reads this
    {
      && (forall id | id in clients :: clients[id].serial < nextSerial && clients[id] !in disposed)
      && (forall a, b | a in clients && b in clients && a != b :: clients[a] != clients[b])
      && (forall h | h in disposed :: h.serial < nextSerial)
    }

    constructor ()
      ensures Valid()
      ensures clients == map[] && disposed == {} && supplierQueue == []
    {
      clients := map[];
      disposed := {};
      nextSerial := 0;
      supplierQueue := [];
    }

    /**
     * subscribeClient: "start" goes to the supplier on every call; then
     * the client's subscription is registered under its session id. When
     * the put throws (`putFails`) the exception is caught and nothing is
     * registered.
     */
    method SubscribeClient(session: Session, putFails: bool)
      requires Valid()
      modifies this
      ensures Valid()
      ensures putFails ==> clients == old(clients) && supplierQueue == old(supplierQueue)
      ensures !putFails ==>
        && supplierQueue == old(supplierQueue) + ["start"]
        && clients == old(clients)[session.id := Disposable(old(nextSerial))]
        && (forall id | id in old(clients) :: old(clients)[id] != clients[session.id])
      ensures disposed == old(disposed)
    {
      if putFails {
        return;
      }
      supplierQueue := supplierQueue + ["start"];
      var subscription := Disposable(nextSerial);
      nextSerial := nextSerial + 1;
      clients := clients[session.id := subscription];
    }

    /**
     * The consumer of one record: it is sent tagged "m1,"; when the send
     * fails the client's subscription is disposed and its id removed.
     */
    method OnNext(session: Session, event: string)
      requires Valid() && session.id in clients
      modifies this, session
      ensures Valid()
      ensures session.frames == old(session.frames) + if old(session.open) then [Frame(Tagged(event), !session.ioFaulty)] else []
      ensures session.open == old(session.open) && session.ioFaulty == old(session.ioFaulty)
      ensures session.closedWith == old(session.closedWith)
      ensures old(session.open) ==> clients == old(clients) && disposed == old(disposed)
      ensures !old(session.open) ==>
        clients == old(clients) - {session.id} && disposed == old(disposed) + {old(clients)[session.id]}
      ensures supplierQueue == old(supplierQueue)
    {
      var ok := WsPacket.Send(session, Tagged(event));
      if !ok {
        disposed := disposed + {clients[session.id]};
        clients := clients - {session.id};
      }
    }

    /**
     * The error consumer: the session is closed with SERVER_ERROR (an
     * IOException from close is swallowed) and its id removed; the
     * subscription, already ended by the error, is not disposed.
     */
    method OnError(session: Session)
      requires Valid()
      modifies this, session
      ensures Valid()
      ensures session.ioFaulty ==> session.open == old(session.open) && session.closedWith == old(session.closedWith)
      ensures !session.ioFaulty ==> !session.open && session.closedWith == Some(ServerError)
      ensures session.frames == old(session.frames) && session.ioFaulty == old(session.ioFaulty)
      ensures clients == old(clients) - {session.id}
      ensures disposed == old(disposed) && supplierQueue == old(supplierQueue)
    {
      var thrown := session.Close(ServerError);
      clients := clients - {session.id};
    }
  }
}
