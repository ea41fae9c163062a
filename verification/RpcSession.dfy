/**
 A whole connection with the real messages: a peer that mixes requests with data and ends of
 streams, all written as MessagePack and cut into reads of any size.
 */
module RpcSession {
  import opened Common
  import opened MsgPack
  import opened MsgPackCodec
  import opened Envelope
  import opened Messages
  import opened Streams
  import opened Inbound
  import opened StreamMethods
  import Connection

  /** A message of the peer: data on a stream, the end of one, or any other request or notification. */
  datatype PeerMessage =
    | Sends(stream: Id, segment: bytes)
    | Ends(stream: Id)
    | Asks(id: Option<nat>, name: string, params: Entries)

  /** The writer can produce it, and other requests are not named like the two methods of streams. */
  predicate Proper(m: PeerMessage) {
    match m
    case Sends(x, segment) => x < POW32 && |segment| < POW32
    case Ends(x) => x < POW32
    case Asks(id, name, params) =>
      && (id.Some? ==> id.value < POW32)
      && |name| < POW32 && Ascii(name) != Ascii("stream_data") && Ascii(name) != Ascii("stream_ended")
      && Count(params) < POW32 && EncodableEntries(params) && KeysAreText(params)
  }

  predicate AllProper(msgs: seq<PeerMessage>) {
    forall m :: m in msgs ==> Proper(m)
  }

  function ValueOf(m: PeerMessage): Value {
    match m
    case Sends(x, segment) => StreamData(x, segment)
    case Ends(x) => StreamEnded(x)
    case Asks(id, name, params) => Request(id, name, params)
  }

  function Meant(m: PeerMessage): Action {
    match m
    case Sends(x, segment) => Data(x, segment)
    case Ends(x) => Ended(x)
    case Asks(_, _, _) => Action.Other
  }

  /** Each message is read as what it was meant to be. */
  lemma MessageRead(m: PeerMessage)
    requires Proper(m)
    ensures Encodable(ValueOf(m)) && Whole(ReadEnvelope, Encode(ValueOf(m)))
    ensures Asked(Rpc(), Encode(ValueOf(m))) == Meant(m)
  {
    match m
    case Sends(x, segment) => StreamDataRead(x, segment);
    case Ends(x) => StreamEndedRead(x);
    case Asks(id, name, params) => RequestRead(id, name, params);
  }

  function Written(m: PeerMessage): bytes
    requires Proper(m)
  {
    MessageRead(m);
    Encode(ValueOf(m))
  }

  function Sent(msgs: seq<PeerMessage>): (ms: seq<bytes>)
    requires AllProper(msgs)
    ensures |ms| == |msgs|
  {
    seq(|msgs|, i requires 0 <= i < |msgs| => Written(msgs[i]))
  }

  function AllMeant(msgs: seq<PeerMessage>): (acts: seq<Action>)
    ensures |acts| == |msgs|
  {
    seq(|msgs|, i requires 0 <= i < |msgs| => Meant(msgs[i]))
  }

  lemma SentIsRead(msgs: seq<PeerMessage>)
    requires AllProper(msgs)
    ensures Wire(Rpc(), Sent(msgs)) && Actions(Rpc(), Sent(msgs)) == AllMeant(msgs)
  {
    forall i | 0 <= i < |msgs|
      ensures Whole(ReadEnvelope, Sent(msgs)[i]) && Asked(Rpc(), Sent(msgs)[i]) == Meant(msgs[i])
    {
      MessageRead(msgs[i]);
    }
  }

  /** What the peer sends on stream `x`, in order. */
  function SentOn(msgs: seq<PeerMessage>, x: Id): seq<bytes> {
    if msgs == [] then []
    else
      var front, m := msgs[..|msgs| - 1], msgs[|msgs| - 1];
      if m.Sends? && m.stream == x then SentOn(front, x) + [m.segment] else SentOn(front, x)
  }

  lemma {:induction false} SegmentsSent(msgs: seq<PeerMessage>, x: Id)
    ensures Segments(AllMeant(msgs), x) == SentOn(msgs, x)
  {
    if msgs == [] {
    } else {
      var front := msgs[..|msgs| - 1];
      SegmentsSent(front, x);
      assert AllMeant(msgs)[..|msgs| - 1] == AllMeant(front);
    }
  }

  /** The peer sends nothing on a stream after its end. */
  ghost predicate EndsLast(msgs: seq<PeerMessage>, x: Id) {
    forall j, k :: 0 <= j < k < |msgs| && msgs[j] == Ends(x) ==> !(msgs[k].Sends? && msgs[k].stream == x)
  }

  lemma MeantEndsLast(msgs: seq<PeerMessage>, x: Id)
    requires EndsLast(msgs, x)
    ensures DataThenEnd(AllMeant(msgs), x)
    ensures Ended(x) in AllMeant(msgs) <==> Ends(x) in msgs
  {
    forall j, k | 0 <= j < k < |msgs| && AllMeant(msgs)[j] == Ended(x)
      ensures SegmentFor(AllMeant(msgs)[k], x) == []
    {
      assert msgs[j] == Ends(x);
    }
    if Ends(x) in msgs {
      var i :| 0 <= i < |msgs| && msgs[i] == Ends(x);
      assert AllMeant(msgs)[i] == Ended(x);
    }
    if Ended(x) in AllMeant(msgs) {
      var i :| 0 <= i < |msgs| && AllMeant(msgs)[i] == Ended(x);
      assert msgs[i] == Ends(x);
    }
  }

  /**
   A connection from its start, with a peer that speaks of stream `x` only once it was
   announced and sends nothing on it after its end. Whatever the reads and the interleaving,
   the sink of `x` holds a prefix of what the peer sent on it, all of it once shut down; the
   inbound side takes boundedly many steps; and at rest an ended stream has been shut down.
   */
  lemma StreamArrives(chunks: seq<bytes>, msgs: seq<PeerMessage>, es: seq<Connection.Event>, x: Id)
    requires AllProper(msgs) && EndsLast(msgs, x) && Flat(chunks) == Flat(Sent(msgs))
    requires Connection.Exec(Rpc(), Connection.Start(chunks), es).Some?
    requires Connection.AllTimely(Rpc(), Connection.Start(chunks), es, x)
    ensures var c := Connection.Exec(Rpc(), Connection.Start(chunks), es).value;
            && (x in c.net.eng.sinks && !c.net.eng.sinks[x].failed ==>
                  && c.net.eng.sinks[x].data <= Flat(SentOn(msgs, x))
                  && (c.net.eng.sinks[x].shutdowns > 0 ==> c.net.eng.sinks[x].data == Flat(SentOn(msgs, x))))
            && Connection.InboundSteps(es) <= |chunks| + Costs(AllMeant(msgs))
            && (Connection.Idle(Rpc(), c) && Ends(x) in msgs ==>
                  x in c.net.eng.sinks && c.net.eng.sinks[x].shutdowns == 1)
  {
    SentIsRead(msgs);
    SegmentsSent(msgs, x);
    MeantEndsLast(msgs, x);
    Connection.SessionEnds(Rpc(), chunks, Sent(msgs), es, x);
    if x in Connection.Exec(Rpc(), Connection.Start(chunks), es).value.net.eng.sinks {
      Connection.SessionDelivers(Rpc(), chunks, Sent(msgs), es, x);
    }
  }
}
