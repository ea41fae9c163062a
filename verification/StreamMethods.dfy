/**
 The inbound system put together for the real messages: envelopes read from MessagePack,
 and the two methods `stream_data` and `stream_ended`.
 */
module StreamMethods {
  import opened Common
  import opened MsgPack
  import opened MsgPackCodec
  import opened Envelope
  import opened Messages
  import opened Inbound
  import opened Streams

  function StreamParam(ps: Entries): Option<Id> {
    match Field(ps, Ascii("stream"))
    case Some(Some(Int(n))) => if 0 <= n < POW32 then Some(n) else None
    case _ => None
  }

  /** Bytes may also come as an array of numbers. */
  function Octets(vs: Items): Option<bytes> {
    match vs
    case NoItems => Some([])
    case Item(Int(n), tail) =>
      (match Octets(tail)
       case Some(rest) => if 0 <= n < 256 then Some([n] + rest) else None
       case None => None)
    case _ => None
  }

  function SegmentParam(ps: Entries): Option<bytes> {
    match Field(ps, Ascii("segment"))
    case Some(Some(Bin(d))) => Some(d)
    case Some(Some(Str(t))) => Some(t)
    case Some(Some(Array(vs))) => Octets(vs)
    case _ => None
  }

  /** Requests with other methods or unusable parameters do not touch the streams. */
  function ActionOf(obj: PartialIncoming, body: bytes): Action {
    if obj.methodName == Some(Ascii("stream_data")) then
      (match Params(body)
       case Some(ps) =>
         (match (StreamParam(ps), SegmentParam(ps))
          case (Some(id), Some(segment)) => Data(id, segment)
          case _ => Other)
       case None => Other)
    else if obj.methodName == Some(Ascii("stream_ended")) then
      (match Params(body)
       case Some(ps) =>
         (match StreamParam(ps)
          case Some(id) => Ended(id)
          case None => Other)
       case None => Other)
    else Other
  }

  // ---- what a message is to the streams, exactly ----

  function Listed(vs: Items): seq<Value> {
    if vs.NoItems? then [] else [vs.head] + Listed(vs.tail)
  }

  function Numbers(d: bytes): (r: seq<Value>)
    ensures |r| == |d|
  {
    seq(|d|, i requires 0 <= i < |d| => Int(d[i]))
  }

  lemma NumbersCons(n: byte, d: bytes)
    ensures Numbers([n] + d) == [Int(n)] + Numbers(d)
  {}

  /** The bytes are read from a list exactly if it lists them as numbers. */
  lemma {:induction false} OctetsIff(vs: Items, d: bytes)
    ensures Octets(vs) == Some(d) <==> Listed(vs) == Numbers(d)
  {
    if vs.NoItems? || d == [] {
    } else {
      OctetsIff(vs.tail, d[1..]);
      assert d == [d[0]] + d[1..];
      NumbersCons(d[0], d[1..]);
      ConsEqual(vs.head, Listed(vs.tail), Int(d[0]), Numbers(d[1..]));
      OctetsCons(vs, d);
    }
  }

  lemma ConsEqual(a: Value, x: seq<Value>, b: Value, y: seq<Value>)
    ensures [a] + x == [b] + y <==> a == b && x == y
  {
    assert ([a] + x)[1..] == x && ([b] + y)[1..] == y;
    assert ([a] + x)[0] == a && ([b] + y)[0] == b;
  }

  lemma OctetsCons(vs: Items, d: bytes)
    requires vs.Item? && d != []
    ensures Octets(vs) == Some(d) <==> vs.head == Int(d[0]) && Octets(vs.tail) == Some(d[1..])
  {
    if vs.head.Int? && Octets(vs.tail).Some? && 0 <= vs.head.n < 256 {
      var rest := Octets(vs.tail).value;
      assert ([vs.head.n] + rest)[1..] == rest;
      assert d == [d[0]] + d[1..];
    }
  }

  /** The ways in which a segment may be written. */
  ghost predicate SegmentIs(v: Value, segment: bytes) {
    v == Bin(segment) || v == Str(segment) || (v.Array? && Listed(v.items) == Numbers(segment))
  }

  lemma SegmentIff(ps: Entries, segment: bytes)
    ensures SegmentParam(ps) == Some(segment) <==>
              exists v :: Field(ps, Ascii("segment")) == Some(Some(v)) && SegmentIs(v, segment)
  {
    var f := Field(ps, Ascii("segment"));
    if f.Some? && f.value.Some? && f.value.value.Array? {
      OctetsIff(f.value.value.items, segment);
    }
  }

  lemma StreamIff(ps: Entries, id: Id)
    ensures StreamParam(ps) == Some(id) <==>
              Field(ps, Ascii("stream")) == Some(Some(Int(id))) && id < 0x1_0000_0000
  {}

  /**
   A message is data for a stream exactly if it names the method, and its parameters have the
   number of the stream and the bytes, as bytes, text or a list of numbers.
   */
  lemma DataIff(obj: PartialIncoming, body: bytes, id: Id, segment: bytes)
    ensures ActionOf(obj, body) == Data(id, segment) <==>
              && obj.methodName == Some(Ascii("stream_data")) && Params(body).Some?
              && Field(Params(body).value, Ascii("stream")) == Some(Some(Int(id))) && id < 0x1_0000_0000
              && exists v :: Field(Params(body).value, Ascii("segment")) == Some(Some(v)) && SegmentIs(v, segment)
  {
    NamesDiffer();
    if Params(body).Some? {
      SegmentIff(Params(body).value, segment);
      StreamIff(Params(body).value, id);
    }
  }

  lemma EndedIff(obj: PartialIncoming, body: bytes, id: Id)
    ensures ActionOf(obj, body) == Ended(id) <==>
              && obj.methodName == Some(Ascii("stream_ended")) && Params(body).Some?
              && Field(Params(body).value, Ascii("stream")) == Some(Some(Int(id))) && id < 0x1_0000_0000
  {
    NamesDiffer();
    if Params(body).Some? {
      StreamIff(Params(body).value, id);
    }
  }

  /** The protocol the dispatcher speaks; its deserializer meets the codec's needs. */
  function Rpc(): (p: Protocol<PartialIncoming>)
    ensures Streaming(p.read)
  {
    EnvelopeStreams();
    Protocol(ReadEnvelope, ActionOf)
  }

  // ---- the messages the other side writes ----

  function DataParams(id: Id, segment: bytes): Entries {
    Entry(Text("segment"), Bin(segment), Entry(Text("stream"), Int(id), NoEntries))
  }

  function EndedParams(id: Id): Entries {
    Entry(Text("stream"), Int(id), NoEntries)
  }

  function StreamData(id: Id, segment: bytes): Value {
    Request(None, "stream_data", DataParams(id, segment))
  }

  function StreamEnded(id: Id): Value {
    Request(None, "stream_ended", EndedParams(id))
  }

  lemma DataParamsMean(id: Id, segment: bytes)
    requires id < POW32 && |segment| < POW32
    ensures var ps := DataParams(id, segment);
            && EncodableEntries(ps) && KeysAreText(ps) && Count(ps) == 2
            && StreamParam(ps) == Some(id) && SegmentParam(ps) == Some(segment)
  {
    NamesDiffer();
    TwoFields(Ascii("segment"), Ascii("stream"), Bin(segment), Int(id), Ascii("stream"));
    TwoFields(Ascii("segment"), Ascii("stream"), Bin(segment), Int(id), Ascii("segment"));
    EndedParamsMean(id);
  }

  lemma EndedParamsMean(id: Id)
    requires id < POW32
    ensures var ps := EndedParams(id);
            && EncodableEntries(ps) && KeysAreText(ps) && Count(ps) == 1 && StreamParam(ps) == Some(id)
  {
    OneField(Ascii("stream"), Int(id), Ascii("stream"));
  }

  /** A data message the peer writes is read as that data, for that stream. */
  lemma StreamDataRead(id: Id, segment: bytes)
    requires id < POW32 && |segment| < POW32
    ensures Encodable(StreamData(id, segment)) && Whole(ReadEnvelope, Encode(StreamData(id, segment)))
    ensures Asked(Rpc(), Encode(StreamData(id, segment))) == Data(id, segment)
  {
    NamesDiffer();
    DataParamsMean(id, segment);
    RequestRead(None, "stream_data", DataParams(id, segment));
  }

  lemma StreamEndedRead(id: Id)
    requires id < POW32
    ensures Encodable(StreamEnded(id)) && Whole(ReadEnvelope, Encode(StreamEnded(id)))
    ensures Asked(Rpc(), Encode(StreamEnded(id))) == Ended(id)
  {
    NamesDiffer();
    EndedParamsMean(id);
    RequestRead(None, "stream_ended", EndedParams(id));
  }

  // ---- the theorem for a peer that sends some data and then ends the stream ----

  predicate Fits(id: Id, segments: seq<bytes>) {
    id < POW32 && forall i :: 0 <= i < |segments| ==> |segments[i]| < POW32
  }

  function Message(id: Id, segments: seq<bytes>, i: nat): bytes
    requires Fits(id, segments) && i <= |segments|
  {
    if i < |segments| then
      StreamDataRead(id, segments[i]);
      Encode(StreamData(id, segments[i]))
    else
      StreamEndedRead(id);
      Encode(StreamEnded(id))
  }

  /** One data message per segment, then the end. */
  function Transfer(id: Id, segments: seq<bytes>): seq<bytes>
    requires Fits(id, segments)
  {
    seq(|segments| + 1, i requires 0 <= i <= |segments| => Message(id, segments, i))
  }

  ghost predicate TransferActs(acts: seq<Action>, id: Id, segments: seq<bytes>) {
    && |acts| == |segments| + 1
    && acts[|segments|] == Ended(id)
    && forall i :: 0 <= i < |segments| ==> acts[i] == Data(id, segments[i])
  }

  lemma TransferRead(id: Id, segments: seq<bytes>)
    requires Fits(id, segments)
    ensures Wire(Rpc(), Transfer(id, segments))
    ensures TransferActs(Actions(Rpc(), Transfer(id, segments)), id, segments)
  {
    forall i | 0 <= i <= |segments|
      ensures Whole(ReadEnvelope, Transfer(id, segments)[i])
      ensures Asked(Rpc(), Transfer(id, segments)[i]) == if i < |segments| then Data(id, segments[i]) else Ended(id)
    {
      if i < |segments| {
        StreamDataRead(id, segments[i]);
      } else {
        StreamEndedRead(id);
      }
    }
  }

  ghost function TransferSteps(n: Net, id: Id, segments: seq<bytes>): nat
    requires Fits(id, segments)
  {
    TransferRead(id, segments);
    StepsLeft(n, Actions(Rpc(), Transfer(id, segments)), 0)
  }

  lemma {:induction false} TransferSegments(acts: seq<Action>, id: Id, segments: seq<bytes>, i: nat)
    requires TransferActs(acts, id, segments) && i <= |segments|
    ensures Segments(acts[..i], id) == segments[..i]
  {
    if i == 0 {
    } else {
      TransferSegments(acts, id, segments, i - 1);
      assert acts[..i][..i - 1] == acts[..i - 1];
      assert segments[..i] == segments[..i - 1] + [segments[i - 1]];
    }
  }

  /**
   A peer sends `segments` on a registered stream and ends it. Whatever the reads and the
   interleaving, the sink holds a prefix of their concatenation, the whole of it once shut
   down, and it has been shut down when nothing is left to do, which is after a bounded
   number of steps, registrations of other streams aside.
   */
  lemma TransferArrives(n: Net, id: Id, segments: seq<bytes>, es: seq<Event>)
    requires Fits(id, segments) && JustRegistered(n, id)
    requires n.buf + Flat(n.chunks) == Flat(Transfer(id, segments))
    requires Exec(Rpc(), n, es).Some?
    ensures var n' := Exec(Rpc(), n, es).value;
            && id in n'.eng.sinks
            && (!n'.eng.sinks[id].failed ==> n'.eng.sinks[id].data <= Flat(segments))
            && (!n'.eng.sinks[id].failed && n'.eng.sinks[id].shutdowns > 0 ==> n'.eng.sinks[id].data == Flat(segments))
            && (Quiescent(Rpc(), n') ==> n'.eng.sinks[id].shutdowns == 1)
    ensures Steps(es) <= TransferSteps(n, id, segments)
    ensures AtRest(Rpc(), Exec(Rpc(), n, es).value) ==> Exec(Rpc(), n, es).value.eng.sinks[id].shutdowns == 1
  {
    TransferRead(id, segments);
    var acts := Actions(Rpc(), Transfer(id, segments));
    TransferSegments(acts, id, segments, |segments|);
    assert acts[..|segments|] == acts[..|acts| - 1] && segments[..|segments|] == segments;
    assert Segments(acts, id) == segments + SegmentFor(acts[|acts| - 1], id) == segments;
    EndToEnd(Rpc(), n, Transfer(id, segments), id, es);
    if Quiescent(Rpc(), Exec(Rpc(), n, es).value) {
      EndToEndComplete(Rpc(), n, Transfer(id, segments), id, es);
    }
    EveryRunDelivers(Rpc(), n, Transfer(id, segments), id, es);
  }
}
