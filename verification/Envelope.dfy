/**
 The envelope every message is first read as: an optional id, an optional method name and
 an optional error, taken from a map; other keys are ignored.
 */
module Envelope {
  import opened Common
  import opened MsgPack
  import opened MsgPackCodec

  datatype ResponseError = ResponseError(code: int, message: bytes)

  /** The approximate shape used to tell requests, responses and errors apart. */
  datatype PartialIncoming =
    PartialIncoming(id: Option<nat>, methodName: Option<bytes>, error: Option<ResponseError>)

  function Ascii(s: string): (r: bytes)
    ensures |r| == |s|
  {
    seq(|s|, i requires 0 <= i < |s| => s[i] as int % 256)
  }

  predicate KeysAreText(es: Entries) {
    es.Entry? ==> es.key.Str? && KeysAreText(es.rest)
  }

  function Occurrences(es: Entries, name: bytes): nat {
    if es.NoEntries? then 0
    else (if es.key == Str(name) then 1 else 0) + Occurrences(es.rest, name)
  }

  function Lookup(es: Entries, name: bytes): Option<Value> {
    if es.NoEntries? then None
    else if es.key == Str(name) then Some(es.val)
    else Lookup(es.rest, name)
  }

  /** The value of a field if the map has it; the outer None is a duplicate, which is an error. */
  function Field(es: Entries, name: bytes): Option<Option<Value>> {
    if Occurrences(es, name) > 1 then None else Some(Lookup(es, name))
  }

  function OptionalId(f: Option<Value>): Option<Option<nat>> {
    match f
    case None => Some(None)
    case Some(Nil) => Some(None)
    case Some(Int(n)) => if 0 <= n < POW32 then Some(Some(n)) else None
    case Some(_) => None
  }

  function OptionalText(f: Option<Value>): Option<Option<bytes>> {
    match f
    case None => Some(None)
    case Some(Nil) => Some(None)
    case Some(Str(t)) => Some(Some(t))
    case Some(_) => None
  }

  function OptionalError(f: Option<Value>): Option<Option<ResponseError>> {
    match f
    case None => Some(None)
    case Some(Nil) => Some(None)
    case Some(Map(es)) =>
      if !KeysAreText(es) then None
      else
        (match (Field(es, Ascii("code")), Field(es, Ascii("message")))
         case (Some(Some(Int(code))), Some(Some(Str(message)))) =>
           // the code is a signed 32-bit number
           if -0x8000_0000 <= code < 0x8000_0000 then Some(Some(ResponseError(code, message))) else None
         case _ => None)
    case Some(_) => None
  }

  function Interpret(v: Value): Option<PartialIncoming> {
    if !v.Map? || !KeysAreText(v.entries) then None
    else
      match (Field(v.entries, Ascii("id")), Field(v.entries, Ascii("method")), Field(v.entries, Ascii("error")))
      case (Some(i), Some(m), Some(e)) =>
        (match (OptionalId(i), OptionalText(m), OptionalError(e))
         case (Some(id), Some(name), Some(error)) => Some(PartialIncoming(id, name, error))
         case _ => None)
      case _ => None
  }

  /** The deserializer of the envelope. */
  function ReadEnvelope(b: bytes): Parsed<PartialIncoming> {
    match Parse(b)
    case Incomplete => Incomplete
    case Malformed => Malformed
    case Done(v, used) =>
      match Interpret(v)
      case Some(obj) => Done(obj, used)
      case None => Malformed
  }

  /** The envelope's deserializer meets the codec's needs. */
  lemma EnvelopeStreams()
    ensures Streaming(ReadEnvelope)
  {
    forall b, s ensures IsStable(ReadEnvelope, b, s) {
      ParseStable(b, s);
    }
    forall b ensures IsLocal(ReadEnvelope, b) {
      if ReadEnvelope(b).Done? {
        ParseTrim(b, Parse(b).used);
      }
    }
  }

  /** Anything the writer produces for a value of the right shape is exactly one envelope. */
  lemma EncodedIsWhole(v: Value)
    requires Encodable(v) && Interpret(v).Some?
    ensures ReadEnvelope(Encode(v)) == Done(Interpret(v).value, |Encode(v)|)
  {
    ReadBack(v);
  }
}
