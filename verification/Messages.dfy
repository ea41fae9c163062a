/**
 The messages of the protocol as they are written, and how they are read again: requests,
 notifications, results and errors are never taken for one another.
 */
module Messages {
  import opened Common
  import opened MsgPack
  import opened Envelope

  /** The `params` of a request, when they are a map with text keys. */
  function ParamsOf(v: Value): Option<Entries> {
    if !v.Map? || !KeysAreText(v.entries) then None
    else
      match Field(v.entries, Ascii("params"))
      case Some(Some(Map(ps))) => if KeysAreText(ps) then Some(ps) else None
      case _ => None
  }

  function Params(body: bytes): Option<Entries> {
    match Parse(body)
    case Done(v, _) => ParamsOf(v)
    case _ => None
  }

  function Text(s: string): Value {
    Str(Ascii(s))
  }

  function IdOf(id: Option<nat>): Value {
    match id
    case Some(n) => Int(n)
    case None => Nil
  }

  /** `{id, method, params}`; the id of a notification is nil. */
  function Request(id: Option<nat>, name: string, params: Entries): Value {
    Map(Entry(Text("id"), IdOf(id), Entry(Text("method"), Text(name), Entry(Text("params"), Map(params), NoEntries))))
  }

  /** `{id, result}` */
  function SuccessResponse(id: nat, result: Value): Value {
    Map(Entry(Text("id"), Int(id), Entry(Text("result"), result, NoEntries)))
  }

  /** `{code, message}` */
  function ErrorFields(e: ResponseError): Entries {
    Entry(Text("code"), Int(e.code), Entry(Text("message"), Str(e.message), NoEntries))
  }

  /** `{id, error}` */
  function ErrorResponse(id: nat, e: ResponseError): Value {
    Map(Entry(Text("id"), Int(id), Entry(Text("error"), Map(ErrorFields(e)), NoEntries)))
  }

  /** The names involved are told apart by their bytes. */
  lemma NamesDiffer()
    ensures Ascii("id") != Ascii("method") && Ascii("id") != Ascii("error") && Ascii("id") != Ascii("params")
    ensures Ascii("method") != Ascii("error") && Ascii("method") != Ascii("params") && Ascii("error") != Ascii("params")
    ensures Ascii("id") != Ascii("result") && Ascii("method") != Ascii("result") && Ascii("error") != Ascii("result")
    ensures Ascii("code") != Ascii("message")
    ensures Ascii("segment") != Ascii("stream") && Ascii("stream_data") != Ascii("stream_ended")
  {
    assert Ascii("method")[0] != Ascii("params")[0];
    assert Ascii("method")[0] != Ascii("result")[0];
  }

  /** The names as they stand on the wire. */
  lemma NamesOnTheWire()
    ensures Ascii("id") == [105, 100]
    ensures Ascii("method") == [109, 101, 116, 104, 111, 100]
    ensures Ascii("params") == [112, 97, 114, 97, 109, 115]
    ensures Ascii("result") == [114, 101, 115, 117, 108, 116]
    ensures Ascii("error") == [101, 114, 114, 111, 114]
    ensures Ascii("code") == [99, 111, 100, 101]
    ensures Ascii("message") == [109, 101, 115, 115, 97, 103, 101]
    ensures Ascii("segment") == [115, 101, 103, 109, 101, 110, 116]
    ensures Ascii("stream") == [115, 116, 114, 101, 97, 109]
  {}

  lemma MethodsOnTheWire()
    ensures Ascii("stream_data") == [115, 116, 114, 101, 97, 109, 95, 100, 97, 116, 97]
    ensures Ascii("stream_ended") == [115, 116, 114, 101, 97, 109, 95, 101, 110, 100, 101, 100]
  {}

  lemma OneField(a: bytes, x: Value, name: bytes)
    ensures Occurrences(Entry(Str(a), x, NoEntries), name) == if name == a then 1 else 0
    ensures Lookup(Entry(Str(a), x, NoEntries), name) == if name == a then Some(x) else None
  {}

  lemma TwoFields(a: bytes, b: bytes, x: Value, y: Value, name: bytes)
    requires a != b
    ensures Occurrences(Entry(Str(a), x, Entry(Str(b), y, NoEntries)), name) == if name == a || name == b then 1 else 0
    ensures Lookup(Entry(Str(a), x, Entry(Str(b), y, NoEntries)), name)
         == if name == a then Some(x) else if name == b then Some(y) else None
  {
    OneField(b, y, name);
  }

  lemma ThreeFields(a: bytes, b: bytes, c: bytes, x: Value, y: Value, z: Value, name: bytes)
    requires a != b && a != c && b != c
    ensures Field(Entry(Str(a), x, Entry(Str(b), y, Entry(Str(c), z, NoEntries))), name)
         == Some(if name == a then Some(x) else if name == b then Some(y) else if name == c then Some(z) else None)
  {
    TwoFields(b, c, y, z, name);
  }

  lemma EntryFits(key: bytes, val: Value, rest: Entries)
    requires |key| < POW32 && Encodable(val) && EncodableEntries(rest)
    ensures EncodableEntries(Entry(Str(key), val, rest)) && Count(Entry(Str(key), val, rest)) == 1 + Count(rest)
  {}

  // ---- requests ----

  lemma RequestField(id: Option<nat>, name: string, params: Entries, field: string)
    ensures Field(Request(id, name, params).entries, Ascii(field)) ==
              if Ascii(field) == Ascii("id") then Some(Some(IdOf(id)))
              else if Ascii(field) == Ascii("method") then Some(Some(Text(name)))
              else if Ascii(field) == Ascii("params") then Some(Some(Map(params)))
              else Some(None)
  {
    NamesDiffer();
    ThreeFields(Ascii("id"), Ascii("method"), Ascii("params"), IdOf(id), Text(name), Map(params), Ascii(field));
  }

  lemma RequestKeys(id: Option<nat>, name: string, params: Entries)
    ensures KeysAreText(Request(id, name, params).entries)
  {
    assert KeysAreText(Request(id, name, params).entries.rest.rest);
  }

  lemma RequestMeans(id: Option<nat>, name: string, params: Entries)
    requires KeysAreText(params) && (id.Some? ==> id.value < POW32)
    ensures Interpret(Request(id, name, params)) == Some(PartialIncoming(id, Some(Ascii(name)), None))
    ensures ParamsOf(Request(id, name, params)) == Some(params)
  {
    NamesDiffer();
    RequestKeys(id, name, params);
    RequestField(id, name, params, "id");
    RequestField(id, name, params, "method");
    RequestField(id, name, params, "error");
    RequestField(id, name, params, "params");
  }

  lemma RequestFits(id: Option<nat>, name: string, params: Entries)
    requires |name| < POW32 && Count(params) < POW32 && EncodableEntries(params) && (id.Some? ==> id.value < POW32)
    ensures Encodable(Request(id, name, params))
  {
    var last := Entry(Text("params"), Map(params), NoEntries);
    var middle := Entry(Text("method"), Text(name), last);
    EntryFits(Ascii("params"), Map(params), NoEntries);
    EntryFits(Ascii("method"), Text(name), last);
    EntryFits(Ascii("id"), IdOf(id), middle);
  }

  /** A request written is read as one with its id, method and parameters. */
  lemma RequestRead(id: Option<nat>, name: string, params: Entries)
    requires |name| < POW32 && Count(params) < POW32 && EncodableEntries(params) && KeysAreText(params)
    requires id.Some? ==> id.value < POW32
    ensures Encodable(Request(id, name, params))
    ensures var m := Encode(Request(id, name, params));
            && ReadEnvelope(m) == Done(PartialIncoming(id, Some(Ascii(name)), None), |m|)
            && Params(m) == Some(params)
            && Parse(m).Done? && Parse(m).value.Map?
            && Field(Parse(m).value.entries, Ascii("params")) == Some(Some(Map(params)))
            && Field(Parse(m).value.entries, Ascii("id")) == Some(Some(if id.Some? then Int(id.value) else Nil))
  {
    RequestFits(id, name, params);
    RequestMeans(id, name, params);
    NamesDiffer();
    RequestField(id, name, params, "params");
    RequestField(id, name, params, "id");
    ReadBack(Request(id, name, params));
  }

  // ---- responses ----

  lemma PairField(a: bytes, b: bytes, x: Value, y: Value, name: bytes)
    requires a != b
    ensures Field(Entry(Str(a), x, Entry(Str(b), y, NoEntries)), name)
         == Some(if name == a then Some(x) else if name == b then Some(y) else None)
  {
    TwoFields(a, b, x, y, name);
  }

  lemma PairKeyed(a: string, b: string, x: Value, y: Value)
    ensures KeysAreText(Entry(Text(a), x, Entry(Text(b), y, NoEntries)))
  {
    assert KeysAreText(Entry(Text(b), y, NoEntries));
  }

  lemma PairFits(a: string, b: string, x: Value, y: Value)
    requires |a| < POW32 && |b| < POW32 && Encodable(x) && Encodable(y)
    ensures Encodable(Map(Entry(Text(a), x, Entry(Text(b), y, NoEntries))))
  {
    EntryFits(Ascii(b), y, NoEntries);
    EntryFits(Ascii(a), x, Entry(Text(b), y, NoEntries));
  }

  lemma SuccessMeans(id: nat, result: Value)
    requires id < POW32
    ensures Interpret(SuccessResponse(id, result)) == Some(PartialIncoming(Some(id), None, None))
  {
    NamesDiffer();
    PairKeyed("id", "result", Int(id), result);
    PairField(Ascii("id"), Ascii("result"), Int(id), result, Ascii("id"));
    PairField(Ascii("id"), Ascii("result"), Int(id), result, Ascii("method"));
    PairField(Ascii("id"), Ascii("result"), Int(id), result, Ascii("error"));
  }

  /** A result written is read as a response with neither method nor error, and the result is found. */
  lemma SuccessRead(id: nat, result: Value)
    requires id < POW32 && Encodable(result)
    ensures Encodable(SuccessResponse(id, result))
    ensures var m := Encode(SuccessResponse(id, result));
            && ReadEnvelope(m) == Done(PartialIncoming(Some(id), None, None), |m|)
            && Parse(m).Done? && Parse(m).value.Map?
            && Field(Parse(m).value.entries, Ascii("result")) == Some(Some(result))
  {
    NamesDiffer();
    PairFits("id", "result", Int(id), result);
    PairField(Ascii("id"), Ascii("result"), Int(id), result, Ascii("result"));
    SuccessMeans(id, result);
    ReadBack(SuccessResponse(id, result));
  }

  lemma ErrorMeans(e: ResponseError)
    requires -0x8000_0000 <= e.code < 0x8000_0000 && |e.message| < POW32
    ensures Encodable(Map(ErrorFields(e)))
    ensures OptionalError(Some(Map(ErrorFields(e)))) == Some(Some(e))
  {
    NamesDiffer();
    PairFits("code", "message", Int(e.code), Str(e.message));
    PairKeyed("code", "message", Int(e.code), Str(e.message));
    PairField(Ascii("code"), Ascii("message"), Int(e.code), Str(e.message), Ascii("code"));
    PairField(Ascii("code"), Ascii("message"), Int(e.code), Str(e.message), Ascii("message"));
  }

  lemma ErrorResponseMeans(id: nat, e: ResponseError)
    requires id < POW32 && OptionalError(Some(Map(ErrorFields(e)))) == Some(Some(e))
    ensures Interpret(ErrorResponse(id, e)) == Some(PartialIncoming(Some(id), None, Some(e)))
  {
    var error := Map(ErrorFields(e));
    NamesDiffer();
    PairKeyed("id", "error", Int(id), error);
    PairField(Ascii("id"), Ascii("error"), Int(id), error, Ascii("id"));
    PairField(Ascii("id"), Ascii("error"), Int(id), error, Ascii("method"));
    PairField(Ascii("id"), Ascii("error"), Int(id), error, Ascii("error"));
  }

  /** An error written is read as that error, for the same request. */
  lemma ErrorRead(id: nat, e: ResponseError)
    requires id < POW32 && -0x8000_0000 <= e.code < 0x8000_0000 && |e.message| < POW32
    ensures Encodable(ErrorResponse(id, e))
    ensures var m := Encode(ErrorResponse(id, e));
            ReadEnvelope(m) == Done(PartialIncoming(Some(id), None, Some(e)), |m|)
  {
    ErrorMeans(e);
    PairFits("id", "error", Int(id), Map(ErrorFields(e)));
    ErrorResponseMeans(id, e);
    ReadBack(ErrorResponse(id, e));
  }
}
