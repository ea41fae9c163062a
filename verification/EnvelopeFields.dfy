/**
 Which values are envelopes, said field by field: what stands at the only position of each
 of the three fields, or that there is none.
 */
module EnvelopeFields {
  import opened Common
  import opened MsgPack
  import opened Envelope

  datatype Pair = Pair(key: Value, val: Value)

  /** The entries of a map, in order. */
  function Pairs(es: Entries): seq<Pair> {
    if es.NoEntries? then [] else [Pair(es.key, es.val)] + Pairs(es.rest)
  }

  /** The positions of a field. */
  ghost predicate FieldAt(es: Entries, name: bytes, i: int) {
    0 <= i < |Pairs(es)| && Pairs(es)[i].key == Str(name)
  }

  lemma FieldAtTail(es: Entries, name: bytes, i: int)
    requires es.Entry? && i > 0
    ensures FieldAt(es, name, i) <==> FieldAt(es.rest, name, i - 1)
    ensures FieldAt(es, name, i) ==> Pairs(es)[i] == Pairs(es.rest)[i - 1]
  {}

  lemma FieldAtHead(es: Entries, name: bytes)
    requires es.Entry?
    ensures FieldAt(es, name, 0) <==> es.key == Str(name)
    ensures Pairs(es)[0].val == es.val
  {}

  lemma {:induction false} NoField(es: Entries, name: bytes)
    ensures Occurrences(es, name) == 0 <==> forall i :: !FieldAt(es, name, i)
    ensures Occurrences(es, name) == 0 <==> Lookup(es, name) == None
  {
    if es.NoEntries? {
    } else {
      NoField(es.rest, name);
      FieldAtHead(es, name);
      if Occurrences(es, name) == 0 {
        forall i ensures !FieldAt(es, name, i) {
          if i > 0 {
            FieldAtTail(es, name, i);
          }
        }
      } else if es.key != Str(name) {
        var i :| FieldAt(es.rest, name, i);
        FieldAtTail(es, name, i + 1);
      }
    }
  }

  /** `i` is the only position of the field. */
  ghost predicate OnlyAt(es: Entries, name: bytes, i: int) {
    FieldAt(es, name, i) && forall j :: FieldAt(es, name, j) ==> j == i
  }

  lemma {:induction false} OneField(es: Entries, name: bytes, i: int)
    requires OnlyAt(es, name, i)
    ensures Occurrences(es, name) == 1 && Lookup(es, name) == Some(Pairs(es)[i].val)
  {
    FieldAtHead(es, name);
    if i == 0 {
      forall j ensures !FieldAt(es.rest, name, j) {
        if j >= 0 {
          FieldAtTail(es, name, j + 1);
        }
      }
      NoField(es.rest, name);
    } else {
      FieldAtTail(es, name, i);
      forall j | FieldAt(es.rest, name, j) ensures j == i - 1 {
        FieldAtTail(es, name, j + 1);
      }
      OneField(es.rest, name, i - 1);
    }
  }

  lemma {:induction false} ManyFields(es: Entries, name: bytes, i: int, j: int)
    requires FieldAt(es, name, i) && FieldAt(es, name, j) && i < j
    ensures Occurrences(es, name) > 1
  {
    FieldAtHead(es, name);
    FieldAtTail(es, name, j);
    if i == 0 {
      NoField(es.rest, name);
    } else {
      FieldAtTail(es, name, i);
      ManyFields(es.rest, name, i - 1, j - 1);
    }
  }

  /** A field is what stands at its only position, absent if it has none, and an error if it has two. */
  lemma FieldIs(es: Entries, name: bytes)
    ensures Field(es, name) == Some(None) <==> forall i :: !FieldAt(es, name, i)
    ensures Field(es, name) == None <==> exists i, j :: FieldAt(es, name, i) && FieldAt(es, name, j) && i < j
    ensures forall i :: OnlyAt(es, name, i) ==> Field(es, name) == Some(Some(Pairs(es)[i].val))
  {
    NoField(es, name);
    forall i | OnlyAt(es, name, i) ensures Field(es, name) == Some(Some(Pairs(es)[i].val)) {
      OneField(es, name, i);
    }
    forall i, j | FieldAt(es, name, i) && FieldAt(es, name, j) && i < j ensures Field(es, name) == None {
      ManyFields(es, name, i, j);
    }
    if Occurrences(es, name) > 0 {
      var i :| FieldAt(es, name, i);
      if OnlyAt(es, name, i) {
        OneField(es, name, i);
      }
    }
  }

  /** The field is there at most once, and is nil or absent. */
  predicate Nothing(f: Option<Option<Value>>) {
    f == Some(None) || f == Some(Some(Nil))
  }

  ghost predicate IdIs(f: Option<Option<Value>>, id: Option<nat>) {
    if id.Some? then f == Some(Some(Int(id.value))) && id.value < 0x1_0000_0000 else Nothing(f)
  }

  ghost predicate MethodIs(f: Option<Option<Value>>, name: Option<bytes>) {
    if name.Some? then f == Some(Some(Str(name.value))) else Nothing(f)
  }

  ghost predicate ErrorIs(f: Option<Option<Value>>, e: Option<ResponseError>) {
    if e.None? then Nothing(f)
    else
      && f.Some? && f.value.Some? && f.value.value.Map? && KeysAreText(f.value.value.entries)
      && Field(f.value.value.entries, Ascii("code")) == Some(Some(Int(e.value.code)))
      && Field(f.value.value.entries, Ascii("message")) == Some(Some(Str(e.value.message)))
      && -0x8000_0000 <= e.value.code < 0x8000_0000
  }

  ghost predicate AllText(ps: seq<Pair>) {
    forall i :: 0 <= i < |ps| ==> ps[i].key.Str?
  }

  lemma AllTextCons(p: Pair, ps: seq<Pair>)
    ensures AllText([p] + ps) <==> p.key.Str? && AllText(ps)
  {
    var all := [p] + ps;
    assert all[0] == p;
    assert forall i :: 0 <= i < |ps| ==> all[i + 1] == ps[i];
    assert forall i :: 0 < i < |all| ==> all[i] == ps[i - 1];
  }

  /** The keys of the map are texts. */
  lemma {:induction false} KeysAre(es: Entries)
    ensures KeysAreText(es) <==> AllText(Pairs(es))
  {
    if es.NoEntries? {
    } else {
      KeysAre(es.rest);
      AllTextCons(Pair(es.key, es.val), Pairs(es.rest));
    }
  }

  lemma IdIff(f: Option<Option<Value>>, id: Option<nat>)
    ensures IdIs(f, id) <==> f.Some? && OptionalId(f.value) == Some(id)
  {
    if f.Some? && f.value.Some? {
      match f.value.value
      case Nil =>
      case Int(_) =>
      case _ =>
    }
  }

  lemma MethodIff(f: Option<Option<Value>>, name: Option<bytes>)
    ensures MethodIs(f, name) <==> f.Some? && OptionalText(f.value) == Some(name)
  {
    if f.Some? && f.value.Some? {
      match f.value.value
      case Nil =>
      case Str(_) =>
      case _ =>
    }
  }

  lemma ErrorIff(f: Option<Option<Value>>, e: Option<ResponseError>)
    ensures ErrorIs(f, e) <==> f.Some? && OptionalError(f.value) == Some(e)
  {
    if f.Some? && f.value.Some? {
      match f.value.value
      case Nil =>
      case Map(_) =>
      case _ =>
    }
  }

  /**
   A value is read as an envelope exactly if it is a map with text keys in which the three
   fields, each at most once, have what the envelope gets; anything else is refused.
   */
  lemma EnvelopeIff(v: Value, obj: PartialIncoming)
    ensures Interpret(v) == Some(obj) <==>
              && v.Map? && AllText(Pairs(v.entries))
              && IdIs(Field(v.entries, Ascii("id")), obj.id)
              && MethodIs(Field(v.entries, Ascii("method")), obj.methodName)
              && ErrorIs(Field(v.entries, Ascii("error")), obj.error)
  {
    if v.Map? {
      KeysAre(v.entries);
      IdIff(Field(v.entries, Ascii("id")), obj.id);
      MethodIff(Field(v.entries, Ascii("method")), obj.methodName);
      ErrorIff(Field(v.entries, Ascii("error")), obj.error);
    }
  }

  /** Bytes are refused as an envelope exactly if they are refused as a value, or begin with a value that is none. */
  lemma RefusedIff(b: bytes)
    ensures ReadEnvelope(b).Incomplete? <==> Parse(b).Incomplete?
    ensures ReadEnvelope(b).Malformed? <==>
              Parse(b).Malformed? || (Parse(b).Done? && forall obj :: Interpret(Parse(b).value) != Some(obj))
  {
    if Parse(b).Done? && Interpret(Parse(b).value).Some? {
      assert Interpret(Parse(b).value) == Some(Interpret(Parse(b).value).value);
    }
  }
}
