/**
 MessagePack as the RPC layer puts it on the wire. Encoding picks the shortest form, as the
 writer does; parsing accepts every width and every marker but the reserved one.
 */
module MsgPack {
  import opened Common

  datatype Value =
    | Nil
    | Bool(b: bool)
    | Int(n: int)
    | Float(bits: bytes)  // four or eight bytes, not interpreted
    | Str(text: bytes)
    | Bin(data: bytes)
    | Ext(tag: byte, payload: bytes)
    | Array(items: Items)
    | Map(entries: Entries)

  datatype Items = NoItems | Item(head: Value, tail: Items)

  datatype Entries = NoEntries | Entry(key: Value, val: Value, rest: Entries)

  /** A parse either finishes having used `used` bytes, needs more input, or can never succeed. */
  datatype Parsed<+T> = Done(value: T, used: nat) | Incomplete | Malformed

  const POW32 := 0x1_0000_0000
  const POW64 := 0x1_0000_0000_0000_0000
  const POW63 := 0x8000_0000_0000_0000

  function Count(es: Entries): nat {
    if es.NoEntries? then 0 else 1 + Count(es.rest)
  }

  function Size(vs: Items): nat {
    if vs.NoItems? then 0 else 1 + Size(vs.tail)
  }

  /** The values the writer can produce: every length and integer fits its widest form. */
  predicate Encodable(v: Value) {
    match v
    case Nil => true
    case Bool(_) => true
    case Int(n) => -POW63 <= n < POW64
    case Float(bits) => |bits| in {4, 8}
    case Str(t) => |t| < POW32
    case Bin(d) => |d| < POW32
    case Ext(_, d) => |d| < POW32
    case Array(vs) => Size(vs) < POW32 && EncodableItems(vs)
    case Map(es) => Count(es) < POW32 && EncodableEntries(es)
  }

  predicate EncodableItems(vs: Items) {
    vs.Item? ==> Encodable(vs.head) && EncodableItems(vs.tail)
  }

  predicate EncodableEntries(es: Entries) {
    es.Entry? ==> Encodable(es.key) && Encodable(es.val) && EncodableEntries(es.rest)
  }

  // ---- big-endian numbers ----

  function Pow256(w: nat): nat {
    if w == 0 then 1 else 256 * Pow256(w - 1)
  }

  function BigEndian(n: nat, w: nat): (r: bytes)
    ensures |r| == w
  {
    if w == 0 then [] else BigEndian(n / 256, w - 1) + [n % 256]
  }

  function FromBigEndian(b: bytes): nat {
    if b == [] then 0 else 256 * FromBigEndian(b[..|b| - 1]) + b[|b| - 1]
  }

  lemma {:induction false} BigEndianRoundTrip(n: nat, w: nat)
    requires n < Pow256(w)
    ensures FromBigEndian(BigEndian(n, w)) == n
  {
    if w == 0 {
    } else {
      BigEndianRoundTrip(n / 256, w - 1);
      assert BigEndian(n, w)[..w - 1] == BigEndian(n / 256, w - 1);
    }
  }

  // ---- markers ----

  lemma Powers()
    ensures Pow256(1) == 0x100 && Pow256(2) == 0x1_0000 && Pow256(4) == POW32 && Pow256(8) == POW64
  {
    assert Pow256(0) == 1;
    assert Pow256(3) == 0x100_0000;
    assert Pow256(5) == 0x100_0000_0000 && Pow256(6) == 0x1_0000_0000_0000 && Pow256(7) == 0x100_0000_0000_0000;
  }

  datatype Kind = KNil | KBool | KInt | KFloat | KStr | KBin | KExt | KArray | KMap

  /**
   A marker carries its number itself, announces a number of `width` bytes, announces a
   negative one in two's complement, or is reserved.
   */
  datatype Marker = Inline(kind: Kind, n: int) | Wide(kind: Kind, width: nat) | Signed(width: nat) | Reserved

  function MarkerOf(m: byte): Marker {
    if m < 0x80 then Inline(KInt, m)
    else if m < 0x90 then Inline(KMap, m - 0x80)
    else if m < 0xa0 then Inline(KArray, m - 0x90)
    else if m < 0xc0 then Inline(KStr, m - 0xa0)
    else if 0xe0 <= m then Inline(KInt, m - 0x100)
    else NamedMarker(m)
  }

  function NamedMarker(m: byte): Marker
    requires 0xc0 <= m < 0xe0
  {
    if m == 0xc0 then Inline(KNil, 0)
    else if m == 0xc1 then Reserved
    else if m < 0xc4 then Inline(KBool, m - 0xc2)
    else if m < 0xc7 then Wide(KBin, StepWidth(m - 0xc4))
    else if m < 0xca then Wide(KExt, StepWidth(m - 0xc7))
    else if m < 0xcc then Inline(KFloat, StepWidth(m - 0xca + 2))
    else if m < 0xd0 then Wide(KInt, StepWidth(m - 0xcc))
    else if m < 0xd4 then Signed(StepWidth(m - 0xd0))
    else if m < 0xd9 then Inline(KExt, if m == 0xd8 then 16 else StepWidth(m - 0xd4))
    else if m < 0xdc then Wide(KStr, StepWidth(m - 0xd9))
    else if m < 0xde then Wide(KArray, StepWidth(m - 0xdc + 1))
    else Wide(KMap, StepWidth(m - 0xde + 1))
  }

  /** The widths a family offers double from marker to marker. */
  function StepWidth(step: nat): (w: nat)
    requires step < 4
    ensures w in {1, 2, 4, 8}
  {
    if step == 0 then 1 else if step == 1 then 2 else if step == 2 then 4 else 8
  }

  function StepOf(w: nat): (step: nat)
    requires w in {1, 2, 4, 8}
    ensures step < 4 && StepWidth(step) == w
  {
    if w == 1 then 0 else if w == 2 then 1 else if w == 4 then 2 else 3
  }

  /** A number with what it means: a value itself, the length of what follows, or a count of it. */
  datatype Head = Head(kind: Kind, n: int)

  predicate HeadInRange(h: Head) {
    match h.kind
    case KNil => h.n == 0
    case KBool => 0 <= h.n <= 1
    case KInt => -POW63 <= h.n < POW64
    case KFloat => h.n in {4, 8}
    case _ => 0 <= h.n < POW32
  }

  /** Whether the number fits in the marker itself. */
  predicate IsInline(h: Head) {
    match h.kind
    case KNil => true
    case KBool => true
    case KInt => -32 <= h.n < 0x80
    case KFloat => true
    case KStr => h.n < 32
    case KBin => false
    case KExt => h.n in {1, 2, 4, 8, 16}
    case KArray => h.n < 16
    case KMap => h.n < 16
  }

  function InlineMarker(h: Head): (m: byte)
    requires HeadInRange(h) && IsInline(h)
    ensures MarkerOf(m) == Inline(h.kind, h.n)
  {
    match h.kind
    case KNil => 0xc0
    case KBool => 0xc2 + h.n
    case KInt => if h.n < 0 then 0x100 + h.n else h.n
    case KFloat => 0xca + StepOf(h.n) - 2
    case KStr => 0xa0 + h.n
    case KExt => if h.n == 16 then 0xd8 else 0xd4 + StepOf(h.n)
    case KArray => 0x90 + h.n
    case KMap => 0x80 + h.n
  }

  /** Whether the number is written in two's complement. */
  predicate IsSigned(h: Head) {
    h.n < 0
  }

  /** The widths the family of a kind offers for numbers of at least 0. */
  predicate Offers(k: Kind, w: nat) {
    && w in {1, 2, 4, 8}
    && k in {KInt, KStr, KBin, KExt, KArray, KMap}
    && (w == 8 ==> k.KInt?) && (w == 1 ==> k !in {KArray, KMap})
  }

  /** The shortest width the family offers for the number. */
  function WidthFor(h: Head): (w: nat)
    requires HeadInRange(h) && !IsInline(h) && !IsSigned(h)
    ensures Offers(h.kind, w) && h.n < Pow256(w)
  {
    Powers();
    if h.n < 0x100 && h.kind !in {KArray, KMap} then 1
    else if h.n < 0x1_0000 then 2
    else if h.n < POW32 then 4
    else 8
  }

  /** The shortest width for a negative number. */
  function SignedWidthFor(n: int): (w: nat)
    requires -POW63 <= n < 0
    ensures w in {1, 2, 4, 8} && Pow256(w) + 2 * n >= 0 && Pow256(w) + n >= 0
  {
    Powers();
    if -0x80 <= n then 1 else if -0x8000 <= n then 2 else if -0x8000_0000 <= n then 4 else 8
  }

  function WideMarker(k: Kind, w: nat): (m: byte)
    requires Offers(k, w)
    ensures MarkerOf(m) == Wide(k, w)
  {
    var step := StepOf(w);
    match k
    case KBin => 0xc4 + step
    case KExt => 0xc7 + step
    case KInt => 0xcc + step
    case KStr => 0xd9 + step
    case KArray => 0xdc + step - 1
    case KMap => 0xde + step - 1
  }

  function SignedMarker(w: nat): (m: byte)
    requires w in {1, 2, 4, 8}
    ensures MarkerOf(m) == Signed(w)
  {
    0xd0 + StepOf(w)
  }

  /** Two's complement of `w` bytes. */
  function FromTwos(u: nat, w: nat): int {
    if 2 * u < Pow256(w) then u else u - Pow256(w)
  }

  function EncodeHead(h: Head): (r: bytes)
    requires HeadInRange(h)
    ensures |r| >= 1
  {
    if IsInline(h) then [InlineMarker(h)]
    else if IsSigned(h) then
      var w := SignedWidthFor(h.n);
      [SignedMarker(w)] + BigEndian(h.n + Pow256(w), w)
    else [WideMarker(h.kind, WidthFor(h))] + BigEndian(h.n, WidthFor(h))
  }

  function ParseHead(b: bytes): (r: Parsed<Head>)
    ensures r.Done? ==> 1 <= r.used <= |b| && HeadCounts(r.value)
  {
    if b == [] then Incomplete
    else
      match MarkerOf(b[0])
      case Inline(k, n) => Done(Head(k, n), 1)
      case Wide(k, w) =>
        if |b| < 1 + w then Incomplete else Done(Head(k, FromBigEndian(b[1..1 + w])), 1 + w)
      case Signed(w) =>
        if |b| < 1 + w then Incomplete else Done(Head(KInt, FromTwos(FromBigEndian(b[1..1 + w]), w)), 1 + w)
      case Reserved => Malformed
  }

  /** Lengths and counts are never negative, and floats have one of two lengths. */
  predicate HeadCounts(h: Head) {
    && (h.kind in {KBool, KStr, KBin, KExt, KArray, KMap} ==> 0 <= h.n)
    && (h.kind.KFloat? ==> h.n in {4, 8})
  }

  lemma WideRoundTrip(m: byte, k: Kind, n: nat, w: nat, s: bytes)
    requires MarkerOf(m) == Wide(k, w) && n < Pow256(w)
    ensures ParseHead([m] + BigEndian(n, w) + s) == Done(Head(k, n), 1 + w)
  {
    var b := [m] + BigEndian(n, w) + s;
    assert b[1..1 + w] == BigEndian(n, w);
    BigEndianRoundTrip(n, w);
  }

  lemma SignedRoundTrip(n: int, w: nat, s: bytes)
    requires w in {1, 2, 4, 8} && n < 0 <= Pow256(w) + 2 * n && 0 <= Pow256(w) + n
    ensures ParseHead([SignedMarker(w)] + BigEndian(n + Pow256(w), w) + s) == Done(Head(KInt, n), 1 + w)
  {
    TwosRoundTrip(n, w);
    SignedHead(SignedMarker(w), w, BigEndian(n + Pow256(w), w), s);
  }

  lemma TwosRoundTrip(n: int, w: nat)
    requires n < 0 <= Pow256(w) + 2 * n && 0 <= Pow256(w) + n
    ensures FromTwos(FromBigEndian(BigEndian(n + Pow256(w), w)), w) == n
  {
    BigEndianRoundTrip(n + Pow256(w), w);
  }

  lemma SignedHead(m: byte, w: nat, d: bytes, s: bytes)
    requires MarkerOf(m) == Signed(w) && |d| == w
    ensures ParseHead([m] + d + s) == Done(Head(KInt, FromTwos(FromBigEndian(d), w)), 1 + w)
  {
    assert ([m] + d + s)[1..1 + w] == d;
  }

  lemma HeadRoundTrip(h: Head, s: bytes)
    requires HeadInRange(h)
    ensures ParseHead(EncodeHead(h) + s) == Done(h, |EncodeHead(h)|)
  {
    if IsInline(h) {
    } else if IsSigned(h) {
      SignedRoundTrip(h.n, SignedWidthFor(h.n), s);
    } else {
      WideRoundTrip(WideMarker(h.kind, WidthFor(h)), h.kind, h.n, WidthFor(h), s);
    }
  }

  // ---- values ----

  function HeadOf(v: Value): Head {
    match v
    case Nil => Head(KNil, 0)
    case Bool(b) => Head(KBool, if b then 1 else 0)
    case Int(n) => Head(KInt, n)
    case Float(bits) => Head(KFloat, |bits|)
    case Str(t) => Head(KStr, |t|)
    case Bin(d) => Head(KBin, |d|)
    case Ext(_, d) => Head(KExt, |d|)
    case Array(vs) => Head(KArray, Size(vs))
    case Map(es) => Head(KMap, Count(es))
  }

  function Encode(v: Value): (r: bytes)
    requires Encodable(v)
    ensures |r| >= 1
    decreases v, 1
  {
    EncodeHead(HeadOf(v)) + EncodeBody(v)
  }

  function EncodeBody(v: Value): bytes
    requires Encodable(v)
    decreases v, 0
  {
    match v
    case Nil => []
    case Bool(_) => []
    case Int(_) => []
    case Float(bits) => bits
    case Str(t) => t
    case Bin(d) => d
    case Ext(tag, d) => [tag] + d
    case Array(vs) => EncodeItems(vs)
    case Map(es) => EncodeEntries(es)
  }

  function EncodeItems(vs: Items): bytes
    requires EncodableItems(vs)
  {
    if vs.NoItems? then [] else Encode(vs.head) + EncodeItems(vs.tail)
  }

  function EncodeEntries(es: Entries): bytes
    requires EncodableEntries(es)
  {
    if es.NoEntries? then [] else Encode(es.key) + Encode(es.val) + EncodeEntries(es.rest)
  }

  function Parse(b: bytes): (r: Parsed<Value>)
    ensures r.Done? ==> 1 <= r.used <= |b|
    decreases |b|, 0
  {
    match ParseHead(b)
    case Incomplete => Incomplete
    case Malformed => Malformed
    case Done(h, size) =>
      match ParseBody(h, b[size..])
      case Incomplete => Incomplete
      case Malformed => Malformed
      case Done(v, used) => Done(v, size + used)
  }

  /** What follows a head; `b` starts just after it. */
  function ParseBody(h: Head, b: bytes): (r: Parsed<Value>)
    requires HeadCounts(h)
    ensures r.Done? ==> r.used <= |b|
    decreases |b|, 3
  {
    match h.kind
    case KNil => Done(Nil, 0)
    case KBool => Done(Bool(h.n != 0), 0)
    case KInt => Done(Int(h.n), 0)
    case KFloat => if |b| < h.n then Incomplete else Done(Float(b[..h.n]), h.n)
    case KStr => if |b| < h.n then Incomplete else Done(Str(b[..h.n]), h.n)
    case KBin => if |b| < h.n then Incomplete else Done(Bin(b[..h.n]), h.n)
    case KExt => if |b| < 1 + h.n then Incomplete else Done(Ext(b[0], b[1..1 + h.n]), 1 + h.n)
    case KArray =>
      (match ParseItems(b, h.n)
       case Incomplete => Incomplete
       case Malformed => Malformed
       case Done(vs, used) => Done(Array(vs), used))
    case KMap =>
      (match ParseItems(b, 2 * h.n)
       case Incomplete => Incomplete
       case Malformed => Malformed
       case Done(vs, used) => Done(Map(Paired(vs)), used))
  }

  /** Keys and values as they follow one another, as entries. */
  function Paired(vs: Items): Entries {
    match vs
    case Item(key, Item(val, rest)) => Entry(key, val, Paired(rest))
    case _ => NoEntries
  }

  function Unpaired(es: Entries): Items {
    if es.NoEntries? then NoItems else Item(es.key, Item(es.val, Unpaired(es.rest)))
  }

  lemma {:induction false} PairedUnpaired(es: Entries)
    ensures Paired(Unpaired(es)) == es && Size(Unpaired(es)) == 2 * Count(es)
  {
    if es.NoEntries? {
    } else {
      PairedUnpaired(es.rest);
    }
  }

  function ParseItems(b: bytes, n: nat): (r: Parsed<Items>)
    ensures r.Done? ==> r.used <= |b|
    decreases |b|, 2
  {
    if n == 0 then Done(NoItems, 0)
    else
      match Parse(b)
      case Incomplete => Incomplete
      case Malformed => Malformed
      case Done(v, i) =>
        match ParseItems(b[i..], n - 1)
        case Incomplete => Incomplete
        case Malformed => Malformed
        case Done(rest, used) => Done(Item(v, rest), i + used)
  }

  // ---- more input never changes a verdict already reached ----

  lemma HeadStable(b: bytes, s: bytes)
    ensures !ParseHead(b).Incomplete? ==> ParseHead(b + s) == ParseHead(b)
  {
    if b != [] {
      var m := MarkerOf(b[0]);
      if (m.Wide? || m.Signed?) && |b| >= 1 + m.width {
        SliceOfConcat(b, s, 1, 1 + m.width);
      }
    }
  }

  lemma {:induction false} ParseStable(b: bytes, s: bytes)
    ensures !Parse(b).Incomplete? ==> Parse(b + s) == Parse(b)
    decreases |b|, 0
  {
    HeadStable(b, s);
    if !ParseHead(b).Done? {
    } else {
      var Done(h, size) := ParseHead(b);
      assert (b + s)[size..] == b[size..] + s;
      ParseBodyStable(h, b[size..], s);
    }
  }

  lemma {:induction false} ParseBodyStable(h: Head, b: bytes, s: bytes)
    requires HeadCounts(h)
    ensures !ParseBody(h, b).Incomplete? ==> ParseBody(h, b + s) == ParseBody(h, b)
    decreases |b|, 3
  {
    if h.kind.KMap? {
      ParseItemsStable(b, 2 * h.n, s);
    } else if h.kind.KArray? {
      ParseItemsStable(b, h.n, s);
    } else if h.kind.KExt? && h.n < |b| {
      SliceOfConcat(b, s, 1, 1 + h.n);
    } else if h.kind in {KFloat, KStr, KBin} && h.n <= |b| {
      SliceOfConcat(b, s, 0, h.n);
    }
  }

  lemma {:induction false} ParseItemsStable(b: bytes, n: nat, s: bytes)
    ensures !ParseItems(b, n).Incomplete? ==> ParseItems(b + s, n) == ParseItems(b, n)
    decreases |b|, 2
  {
    if n == 0 {
    } else {
      ParseStable(b, s);
      if Parse(b).Done? {
        var i := Parse(b).used;
        assert (b + s)[i..] == b[i..] + s;
        ParseItemsStable(b[i..], n - 1, s);
      }
    }
  }

  // ---- what was written is what is read, whatever follows ----

  lemma HeadThenBody(h: Head, body: bytes, s: bytes, v: Value)
    requires HeadInRange(h) && ParseBody(h, body + s) == Done(v, |body|)
    ensures Parse(EncodeHead(h) + body + s) == Done(v, |EncodeHead(h)| + |body|)
  {
    var e := EncodeHead(h);
    HeadRoundTrip(h, body + s);
    assert e + body + s == e + (body + s);
    assert (e + (body + s))[|e|..] == body + s;
  }

  /** The number of values in a value. */
  function Weight(v: Value): (w: nat)
    ensures w > 0
  {
    match v
    case Array(vs) => 1 + WeightOf(vs)
    case Map(es) => 1 + EntriesWeight(es)
    case _ => 1
  }

  function WeightOf(vs: Items): nat {
    if vs.NoItems? then 0 else Weight(vs.head) + WeightOf(vs.tail)
  }

  function EntriesWeight(es: Entries): nat {
    if es.NoEntries? then 0 else Weight(es.key) + Weight(es.val) + EntriesWeight(es.rest)
  }

  /** Entries are written as their keys and values one after the other. */
  lemma {:induction false} UnpairedEncoded(es: Entries)
    requires EncodableEntries(es)
    ensures EncodableItems(Unpaired(es)) && EncodeItems(Unpaired(es)) == EncodeEntries(es)
    ensures WeightOf(Unpaired(es)) == EntriesWeight(es)
  {
    if es.NoEntries? {
    } else {
      UnpairedEncoded(es.rest);
      EncodedPair(es.key, es.val, Unpaired(es.rest));
    }
  }

  lemma EncodedPair(key: Value, val: Value, rest: Items)
    requires Encodable(key) && Encodable(val) && EncodableItems(rest)
    ensures EncodableItems(Item(key, Item(val, rest)))
    ensures EncodeItems(Item(key, Item(val, rest))) == Encode(key) + Encode(val) + EncodeItems(rest)
  {
    assert EncodableItems(Item(val, rest)) && EncodeItems(Item(val, rest)) == Encode(val) + EncodeItems(rest);
    Regroup(Encode(key), Encode(val), EncodeItems(rest));
  }

  lemma {:induction false} RoundTrip(v: Value, s: bytes)
    requires Encodable(v)
    ensures Parse(Encode(v) + s) == Done(v, |Encode(v)|)
    decreases Weight(v), 2
  {
    BodyRoundTrip(v, s);
    HeadThenBody(HeadOf(v), EncodeBody(v), s, v);
  }

  lemma {:induction false} BodyRoundTrip(v: Value, s: bytes)
    requires Encodable(v)
    ensures ParseBody(HeadOf(v), EncodeBody(v) + s) == Done(v, |EncodeBody(v)|)
    decreases Weight(v), 1
  {
    match v
    case Map(es) =>
      UnpairedEncoded(es);
      PairedUnpaired(es);
      ItemsRoundTrip(Unpaired(es), s);
      MapBody(es, EncodeEntries(es), s);
    case Array(vs) =>
      ItemsRoundTrip(vs, s);
      ArrayBody(vs, EncodeItems(vs), s);
    case Ext(tag, d) => ExtRoundTrip(tag, d, s);
    case Float(bits) => BytesRoundTrip(KFloat, bits, s);
    case Str(t) => BytesRoundTrip(KStr, t, s);
    case Bin(d) => BytesRoundTrip(KBin, d, s);
    case Nil => NoBody(v, s);
    case Bool(_) => NoBody(v, s);
    case Int(_) => NoBody(v, s);
  }

  lemma MapBody(es: Entries, e: bytes, s: bytes)
    requires ParseItems(e + s, 2 * Count(es)) == Done(Unpaired(es), |e|)
    ensures ParseBody(Head(KMap, Count(es)), e + s) == Done(Map(es), |e|)
  {
    PairedUnpaired(es);
  }

  lemma ArrayBody(vs: Items, e: bytes, s: bytes)
    requires ParseItems(e + s, Size(vs)) == Done(vs, |e|)
    ensures ParseBody(Head(KArray, Size(vs)), e + s) == Done(Array(vs), |e|)
  {}

  lemma NoBody(v: Value, s: bytes)
    requires Encodable(v) && (v.Nil? || v.Bool? || v.Int?)
    ensures ParseBody(HeadOf(v), EncodeBody(v) + s) == Done(v, |EncodeBody(v)|)
  {}

  lemma ExtRoundTrip(tag: byte, d: bytes, s: bytes)
    ensures ParseBody(Head(KExt, |d|), [tag] + d + s) == Done(Ext(tag, d), 1 + |d|)
  {
    SliceOfConcat([tag] + d, s, 1, 1 + |d|);
  }

  lemma BytesRoundTrip(k: Kind, d: bytes, s: bytes)
    requires k in {KFloat, KStr, KBin} && (k.KFloat? ==> |d| in {4, 8})
    ensures ParseBody(Head(k, |d|), d + s)
         == Done(match k case KFloat => Float(d) case KStr => Str(d) case _ => Bin(d), |d|)
  {
    SliceOfConcat(d, s, 0, |d|);
    assert d[..|d|] == d;
  }

  lemma ItemThenItems(e: bytes, rest: bytes, n: nat, head: Value, tail: Items, used: nat)
    requires n > 0 && Parse(e + rest) == Done(head, |e|) && ParseItems(rest, n - 1) == Done(tail, used)
    ensures ParseItems(e + rest, n) == Done(Item(head, tail), |e| + used)
  {
    DropFirst(e, rest);
  }

  lemma {:induction false} ItemsRoundTrip(vs: Items, s: bytes)
    requires EncodableItems(vs)
    ensures ParseItems(EncodeItems(vs) + s, Size(vs)) == Done(vs, |EncodeItems(vs)|)
    decreases WeightOf(vs), 3
  {
    if vs.NoItems? {
    } else {
      var e, r := Encode(vs.head), EncodeItems(vs.tail);
      RoundTrip(vs.head, r + s);
      ItemsRoundTrip(vs.tail, s);
      ItemThenItems(e, r + s, Size(vs), vs.head, vs.tail, |r|);
      Regroup(e, r, s);
    }
  }

  lemma ReadBack(v: Value)
    requires Encodable(v)
    ensures Parse(Encode(v)) == Done(v, |Encode(v)|)
  {
    RoundTrip(v, []);
    assert Encode(v) + [] == Encode(v);
  }

  // ---- a finished parse looked at exactly the bytes it used ----

  lemma {:induction false} ParseTrim(b: bytes, m: nat)
    requires Parse(b).Done? && Parse(b).used <= m <= |b|
    ensures Parse(b[..m]) == Parse(b)
    decreases |b|, 0
  {
    var Done(h, size) := ParseHead(b);
    assert ParseHead(b[..m]) == ParseHead(b) by {
      SliceOfTake(b, m, 1, size);
    }
    assert b[..m][size..] == b[size..][..m - size];
    ParseBodyTrim(h, b[size..], m - size);
  }

  lemma {:induction false} ParseBodyTrim(h: Head, b: bytes, m: nat)
    requires HeadCounts(h) && ParseBody(h, b).Done? && ParseBody(h, b).used <= m <= |b|
    ensures ParseBody(h, b[..m]) == ParseBody(h, b)
    decreases |b|, 3
  {
    if h.kind.KMap? {
      ParseItemsTrim(b, 2 * h.n, m);
    } else if h.kind.KArray? {
      ParseItemsTrim(b, h.n, m);
    } else if h.kind.KExt? {
      SliceOfTake(b, m, 1, 1 + h.n);
    } else if h.kind in {KFloat, KStr, KBin} {
      SliceOfTake(b, m, 0, h.n);
    }
  }

  lemma {:induction false} ParseItemsTrim(b: bytes, n: nat, m: nat)
    requires ParseItems(b, n).Done? && ParseItems(b, n).used <= m <= |b|
    ensures ParseItems(b[..m], n) == ParseItems(b, n)
    decreases |b|, 2
  {
    if n == 0 {
    } else {
      var i := Parse(b).used;
      ParseTrim(b, m);
      assert b[..m][i..] == b[i..][..m - i];
      ParseItemsTrim(b[i..], n - 1, m - i);
    }
  }

  /** The encoding is self-delimiting: a finished parse would not have finished on any shorter prefix. */
  lemma StrictPrefixIncomplete(b: bytes, k: nat)
    requires Parse(b).Done? && k < Parse(b).used
    ensures Parse(b[..k]) == Incomplete
  {
    ParseStable(b[..k], b[k..]);
    assert b == b[..k] + b[k..];
  }
}
