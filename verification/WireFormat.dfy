/**
 What the wire format is, apart from how it is computed: the bytes of every marker, and what
 it means that input is complete, incomplete or refused.
 */
module WireFormat {
  import opened Common
  import opened MsgPack

  // ---- the bytes of a head ----

  /** The value of a number written most significant byte first. */
  function Positional(b: bytes): nat {
    if b == [] then 0 else b[0] * Pow256(|b| - 1) + Positional(b[1..])
  }

  lemma {:induction false} PositionalSnoc(b: bytes, d: byte)
    ensures Positional(b + [d]) == 256 * Positional(b) + d
  {
    if b == [] {
      assert [d][1..] == [] && Pow256(0) == 1;
      assert b + [d] == [d];
    } else {
      assert (b + [d])[1..] == b[1..] + [d];
      PositionalSnoc(b[1..], d);
      Shifted(b[0], Pow256(|b| - 1));
    }
  }

  lemma Shifted(a: nat, p: nat)
    ensures a * (256 * p) == 256 * (a * p)
  {}

  lemma {:induction false} BigEndianIsPositional(n: nat, w: nat)
    requires n < Pow256(w)
    ensures Positional(BigEndian(n, w)) == n
  {
    if w == 0 {
    } else {
      BigEndianIsPositional(n / 256, w - 1);
      PositionalSnoc(BigEndian(n / 256, w - 1), n % 256);
    }
  }

  /** The format's table: the marker of a head, and the number of bytes behind it. */
  function Format(h: Head): (int, nat)
    requires HeadInRange(h)
  {
    match h.kind
    case KNil => (0xc0, 0)
    case KBool => (if h.n == 0 then 0xc2 else 0xc3, 0)
    case KFloat => (if h.n == 4 then 0xca else 0xcb, 0)
    case KInt => IntFormat(h.n)
    case KStr =>
      if h.n <= 31 then (0xa0 + h.n, 0)
      else if h.n <= 0xff then (0xd9, 1) else if h.n <= 0xffff then (0xda, 2) else (0xdb, 4)
    case KBin => if h.n <= 0xff then (0xc4, 1) else if h.n <= 0xffff then (0xc5, 2) else (0xc6, 4)
    case KExt =>
      if h.n == 1 then (0xd4, 0) else if h.n == 2 then (0xd5, 0) else if h.n == 4 then (0xd6, 0)
      else if h.n == 8 then (0xd7, 0) else if h.n == 16 then (0xd8, 0)
      else if h.n <= 0xff then (0xc7, 1) else if h.n <= 0xffff then (0xc8, 2) else (0xc9, 4)
    case KArray => if h.n <= 15 then (0x90 + h.n, 0) else if h.n <= 0xffff then (0xdc, 2) else (0xdd, 4)
    case KMap => if h.n <= 15 then (0x80 + h.n, 0) else if h.n <= 0xffff then (0xde, 2) else (0xdf, 4)
  }

  function IntFormat(n: int): (int, nat) {
    if 0 <= n <= 127 then (n, 0)
    else if -32 <= n < 0 then (0x100 + n, 0)
    else if 0 <= n <= 0xff then (0xcc, 1)
    else if 0 <= n <= 0xffff then (0xcd, 2)
    else if 0 <= n <= 0xffff_ffff then (0xce, 4)
    else if 0 <= n then (0xcf, 8)
    else if -0x80 <= n then (0xd0, 1)
    else if -0x8000 <= n then (0xd1, 2)
    else if -0x8000_0000 <= n then (0xd2, 4)
    else (0xd3, 8)
  }

  lemma InlineFormat(h: Head)
    requires HeadInRange(h)
    ensures IsInline(h) <==> Format(h).1 == 0
    ensures IsInline(h) ==> InlineMarker(h) == Format(h).0
  {}

  lemma SignedFormat(n: int)
    requires -POW63 <= n < -32
    ensures IntFormat(n) == (SignedMarker(SignedWidthFor(n)), SignedWidthFor(n))
    ensures n + Pow256(SignedWidthFor(n)) < Pow256(SignedWidthFor(n))
  {}

  lemma WideFormat(h: Head)
    requires HeadInRange(h) && !IsInline(h) && !IsSigned(h)
    ensures Format(h) == (WideMarker(h.kind, WidthFor(h)), WidthFor(h))
  {}

  /**
   A head is written as the format's marker and its number in as few bytes as the format has
   for it, most significant first, a negative one in two's complement.
   */
  lemma HeadBytes(h: Head)
    requires HeadInRange(h)
    ensures var (marker, w) := Format(h);
            var e := EncodeHead(h);
            && |e| == 1 + w && e[0] == marker
            && (w > 0 ==> Positional(e[1..]) == if h.n < 0 then h.n + Pow256(w) else h.n)
  {
    InlineFormat(h);
    if !IsInline(h) {
      var (marker, w) := Format(h);
      var n := if IsSigned(h) then h.n + Pow256(w) else h.n;
      if IsSigned(h) {
        SignedFormat(h.n);
      } else {
        WideFormat(h);
      }
      BigEndianIsPositional(n, w);
      assert EncodeHead(h)[1..] == BigEndian(n, w);
    }
  }

  /** The one reserved marker is refused. */
  lemma ReservedIsRefused(s: bytes)
    ensures Parse([0xc1] + s) == Malformed
  {
    assert ([0xc1] + s)[0] == 0xc1;
  }

  // ---- what the verdicts mean ----

  /** `b` is exactly one value. */
  ghost predicate IsValue(b: bytes) {
    Parse(b).Done? && Parse(b).used == |b|
  }

  ghost predicate AreItems(b: bytes, n: nat) {
    ParseItems(b, n).Done? && ParseItems(b, n).used == |b|
  }

  ghost predicate IsBody(h: Head, b: bytes)
    requires HeadCounts(h)
  {
    ParseBody(h, b).Done? && ParseBody(h, b).used == |b|
  }

  function Zeros(n: nat): (r: bytes)
    ensures |r| == n && forall i :: 0 <= i < n ==> r[i] == 0
  {
    if n == 0 then [] else [0] + Zeros(n - 1)
  }

  lemma ZeroIsValue(s: bytes)
    ensures Parse([0] + s) == Done(Int(0), 1)
  {
    assert ([0] + s)[0] == 0;
  }

  /** A value followed by values. */
  lemma ValueThenItems(v: bytes, rest: bytes, n: nat)
    requires IsValue(v) && AreItems(rest, n)
    ensures AreItems(v + rest, n + 1)
  {
    ParseStable(v, rest);
    DropFirst(v, rest);
  }

  lemma {:induction false} ZeroItems(n: nat)
    ensures AreItems(Zeros(n), n)
  {
    if n == 0 {
    } else {
      ZeroItems(n - 1);
      ZeroIsValue([]);
      assert [0] + [] == [0];
      ValueThenItems([0], Zeros(n - 1), n - 1);
    }
  }

  lemma HeadCompletable(b: bytes) returns (s: bytes)
    requires ParseHead(b).Incomplete? && b != []
    ensures ParseHead(b + s).Done? && ParseHead(b + s).used == |b + s|
  {
    s := Zeros(1 + MarkerOf(b[0]).width - |b|);
    assert (b + s)[0] == b[0];
  }

  /** A head, whatever of its body follows it, and the rest of that body. */
  lemma HeadThenRest(b: bytes, h: Head, size: nat, t: bytes)
    requires ParseHead(b) == Done(h, size) && IsBody(h, b[size..] + t)
    ensures IsValue(b + t)
  {
    HeadStable(b, t);
    assert (b + t)[size..] == b[size..] + t;
  }

  lemma HeadThenBody(b: bytes, start: bytes, h: Head, t: bytes)
    requires ParseHead(b + start) == Done(h, |b + start|) && IsBody(h, t)
    ensures IsValue(b + (start + t))
  {
    var c := b + start;
    assert c[|c|..] + t == t;
    HeadThenRest(c, h, |c|, t);
    Regroup(b, start, t);
  }

  /** With a whole head it is the body that is not finished. */
  lemma BodyUnfinished(b: bytes)
    requires Parse(b).Incomplete? && ParseHead(b).Done?
    ensures ParseBody(ParseHead(b).value, b[ParseHead(b).used..]).Incomplete?
  {}

  lemma NothingOfBody(h: Head)
    requires HeadCounts(h)
    ensures !ParseBody(h, []).Incomplete? ==> IsBody(h, [])
  {
    assert Parse([]).Incomplete?;
  }

  lemma EmptyCompletable()
    ensures IsValue([] + [0])
  {
    ZeroIsValue([]);
    assert [] + [0] == [0] + [];
  }

  /** Whatever needs more input can be completed to one value. */
  lemma {:induction false} Completable(b: bytes) returns (s: bytes)
    requires Parse(b).Incomplete?
    ensures IsValue(b + s)
    decreases |b|, 0
  {
    if b == [] {
      s := [0];
      EmptyCompletable();
    } else if ParseHead(b).Incomplete? {
      var start := HeadCompletable(b);
      var t := NewBody(ParseHead(b + start).value, |b|);
      HeadThenBody(b, start, ParseHead(b + start).value, t);
      s := start + t;
    } else {
      var h, size := ParseHead(b).value, ParseHead(b).used;
      BodyUnfinished(b);
      s := BodyCompletable(h, b[size..]);
      HeadThenRest(b, h, size, s);
    }
  }

  /** A body for a head nothing follows yet. */
  lemma {:induction false} NewBody(h: Head, n: nat) returns (t: bytes)
    requires HeadCounts(h) && n > 0
    ensures IsBody(h, t)
    decreases n - 1, 4
  {
    NothingOfBody(h);
    t := [];
    if ParseBody(h, []).Incomplete? {
      t := BodyCompletable(h, []);
      assert [] + t == t;
    }
  }

  lemma {:induction false} BodyCompletable(h: Head, b: bytes) returns (s: bytes)
    requires HeadCounts(h) && ParseBody(h, b).Incomplete?
    ensures IsBody(h, b + s)
    decreases |b|, 3
  {
    if h.kind.KMap? {
      s := ItemsCompletable(b, 2 * h.n);
    } else if h.kind.KArray? {
      s := ItemsCompletable(b, h.n);
    } else {
      s := Zeros((if h.kind.KExt? then 1 else 0) + h.n - |b|);
    }
  }

  lemma ItemsUnfinished(b: bytes, n: nat)
    requires ParseItems(b, n).Incomplete?
    ensures n > 0
    ensures Parse(b).Incomplete? || (Parse(b).Done? && ParseItems(b[Parse(b).used..], n - 1).Incomplete?)
  {}

  lemma FirstCompleted(b: bytes, first: bytes, n: nat)
    requires IsValue(b + first) && n > 0
    ensures AreItems(b + (first + Zeros(n - 1)), n)
  {
    ZeroItems(n - 1);
    ValueThenItems(b + first, Zeros(n - 1), n - 1);
    Regroup(b, first, Zeros(n - 1));
  }

  lemma FirstIsValue(b: bytes)
    requires Parse(b).Done?
    ensures IsValue(b[..Parse(b).used])
  {
    ParseTrim(b, Parse(b).used);
  }

  lemma LaterCompleted(b: bytes, s: bytes, n: nat)
    requires Parse(b).Done? && n > 0 && AreItems(b[Parse(b).used..] + s, n - 1)
    ensures AreItems(b + s, n)
  {
    FirstIsValue(b);
    ThenCompleted(b[..Parse(b).used], b[Parse(b).used..], s, n);
    assert b[..Parse(b).used] + b[Parse(b).used..] == b;
  }

  lemma ThenCompleted(v: bytes, rest: bytes, s: bytes, n: nat)
    requires IsValue(v) && n > 0 && AreItems(rest + s, n - 1)
    ensures AreItems(v + rest + s, n)
  {
    ValueThenItems(v, rest + s, n - 1);
    Regroup(v, rest, s);
  }

  lemma {:induction false} ItemsCompletable(b: bytes, n: nat) returns (s: bytes)
    requires ParseItems(b, n).Incomplete?
    ensures AreItems(b + s, n)
    decreases |b|, 2
  {
    ItemsUnfinished(b, n);
    if Parse(b).Incomplete? {
      var first := Completable(b);
      s := first + Zeros(n - 1);
      FirstCompleted(b, first, n);
    } else {
      s := ItemsCompletable(b[Parse(b).used..], n - 1);
      LaterCompleted(b, s, n);
    }
  }

  /**
   Input is refused exactly if nothing that may follow makes it begin with a value, and more
   is waited for exactly if it does not begin with a value yet and something that may follow
   makes it.
   */
  lemma VerdictMeans(b: bytes)
    ensures Parse(b).Malformed? <==> forall s :: !Parse(b + s).Done?
    ensures Parse(b).Incomplete? <==> !Parse(b).Done? && exists s :: Parse(b + s).Done?
  {
    forall s ensures Parse(b).Malformed? ==> !Parse(b + s).Done? {
      ParseStable(b, s);
    }
    if Parse(b).Incomplete? {
      var s := Completable(b);
      assert Parse(b + s).Done?;
    } else if Parse(b).Done? {
      assert b + [] == b;
      assert Parse(b + []).Done?;
    }
  }
}
