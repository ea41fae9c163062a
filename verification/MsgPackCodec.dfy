/**
 The streaming decoder: it tries to read one object from the front of a growing buffer,
 and the read loop drains the buffer after every read. Like the original it is generic in
 the type decoded; `fromRead` stands for that type's deserializer.
 */
module MsgPackCodec {
  import opened Common
  import opened MsgPack

  type FromRead<T> = bytes -> Parsed<T>

  /**
   What the codec needs of a deserializer: it decides nothing from no input, it uses at
   least one byte and none past the end, more input never changes a verdict, and it looked
   only at the bytes it used.
   */
  ghost predicate Streaming<T(!new)>(f: FromRead<T>) {
    && f([]).Incomplete?
    && (forall b :: UsesInput(f, b))
    && (forall b, s :: IsStable(f, b, s))
    && (forall b :: IsLocal(f, b))
  }

  ghost predicate UsesInput<T(!new)>(f: FromRead<T>, b: bytes) {
    f(b).Done? ==> 1 <= f(b).used <= |b|
  }

  ghost predicate IsStable<T(!new)>(f: FromRead<T>, b: bytes, s: bytes) {
    !f(b).Incomplete? ==> f(b + s) == f(b)
  }

  ghost predicate IsLocal<T(!new)>(f: FromRead<T>, b: bytes)
  {
    f(b).Done? && f(b).used <= |b| ==> f(b[..f(b).used]) == f(b)
  }

  datatype Decoded<+T> = Frame(obj: T, vec: bytes) | NeedMore | InvalidData

  class BytesMut {
    var data: bytes

    constructor ()
      ensures data == []
    {
      data := [];
    }

    method Extend(chunk: bytes)
      modifies this
      ensures data == old(data) + chunk
    {
      data := data + chunk;
    }

    method Advance(len: nat)
      requires len <= |data|
      modifies this
      ensures data == old(data)[len..]
    {
      data := data[len..];
    }
  }

  /** One decode as a function of the buffer: the verdict, with the bytes a frame was read from. */
  function DecodeNext<T(!new)>(f: FromRead<T>, src: bytes): (r: Decoded<T>)
    requires Streaming(f)
    ensures r.Frame? ==> 1 <= |r.vec| <= |src| && src == r.vec + src[|r.vec|..]
  {
    assert UsesInput(f, src);
    match f(src)
    case Incomplete => NeedMore
    case Malformed => InvalidData
    case Done(obj, len) => Frame(obj, src[..len])
  }

  /** What a buffer holds: its leading frames, what is left, and whether the rest is invalid. */
  datatype Drained<T> = Drained(frames: seq<Decoded<T>>, rest: bytes, failed: bool)

  function Drain<T(!new)>(f: FromRead<T>, src: bytes): (r: Drained<T>)
    requires Streaming(f)
    ensures forall i :: 0 <= i < |r.frames| ==> r.frames[i].Frame?
    decreases |src|
  {
    match DecodeNext(f, src)
    case NeedMore => Drained([], src, false)
    case InvalidData => Drained([], src, true)
    case Frame(obj, vec) =>
      var d := Drain(f, src[|vec|..]);
      Drained([Frame(obj, vec)] + d.frames, d.rest, d.failed)
  }

  class MsgPackCodec<T(!new)> {
    const fromRead: FromRead<T>

    constructor (fromRead: FromRead<T>)
      ensures this.fromRead == fromRead
    {
      this.fromRead := fromRead;
    }

    /** Takes one object off the front of `src`, or leaves the contents of `src` alone. */
    method Decode(src: BytesMut) returns (r: Decoded<T>)
      requires Streaming(fromRead)
      modifies src
      ensures r == DecodeNext(fromRead, old(src.data))
      ensures r.Frame? ==> fromRead(old(src.data)) == Done(r.obj, |r.vec|) && r.vec <= old(src.data)
      ensures r.NeedMore? <==> fromRead(old(src.data)).Incomplete?
      ensures r.InvalidData? <==> fromRead(old(src.data)).Malformed?
      ensures src.data == if r.Frame? then old(src.data)[|r.vec|..] else old(src.data)
    {
      assert UsesInput(fromRead, src.data);
      match fromRead(src.data) {
        case Incomplete => r := NeedMore;
        case Malformed => r := InvalidData;
        case Done(obj, len) =>
          var vec := src.data[..len];
          src.Advance(len);
          r := Frame(obj, vec);
      }
    }

    /** `while let Some(frame) = decode(..)?`: decodes until nothing more comes out. */
    method DecodeAll(src: BytesMut) returns (frames: seq<Decoded<T>>, failed: bool)
      requires Streaming(fromRead)
      modifies src
      ensures Drained(frames, src.data, failed) == Drain(fromRead, old(src.data))
      ensures if failed then fromRead(src.data).Malformed? else fromRead(src.data).Incomplete?
    {
      frames := [];
      ghost var d := Drain(fromRead, src.data);
      while true
        invariant d.frames == frames + Drain(fromRead, src.data).frames
        invariant d.rest == Drain(fromRead, src.data).rest
        invariant d.failed == Drain(fromRead, src.data).failed
        decreases |src.data|
      {
        ghost var before := src.data;
        var r := Decode(src);
        match r {
          case NeedMore => return frames, false;
          case InvalidData => return frames, true;
          case Frame(_, _) =>
            DrainStep(fromRead, before, src.data);
            Regroup(frames, [r], Drain(fromRead, src.data).frames);
            frames := frames + [r];
        }
      }
    }

    /** The read loop: every read extends the buffer, which is then drained; an error ends the loop. */
    method ReadFrames(chunks: seq<bytes>) returns (frames: seq<Decoded<T>>, rest: bytes, failed: bool)
      requires Streaming(fromRead)
      ensures frames == Drain(fromRead, Flat(chunks)).frames
      ensures failed == Drain(fromRead, Flat(chunks)).failed
      ensures !failed ==> rest == Drain(fromRead, Flat(chunks)).rest
      ensures if failed then fromRead(rest).Malformed? else fromRead(rest).Incomplete?
    {
      var buf := new BytesMut();
      frames := [];
      for i := 0 to |chunks|
        invariant Drain(fromRead, Flat(chunks[..i])) == Drained(frames, buf.data, false)
      {
        assert chunks[..i + 1] == chunks[..i] + [chunks[i]];
        FlatSnoc(chunks[..i], chunks[i]);
        DrainConcat(fromRead, Flat(chunks[..i]), chunks[i]);
        buf.Extend(chunks[i]);
        var more, bad := DecodeAll(buf);
        frames := frames + more;
        if bad {
          assert chunks == chunks[..i + 1] + chunks[i + 1..];
          FlatConcat(chunks[..i + 1], chunks[i + 1..]);
          DrainConcat(fromRead, Flat(chunks[..i + 1]), Flat(chunks[i + 1..]));
          return frames, buf.data, true;
        }
      }
      assert chunks[..|chunks|] == chunks;
      DrainVerdict(fromRead, Flat(chunks));
      return frames, buf.data, false;
    }
  }

  lemma DecodeStable<T(!new)>(f: FromRead<T>, a: bytes, b: bytes)
    requires Streaming(f)
    ensures !DecodeNext(f, a).NeedMore? ==> DecodeNext(f, a + b) == DecodeNext(f, a)
  {
    assert UsesInput(f, a) && IsStable(f, a, b);
    if f(a).Done? {
      assert (a + b)[..f(a).used] == a[..f(a).used];
    }
  }

  lemma DrainStep<T(!new)>(f: FromRead<T>, a: bytes, tail: bytes)
    requires Streaming(f) && DecodeNext(f, a).Frame?
    requires tail == a[|DecodeNext(f, a).vec|..]
    ensures var d := Drain(f, tail);
            Drain(f, a) == Drained([DecodeNext(f, a)] + d.frames, d.rest, d.failed)
  {}

  /** Draining stops where the deserializer needs more input, or fails where it refuses what is left. */
  lemma {:induction false} DrainVerdict<T(!new)>(f: FromRead<T>, src: bytes)
    requires Streaming(f)
    ensures Drain(f, src).failed <==> f(Drain(f, src).rest).Malformed?
    ensures !Drain(f, src).failed <==> f(Drain(f, src).rest).Incomplete?
    decreases |src|
  {
    var first := DecodeNext(f, src);
    if !first.Frame? {
    } else {
      var tail := src[|first.vec|..];
      DrainStep(f, src, tail);
      DrainVerdict(f, tail);
    }
  }

  /** Draining a buffer, appending to what is left and draining again loses and invents nothing. */
  lemma {:induction false} DrainConcat<T(!new)>(f: FromRead<T>, a: bytes, b: bytes)
    requires Streaming(f)
    ensures Drain(f, a).failed ==> Drain(f, a + b).failed && Drain(f, a + b).frames == Drain(f, a).frames
    ensures !Drain(f, a).failed ==>
              var d := Drain(f, Drain(f, a).rest + b);
              Drain(f, a + b) == Drained(Drain(f, a).frames + d.frames, d.rest, d.failed)
    decreases |a|
  {
    DecodeStable(f, a, b);
    var first := DecodeNext(f, a);
    if !first.Frame? {
    } else {
      var tail := a[|first.vec|..];
      assert (a + b)[|first.vec|..] == tail + b;
      DrainConcat(f, tail, b);
      DrainStep(f, a, tail);
      DrainStep(f, a + b, tail + b);
      var d := Drain(f, tail);
      if !d.failed {
        var more := Drain(f, d.rest + b).frames;
        Regroup([first], d.frames, more);
      }
    }
  }

  /** At any cut the frames so far are the first of all, and the leftover with the later reads gives the rest. */
  lemma FragmentationIndependent<T(!new)>(f: FromRead<T>, chunks: seq<bytes>, i: nat)
    requires Streaming(f) && i <= |chunks|
    ensures var d := Drain(f, Flat(chunks[..i]));
            var whole := Drain(f, Flat(chunks));
            && d.frames <= whole.frames
            && (!d.failed ==> var more := Drain(f, d.rest + Flat(chunks[i..]));
                  whole == Drained(d.frames + more.frames, more.rest, more.failed))
            && (d.failed ==> whole.failed && whole.frames == d.frames)
  {
    assert chunks == chunks[..i] + chunks[i..];
    FlatConcat(chunks[..i], chunks[i..]);
    DrainConcat(f, Flat(chunks[..i]), Flat(chunks[i..]));
  }

  /** The bytes the frames were read from, in order. */
  function Consumed<T>(frames: seq<Decoded<T>>): bytes
    requires forall i :: 0 <= i < |frames| ==> frames[i].Frame?
  {
    if frames == [] then [] else frames[0].vec + Consumed(frames[1..])
  }

  /** The frames' bytes and the leftover are the input: nothing is dropped between frames. */
  lemma {:induction false} DrainConserves<T(!new)>(f: FromRead<T>, src: bytes)
    requires Streaming(f)
    ensures Consumed(Drain(f, src).frames) + Drain(f, src).rest == src
    decreases |src|
  {
    var first := DecodeNext(f, src);
    if !first.Frame? {
    } else {
      var tail := src[|first.vec|..];
      DrainStep(f, src, tail);
      DrainConserves(f, tail);
      ConsumedCons(first, Drain(f, tail).frames);
      Regroup(first.vec, Consumed(Drain(f, tail).frames), Drain(f, tail).rest);
    }
  }

  lemma ConsumedCons<T>(first: Decoded<T>, frames: seq<Decoded<T>>)
    requires first.Frame? && forall i :: 0 <= i < |frames| ==> frames[i].Frame?
    ensures Consumed([first] + frames) == first.vec + Consumed(frames)
  {
    assert ([first] + frames)[1..] == frames;
  }

  /** Every frame's bytes decode, on their own, to that frame. */
  lemma {:induction false} FramesStandAlone<T(!new)>(f: FromRead<T>, src: bytes)
    requires Streaming(f)
    ensures forall fr :: fr in Drain(f, src).frames ==> DecodeNext(f, fr.vec) == fr
    decreases |src|
  {
    var first := DecodeNext(f, src);
    if !first.Frame? {
    } else {
      DrainStep(f, src, src[|first.vec|..]);
      FramesStandAlone(f, src[|first.vec|..]);
      assert UsesInput(f, src) && IsLocal(f, src);
      assert first.vec[..|first.vec|] == first.vec;
    }
  }

  /** A byte string that is exactly one object. */
  ghost predicate Whole<T(!new)>(f: FromRead<T>, m: bytes) {
    f(m).Done? && f(m).used == |m|
  }

  ghost predicate AllWhole<T(!new)>(f: FromRead<T>, ms: seq<bytes>) {
    forall i :: 0 <= i < |ms| ==> Whole(f, ms[i])
  }

  function FrameOf<T(!new)>(f: FromRead<T>, m: bytes): Decoded<T>
    requires Whole(f, m)
  {
    Frame(f(m).value, m)
  }

  lemma DecodeWhole<T(!new)>(f: FromRead<T>, m: bytes, s: bytes)
    requires Streaming(f) && Whole(f, m)
    ensures DecodeNext(f, m + s) == FrameOf(f, m)
  {
    DecodeStable(f, m, s);
    assert m[..|m|] == m;
  }

  /** A strict prefix of one object is never an error and never an object. */
  lemma PartialWaits<T(!new)>(f: FromRead<T>, m: bytes, k: nat)
    requires Streaming(f) && Whole(f, m) && k < |m|
    ensures DecodeNext(f, m[..k]) == NeedMore
  {
    DecodeStable(f, m[..k], m[k..]);
    assert m == m[..k] + m[k..];
  }

  /** A stream of objects followed by part of one more comes out as those objects, in order. */
  lemma {:induction false} DrainWhole<T(!new)>(f: FromRead<T>, ms: seq<bytes>, next: bytes, k: nat)
    requires Streaming(f) && AllWhole(f, ms) && Whole(f, next) && k < |next|
    ensures Drain(f, Flat(ms) + next[..k])
         == Drained(seq(|ms|, i requires 0 <= i < |ms| => FrameOf(f, ms[i])), next[..k], false)
  {
    if ms == [] {
      assert Flat(ms) + next[..k] == next[..k];
      PartialWaits(f, next, k);
    } else {
      var s := Flat(ms[1..]) + next[..k];
      assert Flat(ms) + next[..k] == ms[0] + s;
      DecodeWhole(f, ms[0], s);
      assert (ms[0] + s)[|ms[0]|..] == s;
      DrainWhole(f, ms[1..], next, k);
    }
  }
}
