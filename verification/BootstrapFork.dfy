/** Output piping of a forked process: complete lines are cut out of the chunks written. */
module BootstrapFork {
  import opened Common

  // ---- line buffering ----

  const MAX_STREAM_BUFFER_LENGTH := 1024 * 1024

  /** The index of the last newline, or -1. */
  function LastNewline(s: string): (r: int)
    ensures -1 <= r < |s|
    ensures r >= 0 ==> s[r] == '\n'
  {
    if s == "" then -1
    else if s[|s| - 1] == '\n' then |s| - 1
    else LastNewline(s[..|s| - 1])
  }

  /** The text after the last newline. */
  function Tail(s: string): string {
    if s == "" || s[|s| - 1] == '\n' then "" else Tail(s[..|s| - 1]) + [s[|s| - 1]]
  }

  lemma TailGrows(front: string, c: char, k: nat)
    requires k <= |front|
    ensures (front + [c])[k..] == front[k..] + [c]
  {}

  lemma {:induction false} TailFrom(s: string)
    ensures Tail(s) == s[LastNewline(s) + 1..]
  {
    if s == "" {
    } else {
      var front, c := s[..|s| - 1], s[|s| - 1];
      TailFrom(front);
      assert s == front + [c];
      TailGrows(front, c, LastNewline(front) + 1);
    }
  }

  lemma {:induction false} TailClean(s: string)
    ensures '\n' !in Tail(s)
    ensures LastNewline(s) == -1 <==> '\n' !in s
  {
    if s == "" {
    } else {
      TailClean(s[..|s| - 1]);
      assert s == s[..|s| - 1] + [s[|s| - 1]];
    }
  }

  lemma TailIs(s: string)
    ensures Tail(s) == s[LastNewline(s) + 1..]
    ensures '\n' !in Tail(s)
    ensures LastNewline(s) == -1 <==> '\n' !in s
  {
    TailFrom(s);
    TailClean(s);
  }

  /** A piece handed to the console, with the text between it and the next: a newline, or nothing on overflow. */
  datatype Piece = Piece(text: string, separator: string)

  class WrappedStream {
    var buf: string
    ghost var emitted: seq<Piece>

    constructor ()
      ensures buf == "" && emitted == []
    {
      buf := "";
      emitted := [];
    }

    /** `stream.write`: the text given to the console, if any, comes with the new buffer. */
    method Write(chunk: string) returns (line: Option<string>)
      modifies this
      ensures (buf, emitted) == Written(old(buf), old(emitted), chunk)
      ensures line == if |emitted| > |old(emitted)| then Some(emitted[|emitted| - 1].text) else None
      ensures |buf| <= 1048576 && '\n' !in buf
    {
      WrittenBounded(buf, emitted, chunk);
      buf := buf + chunk;
      assert buf[..|buf|] == buf;
      line := None;
      var eol := if |buf| > MAX_STREAM_BUFFER_LENGTH then |buf| else LastNewline(buf);
      if eol != -1 {
        line := Some(buf[..eol]);
        emitted := emitted + [Piece(buf[..eol], if eol < |buf| then "\n" else "")];
        buf := if eol + 1 <= |buf| then buf[eol + 1..] else "";
      }
    }
  }

  /** One write on the buffer and the pieces emitted so far. */
  function Written(buf: string, emitted: seq<Piece>, chunk: string): (string, seq<Piece>) {
    var all := buf + chunk;
    var eol := LastNewline(all);
    if |all| > MAX_STREAM_BUFFER_LENGTH then ("", emitted + [Piece(all, "")])
    else if eol == -1 then (all, emitted)
    else (all[eol + 1..], emitted + [Piece(all[..eol], "\n")])
  }

  /** The buffer is what follows the last newline, unless it has grown too long. */
  lemma WrittenBounded(buf: string, emitted: seq<Piece>, chunk: string)
    ensures var buf' := Written(buf, emitted, chunk).0;
            && |buf'| <= MAX_STREAM_BUFFER_LENGTH && '\n' !in buf'
            && buf' == (if |buf| + |chunk| > MAX_STREAM_BUFFER_LENGTH then "" else Tail(buf + chunk))
  {
    TailIs(buf + chunk);
  }

  function WriteAll(chunks: seq<string>): (string, seq<Piece>) {
    if chunks == [] then ("", [])
    else
      var (buf, emitted) := WriteAll(chunks[..|chunks| - 1]);
      Written(buf, emitted, chunks[|chunks| - 1])
  }

  lemma WriteAllSnoc(front: seq<string>, chunk: string)
    ensures WriteAll(front + [chunk]) == Written(WriteAll(front).0, WriteAll(front).1, chunk)
  {
    assert (front + [chunk])[..|front|] == front;
  }

  function Joined(emitted: seq<Piece>): string {
    if emitted == [] then ""
    else Joined(emitted[..|emitted| - 1]) + emitted[|emitted| - 1].text + emitted[|emitted| - 1].separator
  }

  lemma JoinedSnoc(emitted: seq<Piece>, p: Piece)
    ensures Joined(emitted + [p]) == Joined(emitted) + p.text + p.separator
  {
    assert (emitted + [p])[..|emitted|] == emitted;
  }

  lemma WrittenConserves(buf: string, emitted: seq<Piece>, chunk: string)
    ensures Joined(Written(buf, emitted, chunk).1) + Written(buf, emitted, chunk).0 == Joined(emitted) + (buf + chunk)
  {
    var all, before := buf + chunk, Joined(emitted);
    var eol := LastNewline(all);
    if |all| > MAX_STREAM_BUFFER_LENGTH {
      JoinedSnoc(emitted, Piece(all, ""));
    } else if eol != -1 {
      JoinedSnoc(emitted, Piece(all[..eol], "\n"));
      var line, rest := all[..eol] + "\n", all[eol + 1..];
      assert all == line + rest;
      Regroup(before, all[..eol], "\n");
      Regroup(before, line, rest);
    }
  }

  /** Pieces with their separators, followed by the buffer, are the whole input. */
  lemma {:induction false} NothingLost(chunks: seq<string>)
    ensures Joined(WriteAll(chunks).1) + WriteAll(chunks).0 == Flat(chunks)
  {
    if chunks == [] {
    } else {
      var front, chunk := chunks[..|chunks| - 1], chunks[|chunks| - 1];
      NothingLost(front);
      NothingLostStep(front, chunk);
      assert chunks == front + [chunk];
    }
  }

  lemma NothingLostStep(front: seq<string>, chunk: string)
    requires Joined(WriteAll(front).1) + WriteAll(front).0 == Flat(front)
    ensures Joined(WriteAll(front + [chunk]).1) + WriteAll(front + [chunk]).0 == Flat(front + [chunk])
  {
    var buf, emitted := WriteAll(front).0, WriteAll(front).1;
    WriteAllSnoc(front, chunk);
    WrittenConserves(buf, emitted, chunk);
    Regroup(Joined(emitted), buf, chunk);
    FlatSnoc(front, chunk);
  }

  /** Some write found more than 1 MiB in the buffer. */
  ghost predicate Overflows(chunks: seq<string>) {
    exists i :: 0 <= i < |chunks| && |WriteAll(chunks[..i]).0| + |chunks[i]| > 1048576
  }

  lemma {:induction false} TailConcat(a: string, b: string)
    ensures Tail(a + b) == if '\n' in b then Tail(b) else Tail(a) + b
  {
    if b == "" {
      assert a + b == a && Tail(a) + b == Tail(a);
    } else {
      var front, c := b[..|b| - 1], b[|b| - 1];
      assert b == front + [c];
      assert (a + b)[..|a + b| - 1] == a + front;
      TailConcat(a, front);
      Regroup(Tail(a), front, [c]);
    }
  }

  lemma TailAgain(a: string, b: string)
    ensures Tail(Tail(a) + b) == Tail(a + b)
  {
    TailIs(a);
    TailIs(Tail(a));
    TailConcat(a, b);
    TailConcat(Tail(a), b);
  }

  lemma OverflowFront(chunks: seq<string>)
    requires chunks != [] && !Overflows(chunks)
    ensures !Overflows(chunks[..|chunks| - 1])
    ensures |WriteAll(chunks[..|chunks| - 1]).0| + |chunks[|chunks| - 1]| <= MAX_STREAM_BUFFER_LENGTH
  {
    var n := |chunks| - 1;
    assert forall i :: 0 <= i < n ==> chunks[..n][..i] == chunks[..i];
    assert !(|WriteAll(chunks[..n]).0| + |chunks[n]| > MAX_STREAM_BUFFER_LENGTH);
  }

  ghost predicate AllLines(emitted: seq<Piece>) {
    forall p :: p in emitted ==> p.separator == "\n"
  }

  /** One write without overflow. */
  lemma TailStep(buf: string, emitted: seq<Piece>, chunk: string, before: string)
    requires buf == Tail(before) && |buf| + |chunk| <= MAX_STREAM_BUFFER_LENGTH && AllLines(emitted)
    ensures Written(buf, emitted, chunk).0 == Tail(before + chunk)
    ensures AllLines(Written(buf, emitted, chunk).1)
  {
    WrittenBounded(buf, emitted, chunk);
    TailAgain(before, chunk);
  }

  lemma BufferStep(front: seq<string>, chunk: string)
    requires WriteAll(front).0 == Tail(Flat(front)) && AllLines(WriteAll(front).1)
    requires |WriteAll(front).0| + |chunk| <= MAX_STREAM_BUFFER_LENGTH
    ensures WriteAll(front + [chunk]).0 == Tail(Flat(front + [chunk])) && AllLines(WriteAll(front + [chunk]).1)
  {
    TailStep(WriteAll(front).0, WriteAll(front).1, chunk, Flat(front));
    WriteAllSnoc(front, chunk);
    FlatSnoc(front, chunk);
  }

  /** Without overflow the buffer is what follows the last newline of all the input, however it was chunked. */
  lemma {:induction false} BufferIsTail(chunks: seq<string>)
    requires !Overflows(chunks)
    ensures WriteAll(chunks).0 == Tail(Flat(chunks))
    ensures AllLines(WriteAll(chunks).1)
  {
    if chunks == [] {
    } else {
      var front, chunk := chunks[..|chunks| - 1], chunks[|chunks| - 1];
      OverflowFront(chunks);
      BufferIsTail(front);
      BufferStep(front, chunk);
      assert chunks == front + [chunk];
    }
  }

  /** Two ways of chunking the same input leave the same buffer and have emitted the same text. */
  lemma ChunkingIrrelevant(chunks: seq<string>, other: seq<string>)
    requires Flat(chunks) == Flat(other) && !Overflows(chunks) && !Overflows(other)
    ensures WriteAll(chunks).0 == WriteAll(other).0
    ensures Joined(WriteAll(chunks).1) == Joined(WriteAll(other).1)
  {
    BufferIsTail(chunks);
    BufferIsTail(other);
    NothingLost(chunks);
    NothingLost(other);
    var a, b, buf := Joined(WriteAll(chunks).1), Joined(WriteAll(other).1), WriteAll(chunks).0;
    assert a == (a + buf)[..|a|] && b == (b + buf)[..|b|];
  }
}
