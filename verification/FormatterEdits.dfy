/** The protocol sync script's formatting: a formatter's edits applied from last to first. */
module FormatterEdits {
  import opened Common

  datatype Edit = Edit(start: nat, len: nat, text: string)

  /** Offsets past the end stand for the end. */
  function Before(s: string, n: nat): string {
    if n <= |s| then s[..n] else s
  }

  function From(s: string, n: nat): string {
    if n <= |s| then s[n..] else ""
  }

  function Spliced(s: string, e: Edit): string {
    Before(s, e.start) + e.text + From(s, e.start + e.len)
  }

  function LastToFirst(content: string, edits: seq<Edit>): string {
    if edits == [] then content else Spliced(LastToFirst(content, edits[1..]), edits[0])
  }

  method ApplyEdits(content: string, edits: seq<Edit>) returns (r: string)
    ensures r == LastToFirst(content, edits)
  {
    r := content;
    var i := |edits|;
    while i > 0
      invariant 0 <= i <= |edits| && r == LastToFirst(content, edits[i..])
    {
      i := i - 1;
      assert edits[i..][1..] == edits[i + 1..];
      r := Spliced(r, edits[i]);
    }
  }

  /** Sorted edits that do not overlap, from `pos` to `end`; insertions may share an offset. */
  ghost predicate Ordered(edits: seq<Edit>, pos: nat, end: nat) {
    if edits == [] then pos <= end
    else pos <= edits[0].start && Ordered(edits[1..], edits[0].start + edits[0].len, end)
  }

  /** The edits made at once on the original: what is left of it from `pos` on, with each span replaced. */
  function AtOnce(content: string, edits: seq<Edit>, pos: nat): string {
    if edits == [] then From(content, pos)
    else
      var e := edits[0];
      From(Before(content, e.start), pos) + e.text + AtOnce(content, edits[1..], e.start + e.len)
  }

  lemma {:induction false} OrderedEnds(edits: seq<Edit>, pos: nat, end: nat)
    requires Ordered(edits, pos, end)
    ensures pos <= end
  {
    if edits == [] {
    } else {
      OrderedEnds(edits[1..], edits[0].start + edits[0].len, end);
    }
  }

  lemma Cut(a: string, b: string)
    ensures (a + b)[..|a|] == a && (a + b)[|a|..] == b
  {}

  /** An edit before the part already edited. */
  lemma SplicedInto(before: string, replaced: string, rest: string, e: Edit)
    requires |before| == e.start && |replaced| == e.len
    ensures Spliced(before + replaced + rest, e) == before + e.text + rest
  {
    Cut(before + replaced, rest);
    Regroup(before, replaced, rest);
    Cut(before, replaced + rest);
  }

  lemma SplicedAfter(content: string, e: Edit, pos: nat, rest: string)
    requires pos <= e.start && e.start + e.len <= |content|
    ensures Spliced(content[..e.start + e.len] + rest, e)
         == content[..pos] + (From(Before(content, e.start), pos) + e.text + rest)
  {
    var before, replaced := content[..e.start], content[e.start..e.start + e.len];
    assert content[..e.start + e.len] == before + replaced;
    SplicedInto(before, replaced, rest, e);
    var kept, start := content[..pos], before[pos..];
    assert before == kept + start;
    Regroup(kept, start, e.text);
    Regroup(kept, start + e.text, rest);
  }

  lemma {:induction false} LastToFirstFrom(content: string, edits: seq<Edit>, pos: nat)
    requires Ordered(edits, pos, |content|)
    ensures pos <= |content|
    ensures LastToFirst(content, edits) == content[..pos] + AtOnce(content, edits, pos)
  {
    OrderedEnds(edits, pos, |content|);
    if edits == [] {
      assert content[..pos] + content[pos..] == content;
    } else {
      var e, later := edits[0], edits[1..];
      var next := e.start + e.len;
      LastToFirstFrom(content, later, next);
      var rest := AtOnce(content, later, next);
      SplicedAfter(content, e, pos, rest);
      assert LastToFirst(content, edits) == Spliced(content[..next] + rest, e);
    }
  }

  /** Applying sorted edits from last to first is the simultaneous substitution on the original text. */
  lemma ReverseOrderIsSimultaneous(content: string, edits: seq<Edit>)
    requires Ordered(edits, 0, |content|)
    ensures LastToFirst(content, edits) == AtOnce(content, edits, 0)
  {
    LastToFirstFrom(content, edits, 0);
    assert content[..0] + AtOnce(content, edits, 0) == AtOnce(content, edits, 0);
  }
}
