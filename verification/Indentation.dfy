/** The protocol sync script's indentation: every two leading spaces of a line become a tab. */
module Indentation {
  import opened Common

  function Spaces(n: nat): string {
    if n == 0 then "" else " " + Spaces(n - 1)
  }

  function Tabs(n: nat): string {
    if n == 0 then "" else "\t" + Tabs(n - 1)
  }

  /** How many times `c` occurs at the start of a line. */
  function Leading(line: string, c: char): (n: nat)
    ensures n <= |line|
  {
    if line != "" && line[0] == c then 1 + Leading(line[1..], c) else 0
  }

  /** Every two leading spaces become a tab; an odd one stays. */
  function ConvertLine(line: string): string {
    var spaces := Leading(line, ' ');
    if spaces == 0 then line else Tabs(spaces / 2) + Spaces(spaces % 2) + line[spaces..]
  }

  /** Every leading tab becomes two spaces. */
  function Untabbed(line: string): string {
    Spaces(2 * Leading(line, '\t')) + line[Leading(line, '\t')..]
  }

  lemma {:induction false} LeadingTabs(n: nat, rest: string)
    ensures Leading(Tabs(n) + rest, '\t') == n + Leading(rest, '\t')
    ensures |Tabs(n)| == n
  {
    if n == 0 {
      assert Tabs(0) + rest == rest;
    } else {
      assert (Tabs(n) + rest)[1..] == Tabs(n - 1) + rest;
      LeadingTabs(n - 1, rest);
    }
  }

  lemma {:induction false} LeadingSpaces(line: string)
    ensures line == Spaces(Leading(line, ' ')) + line[Leading(line, ' ')..]
    ensures Leading(line[Leading(line, ' ')..], ' ') == 0
  {
    if line == "" || line[0] != ' ' {
    } else {
      LeadingSpaces(line[1..]);
      assert line[Leading(line, ' ')..] == line[1..][Leading(line[1..], ' ')..];
      assert line == [line[0]] + line[1..];
    }
  }

  lemma {:induction false} SpacesSum(a: nat, b: nat)
    ensures Spaces(a + b) == Spaces(a) + Spaces(b)
  {
    if a == 0 {
    } else {
      SpacesSum(a - 1, b);
    }
  }

  lemma {:induction false} SpacesLength(n: nat)
    ensures |Spaces(n)| == n
  {
    if n == 0 {
    } else {
      SpacesLength(n - 1);
    }
  }

  lemma Behind(a: string, b: string, n: nat)
    requires n <= |b|
    ensures (a + b)[|a| + n..] == b[n..]
  {}

  lemma Longer(a: string, b: string, rest: string, more: nat)
    requires more <= |rest| && |b| == |a| + 2 * more && (more == 0 ==> a == b)
    ensures b + rest[more..] == a + rest <==> more == 0
  {
    if more > 0 {
      assert |b + rest[more..]| > |a + rest|;
    }
  }

  /** Turning tabs back finds the tabs that were there before as well. */
  lemma UntabbedIs(tabs: string, rest: string)
    requires Leading(tabs + rest, '\t') == |tabs| + Leading(rest, '\t')
    ensures Untabbed(tabs + rest) == Spaces(2 * |tabs|) + rest <==> Leading(rest, '\t') == 0
  {
    var n, more := |tabs|, Leading(rest, '\t');
    Behind(tabs, rest, more);
    SpacesLength(2 * (n + more));
    SpacesLength(2 * n);
    Longer(Spaces(2 * n), Spaces(2 * (n + more)), rest, more);
  }

  lemma ConvertedForm(line: string)
    ensures var spaces := Leading(line, ' ');
            var rest := Spaces(spaces % 2) + line[spaces..];
            ConvertLine(line) == Tabs(spaces / 2) + rest && line == Spaces(2 * (spaces / 2)) + rest
  {
    var spaces := Leading(line, ' ');
    LeadingSpaces(line);
    SpacesSum(2 * (spaces / 2), spaces % 2);
    Regroup(Spaces(2 * (spaces / 2)), Spaces(spaces % 2), line[spaces..]);
    Regroup(Tabs(spaces / 2), Spaces(spaces % 2), line[spaces..]);
  }

  /**
   Turning the tabs back into spaces restores a line, unless all its leading spaces became
   tabs and another tab follows them.
   */
  lemma IndentationKeptIff(line: string)
    ensures var spaces := Leading(line, ' ');
            Untabbed(ConvertLine(line)) == line <==> !(spaces % 2 == 0 && spaces < |line| && line[spaces] == '\t')
  {
    var spaces := Leading(line, ' ');
    ConvertedForm(line);
    LeadingTabs(spaces / 2, Spaces(spaces % 2) + line[spaces..]);
    UntabbedIs(Tabs(spaces / 2), Spaces(spaces % 2) + line[spaces..]);
    if spaces % 2 == 0 {
      assert Spaces(0) + line[spaces..] == line[spaces..];
    }
  }

  /** Two spaces and a tab become two tabs, and those four spaces. */
  lemma TabAfterSpacesIsLost()
    ensures ConvertLine("  \tx") == "\t\tx" && Untabbed("\t\tx") == "    x"
  {
    assert "  \tx"[1..] == " \tx" && " \tx"[1..] == "\tx";
    assert Leading("\tx", ' ') == 0;
    assert Leading(" \tx", ' ') == 1;
    assert Leading("  \tx", ' ') == 2 && "  \tx"[2..] == "\tx";
    assert Tabs(0) == "" && Tabs(1) == "\t" && Spaces(0) == "";
    assert "\t\tx"[1..] == "\tx" && "\tx"[1..] == "x";
    assert Leading("x", '\t') == 0;
    assert Leading("\tx", '\t') == 1;
    assert Leading("\t\tx", '\t') == 2 && "\t\tx"[2..] == "x";
    assert Spaces(1) == " " && Spaces(2) == "  " && Spaces(3) == "   " && Spaces(4) == "    ";
  }

  /** A second pass over converted lines changes nothing. */
  lemma ConvertTwice(line: string)
    ensures ConvertLine(ConvertLine(line)) == ConvertLine(line)
  {
    LeadingSpaces(line);
  }
}
