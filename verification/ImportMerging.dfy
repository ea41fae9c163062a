/** The protocol sync script's import merging: one import line per module, at the place of its first. */
module ImportMerging {
  import opened Common

  type Name = string
  type Module = string

  /** A line of the file: `import type {..}`, `import {..}`, or anything else. */
  datatype Line =
    | TypeImport(names: seq<Name>, from: Module)
    | ValueImport(names: seq<Name>, from: Module)
    | Other(text: string)

  datatype Names = Names(types: seq<Name>, values: seq<Name>)

  type Table = map<Module, Names>

  const PLACEHOLDER: string := "__IMPORT_PLACEHOLDER__"

  function Inline(n: Name): Name {
    "type " + n
  }

  function InlineAll(ns: seq<Name>): (r: seq<Name>)
    ensures |r| == |ns| && forall i :: 0 <= i < |ns| ==> r[i] == Inline(ns[i])
  {
    seq(|ns|, i requires 0 <= i < |ns| => Inline(ns[i]))
  }

  predicate IsImport(l: Line) {
    !l.Other?
  }

  function Entry(t: Table, m: Module): Names {
    if m in t then t[m] else Names([], [])
  }

  /** The table with the names of one line added. */
  function Added(t: Table, l: Line): Table {
    match l
    case TypeImport(names, m) => t[m := Entry(t, m).(types := Entry(t, m).types + names)]
    case ValueImport(names, m) => t[m := Entry(t, m).(values := Entry(t, m).values + names)]
    case Other(_) => t
  }

  /** What a line leaves among the kept lines: itself, or a placeholder for its module. */
  function Kept(l: Line): string {
    if l.Other? then l.text else PLACEHOLDER + l.from
  }

  /** The one import line written for a module. */
  function Merged(e: Names, m: Module): Line {
    var types, values := Dedup(e.types), Dedup(e.values);
    if values != [] && types != [] then ValueImport(values + InlineAll(types), m)
    else if values != [] then ValueImport(values, m)
    else TypeImport(types, m)
  }

  predicate IsPlaceholder(s: string) {
    PLACEHOLDER <= s
  }

  /** A kept line is written back; none if it looks like a placeholder of a module without imports. */
  function Expand(t: Table, s: string): Option<Line> {
    if !IsPlaceholder(s) then Some(Other(s))
    else
      var m := s[|PLACEHOLDER|..];
      if m in t then Some(Merged(t[m], m)) else None
  }

  /** The merge: none when the script fails on a missing table entry. */
  method MergeDuplicateImports(lines: seq<Line>) returns (r: Option<seq<Line>>)
    ensures r == ExpandAll(TableOf(lines), KeptLines(lines))
  {
    var table, kept := CollectImports(lines);
    var out: seq<Line> := [];
    for k := 0 to |kept|
      invariant ExpandAll(table, kept[..k]) == Some(out)
    {
      assert kept[..k + 1] == kept[..k] + [kept[k]];
      ExpandSnoc(table, kept[..k], kept[k]);
      match Expand(table, kept[k]) {
        case None =>
          ExpandPrefix(table, kept, k + 1);
          return None;
        case Some(l) => out := out + [l];
      }
    }
    assert kept[..|kept|] == kept;
    r := Some(out);
  }

  method CollectImports(lines: seq<Line>) returns (table: Table, kept: seq<string>)
    ensures table == TableOf(lines) && kept == KeptLines(lines)
  {
    var seen: set<Module> := {};
    table, kept := map[], [];
    for i := 0 to |lines|
      invariant table == TableOf(lines[..i]) && seen == Modules(lines[..i]) && kept == KeptLines(lines[..i])
    {
      assert lines[..i + 1][..i] == lines[..i];
      match lines[i] {
        case Other(text) => kept := kept + [text];
        case TypeImport(names, m) =>
          if m !in table {
            table := table[m := Names([], [])];
          }
          table := table[m := table[m].(types := table[m].types + names)];
          if m !in seen {
            seen := seen + {m};
            kept := kept + [PLACEHOLDER + m];
          }
        case ValueImport(names, m) =>
          if m !in table {
            table := table[m := Names([], [])];
          }
          table := table[m := table[m].(values := table[m].values + names)];
          if m !in seen {
            seen := seen + {m};
            kept := kept + [PLACEHOLDER + m];
          }
      }
    }
    assert lines[..|lines|] == lines;
  }

  function TableOf(lines: seq<Line>): Table {
    if lines == [] then map[] else Added(TableOf(lines[..|lines| - 1]), lines[|lines| - 1])
  }

  function Modules(lines: seq<Line>): set<Module> {
    if lines == [] then {}
    else
      var l := lines[|lines| - 1];
      Modules(lines[..|lines| - 1]) + (if l.Other? then {} else {l.from})
  }

  /** The line imports a module that was imported before. */
  predicate Dropped(front: seq<Line>, l: Line) {
    IsImport(l) && l.from in Modules(front)
  }

  function KeptLines(lines: seq<Line>): seq<string> {
    if lines == [] then []
    else
      var front, l := lines[..|lines| - 1], lines[|lines| - 1];
      if Dropped(front, l) then KeptLines(front) else KeptLines(front) + [Kept(l)]
  }

  function ExpandAll(t: Table, kept: seq<string>): Option<seq<Line>> {
    if kept == [] then Some([])
    else
      match (ExpandAll(t, kept[..|kept| - 1]), Expand(t, kept[|kept| - 1]))
      case (Some(front), Some(l)) => Some(front + [l])
      case _ => None
  }

  lemma {:induction false} ExpandPrefix(t: Table, kept: seq<string>, k: nat)
    requires k <= |kept| && ExpandAll(t, kept[..k]) == None
    ensures ExpandAll(t, kept) == None
  {
    if k == |kept| {
      assert kept[..k] == kept;
    } else {
      assert kept[..|kept| - 1][..k] == kept[..k];
      ExpandPrefix(t, kept[..|kept| - 1], k);
    }
  }

  // ---- what merging means, without the table ----

  /** The names a module's lines import, in order, as types and as values. */
  function TypesFor(lines: seq<Line>, m: Module): seq<Name> {
    if lines == [] then []
    else
      var front, l := lines[..|lines| - 1], lines[|lines| - 1];
      if l.TypeImport? && l.from == m then TypesFor(front, m) + l.names else TypesFor(front, m)
  }

  function ValuesFor(lines: seq<Line>, m: Module): seq<Name> {
    if lines == [] then []
    else
      var front, l := lines[..|lines| - 1], lines[|lines| - 1];
      if l.ValueImport? && l.from == m then ValuesFor(front, m) + l.names else ValuesFor(front, m)
  }

  function MergedLine(lines: seq<Line>, m: Module): (l: Line)
    ensures IsImport(l) && l.from == m
  {
    Merged(Names(TypesFor(lines, m), ValuesFor(lines, m)), m)
  }

  /** A line of the merged file, given the first line of its place. */
  function InPlaceOf(all: seq<Line>, l: Line): Line {
    if l.Other? then l else MergedLine(all, l.from)
  }

  /** Each first import of a module replaced by its merged line, later ones dropped, other lines kept. */
  function Merge(all: seq<Line>, lines: seq<Line>): seq<Line> {
    if lines == [] then []
    else
      var front, l := lines[..|lines| - 1], lines[|lines| - 1];
      if Dropped(front, l) then Merge(all, front) else Merge(all, front) + [InPlaceOf(all, l)]
  }

  ghost predicate PlaceholderFree(lines: seq<Line>) {
    forall l :: l in lines && l.Other? ==> !IsPlaceholder(l.text)
  }

  lemma {:induction false} TableMeans(lines: seq<Line>, m: Module)
    ensures m in TableOf(lines) <==> m in Modules(lines)
    ensures Entry(TableOf(lines), m) == Names(TypesFor(lines, m), ValuesFor(lines, m))
  {
    if lines == [] {
    } else {
      TableMeans(lines[..|lines| - 1], m);
    }
  }

  lemma ExpandSnoc(t: Table, kept: seq<string>, s: string)
    ensures ExpandAll(t, kept + [s]) ==
              match (ExpandAll(t, kept), Expand(t, s))
              case (Some(front), Some(l)) => Some(front + [l])
              case _ => None
  {
    assert (kept + [s])[..|kept|] == kept;
  }

  lemma SnocEqual(a: seq<Line>, x: Line, b: seq<Line>, y: Line)
    ensures a + [x] == b + [y] <==> a == b && x == y
  {
    if a + [x] == b + [y] {
      assert |a| == |b|;
      assert a == (a + [x])[..|a|] == (b + [y])[..|b|] == b;
      assert x == (a + [x])[|a|] == (b + [y])[|b|] == y;
    }
  }

  /** What a line of `all` leaves is written back as its part of the merge, unless the line poses as a placeholder. */
  lemma ExpandedLine(all: seq<Line>, l: Line)
    requires l in all
    ensures Expand(TableOf(all), Kept(l)) == Some(InPlaceOf(all, l)) <==> (l.Other? ==> !IsPlaceholder(l.text))
  {
    if IsImport(l) {
      assert (PLACEHOLDER + l.from)[|PLACEHOLDER|..] == l.from;
      var i :| 0 <= i < |all| && all[i] == l;
      ModulesAre(all, l.from);
      TableMeans(all, l.from);
    }
  }

  lemma ExpandStep(t: Table, kept: seq<string>, s: string, out: seq<Line>, l: Line)
    ensures ExpandAll(t, kept + [s]) == Some(out + [l]) <==> ExpandAll(t, kept) == Some(out) && Expand(t, s) == Some(l)
  {
    ExpandSnoc(t, kept, s);
    if ExpandAll(t, kept).Some? && Expand(t, s).Some? {
      SnocEqual(ExpandAll(t, kept).value, Expand(t, s).value, out, l);
    }
  }

  lemma FreeSnoc(lines: seq<Line>, l: Line)
    ensures PlaceholderFree(lines + [l]) <==> PlaceholderFree(lines) && (l.Other? ==> !IsPlaceholder(l.text))
  {
    assert forall k :: k in lines + [l] <==> k in lines || k == l;
  }

  lemma ExpandedIffFreeStep(all: seq<Line>, front: seq<Line>, l: Line)
    requires l in all
    requires ExpandAll(TableOf(all), KeptLines(front)) == Some(Merge(all, front)) <==> PlaceholderFree(front)
    ensures ExpandAll(TableOf(all), KeptLines(front + [l])) == Some(Merge(all, front + [l]))
       <==> PlaceholderFree(front + [l])
  {
    var t := TableOf(all);
    assert (front + [l])[..|front|] == front;
    FreeSnoc(front, l);
    ExpandedLine(all, l);
    if !Dropped(front, l) {
      ExpandStep(t, KeptLines(front), Kept(l), Merge(all, front), InPlaceOf(all, l));
    }
  }

  lemma {:induction false} ExpandedIffFree(all: seq<Line>, i: nat)
    requires i <= |all|
    ensures ExpandAll(TableOf(all), KeptLines(all[..i])) == Some(Merge(all, all[..i])) <==> PlaceholderFree(all[..i])
  {
    if i == 0 {
    } else {
      assert all[..i] == all[..i - 1] + [all[i - 1]];
      ExpandedIffFree(all, i - 1);
      ExpandedIffFreeStep(all, all[..i - 1], all[i - 1]);
    }
  }

  /** The script computes the merge exactly if no other line poses as a placeholder. */
  lemma MergeComputedIff(lines: seq<Line>)
    ensures ExpandAll(TableOf(lines), KeptLines(lines)) == Some(Merge(lines, lines)) <==> PlaceholderFree(lines)
  {
    assert lines[..|lines|] == lines;
    ExpandedIffFree(lines, |lines|);
  }

  lemma Appended(lines: seq<Line>, l: Line)
    ensures TableOf(lines + [l]) == Added(TableOf(lines), l)
    ensures KeptLines(lines + [l]) == if Dropped(lines, l) then KeptLines(lines) else KeptLines(lines) + [Kept(l)]
    ensures Modules(lines + [l]) == Modules(lines) + (if l.Other? then {} else {l.from})
  {
    assert (lines + [l])[..|lines|] == lines;
  }

  /** A text line that poses as the placeholder of a module without imports makes the script fail. */
  lemma PosingFails(m: Module)
    ensures var line := Other("__IMPORT_PLACEHOLDER__" + m);
            ExpandAll(TableOf([line]), KeptLines([line])) == None
  {
    var l := Other(PLACEHOLDER + m);
    Appended([], l);
    assert [] + [l] == [l] && [] + [l.text] == [l.text];
    ExpandSnoc(map[], [], l.text);
    assert l.text[|PLACEHOLDER|..] == m;
  }

  /** One that poses as the placeholder of an imported module becomes a second import of it. */
  lemma PosingDuplicates(m: Module, n: Name)
    ensures var line := TypeImport([n], m);
            var lines := [line] + [Other("__IMPORT_PLACEHOLDER__" + m)];
            ExpandAll(TableOf(lines), KeptLines(lines)) == Some([line] + [line])
  {
    var line, p := TypeImport([n], m), PLACEHOLDER + m;
    var t := map[m := Names([n], [])];
    Appended([], line);
    Appended([line], Other(p));
    assert [] + [line] == [line] && [] + [n] == [n] && [] + [p] == [p];
    assert TableOf([line]) == t && KeptLines([line]) == [p];
    assert p[|PLACEHOLDER|..] == m;
    DedupOne(n);
    assert Expand(t, p) == Some(line);
    ExpandSnoc(t, [], p);
    ExpandSnoc(t, [p], p);
  }

  lemma DedupOne(n: Name)
    ensures Dedup([n]) == [n] && Dedup([n, n]) == [n]
  {
    assert [n][..0] == [] && [n, n][..1] == [n];
  }

  // ---- what the merge keeps ----

  /** A line's place in the file: the text it holds, or the module it imports. */
  datatype Slot = Text(text: string) | Import(from: Module)

  function SlotOf(l: Line): Slot {
    if l.Other? then Text(l.text) else Import(l.from)
  }

  /** The places of the other lines and of the first import of every module, in order. */
  function FirstSlots(lines: seq<Line>): seq<Slot> {
    if lines == [] then []
    else
      var front, l := lines[..|lines| - 1], lines[|lines| - 1];
      if Dropped(front, l) then FirstSlots(front) else FirstSlots(front) + [SlotOf(l)]
  }

  function AllSlots(lines: seq<Line>): (r: seq<Slot>)
    ensures |r| == |lines|
  {
    seq(|lines|, i requires 0 <= i < |lines| => SlotOf(lines[i]))
  }

  /**
   The merged file has exactly the places of the original's other lines and first imports:
   other lines keep content and order, and a module's import is where it first was.
   */
  lemma {:induction false} MergeKeepsPlaces(all: seq<Line>, lines: seq<Line>)
    ensures AllSlots(Merge(all, lines)) == FirstSlots(lines)
    ensures Modules(Merge(all, lines)) == Modules(lines)
  {
    if lines == [] {
    } else {
      var front, l := lines[..|lines| - 1], lines[|lines| - 1];
      MergeKeepsPlaces(all, front);
      var out := Merge(all, front);
      if !Dropped(front, l) {
        assert Merge(all, lines)[..|out|] == out;
      }
    }
  }

  /** No module is imported by two lines. */
  ghost predicate OneLinePerModule(lines: seq<Line>) {
    forall i, j :: 0 <= i < j < |lines| && IsImport(lines[i]) && IsImport(lines[j]) ==> lines[i].from != lines[j].from
  }

  lemma {:induction false} ModulesAre(lines: seq<Line>, m: Module)
    ensures m in Modules(lines) <==> exists i :: 0 <= i < |lines| && IsImport(lines[i]) && lines[i].from == m
  {
    if lines == [] {
    } else {
      var front := lines[..|lines| - 1];
      ModulesAre(front, m);
      if i :| 0 <= i < |front| && IsImport(front[i]) && front[i].from == m {
        assert lines[i] == front[i];
      }
    }
  }

  lemma {:induction false} MergeIsUnique(all: seq<Line>, lines: seq<Line>)
    ensures OneLinePerModule(Merge(all, lines))
  {
    if lines == [] {
    } else {
      var front, l := lines[..|lines| - 1], lines[|lines| - 1];
      MergeIsUnique(all, front);
      MergeKeepsPlaces(all, front);
      var out := Merge(all, front);
      if !l.Other? && l.from !in Modules(front) {
        ModulesAre(out, l.from);
        assert forall i :: 0 <= i < |out| && IsImport(out[i]) ==> out[i].from != l.from;
      }
    }
  }

  // ---- the names ----

  predicate IsInline(n: Name) {
    "type " <= n
  }

  lemma InlineForm(n: Name)
    ensures IsInline(Inline(n)) && Inline(n)[5..] == n
    ensures IsInline(n) ==> Inline(n[5..]) == n
  {}

  lemma InlineAllHas(ns: seq<Name>, n: Name)
    ensures Inline(n) in InlineAll(ns) <==> n in ns
    ensures forall k :: k in InlineAll(ns) ==> IsInline(k)
  {
    if Inline(n) in InlineAll(ns) {
      var i :| 0 <= i < |ns| && InlineAll(ns)[i] == Inline(n);
      InlineForm(n);
      InlineForm(ns[i]);
    }
    if n in ns {
      var i :| 0 <= i < |ns| && ns[i] == n;
      assert InlineAll(ns)[i] == Inline(n);
    }
  }

  /** `n` is imported from `m` as a type, by a type import or inline. */
  ghost predicate ImportsType(lines: seq<Line>, m: Module, n: Name) {
    n in TypesFor(lines, m) || Inline(n) in ValuesFor(lines, m)
  }

  ghost predicate ImportsValue(lines: seq<Line>, m: Module, n: Name) {
    n in ValuesFor(lines, m) && !IsInline(n)
  }

  lemma NamesSnoc(lines: seq<Line>, l: Line, m: Module)
    ensures TypesFor(lines + [l], m)
         == if l.TypeImport? && l.from == m then TypesFor(lines, m) + l.names else TypesFor(lines, m)
    ensures ValuesFor(lines + [l], m)
         == if l.ValueImport? && l.from == m then ValuesFor(lines, m) + l.names else ValuesFor(lines, m)
  {
    assert (lines + [l])[..|lines|] == lines;
  }

  function TypesOf(l: Line): seq<Name> {
    if l.TypeImport? then l.names else []
  }

  function ValuesOf(l: Line): seq<Name> {
    if l.ValueImport? then l.names else []
  }

  /** `out` imports for `m` what `line` says if `seen`, and nothing else. */
  ghost predicate Imports(out: seq<Line>, m: Module, line: Line, seen: bool) {
    && TypesFor(out, m) == (if seen then TypesOf(line) else [])
    && ValuesFor(out, m) == (if seen then ValuesOf(line) else [])
  }

  lemma ImportsStep(out: seq<Line>, placed: Line, m: Module, line: Line, seen: bool)
    requires Imports(out, m, line, seen)
    requires IsImport(placed) && placed.from == m ==> !seen && placed == line
    ensures Imports(out + [placed], m, line, seen || (IsImport(placed) && placed.from == m))
  {
    NamesSnoc(out, placed, m);
    assert IsImport(placed) ==> [] + placed.names == placed.names;
  }

  lemma {:induction false} NamesOfMerge(all: seq<Line>, lines: seq<Line>, m: Module)
    ensures Imports(Merge(all, lines), m, MergedLine(all, m), m in Modules(lines))
  {
    if lines == [] {
    } else {
      var front, l := lines[..|lines| - 1], lines[|lines| - 1];
      NamesOfMerge(all, front, m);
      if !Dropped(front, l) {
        ImportsStep(Merge(all, front), InPlaceOf(all, l), m, MergedLine(all, m), m in Modules(front));
      }
    }
  }

  lemma {:induction false} NoNamesOutside(lines: seq<Line>, m: Module)
    requires m !in Modules(lines)
    ensures TypesFor(lines, m) == [] && ValuesFor(lines, m) == []
  {
    if lines == [] {
    } else {
      NoNamesOutside(lines[..|lines| - 1], m);
    }
  }

  /** For every module, the merge imports the same names as types and the same as values. */
  lemma MergeKeepsNames(lines: seq<Line>, m: Module, n: Name)
    ensures ImportsType(Merge(lines, lines), m, n) <==> ImportsType(lines, m, n)
    ensures ImportsValue(Merge(lines, lines), m, n) <==> ImportsValue(lines, m, n)
  {
    NamesOfMerge(lines, lines, m);
    if m !in Modules(lines) {
      NoNamesOutside(lines, m);
    } else {
      var types, values := Dedup(TypesFor(lines, m)), Dedup(ValuesFor(lines, m));
      DedupElements(TypesFor(lines, m));
      DedupElements(ValuesFor(lines, m));
      InlineAllHas(types, n);
      assert forall k :: k in values + InlineAll(types) <==> k in values || k in InlineAll(types);
    }
  }

  /** The first `k` names are the values; the others are the types, each behind the word `type`. */
  ghost predicate GroupedAt(names: seq<Name>, k: nat, types: seq<Name>, values: seq<Name>) {
    && k <= |names| && FirstOccurrences(names[..k], values)
    && exists ts ::
         && FirstOccurrences(ts, types) && |ts| == |names| - k
         && forall i :: 0 <= i < |ts| ==> names[k + i] == "type " + ts[i]
  }

  /** A type import if there are no values; else a value import with the values first. */
  ghost predicate ImportsInOrder(l: Line, types: seq<Name>, values: seq<Name>) {
    && (values == [] ==> l.TypeImport? && FirstOccurrences(l.names, types))
    && (values != [] ==> l.ValueImport? && exists k :: GroupedAt(l.names, k, types, values))
  }

  lemma MixedNames(ts: seq<Name>, vs: seq<Name>, types: seq<Name>, values: seq<Name>)
    requires FirstOccurrences(ts, types) && FirstOccurrences(vs, values)
    ensures GroupedAt(vs + InlineAll(ts), |vs|, types, values)
  {
    var names := vs + InlineAll(ts);
    assert names[..|vs|] == vs;
    assert forall i :: 0 <= i < |ts| ==> names[|vs| + i] == "type " + ts[i];
  }

  lemma MergedInOrder(e: Names, m: Module)
    ensures ImportsInOrder(Merged(e, m), e.types, e.values)
  {
    DedupInOrder(e.types);
    DedupInOrder(e.values);
    DedupNonEmpty(e.values);
    MixedNames(Dedup(e.types), Dedup(e.values), e.types, e.values);
    assert Dedup(e.types) == [] ==> Dedup(e.values) + InlineAll(Dedup(e.types)) == Dedup(e.values);
  }

  /**
   A module's import line in the merged file: a type import of its types if it has no values;
   else its values and, behind them, its types written inline. Within each group the names
   are in the order in which they first occur in the original lines.
   */
  lemma MergeKeepsOrder(lines: seq<Line>, i: nat)
    requires i < |Merge(lines, lines)| && IsImport(Merge(lines, lines)[i])
    ensures var l := Merge(lines, lines)[i];
            ImportsInOrder(l, TypesFor(lines, l.from), ValuesFor(lines, l.from))
  {
    MergedLines(lines, lines, i);
    var m := Merge(lines, lines)[i].from;
    MergedInOrder(Names(TypesFor(lines, m), ValuesFor(lines, m)), m);
  }

  // ---- a second pass ----

  /** Some type of a mixed import is also written inline in a value import of the module. */
  ghost predicate Clash(lines: seq<Line>, m: Module) {
    exists n :: n in TypesFor(lines, m) && Inline(n) in ValuesFor(lines, m)
  }

  lemma InlineAllNoDup(ns: seq<Name>)
    requires NoDup(ns)
    ensures NoDup(InlineAll(ns))
  {
    forall i, j | 0 <= i < j < |ns| ensures InlineAll(ns)[i] != InlineAll(ns)[j] {
      InlineForm(ns[i]);
      InlineForm(ns[j]);
    }
  }

  lemma DedupNonEmpty(ns: seq<Name>)
    ensures Dedup(ns) == [] <==> ns == []
  {
    DedupElements(ns);
    if ns != [] {
      assert ns[0] in Dedup(ns);
    }
  }

  /** A merged line comes out of a second merge as it is exactly if there was no clash. */
  lemma RemergedLine(lines: seq<Line>, m: Module)
    ensures var l := MergedLine(lines, m);
            var again := Merged(Names(TypesOf(l), ValuesOf(l)), m);
            again == l <==> !Clash(lines, m)
  {
    var types, values := Dedup(TypesFor(lines, m)), Dedup(ValuesFor(lines, m));
    DedupElements(TypesFor(lines, m));
    DedupElements(ValuesFor(lines, m));
    DedupNonEmpty(TypesFor(lines, m));
    DedupNonEmpty(ValuesFor(lines, m));
    DedupNoDup(types);
    DedupNoDup(values);
    if values != [] && types != [] {
      MixedLine(types, values);
      DedupNonEmpty(values + InlineAll(types));
    }
  }

  lemma MixedLine(types: seq<Name>, values: seq<Name>)
    requires NoDup(types) && NoDup(values)
    ensures Dedup(values + InlineAll(types)) == values + InlineAll(types)
       <==> !exists n :: n in types && Inline(n) in values
  {
    var all := values + InlineAll(types);
    InlineAllNoDup(types);
    if n :| n in types && Inline(n) in values {
      var i :| 0 <= i < |values| && values[i] == Inline(n);
      var j :| 0 <= j < |types| && types[j] == n;
      assert all[i] == all[|values| + j];
      assert !NoDup(all);
      DedupElements(all);
    } else {
      forall i, j | 0 <= i < j < |all| ensures all[i] != all[j] {
        if i < |values| <= j {
          assert values[i] in values && types[j - |values|] in types;
        } else if j < |values| {
          assert all[i] == values[i] && all[j] == values[j];
        } else {
          assert all[i] == InlineAll(types)[i - |values|] && all[j] == InlineAll(types)[j - |values|];
        }
      }
      DedupNoDup(all);
    }
  }

  ghost predicate EachMerged(all: seq<Line>, lines: seq<Line>) {
    lines != [] ==>
      var l := lines[|lines| - 1];
      EachMerged(all, lines[..|lines| - 1]) && (IsImport(l) ==> l == MergedLine(all, l.from))
  }

  lemma {:induction false} EachMergedAt(all: seq<Line>, lines: seq<Line>)
    ensures EachMerged(all, lines) <==>
              forall i :: 0 <= i < |lines| && IsImport(lines[i]) ==> lines[i] == MergedLine(all, lines[i].from)
  {
    if lines == [] {
    } else {
      EachMergedAt(all, lines[..|lines| - 1]);
      assert forall i :: 0 <= i < |lines| - 1 ==> lines[..|lines| - 1][i] == lines[i];
    }
  }

  lemma {:induction false} FixedPoint(all: seq<Line>, lines: seq<Line>)
    requires OneLinePerModule(lines)
    ensures Merge(all, lines) == lines <==> EachMerged(all, lines)
    ensures |Merge(all, lines)| == |lines|
  {
    if lines == [] {
    } else {
      var front, l := lines[..|lines| - 1], lines[|lines| - 1];
      FixedPoint(all, front);
      ModulesAre(front, if l.Other? then "" else l.from);
      assert lines == front + [l];
      assert !Dropped(front, l);
      SnocEqual(Merge(all, front), InPlaceOf(all, l), front, l);
    }
  }

  lemma OneLineAgain(lines: seq<Line>, out: seq<Line>, i: nat)
    requires out == Merge(lines, lines) && i < |out| && IsImport(out[i])
    ensures out[i].from in Modules(lines)
    ensures out[i] == MergedLine(out, out[i].from) <==> !Clash(lines, out[i].from)
  {
    var m := out[i].from;
    MergeKeepsPlaces(lines, lines);
    ModulesAre(out, m);
    NamesOfMerge(lines, lines, m);
    MergedLines(lines, lines, i);
    RemergedLine(lines, m);
  }

  /** A second pass changes nothing exactly if no module's types clash with inline ones. */
  lemma SecondPassIdentityIff(lines: seq<Line>)
    ensures var out := Merge(lines, lines);
            Merge(out, out) == out <==> forall m :: m in Modules(lines) ==> !Clash(lines, m)
  {
    var out := Merge(lines, lines);
    MergeIsUnique(lines, lines);
    MergeKeepsPlaces(lines, lines);
    FixedPoint(out, out);
    EachMergedAt(out, out);
    forall i | 0 <= i < |out| && IsImport(out[i])
      ensures out[i].from in Modules(lines)
      ensures out[i] == MergedLine(out, out[i].from) <==> !Clash(lines, out[i].from)
    {
      OneLineAgain(lines, out, i);
    }
    forall m | m in Modules(lines)
      ensures exists i :: 0 <= i < |out| && IsImport(out[i]) && out[i].from == m
    {
      ModulesAre(out, m);
    }
  }

  lemma {:induction false} MergeKeepsFree(all: seq<Line>, lines: seq<Line>)
    requires PlaceholderFree(lines)
    ensures PlaceholderFree(Merge(all, lines))
  {
    if lines == [] {
    } else {
      var front, l := lines[..|lines| - 1], lines[|lines| - 1];
      assert lines == front + [l];
      FreeSnoc(front, l);
      MergeKeepsFree(all, front);
      if !Dropped(front, l) {
        FreeSnoc(Merge(all, front), InPlaceOf(all, l));
      }
    }
  }

  /** The script run on its own output changes nothing, under the same condition. */
  lemma SecondRunIdentityIff(lines: seq<Line>)
    requires PlaceholderFree(lines)
    ensures var out := Merge(lines, lines);
            && ExpandAll(TableOf(lines), KeptLines(lines)) == Some(out)
            && (ExpandAll(TableOf(out), KeptLines(out)) == Some(out) <==>
                forall m :: m in Modules(lines) ==> !Clash(lines, m))
  {
    var out := Merge(lines, lines);
    MergeComputedIff(lines);
    MergeKeepsFree(lines, lines);
    MergeComputedIff(out);
    SecondPassIdentityIff(lines);
  }

  lemma MergeAppended(all: seq<Line>, lines: seq<Line>, l: Line)
    ensures Merge(all, lines + [l])
         == if Dropped(lines, l) then Merge(all, lines) else Merge(all, lines) + [InPlaceOf(all, l)]
  {
    assert (lines + [l])[..|lines|] == lines;
  }

  /** The names of a type import, or of a value import, followed by nothing else. */
  lemma NamesOfOne(l: Line)
    requires IsImport(l)
    ensures TypesFor([l], l.from) == TypesOf(l) && ValuesFor([l], l.from) == ValuesOf(l)
  {
    NamesSnoc([], l, l.from);
    assert [] + [l] == [l] && [] + l.names == l.names;
  }

  /** A type imported both by a type import and inline: the first pass lists it twice, the second once. */
  lemma ClashChanges(m: Module, n: Name)
    ensures var lines := [TypeImport([n], m)] + [ValueImport([Inline(n)], m)];
            var out := [ValueImport([Inline(n), Inline(n)], m)];
            && Clash(lines, m)
            && Merge(lines, lines) == out
            && Merge(out, out) == [ValueImport([Inline(n)], m)] != out
  {
    var a, b, i := TypeImport([n], m), ValueImport([Inline(n)], m), Inline(n);
    var lines, c := [a] + [b], ValueImport([i, i], m);
    ClashingNames(m, n);
    assert n in TypesFor(lines, m) && i in ValuesFor(lines, m);
    MergedClash(lines, m, n);
    OneAfterMerge(lines, a, b);
    MergedTwice(c, i);
  }

  lemma ClashingNames(m: Module, n: Name)
    ensures var lines := [TypeImport([n], m)] + [ValueImport([Inline(n)], m)];
            TypesFor(lines, m) == [n] && ValuesFor(lines, m) == [Inline(n)]
  {
    NamesOfOne(TypeImport([n], m));
    NamesSnoc([TypeImport([n], m)], ValueImport([Inline(n)], m), m);
    assert [] + [Inline(n)] == [Inline(n)];
  }

  lemma MergedClash(lines: seq<Line>, m: Module, n: Name)
    requires TypesFor(lines, m) == [n] && ValuesFor(lines, m) == [Inline(n)]
    ensures MergedLine(lines, m) == ValueImport([Inline(n), Inline(n)], m)
  {
    DedupOne(n);
    DedupOne(Inline(n));
    assert InlineAll([n]) == [Inline(n)];
  }

  lemma MergedTwice(c: Line, i: Name)
    requires c.ValueImport? && c.names == [i, i]
    ensures Merge([c], [c]) == [ValueImport([i], c.from)]
  {
    NamesOfOne(c);
    DedupOne(i);
    MergeAppended([c], [], c);
    assert [] + [c] == [c];
  }

  lemma OneAfterMerge(all: seq<Line>, a: Line, b: Line)
    requires IsImport(a) && IsImport(b) && a.from == b.from
    ensures Merge(all, [a] + [b]) == [MergedLine(all, a.from)]
  {
    MergeAppended(all, [], a);
    MergeAppended(all, [a], b);
    Appended([], a);
    assert [] + [a] == [a];
  }

  lemma {:induction false} MergedLines(all: seq<Line>, lines: seq<Line>, i: nat)
    requires i < |Merge(all, lines)| && IsImport(Merge(all, lines)[i])
    ensures Merge(all, lines)[i] == MergedLine(all, Merge(all, lines)[i].from)
  {
    if lines == [] {
    } else {
      var front := lines[..|lines| - 1];
      if i < |Merge(all, front)| {
        MergedLines(all, front, i);
      }
    }
  }
}
