/** The reader by line numbers: which header is in force at a line, and which line a value comes from. */
module CodexPositions {
  import opened Wrappers
  import opened JsText
  import opened CodexLexer
  import opened CodexReader
  import opened CodexLines
  import opened CodexOtherTables

  /** Lines end at a line feed, a carriage return before it included; what follows the last one is a line as it is. */
  lemma LinesExactly(line: Text, rest: Text)
    requires LF !in line && (line == [] || line[|line| - 1] != CR)
    ensures LF == 0x0A && CR == 0x0D
    ensures SplitLines(line + [LF] + rest) == [line] + SplitLines(rest)
    ensures SplitLines(line + [CR] + [LF] + rest) == [line] + SplitLines(rest)
    ensures SplitLines(line) == [line] && SplitLines(line + [CR]) == [line + [CR]]
  {
    FirstOfLines(line, rest);
    FirstOfLines(line + [CR], rest);
    LastOfLines(line);
    LastOfLines(line + [CR]);
    hide SplitLines;
    assert (line + [CR])[..|line|] == line;
  }

  lemma LastOfLines(line: Text)
    requires LF !in line
    ensures SplitLines(line) == [line]
  {
    IndexOfAbsent(line, LF);
  }

  lemma FirstOfLines(line: Text, rest: Text)
    requires LF !in line
    ensures SplitLines(line + [LF] + rest) == [DropCr(line)] + SplitLines(rest)
  {
    var t := line + [LF] + rest;
    IndexOfUnique(line, LF, rest);
    assert t[..|line|] == line && t[|line| + 1..] == rest;
  }

  /** The last header before line i has this path; the root's is the empty one, before the first header. */
  ghost predicate InSection(lines: seq<Text>, i: nat, section: Path)
    requires i <= |lines|
  {
    || (section == [] && forall j :: 0 <= j < i ==> !View(lines[j]).Header?)
    || exists h :: 0 <= h < i && View(lines[h]) == Header(section) && forall j :: h < j < i ==> !View(lines[j]).Header?
  }

  lemma {:induction false} SectionIsLastHeader(lines: seq<Text>, i: nat)
    requires i <= |lines|
    ensures InSection(lines, i, SectionBefore(lines, i))
  {
    hide View, Items, LastSection;
    if i == 0 {
      NoItems(lines);
    } else {
      SectionIsLastHeader(lines, i - 1);
      SectionAfterLine(lines, i - 1);
      if View(lines[i - 1]).Header? {
        assert View(lines[i - 1]) == Header(SectionBefore(lines, i));
      } else {
        SameSection(lines, i, SectionBefore(lines, i));
      }
    }
  }

  lemma NoItems(lines: seq<Text>)
    ensures SectionBefore(lines, 0) == [] && Items(lines[..0]) == []
  {
  }

  lemma SameSection(lines: seq<Text>, i: nat, section: Path)
    requires 0 < i <= |lines| && InSection(lines, i - 1, section) && !View(lines[i - 1]).Header?
    ensures InSection(lines, i, section)
  {
    hide View;
    if !(section == [] && forall j :: 0 <= j < i - 1 ==> !View(lines[j]).Header?) {
      var h :| 0 <= h < i - 1 && View(lines[h]) == Header(section) && forall j :: h < j < i - 1 ==> !View(lines[j]).Header?;
      assert forall j :: h < j < i ==> !View(lines[j]).Header?;
    }
  }

  /** A header never has the empty path, so no line is in two sections. */
  lemma OneSection(lines: seq<Text>, i: nat, a: Path, b: Path)
    requires i <= |lines| && InSection(lines, i, a) && InSection(lines, i, b)
    ensures a == b
  {
    hide View;
  }

  lemma SectionExactly(lines: seq<Text>, i: nat, section: Path)
    requires i <= |lines|
    ensures SectionBefore(lines, i) == section <==> InSection(lines, i, section)
  {
    SectionIsLastHeader(lines, i);
    if InSection(lines, i, section) {
      OneSection(lines, i, SectionBefore(lines, i), section);
    }
  }

  /** Line i gives the key a value in the section. */
  ghost predicate Gives(lines: seq<Text>, i: nat, section: Path, key: Text, value: Text)
    requires i < |lines|
  {
    View(lines[i]) == Pair(key, value) && InSection(lines, i, section)
  }

  ghost predicate GivesAny(lines: seq<Text>, i: nat, section: Path, key: Text)
    requires i < |lines|
  {
    exists value :: Gives(lines, i, section, key, value)
  }

  /** The root, or a table of model_providers. */
  predicate IsRead(section: Path) {
    section == [] || (|section| == 2 && section[0] == Ascii("model_providers"))
  }

  function Lookup(v: Values, section: Path, key: Text): Option<Text>
    requires IsRead(section)
  {
    if section == [] then Get(v.root, key) else Get(TableAt(v, section[1]), key)
  }

  function ReadBefore(lines: seq<Text>, i: nat): Values
    requires i <= |lines|
  {
    ReadItems(Items(lines[..i]), [], NO_VALUES)
  }

  lemma ReadLineByLine(lines: seq<Text>, i: nat)
    requires i < |lines|
    ensures ReadBefore(lines, i + 1) == NextValues(View(lines[i]), SectionBefore(lines, i), ReadBefore(lines, i))
  {
    var before, line := lines[..i], lines[i];
    assert lines[..i + 1] == before + [line];
    ItemsAppend(before, [line]);
    ItemsOne(line);
    ReadItemsAppend(Items(before), Items([line]), [], NO_VALUES);
    hide ViewStripped, Strip, ReadPair;
    if IsBlank(line) {
      BlankIsOther(line);
    } else {
      OneItem(View(line), SectionBefore(lines, i), ReadBefore(lines, i));
    }
  }

  lemma OneItem(item: Item, section: Path, v: Values)
    ensures ReadItems([item], section, v) == NextValues(item, section, v)
  {
    assert [item][1..] == [];
  }

  lemma LookupNext(item: Item, at: Path, v: Values, section: Path, key: Text)
    requires IsRead(section)
    ensures Lookup(NextValues(item, at, v), section, key)
            == if item.Pair? && item.key == key && at == section then Some(item.value) else Lookup(v, section, key)
  {
  }

  /** Duplicate keys and repeated tables: the last line that gives a key its value in a section wins. */
  lemma {:induction false} LastPairBefore(lines: seq<Text>, n: nat, section: Path, key: Text)
    requires n <= |lines| && IsRead(section)
    ensures forall i, value :: 0 <= i < n && Gives(lines, i, section, key, value) && (forall j :: i < j < n ==> !GivesAny(lines, j, section, key)) ==>
                               Lookup(ReadBefore(lines, n), section, key) == Some(value)
    ensures (forall i :: 0 <= i < n ==> !GivesAny(lines, i, section, key)) ==> Lookup(ReadBefore(lines, n), section, key) == None
  {
    hide View, Items, ReadItems, InSection, NextValues;
    if n == 0 {
      NothingRead(lines, section, key);
    } else {
      var m, last := n - 1, View(lines[n - 1]);
      LastPairBefore(lines, m, section, key);
      ReadLineByLine(lines, m);
      LookupNext(last, SectionBefore(lines, m), ReadBefore(lines, m), section, key);
      SectionExactly(lines, m, section);
      hide ReadBefore, SectionBefore, Lookup;
      if last.Pair? && last.key == key && InSection(lines, m, section) {
        assert Gives(lines, m, section, key, last.value);
        assert GivesAny(lines, m, section, key);
      } else {
        assert !GivesAny(lines, m, section, key);
      }
    }
  }

  lemma NothingRead(lines: seq<Text>, section: Path, key: Text)
    requires IsRead(section)
    ensures Lookup(ReadBefore(lines, 0), section, key) == None
  {
    assert lines[..0] == [];
  }

  lemma LastPairWins(text: Text, section: Path, key: Text)
    requires IsRead(section)
    ensures var lines := SplitLines(text);
            && (forall i, value :: 0 <= i < |lines| && Gives(lines, i, section, key, value)
                                   && (forall j :: i < j < |lines| ==> !GivesAny(lines, j, section, key)) ==>
                  Lookup(Read(text), section, key) == Some(value))
            && ((forall i :: 0 <= i < |lines| ==> !GivesAny(lines, i, section, key)) ==> Lookup(Read(text), section, key) == None)
  {
    var lines := SplitLines(text);
    assert lines[..|lines|] == lines;
    LastPairBefore(lines, |lines|, section, key);
    hide Gives, GivesAny, Lookup;
  }

  // ---------- the tables the reader skips ----------

  function CellsBefore(lines: seq<Text>, i: nat): Cells
    requires i <= |lines|
  {
    CellsOf(Items(lines[..i]), [], map[])
  }

  function CellAt(cells: Cells, section: Path, key: Text): Option<Text> {
    if (section, key) in cells then Some(cells[(section, key)]) else None
  }

  lemma CellsLineByLine(lines: seq<Text>, i: nat)
    requires i < |lines|
    ensures CellsBefore(lines, i + 1) == NextCells(View(lines[i]), SectionBefore(lines, i), CellsBefore(lines, i))
  {
    var before, line := lines[..i], lines[i];
    assert lines[..i + 1] == before + [line];
    ItemsAppend(before, [line]);
    ItemsOne(line);
    CellsAppend(Items(before), Items([line]), [], map[]);
    hide ViewStripped, Strip, NextCells;
    if IsBlank(line) {
      BlankIsOther(line);
      OtherGivesNoCell(SectionBefore(lines, i), CellsBefore(lines, i));
    } else {
      OneCell(View(line), SectionBefore(lines, i), CellsBefore(lines, i));
    }
  }

  lemma OtherGivesNoCell(section: Path, cells: Cells)
    ensures NextCells(Other, section, cells) == cells
  {
  }

  lemma OneCell(item: Item, section: Path, cells: Cells)
    ensures CellsOf([item], section, cells) == NextCells(item, section, cells)
  {
    assert [item][1..] == [];
  }

  lemma CellNext(item: Item, at: Path, cells: Cells, section: Path, key: Text)
    requires !IsRead(section)
    ensures CellAt(NextCells(item, at, cells), section, key)
            == if item.Pair? && item.key == key && at == section then Some(item.value) else CellAt(cells, section, key)
  {
  }

  lemma {:induction false} LastCellBefore(lines: seq<Text>, n: nat, section: Path, key: Text)
    requires n <= |lines| && !IsRead(section)
    ensures forall i, value :: 0 <= i < n && Gives(lines, i, section, key, value) && (forall j :: i < j < n ==> !GivesAny(lines, j, section, key)) ==>
                               CellAt(CellsBefore(lines, n), section, key) == Some(value)
    ensures (forall i :: 0 <= i < n ==> !GivesAny(lines, i, section, key)) ==> CellAt(CellsBefore(lines, n), section, key) == None
  {
    hide View, Items, CellsOf, InSection, NextCells;
    if n == 0 {
      NoCells(lines, section, key);
    } else {
      var m, last := n - 1, View(lines[n - 1]);
      LastCellBefore(lines, m, section, key);
      CellsLineByLine(lines, m);
      CellNext(last, SectionBefore(lines, m), CellsBefore(lines, m), section, key);
      SectionExactly(lines, m, section);
      hide CellsBefore, SectionBefore, CellAt;
      if last.Pair? && last.key == key && InSection(lines, m, section) {
        assert Gives(lines, m, section, key, last.value);
        assert GivesAny(lines, m, section, key);
      } else {
        assert !GivesAny(lines, m, section, key);
      }
    }
  }

  lemma NoCells(lines: seq<Text>, section: Path, key: Text)
    ensures CellAt(CellsBefore(lines, 0), section, key) == None
  {
    assert lines[..0] == [];
  }

  /** The keys of a skipped table, too, have the values of the last lines that give them. */
  lemma LastOtherPairWins(text: Text, section: Path, key: Text)
    requires !IsRead(section)
    ensures var lines := SplitLines(text);
            && (forall i, value :: 0 <= i < |lines| && Gives(lines, i, section, key, value)
                                   && (forall j :: i < j < |lines| ==> !GivesAny(lines, j, section, key)) ==>
                  CellAt(OtherTables(text), section, key) == Some(value))
            && ((forall i :: 0 <= i < |lines| ==> !GivesAny(lines, i, section, key)) ==> CellAt(OtherTables(text), section, key) == None)
  {
    var lines := SplitLines(text);
    assert lines[..|lines|] == lines;
    LastCellBefore(lines, |lines|, section, key);
    hide Gives, GivesAny, CellAt;
  }

  // ---------- the order of the providers ----------

  lemma {:induction false} OrderGrows(a: seq<Item>, b: seq<Item>, section: Path, order: seq<Text>)
    ensures order <= OrderOf(a, section, order) <= OrderOf(a + b, section, order)
  {
    if a == [] {
      assert a + b == b;
      if b != [] {
        assert [] + b[1..] == b[1..];
        OrderGrows([], b[1..], NextSection(b[0], section), NextOrder(b[0], section, order));
      }
    } else {
      assert (a + b)[1..] == a[1..] + b;
      OrderGrows(a[1..], b, NextSection(a[0], section), NextOrder(a[0], section, order));
    }
  }

  /**
    Providers are listed by their first pairs: after any number of lines, the providers met so
    far, each once, are the beginning of the final order.
    */
  lemma ProvidersByFirstPair(text: Text, i: nat)
    requires i <= |SplitLines(text)|
    ensures var met := OrderOf(Items(SplitLines(text)[..i]), [], []);
            && met <= ProviderOrder(text)
            && OrderMatches(met, ReadBefore(SplitLines(text), i))
  {
    var lines := SplitLines(text);
    assert lines == lines[..i] + lines[i..];
    ItemsAppend(lines[..i], lines[i..]);
    OrderGrows(Items(lines[..i]), Items(lines[i..]), [], []);
    ReadItemsOrder(Items(lines[..i]), [], [], NO_VALUES);
  }
}
