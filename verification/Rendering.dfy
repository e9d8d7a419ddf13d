// Writing migrations out as a file and reading the file back.
module Renderings {
  import opened Seqs
  import opened Texts
  import opened MigrationPlan
  import opened MigrationFiles
  import opened MigrationTexts
  import opened CutTexts

  const BEGIN_LINE := "-- +migrate StatementBegin"
  const END_LINE := "-- +migrate StatementEnd"

  function RenderStatements(statements: seq<string>): string {
    if statements == [] then "" else
    RenderStatements(statements[..|statements| - 1])
    + (BEGIN_LINE + "\n" + statements[|statements| - 1] + "\n" + END_LINE + "\n")
  }

  // A migration file with one block per statement.
  function Render(migration: Script): string {
    UP + "\n" + RenderStatements(migration.up) + (DOWN + "\n" + RenderStatements(migration.down))
  }

  // No marker, and no carriage return a scanner would drop.
  predicate Plain(line: string) {
    MarkerOf(line).NoMarker? && (line != "" ==> line[|line| - 1] != '\r')
  }

  predicate PlainLines(lines: seq<string>) {
    forall i :: 0 <= i < |lines| ==> Plain(lines[i])
  }

  predicate PlainStatements(statements: seq<string>) {
    forall i :: 0 <= i < |statements| ==> PlainLines(SplitLines(statements[i]))
  }

  predicate Renderable(statements: seq<string>) {
    statements != [] && Clean(statements) && PlainStatements(statements)
  }

  // ---------- the rendering as lines ----------

  function Block(statement: string): seq<string> {
    [BEGIN_LINE] + SplitLines(statement) + [END_LINE]
  }

  function Blocks(statements: seq<string>): seq<string> {
    if statements == [] then [] else Blocks(statements[..|statements| - 1]) + Block(statements[|statements| - 1])
  }

  function RenderLines(migration: Script): seq<string> {
    ([UP] + Blocks(migration.up)) + ([DOWN] + Blocks(migration.down))
  }

  lemma MarkerLines()
    ensures MarkerOf(UP) == UpMarker && MarkerOf(DOWN) == DownMarker
    ensures MarkerOf(BEGIN_LINE) == BeginMarker && MarkerOf(END_LINE) == EndMarker
  {
    TrimTrims(UP);
    TrimTrims(DOWN);
    TrimTrims(BEGIN_LINE);
    TrimTrims(END_LINE);
    hide Trim;
    assert ToLower(UP) == UP;
    assert ToLower(DOWN) == DOWN;
    assert ToLower(BEGIN_LINE) == BEGIN;
    assert ToLower(END_LINE) == END;
  }

  lemma MarkerLinesAreLines()
    ensures OneLine(UP) && OneLine(DOWN) && OneLine(BEGIN_LINE) && OneLine(END_LINE)
    ensures DropCR(UP) == UP && DropCR(DOWN) == DOWN && DropCR(BEGIN_LINE) == BEGIN_LINE && DropCR(END_LINE) == END_LINE
  {
  }

  lemma BlockText(statement: string)
    ensures Unlines(Block(statement)) == BEGIN_LINE + "\n" + statement + "\n" + END_LINE + "\n"
    ensures AllOneLine(Block(statement))
  {
    UnlinesOfSplit(statement);
    MarkerLinesAreLines();
    hide Unlines, SplitLines, OneLine;
    UnlinesConcat([BEGIN_LINE] + SplitLines(statement), [END_LINE]);
    UnlinesConcat([BEGIN_LINE], SplitLines(statement));
    UnlinesOne(BEGIN_LINE);
    UnlinesOne(END_LINE);
  }

  lemma OneLineConcat(a: seq<string>, b: seq<string>)
    requires AllOneLine(a) && AllOneLine(b)
    ensures AllOneLine(a + b)
  {
  }

  lemma {:induction false} BlocksText(statements: seq<string>)
    ensures Unlines(Blocks(statements)) == RenderStatements(statements)
    ensures AllOneLine(Blocks(statements))
  {
    if statements != [] {
      var front, last := statements[..|statements| - 1], statements[|statements| - 1];
      hide Unlines, Block, AllOneLine;
      BlocksText(front);
      BlockText(last);
      UnlinesConcat(Blocks(front), Block(last));
      OneLineConcat(Blocks(front), Block(last));
    }
  }

  lemma SectionText(marker: string, statements: seq<string>)
    requires OneLine(marker)
    ensures Unlines([marker] + Blocks(statements)) == marker + "\n" + RenderStatements(statements)
    ensures AllOneLine([marker] + Blocks(statements))
  {
    BlocksText(statements);
    assert AllOneLine([marker]);
    hide Unlines, Blocks, RenderStatements, AllOneLine;
    UnlinesConcat([marker], Blocks(statements));
    UnlinesOne(marker);
    OneLineConcat([marker], Blocks(statements));
  }

  lemma RenderedLines(migration: Script)
    ensures Unlines(RenderLines(migration)) == Render(migration)
    ensures Lines(Render(migration)) == DropAll(RenderLines(migration))
  {
    MarkerLinesAreLines();
    hide Unlines, Blocks, RenderStatements, AllOneLine, Lines, DropAll;
    SectionText(UP, migration.up);
    SectionText(DOWN, migration.down);
    UnlinesConcat([UP] + Blocks(migration.up), [DOWN] + Blocks(migration.down));
    OneLineConcat([UP] + Blocks(migration.up), [DOWN] + Blocks(migration.down));
    LinesOfUnlines(RenderLines(migration));
  }

  // ---------- reading a rendering back ----------

  lemma PlainLinesStay(lines: seq<string>)
    requires forall i :: 0 <= i < |lines| ==> DropCR(lines[i]) == lines[i]
    ensures DropAll(lines) == lines
  {
  }

  // Inside a block the scan only collects.
  lemma {:induction false} ScanInsideBlock(before: seq<string>, lines: seq<string>)
    requires PlainLines(lines) && ScanAll(before).inBlock
    ensures ScanAll(before + lines) == ScanAll(before).(buf := ScanAll(before).buf + Unlines(lines))
  {
    if lines == [] {
      assert before + lines == before;
    } else {
      var front, last := lines[..|lines| - 1], lines[|lines| - 1];
      assert PlainLines(front) && Plain(last) && lines == front + [last];
      ScanInsideBlock(before, front);
      assert Unlines(lines) == Unlines(front) + last + "\n";
      hide *;
      ConcatAssociative(before, front, [last]);
      ScanAppend(before + front, last);
      InsideBlock(ScanAll(before + front), last);
      SameText(ScanAll(before).buf, Unlines(front), last);
    }
  }

  lemma SameText(a: string, b: string, line: string)
    ensures (a + b) + line + "\n" == a + (b + line + "\n")
  {
  }

  lemma InsideBlock(st: Scan, line: string)
    requires st.inBlock && Plain(line)
    ensures ScanLine(st, line) == st.(buf := st.buf + line + "\n")
  {
  }

  lemma KeptAgain(statement: string)
    requires statement != "" && Trimmed(statement)
    ensures Kept(statement + "\n") == [statement]
  {
    TrimIgnoresSpace(statement, '\n');
    TrimTrims(statement);
  }

  // A block between two settled scans adds exactly its statement.
  lemma ScanBlock(before: seq<string>, statement: string)
    requires ScanAll(before).buf == "" && !ScanAll(before).inBlock
    requires statement != "" && Trimmed(statement) && PlainLines(SplitLines(statement))
    ensures ScanAll(before + Block(statement)) == Scan(ScanAll(before).statements + [statement], "", false)
  {
    hide ScanAll, MarkerOf, Kept, SplitLines, Unlines;
    MarkerLines();
    var lines := SplitLines(statement);
    assert before + Block(statement) == (before + [BEGIN_LINE]) + lines + [END_LINE];
    ScanAppend(before, BEGIN_LINE);
    ScanInsideBlock(before + [BEGIN_LINE], lines);
    ScanAppend((before + [BEGIN_LINE]) + lines, END_LINE);
    UnlinesOfSplit(statement);
    assert "" + (statement + "\n") == statement + "\n";
    KeptAgain(statement);
  }

  lemma BlocksAppend(front: seq<string>, last: string)
    ensures Blocks(front + [last]) == Blocks(front) + Block(last)
  {
    hide Block;
    assert (front + [last])[..|front|] == front;
  }

  lemma LastIsReadable(front: seq<string>, last: string)
    requires Clean(front + [last]) && PlainStatements(front + [last])
    ensures Clean(front) && PlainStatements(front)
    ensures last != "" && Trimmed(last) && PlainLines(SplitLines(last))
  {
    hide PlainLines, SplitLines, Trimmed;
    var all := front + [last];
    assert all[|front|] == last && forall i :: 0 <= i < |front| ==> front[i] == all[i];
  }

  lemma {:induction false} ScanBlocks(statements: seq<string>)
    requires Clean(statements) && PlainStatements(statements)
    ensures ScanAll(Blocks(statements)) == Scan(statements, "", false)
  {
    if statements == [] {
      assert Blocks(statements) == [];
    } else {
      var front, last := statements[..|statements| - 1], statements[|statements| - 1];
      assert statements == front + [last];
      hide *;
      LastIsReadable(front, last);
      ScanBlocks(front);
      BlocksAppend(front, last);
      ScanBlock(Blocks(front), last);
    }
  }

  lemma BlockIsPlain(statement: string)
    requires PlainLines(SplitLines(statement))
    ensures forall i :: 0 <= i < |Block(statement)| ==>
              DropCR(Block(statement)[i]) == Block(statement)[i] && !SectionMarker(Block(statement)[i])
  {
    hide MarkerOf, SplitLines;
    MarkerLines();
    MarkerLinesAreLines();
    forall i | 0 <= i < |Block(statement)|
      ensures DropCR(Block(statement)[i]) == Block(statement)[i] && !SectionMarker(Block(statement)[i])
    {
      if 0 < i < |Block(statement)| - 1 { assert Plain(SplitLines(statement)[i - 1]); }
    }
  }

  lemma {:induction false} BlocksArePlain(statements: seq<string>)
    requires PlainStatements(statements)
    ensures forall i :: 0 <= i < |Blocks(statements)| ==>
              DropCR(Blocks(statements)[i]) == Blocks(statements)[i] && !SectionMarker(Blocks(statements)[i])
  {
    if statements != [] {
      assert PlainStatements(statements[..|statements| - 1]) && PlainLines(SplitLines(statements[|statements| - 1]));
      hide SectionMarker, DropCR, PlainLines, PlainStatements, SplitLines, Block;
      BlocksArePlain(statements[..|statements| - 1]);
      BlockIsPlain(statements[|statements| - 1]);
    }
  }

  lemma BlocksReadBack(statements: seq<string>)
    requires Clean(statements) && PlainStatements(statements)
    ensures Statements(Unlines(Blocks(statements))) == statements
  {
    BlocksText(statements);
    BlocksArePlain(statements);
    hide ScanAll, Unlines, Blocks, Lines, PlainStatements, Clean, SectionMarker, DropCR, AllOneLine;
    LinesOfUnlines(Blocks(statements));
    PlainLinesStay(Blocks(statements));
    ScanBlocks(statements);
  }

  lemma {:induction false} UntilNextSection(body: seq<string>, rest: seq<string>)
    requires forall i :: 0 <= i < |body| ==> !SectionMarker(body[i])
    requires rest == [] || SectionMarker(rest[0])
    ensures UntilMarker(body + rest) == body
  {
    if body == [] {
      assert body + rest == rest;
    } else {
      hide SectionMarker;
      assert (body + rest)[1..] == body[1..] + rest;
      UntilNextSection(body[1..], rest);
    }
  }

  lemma {:induction false} NoMarkerInside(body: seq<string>, rest: seq<string>, m: Marker)
    requires m == UpMarker || m == DownMarker
    requires forall i :: 0 <= i < |body| ==> !SectionMarker(body[i])
    ensures HasMarker(body + rest, m) <==> HasMarker(rest, m)
    ensures SectionLines(body + rest, m) == SectionLines(rest, m)
  {
    if body == [] {
      assert body + rest == rest;
    } else {
      assert body + rest == [body[0]] + (body[1..] + rest);
      NoMarkerInside(body[1..], rest, m);
      OneMarkerMore(body[0], body[1..] + rest, m);
    }
  }

  lemma TwoSections(up: seq<string>, down: seq<string>)
    requires forall i :: 0 <= i < |up| ==> !SectionMarker(up[i])
    requires forall i :: 0 <= i < |down| ==> !SectionMarker(down[i])
    ensures SectionLines(([UP] + up) + ([DOWN] + down), UpMarker) == up
    ensures SectionLines(([UP] + up) + ([DOWN] + down), DownMarker) == down
  {
    MarkerLines();
    var rest := [DOWN] + down;
    assert ([UP] + up) + rest == [UP] + (up + rest);
    assert down + [] == down;
    NoMarkerInside(down, [], UpMarker);
    NoMarkerInside(down, [], DownMarker);
    OneMarkerMore(DOWN, down, UpMarker);
    OneMarkerMore(DOWN, down, DownMarker);
    NoMarkerInside(up, rest, UpMarker);
    NoMarkerInside(up, rest, DownMarker);
    OneMarkerMore(UP, up + rest, UpMarker);
    OneMarkerMore(UP, up + rest, DownMarker);
    UntilNextSection(down, []);
    UntilNextSection(up, rest);
  }

  lemma RenderableReadsBack(name: string, migration: Script)
    requires Renderable(migration.up) && Renderable(migration.down)
    ensures Parse(name, Render(migration)) == Parsed(name, migration)
  {
    var up, down := Blocks(migration.up), Blocks(migration.down);
    BlocksArePlain(migration.up);
    BlocksArePlain(migration.down);
    MarkerLinesAreLines();
    PlainLinesStay(RenderLines(migration));
    hide SectionLines, Blocks, Lines, Unlines, DropAll, SectionMarker, DropCR, PlainStatements, Statements, Render,
      Clean;
    RenderedLines(migration);
    TwoSections(up, down);
    BlocksReadBack(migration.up);
    BlocksReadBack(migration.down);
  }

  // ---------- what cannot be read back ----------

  // Characters other than newlines: none is ever added, so those a marker line
  // or a dropped carriage return loses are lost for good.
  function Mass(text: string): nat {
    |Without(text, {'\n'})|
  }

  function LineMass(line: string): nat {
    if MarkerOf(line).NoMarker? then Mass(line) else 0
  }

  function TotalMass(lines: seq<string>): nat {
    if lines == [] then 0 else TotalMass(lines[..|lines| - 1]) + LineMass(lines[|lines| - 1])
  }

  lemma MassConcat(a: string, b: string)
    ensures Mass(a + b) == Mass(a) + Mass(b)
  {
    WithoutConcat(a, b, {'\n'});
  }

  lemma {:induction false} TotalMassConcat(a: seq<string>, b: seq<string>)
    ensures TotalMass(a + b) == TotalMass(a) + TotalMass(b)
  {
    hide LineMass;
    if b == [] {
      assert a + b == a;
    } else {
      TotalMassConcat(a, b[..|b| - 1]);
      assert (a + b)[..|a + b| - 1] == a + b[..|b| - 1];
    }
  }

  lemma TotalMassCons(first: string, rest: seq<string>)
    ensures TotalMass([first] + rest) == LineMass(first) + TotalMass(rest)
  {
    TotalMassConcat([first], rest);
    assert [first][..0] == [] && TotalMass([first]) == TotalMass([]) + LineMass(first);
  }

  lemma DroppedLineMass(line: string)
    requires OneLine(line)
    ensures LineMass(DropCR(line)) <= Mass(line)
    ensures !Plain(line) ==> LineMass(DropCR(line)) < Mass(line)
  {
    SameMarker(line);
    DropCRKeeps(line, {'\n'});
    WithoutNone(line, {'\n'});
    if !MarkerOf(line).NoMarker? { NoEmptyMarker(line); }
  }

  lemma NoEmptyMarker(line: string)
    requires !MarkerOf(line).NoMarker?
    ensures line != ""
  {
    assert Trim("") == "";
  }

  lemma {:induction false} SplitMass(text: string)
    ensures TotalMass(DropAll(SplitLines(text))) <= Mass(text)
    ensures !PlainLines(SplitLines(text)) ==> TotalMass(DropAll(SplitLines(text))) < Mass(text)
    decreases |text|
  {
    var i := Find(text, '\n');
    var first := text[..i];
    FirstLine(text, i);
    DroppedLineMass(first);
    var rest := if i == |text| then [] else SplitLines(text[i + 1..]);
    if i < |text| {
      SplitMass(text[i + 1..]);
      MassConcat(first + "\n", text[i + 1..]);
      MassConcat(first, "\n");
    }
    assert SplitLines(text) == [first] + rest;
    hide Mass, LineMass, SplitLines, TotalMass, Find, DropAll, DropCR, Plain;
    DropAllCons(first, rest);
    TotalMassCons(DropCR(first), DropAll(rest));
    PlainCons(first, rest);
    assert TotalMass(DropAll([])) == 0 by { NoMass(); }
  }

  lemma NoMass()
    ensures TotalMass(DropAll([])) == 0
  {
  }

  lemma PlainCons(first: string, rest: seq<string>)
    ensures PlainLines([first] + rest) <==> Plain(first) && PlainLines(rest)
  {
    var all := [first] + rest;
    assert all[0] == first && forall i :: 0 <= i < |rest| ==> rest[i] == all[i + 1];
  }

  lemma BlockMass(statement: string)
    ensures TotalMass(DropAll(Block(statement))) == TotalMass(DropAll(SplitLines(statement)))
  {
    MarkerLines();
    MarkerLinesAreLines();
    var lines := SplitLines(statement);
    assert LineMass(BEGIN_LINE) == 0 && LineMass(END_LINE) == 0;
    hide MarkerOf, LineMass, SplitLines, DropAll, DropCR, TotalMass;
    DropAllAppend([BEGIN_LINE] + lines, END_LINE);
    DropAllCons(BEGIN_LINE, lines);
    TotalMassCons(BEGIN_LINE, DropAll(lines));
    TotalMassConcat([BEGIN_LINE] + DropAll(lines), [END_LINE]);
    TotalMassCons(END_LINE, []);
    assert [END_LINE] + [] == [END_LINE] && TotalMass(DropAll([])) == 0 by { NoMass(); }
    assert DropAll([]) == [] by { PlainLinesStay([]); }
  }

  lemma {:induction false} BlocksMass(statements: seq<string>)
    ensures TotalMass(DropAll(Blocks(statements))) <= Mass(Flatten(statements))
    ensures !PlainStatements(statements) ==> TotalMass(DropAll(Blocks(statements))) < Mass(Flatten(statements))
  {
    if statements == [] {
      NoMass();
    } else {
      var front, last := statements[..|statements| - 1], statements[|statements| - 1];
      assert statements == front + [last];
      hide *;
      BlocksMass(front);
      SplitMass(last);
      BlockMass(last);
      BlocksAppend(front, last);
      DropAllConcat(Blocks(front), Block(last));
      TotalMassConcat(DropAll(Blocks(front)), DropAll(Block(last)));
      FlattenAppend(front, last);
      MassConcat(Flatten(front), last);
      PlainStatementsAppend(front, last);
    }
  }

  lemma DropAllConcat(a: seq<string>, b: seq<string>)
    ensures DropAll(a + b) == DropAll(a) + DropAll(b)
  {
  }

  lemma PlainStatementsAppend(front: seq<string>, last: string)
    ensures PlainStatements(front) && PlainLines(SplitLines(last)) ==> PlainStatements(front + [last])
  {
    hide PlainLines, SplitLines;
  }

  // A line belongs to at most one of the two sections that count.
  lemma {:induction false} SectionsShareNothing(lines: seq<string>)
    ensures forall m :: m == UpMarker || m == DownMarker ==>
              Mass(KeptText(UntilMarker(lines))) + Mass(KeptText(SectionLines(lines, m))) <= TotalMass(lines)
    ensures Mass(KeptText(SectionLines(lines, UpMarker))) + Mass(KeptText(SectionLines(lines, DownMarker)))
            <= TotalMass(lines)
  {
    if lines != [] {
      var first, rest := lines[0], lines[1..];
      SectionsShareNothing(rest);
      assert lines == [first] + rest;
      TotalMassCons(first, rest);
      KeptTextCons(first, UntilMarker(rest));
      hide KeptText, MarkerOf, TotalMass, Without, HasMarker;
    }
  }

  lemma KeptTextCons(first: string, rest: seq<string>)
    ensures !SectionMarker(first) ==> Mass(KeptText([first] + rest)) == LineMass(first) + Mass(KeptText(rest))
  {
    hide KeptText, Without, Trim, ToLower;
    KeptTextConcat([first], rest);
    MassConcat(KeptText([first]), KeptText(rest));
    KeptTextOne(first);
    assert Mass("") == 0 by { EmptyMass(); }
  }

  lemma KeptTextOne(line: string)
    ensures KeptText([line]) == if BlockMarker(line) then "" else line
  {
    hide MarkerOf;
    assert [line][..0] == [] && "" + line == line;
  }

  lemma EmptyMass()
    ensures Mass("") == 0
  {
  }

  lemma {:induction false} KeptTextConcat(a: seq<string>, b: seq<string>)
    ensures KeptText(a + b) == KeptText(a) + KeptText(b)
  {
    if b == [] {
      assert a + b == a;
    } else {
      hide *;
      var front, last := b[..|b| - 1], b[|b| - 1];
      assert b == front + [last];
      KeptTextConcat(a, front);
      ConcatAssociative(a, front, [last]);
      KeptTextAppend(a + front, last);
      KeptTextAppend(front, last);
      ConcatAssociative(KeptText(a), KeptText(front), if BlockMarker(last) then "" else last);
    }
  }

  lemma ReadBackIsRenderable(name: string, migration: Script)
    requires Parse(name, Render(migration)) == Parsed(name, migration)
    ensures Renderable(migration.up) && Renderable(migration.down)
  {
    var content := Render(migration);
    hide *;
    ParsedSections(name, content);
    SectionKeeps(content, UpMarker, {'\n'});
    SectionKeeps(content, DownMarker, {'\n'});
    SectionsShareNothing(Lines(content));
    RenderedLines(migration);
    RenderedMass(migration);
    AtMostAsMuch(Flatten(migration.up), KeptText(SectionLines(Lines(content), UpMarker)));
    AtMostAsMuch(Flatten(migration.down), KeptText(SectionLines(Lines(content), DownMarker)));
    BlocksMass(migration.up);
    BlocksMass(migration.down);
    IsRenderable(migration.up);
    IsRenderable(migration.down);
  }

  lemma IsRenderable(statements: seq<string>)
    ensures Renderable(statements) <==> statements != [] && Clean(statements) && PlainStatements(statements)
  {
  }

  lemma AtMostAsMuch(a: string, b: string)
    ensures Keeps(a, b, {'\n'}) ==> Mass(a) <= Mass(b)
  {
  }

  lemma ParsedSections(name: string, content: string)
    ensures Parse(name, content).Parsed? ==>
              var p := Parse(name, content).migration;
              p.up != [] && p.down != []
              && p.up == SectionStatements(content, UpMarker) && p.down == SectionStatements(content, DownMarker)
  {
  }

  lemma RenderedMass(migration: Script)
    ensures TotalMass(DropAll(RenderLines(migration)))
            == TotalMass(DropAll(Blocks(migration.up))) + TotalMass(DropAll(Blocks(migration.down)))
  {
    MarkerLines();
    MarkerLinesAreLines();
    assert LineMass(UP) == 0 && LineMass(DOWN) == 0;
    hide MarkerOf, LineMass, DropAll, DropCR, TotalMass, Blocks;
    var up, down := Blocks(migration.up), Blocks(migration.down);
    DropAllConcat([UP] + up, [DOWN] + down);
    DropAllCons(UP, up);
    DropAllCons(DOWN, down);
    TotalMassConcat([UP] + DropAll(up), [DOWN] + DropAll(down));
    TotalMassCons(UP, DropAll(up));
    TotalMassCons(DOWN, DropAll(down));
  }

  // A migration survives being written to a file and parsed again exactly when
  // both lists are non-empty, every statement is trimmed and non-empty, and no
  // line of a statement is a marker or ends in a carriage return.
  lemma RoundTrip(name: string, migration: Script)
    ensures Parse(name, Render(migration)) == Parsed(name, migration)
            <==> Renderable(migration.up) && Renderable(migration.down)
  {
    hide *;
    if Parse(name, Render(migration)) == Parsed(name, migration) {
      ReadBackIsRenderable(name, migration);
    }
    if Renderable(migration.up) && Renderable(migration.down) {
      RenderableReadsBack(name, migration);
    }
  }

  // ---------- a block that is not a statement of its own ----------

  // A statement without its ';' before a block becomes part of it.
  lemma BlockSwallowsUnfinishedText()
    ensures Statements("a\n" + BEGIN_LINE + "\n" + "b;\n" + END_LINE + "\n") == ["a\nb;"]
  {
    hide *;
    var before, body: seq<string> := ["a"], ["b;"];
    var lines := before + [BEGIN_LINE] + body + [END_LINE];
    MarkerLines();
    SmallSection(lines);
    OrdinaryLines();
    UnfinishedLine("a");
    BlockStandsAlone(before, BEGIN_LINE, body, END_LINE);
    UnlinesOne("b;");
    KeptBoth();
    assert "a" + "\n" == "a\n" && "b;" + "\n" == "b;\n";
    var none: seq<string> := [];
    assert none + none + ["a\nb;"] == ["a\nb;"];
    SplittingIsCuttingWithBlocks(Unlines(lines));
    EndClosesSection(before + [BEGIN_LINE] + body, END_LINE);
  }

  lemma SmallSection(lines: seq<string>)
    requires lines == ["a"] + [BEGIN_LINE] + ["b;"] + [END_LINE]
    ensures Unlines(lines) == "a\n" + BEGIN_LINE + "\n" + "b;\n" + END_LINE + "\n"
    ensures Lines(Unlines(lines)) == lines
  {
    MarkerLinesAreLines();
    assert AllOneLine(lines) && forall i :: 0 <= i < |lines| ==> DropCR(lines[i]) == lines[i];
    hide *;
    LinesOfUnlines(lines);
    PlainLinesStay(lines);
    UnlinesAppend(["a"] + [BEGIN_LINE] + ["b;"], END_LINE);
    UnlinesAppend(["a"] + [BEGIN_LINE], "b;");
    UnlinesAppend(["a"], BEGIN_LINE);
    UnlinesOne("a");
    assert "a" + "\n" == "a\n" && "b;" + "\n" == "b;\n";
  }

  // After a StatementEnd nothing is left over.
  lemma EndClosesSection(lines: seq<string>, end: string)
    requires MarkerOf(end).EndMarker?
    ensures CutSection(lines + [end]) == ClosedCut(lines + [end])
  {
    hide MarkerOf, ClosedCut, Tidy, Pieces;
    OpenAppend(lines, end);
    FreshStart();
    assert Kept("" + "") == [] by { NothingKeptOfNothing(); }
    assert ClosedCut(lines + [end]) + [] == ClosedCut(lines + [end]);
  }

  lemma NothingKeptOfNothing()
    ensures Kept("" + "") == []
  {
  }

  // ---------- which section counts ----------

  // The section after the last marker of its kind, up to the next section marker.
  lemma LastSectionCounts(before: seq<string>, marker: string, body: seq<string>, after: seq<string>, m: Marker)
    requires (m == UpMarker || m == DownMarker) && MarkerOf(marker) == m
    requires forall i :: 0 <= i < |body| ==> !SectionMarker(body[i])
    requires after == [] || SectionMarker(after[0])
    requires !HasMarker(after, m)
    ensures SectionLines(before + ([marker] + (body + after)), m) == body
  {
    hide SectionLines, HasMarker, MarkerOf, UntilMarker;
    NoMarkerInside(body, after, m);
    OneMarkerMore(marker, body + after, m);
    UntilNextSection(body, after);
    EarlierSectionsAreDropped(before, [marker] + (body + after), m);
  }

  lemma {:induction false} EarlierSectionsAreDropped(before: seq<string>, rest: seq<string>, m: Marker)
    requires (m == UpMarker || m == DownMarker) && HasMarker(rest, m)
    ensures SectionLines(before + rest, m) == SectionLines(rest, m) && HasMarker(before + rest, m)
  {
    hide *;
    if before == [] {
      assert before + rest == rest;
    } else {
      assert before + rest == [before[0]] + (before[1..] + rest);
      EarlierSectionsAreDropped(before[1..], rest, m);
      OneMarkerMore(before[0], before[1..] + rest, m);
    }
  }

  // A small file, as it is written.
  lemma SmallFile(name: string)
    ensures Parse(name, "-- +migrate up\n" + "a;\n" + "-- +migrate down\n" + "b;\n")
            == Parsed(name, Script(["a;"], ["b;"]))
  {
    hide *;
    var lines := ([UP] + ["a;"]) + ([DOWN] + ["b;"]);
    SmallFileLines(lines);
    NoSectionMarkers();
    TwoSections(["a;"], ["b;"]);
    OneStatement("a");
    OneStatement("b");
    assert "a" + ";" == "a;" && "b" + ";" == "b;";
    ParseTwo(name, Unlines(lines), ["a;"], ["b;"]);
  }

  lemma ParseTwo(name: string, content: string, up: seq<string>, down: seq<string>)
    requires up != [] && down != []
    requires Statements(Unlines(SectionLines(Lines(content), UpMarker))) == up
    requires Statements(Unlines(SectionLines(Lines(content), DownMarker))) == down
    ensures Parse(name, content) == Parsed(name, Script(up, down))
  {
    hide Statements, Unlines, SectionLines, Lines;
  }

  lemma NoSectionMarkers()
    ensures !SectionMarker("a;") && !SectionMarker("b;")
    ensures !BlockMarker("a;") && !BlockMarker("b;")
  {
    TrimTrims("a;");
    TrimTrims("b;");
    hide Trim;
    assert |ToLower("a;")| == 2 && |ToLower("b;")| == 2;
    hide ToLower;
  }

  lemma SmallFileLines(lines: seq<string>)
    requires lines == ([UP] + ["a;"]) + ([DOWN] + ["b;"])
    ensures Unlines(lines) == "-- +migrate up\n" + "a;\n" + "-- +migrate down\n" + "b;\n"
    ensures Lines(Unlines(lines)) == lines
  {
    MarkerLinesAreLines();
    assert AllOneLine(lines) && forall i :: 0 <= i < |lines| ==> DropCR(lines[i]) == lines[i];
    assert UP + "\n" == "-- +migrate up\n" && DOWN + "\n" == "-- +migrate down\n";
    hide *;
    LinesOfUnlines(lines);
    PlainLinesStay(lines);
    assert lines == (([UP] + ["a;"]) + [DOWN]) + ["b;"];
    UnlinesAppend(([UP] + ["a;"]) + [DOWN], "b;");
    UnlinesAppend([UP] + ["a;"], DOWN);
    UnlinesAppend([UP], "a;");
    UnlinesOne(UP);
    assert "a;" + "\n" == "a;\n" && "b;" + "\n" == "b;\n";
  }

  lemma OneStatement(word: string)
    requires word == "a" || word == "b"
    ensures Statements(Unlines([word + ";"])) == [word + ";"]
  {
    var line := word + ";";
    NoSectionMarkers();
    assert line == "a;" || line == "b;";
    assert AllOneLine([line]) && DropCR(line) == line;
    assert BlockFree([line]);
    TrimTrims(line);
    assert Kept(line) == [line];
    assert Trim("\n") == "";
    hide *;
    LinesOfUnlines([line]);
    DropAllCons(line, []);
    UnlinesOne(line);
    NothingDropped();
    SplittingIsCutting(Unlines([line]));
    CutAtSemicolon(word, "\n");
    CutNothing("\n");
    BlankIsNotKept();
    assert [line] + [] == [line];
  }

  lemma NothingDropped()
    ensures DropAll([]) == []
  {
  }

  lemma BlankIsNotKept()
    ensures Kept("\n") == []
  {
  }
}
