// What splitting a migration file preserves: no text is lost or moved.
module MigrationTexts {
  import opened Seqs
  import opened Texts
  import opened MigrationFiles

  // a is what remains of b: nothing but characters of drop may be missing, and
  // if drop covers all white space, nothing else at all.
  ghost predicate Keeps(a: string, b: string, drop: set<char>) {
    && (SPACES <= drop ==> Without(a, drop) == Without(b, drop))
    && |Without(a, drop)| <= |Without(b, drop)|
  }

  function Solid(s: string): string {
    Without(s, SPACES)
  }

  // The text of all lines that are no block markers.
  function KeptText(lines: seq<string>): string {
    if lines == [] then "" else
    KeptText(lines[..|lines| - 1]) + (if BlockMarker(lines[|lines| - 1]) then "" else lines[|lines| - 1])
  }

  predicate Clean(statements: seq<string>) {
    forall i :: 0 <= i < |statements| ==> statements[i] != "" && Trimmed(statements[i])
  }

  function Collected(st: Scan): string {
    Flatten(st.statements) + st.buf
  }

  lemma KeepsConcat(a: string, b: string, c: string, d: string, drop: set<char>)
    requires Keeps(a, b, drop) && Keeps(c, d, drop)
    ensures Keeps(a + c, b + d, drop)
  {
    WithoutConcat(a, c, drop);
    WithoutConcat(b, d, drop);
  }

  lemma KeepsNewline(a: string, drop: set<char>)
    requires '\n' in drop
    ensures Keeps(a + "\n", a, drop)
  {
    WithoutConcat(a, "\n", drop);
    assert Without("\n", drop) == [];
  }

  lemma FlushedText(st: Scan)
    ensures Collected(Flush(st)) == Flatten(st.statements) + Trim(st.buf)
  {
    hide Trim;
    FlattenAppend(st.statements, Trim(st.buf));
    assert st.statements + [] == st.statements;
  }

  lemma FlushKeeps(st: Scan, drop: set<char>)
    ensures Keeps(Collected(Flush(st)), Collected(st), drop)
  {
    TrimKeeps(st.buf, drop);
    FlushedText(st);
    hide Trim, Flatten, Flush, Without;
    KeepsConcat(Flatten(st.statements), Flatten(st.statements), Trim(st.buf), st.buf, drop);
  }

  lemma FlushIsClean(st: Scan)
    requires Clean(st.statements)
    ensures Clean(Flush(st).statements)
  {
    TrimTrims(st.buf);
    hide Trim;
  }

  lemma {:induction false} CutLineKeeps(st: Scan, rest: string, drop: set<char>)
    requires Clean(st.statements) && '\n' in drop
    ensures Keeps(Collected(CutLine(st, rest)), Collected(st) + rest, drop)
    ensures Clean(CutLine(st, rest).statements)
    decreases |rest|
  {
    hide Flatten, Trim, Without, Clean, Find;
    var i := Find(rest, ';');
    if i == |rest| {
      KeepsNewline(Collected(st) + rest, drop);
      assert Collected(CutLine(st, rest)) == Collected(st) + rest + "\n";
    } else {
      var cut := st.(buf := st.buf + rest[..i + 1]);
      FlushKeeps(cut, drop);
      FlushIsClean(cut);
      CutLineKeeps(Flush(cut), rest[i + 1..], drop);
      KeepsConcat(Collected(Flush(cut)), Collected(cut), rest[i + 1..], rest[i + 1..], drop);
      assert Collected(cut) + rest[i + 1..] == Collected(st) + rest by { assert rest[..i + 1] + rest[i + 1..] == rest; }
    }
  }

  lemma ScanLineKeeps(st: Scan, line: string, drop: set<char>)
    requires Clean(st.statements) && '\n' in drop
    ensures Keeps(Collected(ScanLine(st, line)), Collected(st) + (if BlockMarker(line) then "" else line), drop)
    ensures Clean(ScanLine(st, line).statements)
  {
    hide Flatten, Trim, Without, Clean, MarkerOf, CutLine, Flush;
    if BlockMarker(line) {
      assert Collected(st) + "" == Collected(st);
      FlushKeeps(st.(inBlock := false), drop);
      FlushIsClean(st.(inBlock := false));
    } else if st.inBlock {
      KeepsNewline(Collected(st) + line, drop);
      assert Collected(ScanLine(st, line)) == Collected(st) + line + "\n";
    } else {
      CutLineKeeps(st, line, drop);
    }
  }

  lemma {:induction false} ScanAllKeeps(lines: seq<string>, drop: set<char>)
    requires '\n' in drop
    ensures Keeps(Collected(ScanAll(lines)), KeptText(lines), drop)
    ensures Clean(ScanAll(lines).statements)
  {
    if lines != [] {
      hide Flatten, Without, Clean, ScanLine, BlockMarker, Collected;
      var front, last := lines[..|lines| - 1], lines[|lines| - 1];
      ScanAllKeeps(front, drop);
      ScanLineKeeps(ScanAll(front), last, drop);
      var own := if BlockMarker(last) then "" else last;
      KeepsConcat(Collected(ScanAll(front)), KeptText(front), own, own, drop);
    }
  }

  lemma SplittingKeeps(section: string, drop: set<char>)
    requires '\n' in drop
    ensures Keeps(Flatten(Statements(section)), KeptText(Lines(section)), drop)
    ensures Clean(Statements(section))
  {
    hide Flatten, Without, Clean, ScanAll, Flush, KeptText;
    var st := ScanAll(Lines(section));
    ScanAllKeeps(Lines(section), drop);
    FlushKeeps(st, drop);
    FlushIsClean(st);
    assert Collected(Flush(st)) == Flatten(Flush(st).statements) by { NothingBuffered(st); }
  }

  lemma NothingBuffered(st: Scan)
    ensures Collected(Flush(st)) == Flatten(Flush(st).statements)
  {
    hide Flatten;
  }

  // No text of a section is lost, moved or invented, blocks or not, and every
  // statement is trimmed and not empty.
  lemma SplittingConservesText(section: string)
    ensures Solid(Flatten(Statements(section))) == Solid(KeptText(Lines(section)))
    ensures Clean(Statements(section))
  {
    hide Flatten, Without, Statements, KeptText, Lines;
    SplittingKeeps(section, SPACES);
  }

  // ---------- whole files ----------

  lemma SameMarker(line: string)
    ensures MarkerOf(DropCR(line)) == MarkerOf(line)
  {
    hide Trim, ToLower;
    TrimIgnoresCR(line);
  }

  lemma DropCRKeeps(line: string, drop: set<char>)
    ensures Keeps(DropCR(line), line, drop)
    ensures line != DropCR(line) && '\r' !in drop ==> |Without(DropCR(line), drop)| < |Without(line, drop)|
  {
    if line != DropCR(line) {
      assert line == DropCR(line) + ['\r'];
      WithoutConcat(DropCR(line), ['\r'], drop);
    }
  }

  lemma KeptTextAppend(lines: seq<string>, last: string)
    ensures KeptText(lines + [last]) == KeptText(lines) + (if BlockMarker(last) then "" else last)
  {
    hide MarkerOf;
    assert (lines + [last])[..|lines|] == lines;
  }

  lemma KeepsItself(a: string, drop: set<char>)
    ensures Keeps(a, a, drop)
  {
  }

  lemma {:induction false} DropAllKeeps(lines: seq<string>, drop: set<char>)
    ensures Keeps(KeptText(DropAll(lines)), KeptText(lines), drop)
  {
    if lines != [] {
      var front, last := lines[..|lines| - 1], lines[|lines| - 1];
      assert lines == front + [last];
      hide Without, DropAll, DropCR, MarkerOf, KeptText, Keeps;
      DropAllKeeps(front, drop);
      DropCRKeeps(last, drop);
      SameMarker(last);
      DropAllAppend(front, last);
      KeepsItself("", drop);
      KeptTextAppend(front, last);
      KeptTextAppend(DropAll(front), DropCR(last));
      var skip := BlockMarker(last);
      KeepsConcat(KeptText(DropAll(front)), KeptText(front), if skip then "" else DropCR(last),
                  if skip then "" else last, drop);
    }
  }

  lemma {:induction false} UntilMarkerIsOneLine(lines: seq<string>)
    requires AllOneLine(lines)
    ensures AllOneLine(UntilMarker(lines))
  {
    if lines != [] && !SectionMarker(lines[0]) {
      assert AllOneLine(lines[1..]) && OneLine(lines[0]);
      UntilMarkerIsOneLine(lines[1..]);
    }
  }

  lemma {:induction false} SectionIsOneLine(lines: seq<string>, m: Marker)
    requires AllOneLine(lines)
    ensures AllOneLine(SectionLines(lines, m))
  {
    if lines != [] {
      assert AllOneLine(lines[1..]);
      UntilMarkerIsOneLine(lines[1..]);
      SectionIsOneLine(lines[1..], m);
    }
  }

  // The second scan sees the section's lines once more.
  lemma SectionScannedTwice(content: string, m: Marker)
    ensures AllOneLine(SectionLines(Lines(content), m))
    ensures Lines(Unlines(SectionLines(Lines(content), m))) == DropAll(SectionLines(Lines(content), m))
  {
    hide AllOneLine, Lines, Unlines, SectionLines;
    LinesAreOneLine(content);
    SectionIsOneLine(Lines(content), m);
    LinesOfUnlines(SectionLines(Lines(content), m));
  }

  lemma SectionKeeps(content: string, m: Marker, drop: set<char>)
    requires '\n' in drop
    ensures Keeps(Flatten(SectionStatements(content, m)), KeptText(SectionLines(Lines(content), m)), drop)
    ensures Clean(SectionStatements(content, m))
  {
    hide Flatten, Without, Clean, Statements, KeptText, Lines, Unlines, SectionLines, DropAll;
    var lines := SectionLines(Lines(content), m);
    SectionScannedTwice(content, m);
    SplittingKeeps(Unlines(lines), drop);
    DropAllKeeps(lines, drop);
  }

  // A file that parses keeps all the text of its last up and last down section.
  lemma ParsingConservesText(name: string, content: string)
    requires Parse(name, content).Parsed?
    ensures var p, lines := Parse(name, content), Lines(content);
            && p.name == name && p.migration.up != [] && p.migration.down != []
            && Clean(p.migration.up) && Clean(p.migration.down)
            && Solid(Flatten(p.migration.up)) == Solid(KeptText(SectionLines(lines, UpMarker)))
            && Solid(Flatten(p.migration.down)) == Solid(KeptText(SectionLines(lines, DownMarker)))
  {
    hide Flatten, Without, Clean, SectionStatements, KeptText, Lines, SectionLines;
    SectionKeeps(content, UpMarker, SPACES);
    SectionKeeps(content, DownMarker, SPACES);
  }

  // A file fails to parse exactly when one of those sections is blank.
  lemma ParsingFailsOnBlankSections(name: string, content: string)
    ensures Parse(name, content).Malformed? && Parse(name, content).error == MissingUp
            <==> Solid(KeptText(SectionLines(Lines(content), UpMarker))) == ""
    ensures Parse(name, content).Malformed? && Parse(name, content).error == MissingDown
            <==> Solid(KeptText(SectionLines(Lines(content), UpMarker))) != ""
                 && Solid(KeptText(SectionLines(Lines(content), DownMarker))) == ""
  {
    hide Flatten, Without, Clean, SectionStatements, KeptText, Lines, SectionLines;
    SectionKeeps(content, UpMarker, SPACES);
    SectionKeeps(content, DownMarker, SPACES);
    CleanIsSolid(SectionStatements(content, UpMarker));
    CleanIsSolid(SectionStatements(content, DownMarker));
  }

  lemma CleanIsSolid(statements: seq<string>)
    requires Clean(statements)
    ensures Solid(Flatten(statements)) == "" <==> statements == []
  {
    if statements != [] {
      var front, last := statements[..|statements| - 1], statements[|statements| - 1];
      WithoutConcat(Flatten(front), last, SPACES);
      assert last[0] in last && last[0] !in SPACES;
      assert last[0] in Without(last, SPACES);
    }
  }
}
