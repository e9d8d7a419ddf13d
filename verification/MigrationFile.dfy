// migration/parser.go: from the text of a migration file to its statements.
module MigrationFiles {
  import opened Seqs
  import opened Texts
  import opened MigrationPlan

  datatype Marker = NoMarker | UpMarker | DownMarker | BeginMarker | EndMarker

  datatype ParseError = MissingUp | MissingDown

  datatype Parsed = Parsed(name: string, migration: Script) | Malformed(name: string, error: ParseError)

  const UP := "-- +migrate up"
  const DOWN := "-- +migrate down"
  const BEGIN := "-- +migrate statementbegin"
  const END := "-- +migrate statementend"

  // Markers stand alone on their line, in any case and with any spaces around.
  function MarkerOf(line: string): Marker {
    var text := ToLower(Trim(line));
    if text == UP then UpMarker
    else if text == DOWN then DownMarker
    else if text == BEGIN then BeginMarker
    else if text == END then EndMarker
    else NoMarker
  }

  predicate SectionMarker(line: string) {
    MarkerOf(line).UpMarker? || MarkerOf(line).DownMarker?
  }

  predicate BlockMarker(line: string) {
    MarkerOf(line).BeginMarker? || MarkerOf(line).EndMarker?
  }

  // ---------- statements of a section ----------

  // What splitStatements has collected, and its carry-over buffer.
  datatype Scan = Scan(statements: seq<string>, buf: string, inBlock: bool)

  function Kept(text: string): seq<string> {
    if Trim(text) == "" then [] else [Trim(text)]
  }

  function Flush(st: Scan): Scan {
    Scan(st.statements + Kept(st.buf), "", st.inBlock)
  }

  // An ordinary line: a statement ends at every ';', the rest is carried over.
  function CutLine(st: Scan, rest: string): Scan
    decreases |rest|
  {
    var i := Find(rest, ';');
    if i == |rest| then st.(buf := st.buf + rest + "\n")
    else CutLine(Flush(st.(buf := st.buf + rest[..i + 1])), rest[i + 1..])
  }

  function ScanLine(st: Scan, line: string): Scan {
    if MarkerOf(line).BeginMarker? then st.(inBlock := true)
    else if MarkerOf(line).EndMarker? then Flush(st.(inBlock := false))
    else if st.inBlock then st.(buf := st.buf + line + "\n")
    else CutLine(st, line)
  }

  function ScanAll(lines: seq<string>): Scan {
    if lines == [] then Scan([], "", false) else
    ScanLine(ScanAll(lines[..|lines| - 1]), lines[|lines| - 1])
  }

  lemma ScanAppend(lines: seq<string>, last: string)
    ensures ScanAll(lines + [last]) == ScanLine(ScanAll(lines), last)
  {
    hide ScanLine;
    assert (lines + [last])[..|lines|] == lines;
  }

  function Statements(section: string): seq<string> {
    Flush(ScanAll(Lines(section))).statements
  }

  method FlushBuffer(statements: seq<string>, buf: string) returns (r: seq<string>)
    ensures r == statements + Kept(buf)
  {
    var s := Trim(buf);
    r := if s != "" then statements + [s] else statements;
  }

  method SplitStatements(section: string) returns (statements: seq<string>)
    ensures statements == Statements(section)
  {
    hide MarkerOf, Kept, CutLine, Lines;
    var lines := Lines(section);
    var buf, inBlock := "", false;
    statements := [];
    for i := 0 to |lines|
      invariant Scan(statements, buf, inBlock) == ScanAll(lines[..i])
    {
      var line := lines[i];
      assert lines[..i + 1][..i] == lines[..i];
      var marker := MarkerOf(line);
      if marker.BeginMarker? {
        inBlock := true;
        continue;
      }
      if marker.EndMarker? {
        inBlock := false;
        statements := FlushBuffer(statements, buf);
        buf := "";
        continue;
      }
      if inBlock {
        buf := buf + line + "\n";
        continue;
      }
      statements, buf := CutIntoStatements(statements, buf, line);
    }
    assert lines[..|lines|] == lines;
    statements := FlushBuffer(statements, buf);
  }

  method CutIntoStatements(start: seq<string>, carry: string, line: string)
    returns (statements: seq<string>, buf: string)
    ensures Scan(statements, buf, false) == CutLine(Scan(start, carry, false), line)
  {
    statements, buf := start, carry;
    var rest := line;
    var i := Find(rest, ';');
    while i < |rest|
      invariant i == Find(rest, ';')
      invariant CutLine(Scan(statements, buf, false), rest) == CutLine(Scan(start, carry, false), line)
      decreases |rest|
    {
      buf := buf + rest[..i + 1];
      statements := FlushBuffer(statements, buf);
      buf := "";
      rest := rest[i + 1..];
      i := Find(rest, ';');
    }
    buf := buf + rest + "\n";
  }

  // ---------- sections of a file ----------

  // The lines up to the next section marker.
  function UntilMarker(lines: seq<string>): seq<string> {
    if lines == [] || SectionMarker(lines[0]) then [] else [lines[0]] + UntilMarker(lines[1..])
  }

  predicate HasMarker(lines: seq<string>, m: Marker) {
    exists i :: 0 <= i < |lines| && MarkerOf(lines[i]) == m
  }

  // The section that counts: the lines after the last marker of that kind, up
  // to the next section marker.
  function SectionLines(lines: seq<string>, m: Marker): seq<string> {
    if lines == [] then []
    else if MarkerOf(lines[0]) == m && !HasMarker(lines[1..], m) then UntilMarker(lines[1..])
    else SectionLines(lines[1..], m)
  }

  function SectionStatements(content: string, m: Marker): seq<string> {
    Statements(Unlines(SectionLines(Lines(content), m)))
  }

  function Parse(name: string, content: string): Parsed {
    var up, down := SectionStatements(content, UpMarker), SectionStatements(content, DownMarker);
    if up == [] then Malformed(name, MissingUp)
    else if down == [] then Malformed(name, MissingDown)
    else Parsed(name, Script(up, down))
  }

  // The section a file is in after these lines.
  function Open(lines: seq<string>): Marker {
    if lines == [] then NoMarker
    else if SectionMarker(lines[|lines| - 1]) then MarkerOf(lines[|lines| - 1])
    else Open(lines[..|lines| - 1])
  }

  // Text collected since the last section marker.
  function Pending(lines: seq<string>): seq<string> {
    if lines == [] || SectionMarker(lines[|lines| - 1]) then []
    else Pending(lines[..|lines| - 1]) + [lines[|lines| - 1]]
  }

  lemma {:induction false} UntilMarkerAppend(lines: seq<string>, x: string)
    ensures UntilMarker(lines + [x]) ==
            if Open(lines) == NoMarker && !SectionMarker(x) then UntilMarker(lines) + [x] else UntilMarker(lines)
  {
    if lines != [] {
      OpenCons(lines);
      assert (lines + [x])[1..] == lines[1..] + [x];
      UntilMarkerAppend(lines[1..], x);
    }
  }

  // Seen from the front, the open section is that of the rest if it has one.
  lemma {:induction false} OpenCons(lines: seq<string>)
    requires lines != []
    ensures Open(lines) == if Open(lines[1..]) != NoMarker then Open(lines[1..])
                           else if SectionMarker(lines[0]) then MarkerOf(lines[0]) else NoMarker
  {
    if |lines| == 1 {
      assert lines[..0] == [];
    } else {
      OpenCons(lines[..|lines| - 1]);
      assert lines[..|lines| - 1][1..] == lines[1..][..|lines| - 2];
    }
  }

  lemma {:induction false} OpenHasMarker(lines: seq<string>, m: Marker)
    requires m == UpMarker || m == DownMarker
    ensures Open(lines) == m ==> HasMarker(lines, m)
    ensures HasMarker(lines, m) ==> Open(lines) != NoMarker
  {
    if lines != [] {
      var front, x := lines[..|lines| - 1], lines[|lines| - 1];
      OpenHasMarker(front, m);
      HasMarkerAppend(front, x, m);
      assert front + [x] == lines;
    }
  }

  lemma OneMarkerMore(first: string, rest: seq<string>, m: Marker)
    ensures HasMarker([first] + rest, m) <==> MarkerOf(first) == m || HasMarker(rest, m)
    ensures SectionLines([first] + rest, m) ==
            if MarkerOf(first) == m && !HasMarker(rest, m) then UntilMarker(rest) else SectionLines(rest, m)
  {
    var lines := [first] + rest;
    assert lines[1..] == rest && lines[0] == first;
    if HasMarker(rest, m) {
      var i :| 0 <= i < |rest| && MarkerOf(rest[i]) == m;
      assert MarkerOf(lines[i + 1]) == m;
    }
  }

  lemma {:induction false} SectionLinesAppend(lines: seq<string>, x: string, m: Marker)
    requires m == UpMarker || m == DownMarker
    ensures SectionLines(lines + [x], m) ==
            if MarkerOf(x) == m then []
            else if !SectionMarker(x) && Open(lines) == m then SectionLines(lines, m) + [x]
            else SectionLines(lines, m)
  {
    if lines == [] {
      assert [x][1..] == [];
    } else {
      hide SectionLines, UntilMarker, Open, HasMarker, MarkerOf;
      var first, rest := lines[0], lines[1..];
      assert lines == [first] + rest && lines + [x] == [first] + (rest + [x]);
      OneMarkerMore(first, rest, m);
      OneMarkerMore(first, rest + [x], m);
      SectionLinesAppend(rest, x, m);
      UntilMarkerAppend(rest, x);
      OpenCons(lines);
      OpenHasMarker(rest, m);
      HasMarkerAppend(rest, x, m);
      NoSectionWithout(rest, m);
    }
  }

  lemma HasMarkerAppend(lines: seq<string>, x: string, m: Marker)
    ensures HasMarker(lines + [x], m) <==> HasMarker(lines, m) || MarkerOf(x) == m
  {
    if HasMarker(lines, m) {
      var i :| 0 <= i < |lines| && MarkerOf(lines[i]) == m;
      assert (lines + [x])[i] == lines[i];
    }
    assert (lines + [x])[|lines|] == x;
  }

  lemma {:induction false} NoSectionWithout(lines: seq<string>, m: Marker)
    requires m == UpMarker || m == DownMarker
    ensures !HasMarker(lines, m) ==> SectionLines(lines, m) == []
  {
    if lines != [] {
      NoSectionWithout(lines[1..], m);
      if HasMarker(lines[1..], m) {
        var i :| 0 <= i < |lines[1..]| && MarkerOf(lines[1..][i]) == m;
        assert MarkerOf(lines[i + 1]) == m;
      }
      assert MarkerOf(lines[0]) == m ==> HasMarker(lines, m);
    }
  }

  lemma {:induction false} PendingIsTheOpenSection(lines: seq<string>, m: Marker)
    requires (m == UpMarker || m == DownMarker) && Open(lines) == m
    ensures SectionLines(lines, m) == Pending(lines)
  {
    var front, x := lines[..|lines| - 1], lines[|lines| - 1];
    SectionLinesAppend(front, x, m);
    assert front + [x] == lines;
    if !SectionMarker(x) { PendingIsTheOpenSection(front, m); }
  }

  // What splitUpDown knows of one section after some lines; the section it is
  // in is still in the buffer.
  ghost predicate Collected(lines: seq<string>, m: Marker, statements: seq<string>) {
    Open(lines) != m ==> statements == Statements(Unlines(SectionLines(lines, m)))
  }

  lemma CollectedAtMarker(lines: seq<string>, x: string, m: Marker, before: seq<string>, after: seq<string>)
    requires (m == UpMarker || m == DownMarker) && SectionMarker(x)
    requires Collected(lines, m, before)
    requires after == if Open(lines) == m then Statements(Unlines(Pending(lines))) else before
    ensures Collected(lines + [x], m, after)
  {
    SectionLinesAppend(lines, x, m);
    if Open(lines) == m { PendingIsTheOpenSection(lines, m); }
    assert (lines + [x])[|lines|] == x;
  }

  lemma CollectedInside(lines: seq<string>, x: string, m: Marker, statements: seq<string>)
    requires (m == UpMarker || m == DownMarker) && !SectionMarker(x)
    requires Collected(lines, m, statements)
    ensures Collected(lines + [x], m, statements)
  {
    SectionLinesAppend(lines, x, m);
    assert (lines + [x])[|lines|] == x && (lines + [x])[..|lines|] == lines;
  }

  lemma CollectedAtEnd(lines: seq<string>, m: Marker, before: seq<string>, after: seq<string>)
    requires (m == UpMarker || m == DownMarker) && Collected(lines, m, before)
    requires after == if Open(lines) == m then Statements(Unlines(Pending(lines))) else before
    ensures after == Statements(Unlines(SectionLines(lines, m)))
  {
    if Open(lines) == m { PendingIsTheOpenSection(lines, m); }
  }

  lemma AfterLine(lines: seq<string>, x: string)
    ensures Open(lines + [x]) == if SectionMarker(x) then MarkerOf(x) else Open(lines)
    ensures Pending(lines + [x]) == if SectionMarker(x) then [] else Pending(lines) + [x]
    ensures Unlines(Pending(lines + [x])) ==
            if SectionMarker(x) then "" else Unlines(Pending(lines)) + x + "\n"
  {
    assert (lines + [x])[|lines|] == x && (lines + [x])[..|lines|] == lines;
    assert (Pending(lines) + [x])[..|Pending(lines)|] == Pending(lines);
  }

  lemma NothingScanned()
    ensures Statements("") == []
  {
  }

  method FlushSection(section: Marker, buf: string, up0: seq<string>, down0: seq<string>)
    returns (up: seq<string>, down: seq<string>)
    ensures up == if section == UpMarker then Statements(buf) else up0
    ensures down == if section == DownMarker then Statements(buf) else down0
  {
    up, down := up0, down0;
    if section == UpMarker {
      up := SplitStatements(buf);
    } else if section == DownMarker {
      down := SplitStatements(buf);
    }
  }

  // splitUpDown on a text already cut into lines.
  method CollectSections(lines: seq<string>) returns (up: seq<string>, down: seq<string>)
    ensures up == Statements(Unlines(SectionLines(lines, UpMarker)))
    ensures down == Statements(Unlines(SectionLines(lines, DownMarker)))
  {
    hide Statements, SectionLines, Collected, Unlines, Open, Pending, MarkerOf, SectionMarker;
    var buf, section := "", NoMarker;
    up, down := [], [];
    BeforeTheFirstLine();
    for i := 0 to |lines|
      invariant section == Open(lines[..i]) && buf == Unlines(Pending(lines[..i]))
      invariant Collected(lines[..i], UpMarker, up) && Collected(lines[..i], DownMarker, down)
    {
      var line := lines[i];
      ghost var before := lines[..i];
      assert lines[..i + 1] == before + [line];
      AfterLine(before, line);
      if SectionMarker(line) {
        ghost var up0, down0 := up, down;
        up, down := FlushSection(section, buf, up, down);
        CollectedAtMarker(before, line, UpMarker, up0, up);
        CollectedAtMarker(before, line, DownMarker, down0, down);
        buf, section := "", MarkerOf(line);
        continue;
      }
      CollectedInside(before, line, UpMarker, up);
      CollectedInside(before, line, DownMarker, down);
      buf := buf + line + "\n";
    }
    assert lines[..|lines|] == lines;
    ghost var up0, down0 := up, down;
    up, down := FlushSection(section, buf, up, down);
    CollectedAtEnd(lines, UpMarker, up0, up);
    CollectedAtEnd(lines, DownMarker, down0, down);
  }

  lemma BeforeTheFirstLine()
    ensures Open([]) == NoMarker && Unlines(Pending([])) == ""
    ensures Collected([], UpMarker, []) && Collected([], DownMarker, [])
  {
    NothingScanned();
  }

  method ParseRawMigration(migrationName: string, content: string) returns (r: Parsed)
    ensures r == Parse(migrationName, content)
  {
    var up, down := CollectSections(Lines(content));
    if |up| == 0 {
      return Malformed(migrationName, MissingUp);
    }
    if |down| == 0 {
      return Malformed(migrationName, MissingDown);
    }
    return Parsed(migrationName, Script(up, down));
  }

  // ---------- markers ----------

  // c is lower, in either case.
  predicate SameLetter(c: char, lower: char) {
    (c == lower && !('A' <= c <= 'Z')) || ('a' <= lower <= 'z' && c as int == lower as int - 32)
  }

  predicate Spells(text: string, lower: string) {
    |text| == |lower| && forall i :: 0 <= i < |text| ==> SameLetter(text[i], lower[i])
  }

  lemma LowerSpells(text: string, lower: string)
    requires forall i :: 0 <= i < |lower| ==> !('A' <= lower[i] <= 'Z')
    ensures ToLower(text) == lower <==> Spells(text, lower)
  {
    if Spells(text, lower) {
      assert forall i :: 0 <= i < |text| ==> SameLetter(text[i], lower[i]) && ToLower(text)[i] == lower[i];
    }
    if ToLower(text) == lower {
      forall i | 0 <= i < |text|
        ensures SameLetter(text[i], lower[i])
      {
        assert ToLower(text)[i] == lower[i];
      }
    }
  }

  // Exactly these texts are markers, in any case and with any spaces around.
  lemma MarkerTexts(line: string)
    ensures MarkerOf(line).UpMarker? <==> Spells(Trim(line), "-- +migrate up")
    ensures MarkerOf(line).DownMarker? <==> Spells(Trim(line), "-- +migrate down")
    ensures MarkerOf(line).BeginMarker? <==> Spells(Trim(line), "-- +migrate statementbegin")
    ensures MarkerOf(line).EndMarker? <==> Spells(Trim(line), "-- +migrate statementend")
  {
    LowerSpells(Trim(line), "-- +migrate up");
    LowerSpells(Trim(line), "-- +migrate down");
    LowerSpells(Trim(line), "-- +migrate statementbegin");
    LowerSpells(Trim(line), "-- +migrate statementend");
    hide ToLower, Trim, Spells;
    assert |"-- +migrate up"| == 14 && |"-- +migrate down"| == 16;
  }
}
