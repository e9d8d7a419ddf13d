// Scanning a section line by line with a carry-over buffer is the same as
// cutting its whole text after every ';' that no block protects.
module CutTexts {
  import opened Seqs
  import opened Texts
  import opened MigrationFiles

  // The text cut after every ';'.
  function Pieces(text: string): (r: seq<string>)
    ensures r != []
    decreases |text|
  {
    var i := Find(text, ';');
    if i == |text| then [text] else [text[..i + 1]] + Pieces(text[i + 1..])
  }

  // The pieces trimmed, without the empty ones.
  function Tidy(pieces: seq<string>): seq<string> {
    if pieces == [] then [] else Kept(pieces[0]) + Tidy(pieces[1..])
  }

  function CutText(text: string): seq<string> {
    Tidy(Pieces(text))
  }

  predicate BlockFree(lines: seq<string>) {
    forall i :: 0 <= i < |lines| ==> !BlockMarker(lines[i])
  }

  lemma CutAtSemicolon(head: string, tail: string)
    requires ';' !in head
    ensures CutText(head + ";" + tail) == Kept(head + ";") + CutText(tail)
  {
    var text := head + ";" + tail;
    assert text == head + (";" + tail);
    FindSkips(head, ";" + tail, ';');
    assert text[..|head| + 1] == head + ";" && text[|head| + 1..] == tail;
    TidyCons(head + ";", Pieces(tail));
  }

  lemma TidyCons(first: string, rest: seq<string>)
    ensures Tidy([first] + rest) == Kept(first) + Tidy(rest)
  {
    assert ([first] + rest)[1..] == rest;
  }

  lemma CutNothing(text: string)
    requires ';' !in text
    ensures CutText(text) == Kept(text)
  {
    FindIs(text, ';', |text|) by { assert text[..|text|] == text; }
    assert Pieces(text) == [text] + [];
    TidyCons(text, []);
  }

  // ---------- sections with blocks ----------

  // Statement ends are where the scan always cuts, block or not: the lines since
  // the last StatementEnd are still open.
  function OpenLines(lines: seq<string>): seq<string> {
    if lines == [] || MarkerOf(lines[|lines| - 1]).EndMarker? then [] else
    OpenLines(lines[..|lines| - 1]) + [lines[|lines| - 1]]
  }

  predicate HasBegin(lines: seq<string>) {
    exists i :: 0 <= i < |lines| && MarkerOf(lines[i]).BeginMarker?
  }

  // Of lines without a StatementEnd: the text before the first StatementBegin,
  // and the protected text after it.
  function PlainText(lines: seq<string>): string {
    if lines == [] then "" else
    var front, last := lines[..|lines| - 1], lines[|lines| - 1];
    PlainText(front) + (if HasBegin(front) || MarkerOf(last).BeginMarker? then "" else last + "\n")
  }

  function ProtectedText(lines: seq<string>): string {
    if lines == [] then "" else
    var front, last := lines[..|lines| - 1], lines[|lines| - 1];
    ProtectedText(front) + (if !HasBegin(front) || MarkerOf(last).BeginMarker? then "" else last + "\n")
  }

  // The pieces of the plain text, the last one continued by the protected text.
  function CutProtected(plain: string, guarded: string): seq<string> {
    var pieces := Pieces(plain);
    Tidy(pieces[..|pieces| - 1]) + Kept(pieces[|pieces| - 1] + guarded)
  }

  // Everything up to the last StatementEnd.
  function ClosedCut(lines: seq<string>): seq<string> {
    if lines == [] then [] else
    var front := lines[..|lines| - 1];
    if MarkerOf(lines[|lines| - 1]).EndMarker? then
      ClosedCut(front) + CutProtected(PlainText(OpenLines(front)), ProtectedText(OpenLines(front)))
    else ClosedCut(front)
  }

  // A whole section, cut after every ';' outside the protected text.
  function CutSection(lines: seq<string>): seq<string> {
    ClosedCut(lines) + CutProtected(PlainText(OpenLines(lines)), ProtectedText(OpenLines(lines)))
  }

  function LastPiece(text: string): string {
    Pieces(text)[|Pieces(text)| - 1]
  }

  function EarlierPieces(text: string): seq<string> {
    Pieces(text)[..|Pieces(text)| - 1]
  }

  lemma {:induction false} TidyConcat(a: seq<string>, b: seq<string>)
    ensures Tidy(a + b) == Tidy(a) + Tidy(b)
  {
    hide Kept;
    if a == [] {
      assert a + b == b;
    } else {
      assert a + b == [a[0]] + (a[1..] + b);
      TidyCons(a[0], a[1..] + b);
      TidyConcat(a[1..], b);
    }
  }

  // Cutting at the first ';' first.
  lemma PiecesFirst(head: string, tail: string)
    requires ';' !in head
    ensures Pieces(head + ";" + tail) == [head + ";"] + Pieces(tail)
    ensures LastPiece(head + ";" + tail) == LastPiece(tail)
    ensures EarlierPieces(head + ";" + tail) == [head + ";"] + EarlierPieces(tail)
  {
    SemicolonAt(head, tail);
    var text := head + ";" + tail;
    assert Pieces(text) == [head + ";"] + Pieces(tail);
    hide Pieces;
    assert |Pieces(text)| == 1 + |Pieces(tail)|;
  }

  lemma SemicolonAt(head: string, tail: string)
    requires ';' !in head
    ensures var text := head + ";" + tail;
            Find(text, ';') == |head| < |text| && text[..|head| + 1] == head + ";" && text[|head| + 1..] == tail
  {
    assert head + ";" + tail == head + (";" + tail);
    FindSkips(head, ";" + tail, ';');
  }

  lemma OnePiece(text: string)
    requires ';' !in text
    ensures Pieces(text) == [text]
  {
    FindIs(text, ';', |text|) by { assert text[..|text|] == text; }
  }

  // A text can be cut in two steps: the last piece of the first part goes on.
  lemma {:induction false} PiecesGoOn(text: string, more: string)
    ensures ';' !in LastPiece(text)
    ensures Pieces(text + more) == EarlierPieces(text) + Pieces(LastPiece(text) + more)
    decreases |text|
  {
    var i := Find(text, ';');
    if i == |text| {
      assert text[..i] == text;
      OnePiece(text);
    } else {
      var head, after := text[..i], text[i + 1..];
      assert text == head + ";" + after && text + more == head + ";" + (after + more);
      PiecesGoOn(after, more);
      PiecesFirst(head, after);
      PiecesFirst(head, after + more);
      hide Pieces;
      ConcatAssociative([head + ";"], EarlierPieces(after), Pieces(LastPiece(after) + more));
    }
  }

  // One more ordinary line: the scan is where a cut of all the text would be.
  lemma {:induction false} CutLineIsCut(st: Scan, rest: string)
    requires ';' !in st.buf
    ensures var text := st.buf + rest + "\n";
            CutLine(st, rest) == Scan(st.statements + Tidy(EarlierPieces(text)), LastPiece(text), st.inBlock)
    decreases |rest|
  {
    hide Kept, Pieces, Tidy;
    var text := st.buf + rest + "\n";
    var i := Find(rest, ';');
    if i == |rest| {
      assert rest[..i] == rest;
      OnePiece(text);
      assert Tidy(EarlierPieces(text)) == [] by { NothingToTidy(); }
    } else {
      var head, after := st.buf + rest[..i], rest[i + 1..];
      var cut := st.(buf := head + ";");
      assert st.buf + rest[..i + 1] == head + ";";
      assert text == head + ";" + (after + "\n") by { assert rest == rest[..i] + ";" + after; }
      assert "" + after + "\n" == after + "\n";
      CutLineIsCut(Flush(cut), after);
      PiecesFirst(head, after + "\n");
      TidyCons(head + ";", EarlierPieces(after + "\n"));
      ConcatAssociative(st.statements, Kept(head + ";"), Tidy(EarlierPieces(after + "\n")));
    }
  }

  lemma NothingToTidy()
    ensures Tidy([]) == []
  {
  }

  // Where the scan is after some lines.
  ghost predicate ScannedTo(st: Scan, lines: seq<string>) {
    var open := OpenLines(lines);
    && st.inBlock == HasBegin(open)
    && st.statements == ClosedCut(lines) + Tidy(EarlierPieces(PlainText(open)))
    && st.buf == LastPiece(PlainText(open)) + ProtectedText(open)
    && (!st.inBlock ==> ProtectedText(open) == "")
  }

  lemma OpenAppend(lines: seq<string>, x: string)
    ensures OpenLines(lines + [x]) == if MarkerOf(x).EndMarker? then [] else OpenLines(lines) + [x]
    ensures ClosedCut(lines + [x]) ==
            if MarkerOf(x).EndMarker? then CutSection(lines) else ClosedCut(lines)
  {
    hide MarkerOf, CutProtected;
    assert (lines + [x])[..|lines|] == lines;
  }

  lemma TextAppend(open: seq<string>, x: string)
    ensures HasBegin(open + [x]) <==> HasBegin(open) || MarkerOf(x).BeginMarker?
    ensures PlainText(open + [x]) ==
            PlainText(open) + (if HasBegin(open) || MarkerOf(x).BeginMarker? then "" else x + "\n")
    ensures ProtectedText(open + [x]) ==
            ProtectedText(open) + (if !HasBegin(open) || MarkerOf(x).BeginMarker? then "" else x + "\n")
  {
    hide MarkerOf;
    var all := open + [x];
    assert all[..|open|] == open && all[|open|] == x;
    if HasBegin(open) {
      var i :| 0 <= i < |open| && MarkerOf(open[i]).BeginMarker?;
      assert MarkerOf(all[i]).BeginMarker?;
    }
  }

  lemma ScanNext(st: Scan, lines: seq<string>, x: string)
    requires ScannedTo(st, lines)
    ensures ScannedTo(ScanLine(st, x), lines + [x])
  {
    hide MarkerOf, Kept, Tidy, Pieces, CutLine, HasBegin, OpenLines, PlainText, ProtectedText, ClosedCut;
    var open := OpenLines(lines);
    var plain := PlainText(open);
    OpenAppend(lines, x);
    TextAppend(open, x);
    if MarkerOf(x).EndMarker? {
      FreshStart();
      ConcatAssociative(ClosedCut(lines), Tidy(EarlierPieces(plain)), Kept(LastPiece(plain) + ProtectedText(open)));
    } else if MarkerOf(x).BeginMarker? {
      assert plain + "" == plain && ProtectedText(open) + "" == ProtectedText(open);
    } else if st.inBlock {
      assert plain + "" == plain;
      assert st.buf + x + "\n" == LastPiece(plain) + (ProtectedText(open) + (x + "\n"));
    } else {
      PlainNext(st, lines, x);
    }
  }

  lemma FreshStart()
    ensures !HasBegin([]) && PlainText([]) == "" && ProtectedText([]) == ""
    ensures EarlierPieces("") == [] && LastPiece("") == "" && Tidy([]) == []
  {
  }

  lemma PlainNext(st: Scan, lines: seq<string>, x: string)
    requires ScannedTo(st, lines) && !BlockMarker(x)
    requires !st.inBlock
    ensures ScannedTo(CutLine(st, x), lines + [x])
  {
    hide MarkerOf, Kept, Tidy, Pieces, CutLine, HasBegin, OpenLines, PlainText, ProtectedText, ClosedCut;
    var open := OpenLines(lines);
    var plain, line := PlainText(open), x + "\n";
    OpenAppend(lines, x);
    TextAppend(open, x);
    assert st.buf == LastPiece(plain) by { assert LastPiece(plain) + "" == LastPiece(plain); }
    hide LastPiece, EarlierPieces;
    var text := st.buf + x + "\n";
    assert text == LastPiece(plain) + line;
    PiecesGoOn(plain, line);
    CutLineIsCut(st, x);
    TidyConcat(EarlierPieces(plain), EarlierPieces(text));
    PiecesEnd(plain, text, line);
    ConcatAssociative(ClosedCut(lines), Tidy(EarlierPieces(plain)), Tidy(EarlierPieces(text)));
    assert ProtectedText(open) + "" == ProtectedText(open) && LastPiece(plain + line) + "" == LastPiece(plain + line);
  }

  lemma PiecesEnd(plain: string, text: string, line: string)
    requires Pieces(plain + line) == EarlierPieces(plain) + Pieces(text)
    ensures EarlierPieces(plain + line) == EarlierPieces(plain) + EarlierPieces(text)
    ensures LastPiece(plain + line) == LastPiece(text)
  {
    EndOfConcat(EarlierPieces(plain), Pieces(text));
    hide Pieces;
  }

  lemma EndOfConcat<T>(a: seq<T>, b: seq<T>)
    requires b != []
    ensures (a + b)[..|a + b| - 1] == a + b[..|b| - 1] && (a + b)[|a + b| - 1] == b[|b| - 1]
  {
  }

  lemma {:induction false} ScanFollowsCut(lines: seq<string>)
    ensures ScannedTo(ScanAll(lines), lines)
  {
    if lines == [] {
      FreshStart();
    } else {
      hide *;
      var front, last := lines[..|lines| - 1], lines[|lines| - 1];
      assert lines == front + [last];
      ScanFollowsCut(front);
      ScanAppend(front, last);
      ScanNext(ScanAll(front), front, last);
    }
  }

  // Splitting any section is cutting it after every ';' outside protected text
  // and at every StatementEnd.
  lemma SplittingIsCuttingWithBlocks(section: string)
    ensures Statements(section) == CutSection(Lines(section))
  {
    hide ScanAll, Lines, Kept, Tidy, Pieces, HasBegin, OpenLines, PlainText, ProtectedText, ClosedCut;
    var lines := Lines(section);
    var open := OpenLines(lines);
    var st := ScanAll(lines);
    ScanFollowsCut(lines);
    ConcatAssociative(ClosedCut(lines), Tidy(EarlierPieces(PlainText(open))), Kept(st.buf));
  }

  lemma {:induction false} BlockFreeCut(lines: seq<string>)
    requires BlockFree(lines)
    ensures OpenLines(lines) == lines && ClosedCut(lines) == [] && !HasBegin(lines)
    ensures PlainText(lines) == Unlines(lines) && ProtectedText(lines) == ""
  {
    if lines != [] {
      hide *;
      var front, last := lines[..|lines| - 1], lines[|lines| - 1];
      assert lines == front + [last];
      BlockFreeAppend(front, last);
      BlockFreeCut(front);
      OpenAppend(front, last);
      TextAppend(front, last);
      UnlinesAppend(front, last);
    }
  }

  lemma CutWithoutProtection(plain: string)
    ensures CutProtected(plain, "") == CutText(plain)
  {
    hide Kept, Tidy, Pieces;
    var pieces := Pieces(plain);
    var last := pieces[|pieces| - 1];
    assert last + "" == last && pieces == pieces[..|pieces| - 1] + [last];
    TidyConcat(pieces[..|pieces| - 1], [last]);
    TidyCons(last, []);
    assert [last] + [] == [last];
    NothingToTidy();
  }

  // Splitting a section without blocks is cutting its text.
  lemma SplittingIsCutting(section: string)
    requires BlockFree(Lines(section))
    ensures Statements(section) == CutText(Unlines(Lines(section)))
  {
    hide CutText, CutProtected, Statements, Lines, Unlines, OpenLines, PlainText, ProtectedText, ClosedCut, BlockFree;
    SplittingIsCuttingWithBlocks(section);
    BlockFreeCut(Lines(section));
    CutWithoutProtection(Unlines(Lines(section)));
  }

  // ---------- when a block is a statement of its own ----------

  lemma BlankFront(blank: string, text: string)
    requires Trim(blank) == ""
    ensures Trim(blank + text) == Trim(text)
  {
    BlankIsSpace(blank);
    TrimLeftSpaces(blank, text);
  }

  lemma {:induction false} TrimLeftSpaces(blank: string, text: string)
    requires forall c :: c in blank ==> IsSpace(c)
    ensures TrimLeft(blank + text) == TrimLeft(text)
  {
    if blank == "" {
      assert blank + text == text;
    } else {
      assert (blank + text)[1..] == blank[1..] + text;
      TrimLeftSpaces(blank[1..], text);
    }
  }

  lemma BlankIsSpace(s: string)
    ensures Trim(s) == "" <==> Without(s, SPACES) == ""
    ensures Trim(s) == "" ==> forall c :: c in s ==> IsSpace(c)
  {
    TrimKeeps(s, SPACES);
    TrimTrims(s);
    hide Trim;
    var t := Trim(s);
    if t != "" { assert t[0] in t && t[0] in Without(t, SPACES); }
  }

  lemma KeptOnItsOwn(carry: string, body: string)
    ensures Kept(carry + body) == Kept(body) <==> Trim(carry) == ""
  {
    BlankIsSpace(carry);
    if Trim(carry) == "" {
      BlankFront(carry, body);
    } else {
      TrimKeeps(carry + body, SPACES);
      TrimKeeps(body, SPACES);
      WithoutConcat(carry, body, SPACES);
      hide Trim, Without;
      assert |Without(carry, SPACES)| > 0;
    }
  }

  // The text since the last cut, when a block begins.
  function CarryOver(before: seq<string>): string {
    LastPiece(PlainText(OpenLines(before)))
  }

  // A block after any lines outside blocks: its text joins whatever has not been
  // cut off yet, and is a statement of its own exactly when that is blank.
  lemma BlockStandsAlone(before: seq<string>, begin: string, body: seq<string>, end: string)
    requires !HasBegin(OpenLines(before)) && BlockFree(body)
    requires MarkerOf(begin).BeginMarker? && MarkerOf(end).EndMarker?
    ensures ClosedCut(before + [begin] + body + [end])
            == ClosedCut(before) + Tidy(EarlierPieces(PlainText(OpenLines(before))))
               + Kept(CarryOver(before) + Unlines(body))
    ensures Kept(CarryOver(before) + Unlines(body)) == Kept(Unlines(body)) <==> Trim(CarryOver(before)) == ""
  {
    hide MarkerOf, Kept, Tidy, Pieces, HasBegin, OpenLines, PlainText, ProtectedText, ClosedCut, Unlines, BlockFree,
      Trim;
    KeptOnItsOwn(CarryOver(before), Unlines(body));
    OpenAppend(before, begin);
    TextAppend(OpenLines(before), begin);
    NothingProtected(OpenLines(before));
    BlockBody(before + [begin], body);
    OpenAppend(before + [begin] + body, end);
    assert PlainText(OpenLines(before)) + "" == PlainText(OpenLines(before)) && "" + Unlines(body) == Unlines(body);
    ConcatAssociative(ClosedCut(before), Tidy(EarlierPieces(PlainText(OpenLines(before)))),
                      Kept(CarryOver(before) + Unlines(body)));
  }

  lemma {:induction false} NothingProtected(open: seq<string>)
    requires !HasBegin(open)
    ensures ProtectedText(open) == ""
  {
    if open != [] {
      var front, last := open[..|open| - 1], open[|open| - 1];
      assert open == front + [last];
      TextAppend(front, last);
      NothingProtected(front);
    }
  }

  lemma {:induction false} BlockBody(before: seq<string>, body: seq<string>)
    requires HasBegin(OpenLines(before)) && BlockFree(body)
    ensures var open, open' := OpenLines(before), OpenLines(before + body);
            && ClosedCut(before + body) == ClosedCut(before) && HasBegin(open')
            && PlainText(open') == PlainText(open) && ProtectedText(open') == ProtectedText(open) + Unlines(body)
  {
    hide *;
    if body == [] {
      assert before + body == before;
      NoText();
      assert ProtectedText(OpenLines(before)) + "" == ProtectedText(OpenLines(before));
    } else {
      var front, last := body[..|body| - 1], body[|body| - 1];
      var open, plain, guarded := OpenLines(before), PlainText(OpenLines(before)), ProtectedText(OpenLines(before));
      assert body == front + [last];
      BlockFreeAppend(front, last);
      BlockBody(before, front);
      ConcatAssociative(before, front, [last]);
      OpenAppend(before + front, last);
      TextAppend(OpenLines(before + front), last);
      UnlinesAppend(front, last);
      ConcatAssociative(guarded, Unlines(front), last + "\n");
      assert plain + "" == plain;
    }
  }

  lemma NoText()
    ensures Unlines([]) == ""
  {
  }

  lemma BlockFreeAppend(front: seq<string>, last: string)
    requires BlockFree(front + [last])
    ensures BlockFree(front) && !MarkerOf(last).BeginMarker? && !MarkerOf(last).EndMarker?
  {
    hide MarkerOf;
    var all := front + [last];
    assert all[|front|] == last && forall i :: 0 <= i < |front| ==> front[i] == all[i];
    assert !BlockMarker(last);
  }

  lemma UnfinishedLine(x: string)
    requires BlockFree([x]) && ';' !in x
    ensures !HasBegin(OpenLines([x])) && ClosedCut([x]) == []
    ensures Tidy(EarlierPieces(PlainText(OpenLines([x])))) == [] && CarryOver([x]) == x + "\n"
  {
    hide *;
    BlockFreeCut([x]);
    UnlinesOne(x);
    NothingCut(x + "\n");
    NothingToTidy();
    CarryIs([x]);
  }

  lemma NothingCut(text: string)
    requires ';' !in text
    ensures EarlierPieces(text) == [] && LastPiece(text) == text
  {
    OnePiece(text);
    hide Pieces;
  }

  lemma CarryIs(before: seq<string>)
    ensures CarryOver(before) == LastPiece(PlainText(OpenLines(before)))
  {
    hide LastPiece, PlainText, OpenLines;
  }

  lemma KeptBoth()
    ensures Kept("a\n" + "b;\n") == ["a\nb;"]
  {
    TrimIgnoresSpace("a\nb;", '\n');
    TrimTrims("a\nb;");
    assert "a\n" + "b;\n" == "a\nb;" + ['\n'];
    hide Trim;
  }

  lemma OrdinaryLines()
    ensures BlockFree(["a"]) && BlockFree(["b;"])
  {
    TrimTrims("a");
    TrimTrims("b;");
    hide Trim;
    assert |ToLower("a")| == 1 && |ToLower("b;")| == 2;
    hide ToLower;
    assert !BlockMarker("a") && !BlockMarker("b;");
  }

  // A newline at the end makes no difference.
  lemma {:induction false} CutIgnoresLastNewline(text: string)
    ensures CutText(text + "\n") == CutText(text)
    decreases |text|
  {
    var i := Find(text, ';');
    hide *;
    if i == |text| {
      assert text[..i] == text;
      CutNothing(text);
      CutNothing(text + "\n");
      KeptIgnoresNewline(text);
    } else {
      var head, after := text[..i], text[i + 1..];
      CutIgnoresLastNewline(after);
      CutAtSemicolon(head, after);
      CutAtSemicolon(head, after + "\n");
      assert text == head + ";" + after && text + "\n" == head + ";" + (after + "\n");
    }
  }

  lemma KeptIgnoresNewline(text: string)
    ensures Kept(text + "\n") == Kept(text)
  {
    TrimIgnoresSpace(text, '\n');
    hide Trim;
  }

  // With Unix line ends, not even the line structure matters.
  lemma SplittingIsCuttingTheSection(section: string)
    requires BlockFree(Lines(section)) && '\r' !in section
    ensures Statements(section) == CutText(section)
  {
    hide CutText, Statements, Lines, Unlines, BlockFree;
    SplittingIsCutting(section);
    UnlinesOfLines(section);
    CutIgnoresLastNewline(section);
  }

  // At most one ';' in a statement, at its end, and at the end of every
  // statement but the last.
  ghost predicate CutShape(statements: seq<string>) {
    forall i :: 0 <= i < |statements| ==>
      statements[i] != "" && ';' !in statements[i][..|statements[i]| - 1]
      && (i < |statements| - 1 ==> statements[i][|statements[i]| - 1] == ';')
  }

  lemma TrimKeepsLastSemicolon(head: string)
    requires ';' !in head
    ensures Trim(head + ";") != "" && Trim(head + ";")[|Trim(head + ";")| - 1] == ';'
    ensures ';' !in Trim(head + ";")[..|Trim(head + ";")| - 1]
  {
    TrimLeftAppend(head, ';');
    assert TrimLeft(head + ";") == TrimLeft(head) + ";";
    assert Trim(head + ";") == TrimLeft(head) + ";";
    TrimLeftKeepsOut(head, ';');
    assert (TrimLeft(head) + ";")[..|TrimLeft(head)|] == TrimLeft(head);
  }

  lemma {:induction false} TrimLeftKeepsOut(s: string, c: char)
    requires c !in s
    ensures c !in TrimLeft(s)
  {
    if s != "" && IsSpace(s[0]) { TrimLeftKeepsOut(s[1..], c); }
  }

  lemma {:induction false} CuttingHasCutShape(text: string)
    ensures CutShape(CutText(text))
    decreases |text|
  {
    hide Trim, CutText;
    var i := Find(text, ';');
    if i == |text| {
      assert text[..i] == text;
      CutNothing(text);
      TrimLeftKeepsOut(text, ';');
      TrimOnlyDrops(text, ';');
    } else {
      var head, after := text[..i], text[i + 1..];
      assert text == head + ";" + after;
      CutAtSemicolon(head, after);
      CuttingHasCutShape(after);
      TrimKeepsLastSemicolon(head);
      var first, rest := Trim(head + ";"), CutText(after);
      assert Kept(head + ";") == [first];
      forall j | 0 <= j < |CutText(text)|
        ensures var s := CutText(text)[j];
                s != "" && ';' !in s[..|s| - 1] && (j < |rest| ==> s[|s| - 1] == ';')
      {
        if j > 0 { assert CutText(text)[j] == rest[j - 1]; }
      }
    }
  }

  lemma TrimOnlyDrops(s: string, c: char)
    requires c !in s
    ensures c !in Trim(s)
  {
    TrimLeftKeepsOut(s, c);
    TrimRightEnd(TrimLeft(s));
  }

  lemma SplittingHasCutShape(section: string)
    requires BlockFree(Lines(section))
    ensures CutShape(Statements(section))
  {
    SplittingIsCutting(section);
    CuttingHasCutShape(Unlines(Lines(section)));
  }

  // A StatementEnd ends the statement before it, inside a block or not, and what
  // follows is cut as if it stood alone.
  lemma {:induction false} EndSplitsSection(before: seq<string>, end: string, after: seq<string>)
    requires MarkerOf(end).EndMarker?
    ensures CutSection(before + [end] + after) == CutSection(before) + CutSection(after)
  {
    hide *;
    SplitAtEnd(before, end, after);
    CutSectionIs(before + [end] + after);
    CutSectionIs(after);
    ConcatAssociative(CutSection(before), ClosedCut(after), CutProtected(PlainText(OpenLines(after)),
                                                                         ProtectedText(OpenLines(after))));
  }

  lemma CutSectionIs(lines: seq<string>)
    ensures CutSection(lines)
            == ClosedCut(lines) + CutProtected(PlainText(OpenLines(lines)), ProtectedText(OpenLines(lines)))
  {
    hide ClosedCut, CutProtected, PlainText, ProtectedText, OpenLines;
  }

  lemma {:induction false} SplitAtEnd(before: seq<string>, end: string, after: seq<string>)
    requires MarkerOf(end).EndMarker?
    ensures OpenLines(before + [end] + after) == OpenLines(after)
    ensures ClosedCut(before + [end] + after) == CutSection(before) + ClosedCut(after)
    decreases |after|
  {
    hide *;
    if after == [] {
      assert before + [end] + after == before + [end];
      OpenAppend(before, end);
      NothingOpen();
      assert CutSection(before) + [] == CutSection(before);
    } else {
      var front, last := after[..|after| - 1], after[|after| - 1];
      assert after == front + [last];
      assert before + [end] + after == (before + [end] + front) + [last];
      SplitAtEnd(before, end, front);
      OpenAppend(before + [end] + front, last);
      OpenAppend(front, last);
      CutSectionIs(before + [end] + front);
      CutSectionIs(front);
      ConcatAssociative(CutSection(before), ClosedCut(front), CutProtected(PlainText(OpenLines(front)),
                                                                           ProtectedText(OpenLines(front))));
    }
  }

  lemma NothingOpen()
    ensures OpenLines([]) == [] && ClosedCut([]) == []
  {
  }

  // A block that never ends is closed by the end of the section.
  lemma UnfinishedBlock(before: seq<string>, begin: string, body: seq<string>)
    requires !HasBegin(OpenLines(before)) && BlockFree(body) && MarkerOf(begin).BeginMarker?
    ensures CutSection(before + [begin] + body)
            == ClosedCut(before) + (Tidy(EarlierPieces(PlainText(OpenLines(before))))
                                    + Kept(CarryOver(before) + Unlines(body)))
  {
    hide MarkerOf, Kept, Tidy, Pieces, HasBegin, OpenLines, PlainText, ProtectedText, ClosedCut, Unlines, BlockFree;
    OpenAppend(before, begin);
    TextAppend(OpenLines(before), begin);
    NothingProtected(OpenLines(before));
    BlockBody(before + [begin], body);
    assert PlainText(OpenLines(before)) + "" == PlainText(OpenLines(before)) && "" + Unlines(body) == Unlines(body);
  }
}
