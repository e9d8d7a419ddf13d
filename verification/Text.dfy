// The parts of Go's strings and bufio packages the migration parser leans on,
// for ASCII text.
module Texts {
  import opened Seqs

  const SPACES: set<char> := {' ', '\t', '\n', '\r', '\U{0B}', '\U{0C}'}

  predicate IsSpace(c: char) {
    c in SPACES
  }

  // strings.TrimSpace
  function Trim(s: string): string {
    TrimRight(TrimLeft(s))
  }

  function TrimLeft(s: string): string {
    if s != "" && IsSpace(s[0]) then TrimLeft(s[1..]) else s
  }

  function TrimRight(s: string): string {
    if s != "" && IsSpace(s[|s| - 1]) then TrimRight(s[..|s| - 1]) else s
  }

  function LowerChar(c: char): char {
    if 'A' <= c <= 'Z' then c - 'A' + 'a' else c
  }

  function ToLower(s: string): string {
    seq(|s|, i requires 0 <= i < |s| => LowerChar(s[i]))
  }

  // strings.Index for one byte, with |s| where Go answers -1.
  function Find(s: string, c: char): (i: nat)
    ensures i <= |s| && c !in s[..i]
    ensures i < |s| ==> s[i] == c
  {
    if s == "" || s[0] == c then 0 else
    var i := Find(s[1..], c);
    assert s[..i + 1] == [s[0]] + s[1..][..i];
    i + 1
  }

  function DropCR(line: string): string {
    if line != "" && line[|line| - 1] == '\r' then line[..|line| - 1] else line
  }

  // What a bufio.Scanner in line mode yields, one line after the other.
  function Lines(s: string): seq<string>
    decreases |s|
  {
    if s == "" then [] else
    var i := Find(s, '\n');
    [DropCR(s[..i])] + (if i == |s| then [] else Lines(s[i + 1..]))
  }

  // Every line followed by a newline.
  function Unlines(lines: seq<string>): string {
    if lines == [] then "" else Unlines(lines[..|lines| - 1]) + lines[|lines| - 1] + "\n"
  }

  // The lines of a text, carriage returns included.
  function SplitLines(s: string): seq<string>
    decreases |s|
  {
    var i := Find(s, '\n');
    if i == |s| then [s] else [s[..i]] + SplitLines(s[i + 1..])
  }

  function DropAll(lines: seq<string>): seq<string> {
    seq(|lines|, i requires 0 <= i < |lines| => DropCR(lines[i]))
  }

  predicate OneLine(s: string) {
    '\n' !in s
  }

  predicate AllOneLine(lines: seq<string>) {
    forall i :: 0 <= i < |lines| ==> OneLine(lines[i])
  }

  // ---------- searching ----------

  // Find answers the only position of that kind.
  lemma FindIs(s: string, c: char, i: nat)
    requires i <= |s| && c !in s[..i] && (i < |s| ==> s[i] == c)
    ensures Find(s, c) == i
  {
    var j := Find(s, c);
    if i < j { NotBefore(s, c, j, i); }
    if j < i { NotBefore(s, c, i, j); }
  }

  lemma NotBefore(s: string, c: char, end: nat, i: nat)
    requires i < end <= |s| && c !in s[..end]
    ensures s[i] != c
  {
    assert s[..end][i] == s[i];
  }

  lemma FindSkips(a: string, b: string, c: char)
    requires c !in a
    ensures Find(a + b, c) == |a| + Find(b, c)
  {
    var i := Find(b, c);
    assert (a + b)[..|a| + i] == a + b[..i];
    FindIs(a + b, c, |a| + i);
  }

  // ---------- trimming ----------

  predicate Trimmed(s: string) {
    s != "" ==> !IsSpace(s[0]) && !IsSpace(s[|s| - 1])
  }

  lemma {:induction false} TrimLeftStart(s: string)
    ensures TrimLeft(s) != "" ==> !IsSpace(TrimLeft(s)[0])
  {
    if s != "" && IsSpace(s[0]) { TrimLeftStart(s[1..]); }
  }

  lemma {:induction false} TrimRightEnd(s: string)
    ensures TrimRight(s) <= s
    ensures TrimRight(s) != "" ==> !IsSpace(TrimRight(s)[|TrimRight(s)| - 1])
  {
    if s != "" && IsSpace(s[|s| - 1]) { TrimRightEnd(s[..|s| - 1]); }
  }

  // Trim yields trimmed text and leaves trimmed text alone.
  lemma TrimTrims(s: string)
    ensures Trimmed(Trim(s))
    ensures Trimmed(s) ==> Trim(s) == s
  {
    TrimLeftStart(s);
    TrimRightEnd(TrimLeft(s));
  }

  lemma {:induction false} TrimLeftAppend(s: string, c: char)
    ensures TrimLeft(s + [c]) == if TrimLeft(s) == "" && IsSpace(c) then "" else TrimLeft(s) + [c]
  {
    if s == "" {
      assert s + [c] == [c] && [c][1..] == "";
    } else if IsSpace(s[0]) {
      TrimLeftAppend(s[1..], c);
      assert (s + [c])[1..] == s[1..] + [c];
    }
  }

  // A space at the end of a text makes no difference to Trim.
  lemma TrimIgnoresSpace(s: string, c: char)
    requires IsSpace(c)
    ensures Trim(s + [c]) == Trim(s)
  {
    TrimLeftAppend(s, c);
    var t := TrimLeft(s);
    if t != "" { assert (t + [c])[..|t|] == t; }
  }

  lemma TrimIgnoresCR(line: string)
    ensures Trim(DropCR(line)) == Trim(line)
  {
    if DropCR(line) != line {
      assert line == DropCR(line) + ['\r'];
      TrimIgnoresSpace(DropCR(line), '\r');
    }
  }

  // Trimming removes nothing but spaces.
  lemma TrimKeeps(s: string, drop: set<char>)
    ensures SPACES <= drop ==> Without(Trim(s), drop) == Without(s, drop)
    ensures |Without(Trim(s), drop)| <= |Without(s, drop)|
  {
    TrimLeftKeeps(s, drop);
    TrimRightKeeps(TrimLeft(s), drop);
  }

  lemma {:induction false} TrimLeftKeeps(s: string, drop: set<char>)
    ensures SPACES <= drop ==> Without(TrimLeft(s), drop) == Without(s, drop)
    ensures |Without(TrimLeft(s), drop)| <= |Without(s, drop)|
  {
    if s != "" && IsSpace(s[0]) {
      TrimLeftKeeps(s[1..], drop);
      assert s == [s[0]] + s[1..];
      WithoutConcat([s[0]], s[1..], drop);
    }
  }

  lemma {:induction false} TrimRightKeeps(s: string, drop: set<char>)
    ensures SPACES <= drop ==> Without(TrimRight(s), drop) == Without(s, drop)
    ensures |Without(TrimRight(s), drop)| <= |Without(s, drop)|
  {
    if s != "" && IsSpace(s[|s| - 1]) { TrimRightKeeps(s[..|s| - 1], drop); }
  }

  // ---------- lines ----------

  lemma UnlinesOne(line: string)
    ensures Unlines([line]) == line + "\n"
  {
    assert [line][..0] == [];
  }

  lemma UnlinesAppend(front: seq<string>, last: string)
    ensures Unlines(front + [last]) == Unlines(front) + (last + "\n")
  {
    assert (front + [last])[..|front|] == front;
    assert Unlines(front) + (last + "\n") == Unlines(front) + last + "\n";
  }

  lemma {:induction false} UnlinesConcat(a: seq<string>, b: seq<string>)
    ensures Unlines(a + b) == Unlines(a) + Unlines(b)
  {
    if b == [] {
      assert a + b == a;
    } else {
      hide *;
      var front, last := b[..|b| - 1], b[|b| - 1];
      assert b == front + [last];
      UnlinesConcat(a, front);
      ConcatAssociative(a, front, [last]);
      UnlinesAppend(a + front, last);
      UnlinesAppend(front, last);
      ConcatAssociative(Unlines(a), Unlines(front), last + "\n");
    }
  }

  lemma UnlinesCons(first: string, rest: seq<string>)
    ensures Unlines([first] + rest) == first + "\n" + Unlines(rest)
  {
    UnlinesConcat([first], rest);
    assert Unlines([first]) == first + "\n" by { assert [first][..0] == []; }
  }

  lemma DropAllCons(first: string, rest: seq<string>)
    ensures DropAll([first] + rest) == [DropCR(first)] + DropAll(rest)
  {
  }

  lemma DropAllAppend(lines: seq<string>, last: string)
    ensures DropAll(lines + [last]) == DropAll(lines) + [DropCR(last)]
  {
  }

  lemma LinesCons(first: string, rest: string)
    requires OneLine(first)
    ensures Lines(first + "\n" + rest) == [DropCR(first)] + Lines(rest)
  {
    var s := first + "\n" + rest;
    assert s == first + ("\n" + rest);
    FindSkips(first, "\n" + rest, '\n');
    assert s[..|first|] == first && s[|first| + 1..] == rest;
  }

  // Scanning what was written line by line yields the lines, each without one
  // trailing carriage return.
  lemma {:induction false} LinesOfUnlines(lines: seq<string>)
    requires AllOneLine(lines)
    ensures Lines(Unlines(lines)) == DropAll(lines)
  {
    if lines != [] {
      var first, rest := lines[0], lines[1..];
      assert lines == [first] + rest && OneLine(first);
      assert AllOneLine(rest);
      LinesOfUnlines(rest);
      hide *;
      UnlinesCons(first, rest);
      LinesCons(first, Unlines(rest));
      DropAllCons(first, rest);
    }
  }

  // A text is its first line, and what follows if there is a newline.
  lemma {:induction false} FirstLine(s: string, i: nat)
    requires i == Find(s, '\n')
    ensures OneLine(s[..i])
    ensures i < |s| ==> s == s[..i] + "\n" + s[i + 1..]
    ensures i == |s| ==> s == s[..i]
  {
  }

  lemma {:induction false} LinesAreOneLine(s: string)
    ensures AllOneLine(Lines(s))
    decreases |s|
  {
    if s != "" {
      var i := Find(s, '\n');
      assert OneLine(DropCR(s[..i]));
      if i < |s| { LinesAreOneLine(s[i + 1..]); }
    }
  }

  // Without carriage returns, scanning loses at most a missing last newline.
  lemma {:induction false} UnlinesOfLines(s: string)
    requires '\r' !in s
    ensures Unlines(Lines(s)) == s || Unlines(Lines(s)) == s + "\n"
    decreases |s|
  {
    if s != "" {
      var i := Find(s, '\n');
      FirstLine(s, i);
      assert DropCR(s[..i]) == s[..i];
      if i < |s| {
        UnlinesOfLines(s[i + 1..]);
        assert Lines(s) == [s[..i]] + Lines(s[i + 1..]);
        hide Unlines, Lines, Find;
        UnlinesCons(s[..i], Lines(s[i + 1..]));
      } else {
        assert Lines(s) == [s[..i]] + [];
        UnlinesCons(s[..i], []);
      }
    }
  }

  lemma {:induction false} UnlinesOfSplit(s: string)
    ensures Unlines(SplitLines(s)) == s + "\n" && AllOneLine(SplitLines(s))
    decreases |s|
  {
    var i := Find(s, '\n');
    FirstLine(s, i);
    if i < |s| {
      UnlinesOfSplit(s[i + 1..]);
      assert SplitLines(s) == [s[..i]] + SplitLines(s[i + 1..]);
      hide Unlines, SplitLines, Find;
      UnlinesCons(s[..i], SplitLines(s[i + 1..]));
    } else {
      assert SplitLines(s) == [s] + [];
      UnlinesCons(s, []);
    }
  }

  // Exactly the six ASCII space characters are trimmed.
  lemma SpaceCharacters(c: char)
    ensures Trim([c]) == "" <==> c as int in {9, 10, 11, 12, 13, 32}
  {
    SpaceCodes(c);
    hide IsSpace;
    assert [c][1..] == "" && TrimLeft("") == "" && TrimRight("") == "";
    assert TrimLeft([c]) == if IsSpace(c) then "" else [c];
    assert TrimRight([c]) == if IsSpace(c) then TrimRight([c][..0]) else [c];
  }

  lemma SpaceCodes(c: char)
    ensures IsSpace(c) <==> c as int in {9, 10, 11, 12, 13, 32}
  {
    assert '\t' as int == 9 && '\n' as int == 10 && '\U{0B}' as int == 11 && '\U{0C}' as int == 12;
    assert '\r' as int == 13 && ' ' as int == 32;
  }

  // A scanned line has lost one carriage return at its end, if it had one.
  lemma DropCRMeaning(line: string)
    ensures DropCR(line + "\r") == line
    ensures line == "" || line[|line| - 1] != '\r' ==> DropCR(line) == line
  {
  }
}
