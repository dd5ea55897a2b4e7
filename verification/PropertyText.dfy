/** White space, trimming and line splitting, as the property loader uses them. */
module PropertyText {
  import opened Sequences

  /** unicode.IsSpace. */
  predicate IsSpace(c: char) {
    || '\t' <= c <= '\r'
    || c == ' '
    || c == '\U{85}' || c == '\U{A0}' || c == '\U{1680}'
    || '\U{2000}' <= c <= '\U{200A}'
    || c == '\U{2028}' || c == '\U{2029}' || c == '\U{202F}' || c == '\U{205F}' || c == '\U{3000}'
  }

  /** The white space in numbers; below 128 it is the five controls from tab to carriage return and the blank. */
  lemma SpacesAre(c: char)
    ensures var n := c as int;
            IsSpace(c) <==> 9 <= n <= 13 || 0x2000 <= n <= 0x200A
                            || n in {32, 0x85, 0xA0, 0x1680, 0x2028, 0x2029, 0x202F, 0x205F, 0x3000}
  {
  }

  function TrimLeft(s: string): string {
    if s != [] && IsSpace(s[0]) then TrimLeft(s[1..]) else s
  }

  function TrimRight(s: string): string {
    if s != [] && IsSpace(s[|s| - 1]) then TrimRight(s[..|s| - 1]) else s
  }

  /** strings.TrimSpace. */
  function Trim(s: string): string {
    TrimRight(TrimLeft(s))
  }

  predicate Trimmed(s: string) {
    s == [] || (!IsSpace(s[0]) && !IsSpace(s[|s| - 1]))
  }

  predicate AllSpace(s: string) {
    forall i :: 0 <= i < |s| ==> IsSpace(s[i])
  }

  lemma {:induction false} TrimLeftCuts(s: string)
    ensures var l := TrimLeft(s); |l| <= |s| && l == s[|s| - |l|..] && (l == [] || !IsSpace(l[0]))
    ensures AllSpace(s[..|s| - |TrimLeft(s)|])
  {
    if s != [] && IsSpace(s[0]) {
      TrimLeftCuts(s[1..]);
      var n := |s| - |TrimLeft(s)|;
      assert s[..n] == [s[0]] + s[1..][..n - 1];
    }
  }

  lemma TrimLeftStarts(s: string)
    requires !AllSpace(s)
    ensures TrimLeft(s) != [] && !IsSpace(TrimLeft(s)[0])
  {
    TrimLeftCuts(s);
    assert s[..|s|] == s;
  }

  lemma {:induction false} TrimRightCuts(s: string)
    ensures var r := TrimRight(s); r <= s && (r == [] || !IsSpace(r[|r| - 1]))
    ensures AllSpace(s[|TrimRight(s)|..])
    ensures s != [] && !IsSpace(s[0]) ==> TrimRight(s) != []
  {
    if s != [] && IsSpace(s[|s| - 1]) {
      TrimRightCuts(s[..|s| - 1]);
      var n := |TrimRight(s)|;
      assert s[n..] == s[..|s| - 1][n..] + [s[|s| - 1]];
    }
  }

  lemma TrimEnds(s: string)
    ensures Trimmed(Trim(s))
    ensures forall c :: c in Trim(s) ==> c in s
  {
    var l := TrimLeft(s);
    TrimLeftCuts(s);
    TrimRightCuts(l);
    var r := TrimRight(l);
    assert r != [] ==> r[0] == l[0];
    assert forall c :: c in r ==> c in l;
    assert forall c :: c in l ==> c in s;
  }

  /** Trimming cuts white space off both ends, and leaves no more of it there. */
  lemma TrimTrims(s: string)
    ensures Trimmed(Trim(s))
    ensures exists i, j :: 0 <= i <= j <= |s| && Trim(s) == s[i..j] && AllSpace(s[..i]) && AllSpace(s[j..])
  {
    TrimEnds(s);
    var l := TrimLeft(s);
    TrimLeftCuts(s);
    TrimRightCuts(l);
    var i := |s| - |l|;
    var j := i + |TrimRight(l)|;
    assert s[i..j] == TrimRight(l) && s[j..] == l[|TrimRight(l)|..];
  }

  /** Trimming loses no character but white space. */
  lemma TrimKeepsOthers(s: string, c: char)
    requires c in s && !IsSpace(c)
    ensures c in Trim(s)
  {
    var l := TrimLeft(s);
    TrimLeftCuts(s);
    TrimRightCuts(l);
    OnlyBehind(s[..|s| - |l|], l, c);
    OnlyInFront(TrimRight(l), l[|TrimRight(l)|..], c);
    assert s == s[..|s| - |l|] + l && l == TrimRight(l) + l[|TrimRight(l)|..];
  }

  lemma OnlyBehind(space: string, s: string, c: char)
    requires AllSpace(space) && !IsSpace(c)
    ensures c in space + s <==> c in s
  {
    assert c !in space;
  }

  lemma OnlyInFront(s: string, space: string, c: char)
    requires AllSpace(space) && !IsSpace(c)
    ensures c in s + space <==> c in s
  {
    assert c !in space;
  }

  /** White space in front is trimmed away; behind anything else a text is kept. */
  lemma {:induction false} TrimLeftAppend(s: string, t: string)
    ensures TrimLeft(s + t) == if AllSpace(s) then TrimLeft(t) else TrimLeft(s) + t
  {
    if s == [] {
      assert s + t == t;
    } else {
      assert (s + t)[0] == s[0] && (s + t)[1..] == s[1..] + t;
      if IsSpace(s[0]) {
        TrimLeftAppend(s[1..], t);
        assert AllSpace(s) <==> AllSpace(s[1..]) by {
          assert forall i :: 0 < i < |s| ==> s[i] == s[1..][i - 1];
        }
      }
    }
  }

  /** A carriage return at the end is white space, so dropping it before trimming changes nothing. */
  lemma TrimDropsCR(s: string)
    ensures Trim(DropCR(s)) == Trim(s)
  {
    if s != [] && s[|s| - 1] == '\r' {
      var front := s[..|s| - 1];
      assert s == front + ['\r'];
      TrimLeftAppend(front, ['\r']);
      if AllSpace(front) {
        TrimLeftAppend(front, []);
        assert front + [] == front && TrimLeft(['\r']) == [];
      } else {
        assert (TrimLeft(front) + ['\r'])[..|TrimLeft(front)|] == TrimLeft(front);
      }
    }
  }

  /** A trimmed text is left alone. */
  lemma TrimKeeps(s: string)
    requires Trimmed(s)
    ensures Trim(s) == s
  {
  }

  /** A text that does not begin with white space keeps its beginning. */
  lemma TrimKeepsStart(s: string)
    requires s != [] && !IsSpace(s[0])
    ensures Trim(s) != [] && Trim(s) <= s
  {
    TrimRightCuts(s);
  }

  // ---- Lines -------------------------------------------------------------------------------------

  /** The position of the first c, or -1. */
  function IndexOf(s: string, c: char): (i: int)
    ensures -1 <= i < |s|
    ensures i == -1 <==> c !in s
  {
    if s == [] then -1
    else if s[0] == c then 0
    else
      var j := IndexOf(s[1..], c);
      if j == -1 then -1 else j + 1
  }

  lemma {:induction false} IndexIsFirst(s: string, c: char)
    requires c in s
    ensures var i := IndexOf(s, c); s[i] == c && c !in s[..i]
  {
    if s[0] != c {
      IndexIsFirst(s[1..], c);
      var j := IndexOf(s[1..], c);
      assert s[..j + 1] == [s[0]] + s[1..][..j];
    }
  }

  lemma {:induction false} FirstAt(s: string, c: char, i: nat)
    requires i < |s| && s[i] == c && c !in s[..i]
    ensures IndexOf(s, c) == i
  {
    if i > 0 {
      assert s[..i][0] == s[0];
      assert s[1..][..i - 1] == s[..i][1..];
      FirstAt(s[1..], c, i - 1);
    }
  }

  function DropCR(line: string): string {
    if line != [] && line[|line| - 1] == '\r' then line[..|line| - 1] else line
  }

  /** bufio.ScanLines: the lines of a text, without their ends. */
  function ScanLines(text: string): seq<string>
    decreases |text|
  {
    if text == [] then []
    else
      var i := IndexOf(text, '\n');
      if i == -1 then [DropCR(text)] else [DropCR(text[..i])] + ScanLines(text[i + 1..])
  }

  predicate NoNewlines(lines: seq<string>) {
    forall i :: 0 <= i < |lines| ==> '\n' !in lines[i]
  }

  lemma {:induction false} ScannedLinesHaveNoNewline(text: string)
    ensures NoNewlines(ScanLines(text))
    decreases |text|
  {
    var i := IndexOf(text, '\n');
    if i != -1 {
      IndexIsFirst(text, '\n');
      ScannedLinesHaveNoNewline(text[i + 1..]);
    }
  }

  /** The text made of lines, each ended by a newline. */
  function Unlines(lines: seq<string>): string {
    if lines == [] then [] else lines[0] + ['\n'] + Unlines(lines[1..])
  }

  predicate PlainLine(line: string) {
    '\n' !in line && (line == [] || line[|line| - 1] != '\r')
  }

  /** Splitting undoes joining. */
  lemma {:induction false} ScanUnlines(lines: seq<string>)
    requires forall i :: 0 <= i < |lines| ==> PlainLine(lines[i])
    ensures ScanLines(Unlines(lines)) == lines
  {
    if lines != [] {
      var line, rest := lines[0], Unlines(lines[1..]);
      var text := line + ['\n'] + rest;
      ScanUnlines(lines[1..]);
      assert text[..|line|] == line && text[|line| + 1..] == rest;
      FirstAt(text, '\n', |line|);
    }
  }

  // ---- Two texts together -----------------------------------------------------------------------------

  /** The unfinished line at the end of a text. */
  function LastLine(text: string): string {
    if text == [] || text[|text| - 1] == '\n' then [] else LastLine(text[..|text| - 1]) + [text[|text| - 1]]
  }

  /** The finished lines of a text. */
  function Finished(text: string): string {
    if text == [] || text[|text| - 1] == '\n' then text else Finished(text[..|text| - 1])
  }

  predicate Ended(text: string) {
    text == [] || text[|text| - 1] == '\n'
  }

  lemma {:induction false} LastLineIsLast(text: string)
    ensures text == Finished(text) + LastLine(text) && Ended(Finished(text)) && '\n' !in LastLine(text)
  {
    if text != [] && text[|text| - 1] != '\n' {
      LastLineIsLast(text[..|text| - 1]);
      assert text == text[..|text| - 1] + [text[|text| - 1]];
    }
  }

  /** The lines of a text that begins with a finished line. */
  lemma ScanFirst(line: string, rest: string)
    requires '\n' !in line
    ensures ScanLines(line + ['\n'] + rest) == [DropCR(line)] + ScanLines(rest)
  {
    var text := line + ['\n'] + rest;
    assert text[..|line|] == line && text[|line| + 1..] == rest && text[|line|] == '\n';
    FirstAt(text, '\n', |line|);
  }

  /** Split at the first newline. */
  lemma FirstNewline(text: string) returns (line: string, rest: string)
    requires '\n' in text
    ensures text == line + ['\n'] + rest && '\n' !in line
    ensures IndexOf(text, '\n') == |line| && |rest| < |text|
  {
    IndexIsFirst(text, '\n');
    var i := IndexOf(text, '\n');
    line, rest := text[..i], text[i + 1..];
  }

  /** The first line of a text ends at its first newline, or at a carriage return just before that. */
  lemma FirstLineEnds(line: string, rest: string)
    requires '\n' !in line
    ensures ScanLines(line + "\r\n" + rest) == [line] + ScanLines(rest)
    ensures line == [] || line[|line| - 1] as int != 13 ==> ScanLines(line + "\n" + rest) == [line] + ScanLines(rest)
  {
    var cr := line + "\r";
    assert line + "\r\n" + rest == cr + ['\n'] + rest;
    assert cr[..|line|] == line && '\n' !in cr;
    ScanFirst(cr, rest);
    ScanFirst(line, rest);
  }

  /** A text that is empty or ends in a newline keeps its lines whatever follows. */
  lemma {:induction false} ScanAppend(a: string, b: string)
    requires Ended(a)
    ensures ScanLines(a + b) == ScanLines(a) + ScanLines(b)
    decreases |a|
  {
    if a == [] {
      assert a + b == b;
    } else {
      assert a[|a| - 1] in a;
      var line, rest := FirstNewline(a);
      Associate(line + ['\n'], rest, b);
      assert Ended(rest) by { assert rest != [] ==> rest[|rest| - 1] == a[|a| - 1]; }
      ScanFirst(line, rest);
      ScanFirst(line, rest + b);
      ScanAppend(rest, b);
      Associate([DropCR(line)], ScanLines(rest), ScanLines(b));
    }
  }

  /** White space in front of a text changes its lines by no more than white space. */
  lemma ScanIndented(space: string, text: string)
    requires AllSpace(space) && '\n' !in space && text != []
    ensures var (lines, indented) := (ScanLines(text), ScanLines(space + text));
            && |indented| == |lines| > 0 && indented[1..] == lines[1..] && Trim(indented[0]) == Trim(lines[0])
  {
    if '\n' in text {
      var line, rest := FirstNewline(text);
      IndentedFirst(space, line, rest);
    } else {
      ScanLast(text);
      ScanLast(space + text);
      TrimIndented(space, text);
    }
  }

  lemma IndentedFirst(space: string, line: string, rest: string)
    requires AllSpace(space) && '\n' !in space && '\n' !in line
    ensures var text := line + ['\n'] + rest;
            && ScanLines(text) == [DropCR(line)] + ScanLines(rest)
            && ScanLines(space + text) == [DropCR(space + line)] + ScanLines(rest)
            && Trim(DropCR(space + line)) == Trim(DropCR(line))
  {
    ScanFirst(line, rest);
    ScanFirst(space + line, rest);
    Regroup(space, line, ['\n'], rest);
    TrimIndented(space, line);
  }

  /** A text without a newline is one line. */
  lemma ScanLast(text: string)
    requires text != [] && '\n' !in text
    ensures ScanLines(text) == [DropCR(text)]
  {
  }

  lemma TrimIndented(space: string, line: string)
    requires AllSpace(space)
    ensures Trim(DropCR(space + line)) == Trim(DropCR(line))
  {
    TrimLeftAppend(space, line);
    TrimDropsCR(line);
    TrimDropsCR(space + line);
  }
}
