/** When loading two files in turn is loading them as one: comments and blank lines, files that end
    inside a continuation, and files that do not end in a newline. */
module PropertyCompose {
  import opened PropertyText
  import opened Sequences
  import opened Properties

  // ---- Files as lists of lines --------------------------------------------------------------------------------

  /** A value that is complete gathers the same whatever lines follow. */
  lemma {:induction false} GatherStable(rest: string, a: seq<string>, b: seq<string>)
    requires !Gather(rest, a).open
    ensures Gather(rest, a + b) == Gather(rest, a)
    decreases |a|
  {
    if EndsInBackslash(rest) {
      assert (a + b)[0] == a[0] && (a + b)[1..] == a[1..] + b;
      GatherStable(Trim(a[0]), a[1..], b);
    }
  }

  /** Unless the first file ends inside a continuation, two files together assign what the first
      assigns and then what the second does. */
  lemma {:induction false} AssignmentsCompose(a: seq<string>, b: seq<string>)
    requires !EndsOpen(a)
    ensures Assignments(a + b) == Assignments(a) + Assignments(b)
    ensures EndsOpen(a + b) == EndsOpen(b)
    decreases |a|
  {
    if a == [] {
      assert a + b == b;
    } else {
      assert (a + b)[0] == a[0] && (a + b)[1..] == a[1..] + b;
      if IsSkipped(a[0]) {
        SkipFirst(a);
        SkipFirst(a + b);
        AssignmentsCompose(a[1..], b);
      } else {
        FirstComposes(a, b);
      }
    }
  }

  lemma SkipFirst(lines: seq<string>)
    requires lines != [] && IsSkipped(lines[0])
    ensures Assignments(lines) == Assignments(lines[1..]) && EndsOpen(lines) == EndsOpen(lines[1..])
  {
  }

  /** A line that starts an assignment, unfolded. */
  lemma Unfold(lines: seq<string>)
    requires lines != [] && !IsSkipped(lines[0])
    ensures var (line, more) := (Trim(lines[0]), lines[1..]);
            var g := LogicalLine(line, more);
            && Assignments(lines) == EntryOf(KeyOf(line), g.value) + Assignments(more[g.used..])
            && EndsOpen(lines) == (g.open || EndsOpen(more[g.used..]))
  {
  }

  /** Unfold, with the lines behind the first, their logical line and what follows that in hand. */
  lemma UnfoldAs(lines: seq<string>, more: seq<string>, value: string, used: nat, open: bool, rest: seq<string>)
    requires lines != [] && !IsSkipped(lines[0]) && lines[1..] == more
    requires LogicalLine(Trim(lines[0]), more) == Gathered(value, used, open)
    requires used <= |more| && more[used..] == rest
    ensures Assignments(lines) == EntryOf(KeyOf(Trim(lines[0])), value) + Assignments(rest)
    ensures EndsOpen(lines) == (open || EndsOpen(rest))
  {
    Unfold(lines);
  }

  /** The first assignment of a is read as before when b follows. */
  lemma UnfoldAppend(a: seq<string>, b: seq<string>)
    requires a != [] && !IsSkipped(a[0]) && !LogicalLine(Trim(a[0]), a[1..]).open
    ensures var (line, more) := (Trim(a[0]), a[1..]);
            var g := LogicalLine(line, more);
            && Assignments(a + b) == EntryOf(KeyOf(line), g.value) + Assignments(more[g.used..] + b)
            && EndsOpen(a + b) == EndsOpen(more[g.used..] + b)
  {
    var more, all := a[1..], a + b;
    var g := LogicalLine(Trim(a[0]), more);
    assert all[0] == a[0] && all[1..] == more + b;
    GatherStable(ValueOf(Trim(a[0])), more, b);
    assert (more + b)[g.used..] == more[g.used..] + b;
    Unfold(all);
  }

  lemma {:induction false} FirstComposes(a: seq<string>, b: seq<string>)
    requires a != [] && !EndsOpen(a) && !IsSkipped(a[0])
    ensures Assignments(a + b) == Assignments(a) + Assignments(b)
    ensures EndsOpen(a + b) == EndsOpen(b)
    decreases |a|, 0
  {
    var g := LogicalLine(Trim(a[0]), a[1..]);
    var rest := a[1..][g.used..];
    Unfold(a);
    UnfoldAppend(a, b);
    AssignmentsCompose(rest, b);
    Associate(EntryOf(KeyOf(Trim(a[0])), g.value), Assignments(rest), Assignments(b));
  }

  /** A trimmed line that is empty, a comment by its first characters, or without '='. */
  predicate SaysNothing(t: string) {
    t == [] || t[0] == '#' || (2 <= |t| && t[0] == '/' && t[1] == '/') || '=' !in t
  }

  /** Outside a continuation such a line changes nothing. */
  lemma SkippedLineIsNoOp(a: seq<string>, c: string, b: seq<string>)
    requires !EndsOpen(a) && SaysNothing(Trim(c))
    ensures Assignments(a + [c] + b) == Assignments(a + b)
  {
    SaysNothingIsSkipped(c);
    Associate(a, [c], b);
    FirstOfAppend([c], b);
    SkipFirst([c] + b);
    AssignmentsCompose(a, [c] + b);
    AssignmentsCompose(a, b);
  }

  lemma SaysNothingIsSkipped(c: string)
    ensures SaysNothing(Trim(c)) <==> IsSkipped(c)
  {
  }

  /** Every other line that does not end in a backslash assigns what stands behind its first '=' to what
      stands before it, both trimmed; with nothing before it, it assigns nothing. */
  lemma AssignmentLine(a: seq<string>, c: string, k: string, v: string, b: seq<string>)
    requires !EndsOpen(a) && Trim(c) == k + "=" + v && '=' !in k && !SaysNothing(Trim(c))
    requires v == [] || v[|v| - 1] != '\\'
    ensures Assignments(a + [c] + b)
            == Assignments(a) + (if k == [] then [] else [Assignment(Trim(k), Trim(v))]) + Assignments(b)
  {
    var line := Trim(c);
    SplitLine(line, k, v);
    Associate(a, [c], b);
    FirstOfAppend([c], b);
    AssignmentsCompose(a, [c] + b);
    UnfoldAs([c] + b, b, v, 0, false, b);
    Associate(Assignments(a), EntryOf(k, v), Assignments(b));
  }

  lemma SplitLine(line: string, k: string, v: string)
    requires line == k + "=" + v && '=' !in k
    ensures '=' in line && KeyOf(line) == k && ValueOf(line) == v
  {
    assert line[|k|] == '=' && line[..|k|] == k && line[|k| + 1..] == v;
    FirstAt(line, '=', |k|);
  }

  /** A value that ends in a backslash goes on, without it, with the next line, trimmed. */
  lemma ContinuedLine(a: seq<string>, c: string, k: string, v: string, d: string, b: seq<string>)
    requires !EndsOpen(a) && Trim(c) == k + "=" + v + "\\" && '=' !in k && !SaysNothing(Trim(c))
    requires Trim(d) == [] || Trim(d)[|Trim(d)| - 1] != '\\'
    ensures Assignments(a + ([c] + ([d] + b)))
            == Assignments(a) + (if k == [] then [] else [Assignment(Trim(k), Trim(v + Trim(d)))]) + Assignments(b)
  {
    var line := Trim(c);
    assert line == k + "=" + (v + "\\");
    SplitLine(line, k, v + "\\");
    FirstOfAppend([c], [d] + b);
    FirstOfAppend([d], b);
    AssignmentsCompose(a, [c] + ([d] + b));
    TextInside(v, d, b);
    UnfoldAs([c] + ([d] + b), [d] + b, v + Trim(d), 1, false, b);
    Associate(Assignments(a), EntryOf(k, v + Trim(d)), Assignments(b));
  }

  /** Inside a continuation any line is literal text of the value; if it ends in a backslash, the value
      goes on behind it. */
  lemma TextInside(value: string, c: string, more: seq<string>)
    ensures var (g, line) := (Gather(value + "\\", [c] + more), Trim(c));
            if !EndsInBackslash(line) then g == Gathered(value + line, 1, false)
            else
              var h := Gather(value + line[..|line| - 1] + "\\", more);
              g == Gathered(h.value, h.used + 1, h.open)
  {
    var line := Trim(c);
    assert ([c] + more)[1..] == more;
    GatherNext(value, [c] + more);
    if EndsInBackslash(line) {
      GatherShift(value, line, more);
      assert value + line == value + line[..|line| - 1] + "\\";
    }
  }

  // ---- Files that end inside a continuation -------------------------------------------------------------------

  /** One line of a continuation, unfolded. */
  lemma GatherStep(rest: string, line: string, more: seq<string>)
    requires EndsInBackslash(rest)
    ensures var tail := Gather(Trim(line), more);
            Gather(rest, [line] + more) == Gathered(rest[..|rest| - 1] + tail.value, tail.used + 1, tail.open)
  {
    assert ([line] + more)[1..] == more;
  }

  lemma GatherBehind(head: string, value: string, b: seq<string>)
    ensures var g := Gather(value + "\\", b);
            Gather(head + value + "\\", b) == Gathered(head + g.value, g.used, g.open)
  {
    GatherShift(head, value + "\\", b);
    assert head + value + "\\" == head + (value + "\\");
  }

  /** A value left open by the end of the file goes on with what follows, as if it had just been read. */
  lemma {:induction false} GatherOpenThen(rest: string, a: seq<string>, b: seq<string>)
    requires Gather(rest, a).open
    ensures Gather(rest, a).used == |a|
    ensures var g := Gather(Gather(rest, a).value + "\\", b);
            Gather(rest, a + b) == Gathered(g.value, |a| + g.used, g.open)
    decreases |a|
  {
    if a == [] {
      assert a + b == b && rest[..|rest| - 1] + "\\" == rest;
    } else {
      var line, more := a[0], a[1..];
      assert a == [line] + more && a + b == [line] + (more + b);
      GatherStep(rest, line, more);
      GatherStep(rest, line, more + b);
      GatherOpenThen(Trim(line), more, b);
      GatherBehind(rest[..|rest| - 1], Gather(Trim(line), more).value, b);
    }
  }

  /** What a file that ends open has assigned for good, and the pending key and value. */
  datatype Pending = Pending(closed: seq<Assignment>, key: string, value: string)

  function PendingOf(lines: seq<string>): Pending
    requires EndsOpen(lines)
    decreases |lines|
  {
    if IsSkipped(lines[0]) then PendingOf(lines[1..])
    else
      var line, more := Trim(lines[0]), lines[1..];
      var g := LogicalLine(line, more);
      if g.open then Pending([], KeyOf(line), g.value)
      else
        var p := PendingOf(more[g.used..]);
        p.(closed := EntryOf(KeyOf(line), g.value) + p.closed)
  }

  /** File a, alone and before b, with its pending part p. */
  predicate GoesOn(a: seq<string>, p: Pending, b: seq<string>) {
    var g := Gather(p.value + "\\", b);
    && Assignments(a) == p.closed + EntryOf(p.key, p.value)
    && Assignments(a + b) == p.closed + EntryOf(p.key, g.value) + Assignments(b[g.used..])
    && EndsOpen(a + b) == (g.open || EndsOpen(b[g.used..]))
  }

  lemma GoesOnSkipped(a: seq<string>, p: Pending, b: seq<string>)
    requires a != [] && IsSkipped(a[0]) && GoesOn(a[1..], p, b)
    ensures GoesOn(a, p, b)
  {
    FirstOfAppend(a, b);
    SkipFirst(a);
    SkipFirst(a + b);
  }

  lemma OpenAlone(a: seq<string>)
    requires a != [] && !IsSkipped(a[0]) && LogicalLine(Trim(a[0]), a[1..]).open
    ensures Assignments(a) == EntryOf(KeyOf(Trim(a[0])), LogicalLine(Trim(a[0]), a[1..]).value)
  {
    var more := a[1..];
    GatherOpenThen(ValueOf(Trim(a[0])), more, []);
    assert more[|more|..] == [];
    Unfold(a);
  }

  lemma OpenBefore(a: seq<string>, b: seq<string>)
    requires a != [] && !IsSkipped(a[0]) && LogicalLine(Trim(a[0]), a[1..]).open
    ensures var g := Gather(LogicalLine(Trim(a[0]), a[1..]).value + "\\", b);
            && Assignments(a + b) == EntryOf(KeyOf(Trim(a[0])), g.value) + Assignments(b[g.used..])
            && EndsOpen(a + b) == (g.open || EndsOpen(b[g.used..]))
  {
    FirstOfAppend(a, b);
    OpenLine(a + b, a[0], a[1..], b);
  }

  lemma OpenLine(lines: seq<string>, first: string, more: seq<string>, b: seq<string>)
    requires lines != [] && lines[0] == first && lines[1..] == more + b
    requires !IsSkipped(first) && LogicalLine(Trim(first), more).open
    ensures var g := Gather(LogicalLine(Trim(first), more).value + "\\", b);
            && Assignments(lines) == EntryOf(KeyOf(Trim(first)), g.value) + Assignments(b[g.used..])
            && EndsOpen(lines) == (g.open || EndsOpen(b[g.used..]))
  {
    var g := OpenLineGathers(Trim(first), more, b);
    UnfoldAs(lines, more + b, g.value, |more| + g.used, g.open, b[g.used..]);
  }

  lemma OpenLineGathers(line: string, more: seq<string>, b: seq<string>) returns (g: Gathered)
    requires '=' in line && LogicalLine(line, more).open
    ensures g == Gather(LogicalLine(line, more).value + "\\", b)
    ensures LogicalLine(line, more + b) == Gathered(g.value, |more| + g.used, g.open)
    ensures (more + b)[|more| + g.used..] == b[g.used..]
  {
    g := Gather(LogicalLine(line, more).value + "\\", b);
    GatherOpenThen(ValueOf(line), more, b);
    DropOfAppend(more, b, g.used);
  }

  lemma GoesOnLast(a: seq<string>, b: seq<string>)
    requires a != [] && !IsSkipped(a[0]) && LogicalLine(Trim(a[0]), a[1..]).open
    ensures GoesOn(a, Pending([], KeyOf(Trim(a[0])), LogicalLine(Trim(a[0]), a[1..]).value), b)
  {
    var p := Pending([], KeyOf(Trim(a[0])), LogicalLine(Trim(a[0]), a[1..]).value);
    var g := Gather(p.value + "\\", b);
    OpenAlone(a);
    OpenBefore(a, b);
    AppendNothing(EntryOf(p.key, p.value));
    AppendNothing(EntryOf(p.key, g.value));
  }

  lemma GoesOnLater(a: seq<string>, p: Pending, b: seq<string>)
    requires a != [] && !IsSkipped(a[0]) && !LogicalLine(Trim(a[0]), a[1..]).open
    requires GoesOn(a[1..][LogicalLine(Trim(a[0]), a[1..]).used..], p, b)
    ensures var first := EntryOf(KeyOf(Trim(a[0])), LogicalLine(Trim(a[0]), a[1..]).value);
            GoesOn(a, p.(closed := first + p.closed), b)
  {
    var line := LogicalLine(Trim(a[0]), a[1..]);
    var first := EntryOf(KeyOf(Trim(a[0])), line.value);
    Unfold(a);
    UnfoldAppend(a, b);
    var g := Gather(p.value + "\\", b);
    Associate(first, p.closed, EntryOf(p.key, p.value));
    Associate(first, p.closed, EntryOf(p.key, g.value));
    Associate(first, p.closed + EntryOf(p.key, g.value), Assignments(b[g.used..]));
  }

  lemma {:induction false} PendingGoesOn(a: seq<string>, b: seq<string>)
    requires EndsOpen(a)
    ensures GoesOn(a, PendingOf(a), b)
    decreases |a|
  {
    if IsSkipped(a[0]) {
      PendingGoesOn(a[1..], b);
      GoesOnSkipped(a, PendingOf(a[1..]), b);
    } else {
      var line := LogicalLine(Trim(a[0]), a[1..]);
      if line.open {
        GoesOnLast(a, b);
      } else {
        PendingGoesOn(a[1..][line.used..], b);
        GoesOnLater(a, PendingOf(a[1..][line.used..]), b);
      }
    }
  }

  /** What every file that ends open makes of every file that follows: alone, it assigns the pending value;
      the next file's lines go on with that value as long as it is open, and only the rest of them is
      read as usual. */
  lemma OpenFileSwallows(a: seq<string>, b: seq<string>)
    requires EndsOpen(a)
    ensures var p := PendingOf(a);
            var g := Gather(p.value + "\\", b);
            && Assignments(a) == p.closed + EntryOf(p.key, p.value)
            && Assignments(a + b) == p.closed + EntryOf(p.key, g.value) + Assignments(b[g.used..])
            && EndsOpen(a + b) == (g.open || EndsOpen(b[g.used..]))
  {
    PendingGoesOn(a, b);
  }

  /** In particular, one line that does not go on itself is swallowed whole. */
  lemma {:induction false} LineIsSwallowed(a: seq<string>, line: string)
    requires EndsOpen(a) && !EndsInBackslash(Trim(line))
    ensures var p := PendingOf(a); Assignments(a + [line]) == p.closed + EntryOf(p.key, p.value + Trim(line))
  {
    var p := PendingOf(a);
    OpenFileSwallows(a, [line]);
    TextInside(p.value, line, []);
    assert [line] + [] == [line] && [line][1..] == [];
    AppendNothing(p.closed + EntryOf(p.key, p.value + Trim(line)));
  }

  /** For lists of lines the condition of composition is exact: a file composes with every file that
      follows if and only if it does not end inside a continuation. */
  lemma {:induction false} LinesComposeIff(a: seq<string>)
    ensures (forall b :: Assignments(a + b) == Assignments(a) + Assignments(b)) <==> !EndsOpen(a)
  {
    if EndsOpen(a) {
      ProbeAlone("v");
      OpenFileSwallows(a, []);
      assert a + [] == a;
      LineIsSwallowed(a, Probe("v"));
      assert |Assignments(a + [Probe("v")])| != |Assignments(a) + Assignments([Probe("v")])|;
    } else {
      forall b ensures Assignments(a + b) == Assignments(a) + Assignments(b) { AssignmentsCompose(a, b); }
    }
  }

  // ---- Files as texts -----------------------------------------------------------------------------------------

  /** The text ends in a newline, up to white space, and not inside a continuation. */
  predicate Composable(text: string) {
    AllSpace(LastLine(text)) && !EndsOpen(ScanLines(Finished(text)))
  }

  lemma BlankLineAssignsNothing(space: string)
    requires AllSpace(space) && '\n' !in space
    ensures Assignments(ScanLines(space)) == []
  {
    if space != [] {
      TrimIndented(space, []);
      assert space + [] == space;
      assert ScanLines(space) == [DropCR(space)];
    }
  }

  lemma IndentedAssignsSame(space: string, text: string)
    requires AllSpace(space) && '\n' !in space
    ensures Assignments(ScanLines(space + text)) == Assignments(ScanLines(text))
  {
    if text == [] {
      assert space + text == space;
      BlankLineAssignsNothing(space);
    } else {
      ScanIndented(space, text);
    }
  }

  lemma TextsCompose(store: Store, a: string, b: string)
    requires Composable(a)
    ensures LoadText(LoadText(store, a), b) == LoadText(store, a + b)
  {
    var done := Assignments(ScanLines(Finished(a)));
    JoinedAssignments(a, b);
    JoinedAssignments(a, []);
    AppendNothing(a);
    AppendNothing(done);
    AssignAppend(store, done, Assignments(ScanLines(b)));
  }

  /** After a composable text, another assigns what it assigns alone. */
  lemma JoinedAssignments(a: string, b: string)
    requires Composable(a)
    ensures Assignments(ScanLines(a + b)) == Assignments(ScanLines(Finished(a))) + Assignments(ScanLines(b))
  {
    var (done, last) := (Finished(a), LastLine(a));
    LastLineIsLast(a);
    assert a + b == done + (last + b);
    ScanAppend(done, last + b);
    AssignmentsCompose(ScanLines(done), ScanLines(last + b));
    IndentedAssignsSame(last, b);
  }

  /** A file of one assignment without a newline. */
  function Probe(v: string): string {
    "k=" + v
  }

  lemma ProbeShape(v: string)
    requires v == "v" || v == "w"
    ensures Probe(v) == ['k', '=', v[0]] && v == [v[0]] && Trim(v) == v && Trim("k") == "k"
    ensures Trim(Probe(v)) == Probe(v) && !EndsInBackslash(v) && !EndsInBackslash(Probe(v)) && '\n' !in Probe(v)
  {
    TrimKeeps("k");
    TrimKeeps(v);
    TrimKeeps(Probe(v));
  }

  lemma ProbeAlone(v: string)
    requires v == "v" || v == "w"
    ensures ScanLines(Probe(v)) == [Probe(v)] && Assignments([Probe(v)]) == [Assignment("k", v)]
    ensures !EndsInBackslash(Trim(Probe(v)))
  {
    var line := Probe(v);
    ProbeShape(v);
    assert ScanLines(line) == [DropCR(line)];
    assert line[..1] == "k" && line[2..] == v;
    FirstAt(line, '=', 1);
    assert !IsBlank(line);
    Unfold([line]);
  }

  /** What a swallowed assignment leaves: nothing, or an assignment whose key does not depend on it and
      which, if that is the key of the swallowed one, has its '=' in the value. */
  predicate Swallowed(ev: seq<Assignment>, ew: seq<Assignment>) {
    && |ev| == |ew| <= 1
    && (|ev| == 1 ==>
          ev[0].key == ew[0].key
          && (ev[0].key == "k" ==> '=' in ev[0].value && '=' in ew[0].value))
  }

  lemma SwallowedIsMissed(c: seq<Assignment>, ev: seq<Assignment>, ew: seq<Assignment>)
    requires Swallowed(ev, ew)
    ensures var (v, w) := (Assign(map[], c + ev), Assign(map[], c + ew));
            !("k" in v && v["k"] == "v" && "k" in w && w["k"] == "w")
  {
    AssignAppend(map[], c, ev);
    AssignAppend(map[], c, ew);
    assert '=' !in "v" && '=' !in "w";
  }

  /** What is read from an unfinished line that is no white space, with the probe behind it. */
  function Glued(q: string, v: string): seq<Assignment> {
    if IsBlank(q + "k") then []
    else if '=' in q then EntryOf(KeyOf(q), ValueOf(q) + Probe(v))
    else [Assignment(q + "k", v)]
  }

  lemma GluedTrim(q: string, v: string)
    requires q != [] && !IsSpace(q[0]) && (v == "v" || v == "w")
    ensures var line := q + Probe(v);
            Trim(line) == line && '=' in line && !EndsInBackslash(line) && (IsBlank(line) <==> IsBlank(q + "k"))
  {
    var line := q + Probe(v);
    ProbeShape(v);
    assert line[0] == q[0] && line[|q|] == 'k' && line[|q| + 1] == '=' && line[|q| + 2] == v[0];
    TrimKeeps(line);
    assert line[1] == (q + "k")[1];
  }

  lemma GluedParts(q: string, v: string)
    requires q != [] && !IsSpace(q[0]) && (v == "v" || v == "w") && '=' in q + Probe(v)
    ensures var line := q + Probe(v);
            if '=' in q then KeyOf(line) == KeyOf(q) && ValueOf(line) == ValueOf(q) + Probe(v)
            else KeyOf(line) == q + "k" && ValueOf(line) == v
  {
    var line := q + Probe(v);
    if '=' in q {
      IndexIsFirst(q, '=');
      var i := IndexOf(q, '=');
      assert line[..i] == q[..i] && line[i + 1..] == q[i + 1..] + Probe(v);
      FirstAt(line, '=', i);
    } else {
      ProbeShape(v);
      assert line[..|q| + 1] == q + "k" && line[|q| + 1] == '=' && line[|q| + 2..] == v;
      FirstAt(line, '=', |q| + 1);
    }
  }

  lemma GluedLine(q: string, v: string)
    requires q != [] && !IsSpace(q[0]) && (v == "v" || v == "w")
    ensures Assignments([q + Probe(v)]) == Glued(q, v)
  {
    var line := q + Probe(v);
    GluedTrim(q, v);
    if IsBlank(line) {
      SkipFirst([line]);
    } else {
      GluedValue(q, v);
      UnfoldAs([line], [], ValueOf(line), 0, false, []);
      AppendNothing(EntryOf(KeyOf(line), ValueOf(line)));
      GluedParts(q, v);
      ProbeShape(v);
      TrimKeeps(q + "k");
    }
  }

  lemma GluedValue(q: string, v: string)
    requires q != [] && !IsSpace(q[0]) && (v == "v" || v == "w") && '=' in q + Probe(v)
    ensures !EndsInBackslash(ValueOf(q + Probe(v)))
  {
    var value := ValueOf(q + Probe(v));
    GluedParts(q, v);
    ProbeShape(v);
    assert value[|value| - 1] == v[0];
  }

  lemma GluedLineSwallows(q: string)
    requires q != [] && !IsSpace(q[0])
    ensures Swallowed(Assignments([q + Probe("v")]), Assignments([q + Probe("w")]))
  {
    GluedLine(q, "v");
    GluedLine(q, "w");
    if !IsBlank(q + "k") {
      if '=' in q {
        TrimKeepsOthers(ValueOf(q) + Probe("v"), '=');
        TrimKeepsOthers(ValueOf(q) + Probe("w"), '=');
      }
    }
  }

  /** Joined to a text that is not composable, the two probes cannot both be told. */
  lemma ProbesSwallowed(a: string) returns (c: seq<Assignment>, ev: seq<Assignment>, ew: seq<Assignment>)
    requires !Composable(a)
    ensures Assignments(ScanLines(a + Probe("v"))) == c + ev && Assignments(ScanLines(a + Probe("w"))) == c + ew
    ensures Swallowed(ev, ew)
  {
    JoinedLines(a, "v");
    JoinedLines(a, "w");
    if EndsOpen(ScanLines(Finished(a))) {
      c, ev, ew := OpenThenProbes(ScanLines(Finished(a)), LastLine(a));
    } else {
      c, ev, ew := ClosedThenProbes(ScanLines(Finished(a)), LastLine(a));
    }
  }

  lemma OpenThenProbes(lines: seq<string>, last: string)
    returns (c: seq<Assignment>, ev: seq<Assignment>, ew: seq<Assignment>)
    requires EndsOpen(lines)
    ensures Assignments(lines + [last + Probe("v")]) == c + ev && Assignments(lines + [last + Probe("w")]) == c + ew
    ensures Swallowed(ev, ew)
  {
    var p := PendingOf(lines);
    c := p.closed;
    ev := EntryOf(p.key, p.value + Trim(last + Probe("v")));
    ew := EntryOf(p.key, p.value + Trim(last + Probe("w")));
    OpenThenProbe(lines, last, "v");
    OpenThenProbe(lines, last, "w");
  }

  lemma ClosedThenProbes(lines: seq<string>, last: string)
    returns (c: seq<Assignment>, ev: seq<Assignment>, ew: seq<Assignment>)
    requires !EndsOpen(lines) && !AllSpace(last)
    ensures Assignments(lines + [last + Probe("v")]) == c + ev && Assignments(lines + [last + Probe("w")]) == c + ew
    ensures Swallowed(ev, ew)
  {
    var q := TrimLeft(last);
    TrimLeftStarts(last);
    c, ev, ew := Assignments(lines), Assignments([q + Probe("v")]), Assignments([q + Probe("w")]);
    ClosedThenProbe(lines, last, "v");
    ClosedThenProbe(lines, last, "w");
    GluedLineSwallows(q);
  }

  lemma JoinedLines(a: string, v: string)
    requires v == "v" || v == "w"
    ensures ScanLines(a + Probe(v)) == ScanLines(Finished(a)) + [LastLine(a) + Probe(v)]
  {
    LastLineIsLast(a);
    Associate(Finished(a), LastLine(a), Probe(v));
    ScanAppend(Finished(a), LastLine(a) + Probe(v));
    ProbeEnds(LastLine(a), v);
  }

  lemma ProbeEnds(last: string, v: string)
    requires '\n' !in last && (v == "v" || v == "w")
    ensures ScanLines(last + Probe(v)) == [last + Probe(v)]
  {
    var line := last + Probe(v);
    ProbeShape(v);
    assert line[|line| - 1] == v[0];
    ScanLast(line);
  }

  lemma OpenThenProbe(lines: seq<string>, last: string, v: string)
    requires EndsOpen(lines) && (v == "v" || v == "w")
    ensures var (p, t) := (PendingOf(lines), Trim(last + Probe(v)));
            Assignments(lines + [last + Probe(v)]) == p.closed + EntryOf(p.key, p.value + t) && '=' in Trim(p.value + t)
  {
    var line := last + Probe(v);
    LineEndsIn(last, v);
    LineIsSwallowed(lines, line);
    var p := PendingOf(lines);
    assert line[|last| + 1] == '=';
    TrimKeepsOthers(line, '=');
    TrimKeepsOthers(p.value + Trim(line), '=');
  }

  lemma LineEndsIn(last: string, v: string)
    requires v == "v" || v == "w"
    ensures Trim(last + Probe(v)) == TrimLeft(last) + Probe(v) && !EndsInBackslash(Trim(last + Probe(v)))
  {
    TrimLeftAppend(last, Probe(v));
    TrimLeftCuts(last);
    assert AllSpace(last) ==> TrimLeft(last) == [] by {
      if TrimLeft(last) != [] { assert TrimLeft(last)[0] in last; }
    }
    assert TrimLeft(last) + Probe(v) == TrimLeft(last + Probe(v));
    var line := TrimLeft(last) + Probe(v);
    assert line[|line| - 1] == v[0];
  }

  lemma ClosedThenProbe(lines: seq<string>, last: string, v: string)
    requires !EndsOpen(lines) && (v == "v" || v == "w")
    ensures Assignments(lines + [last + Probe(v)]) == Assignments(lines) + Assignments([TrimLeft(last) + Probe(v)])
  {
    var line, glued := last + Probe(v), TrimLeft(last) + Probe(v);
    AssignmentsCompose(lines, [line]);
    LineEndsIn(last, v);
    LineEndsIn(TrimLeft(last), v);
    TrimLeftTwice(last);
    assert [line][1..] == [glued][1..];
    assert Trim(line) == Trim(glued);
  }

  lemma {:induction false} TrimLeftTwice(s: string)
    ensures TrimLeft(TrimLeft(s)) == TrimLeft(s)
  {
    TrimLeftCuts(s);
  }

  lemma ProbeTold(store: Store, a: string, v: string)
    requires v == "v" || v == "w"
    ensures LoadText(LoadText(store, a), Probe(v)) == LoadText(store, a)["k" := v]
  {
    ProbeAlone(v);
    var one := [Assignment("k", v)];
    assert one[1..] == [];
    assert Assign(LoadText(store, a), one) == LoadText(store, a)["k" := v];
  }

  /** The exact condition for texts: loading a text and then another is loading their concatenation,
      for every store and every second text, if and only if the first is composable. */
  lemma {:induction false} TextsComposeIff(a: string)
    ensures (forall store, b :: LoadText(LoadText(store, a), b) == LoadText(store, a + b)) <==> Composable(a)
  {
    if Composable(a) {
      forall store, b ensures LoadText(LoadText(store, a), b) == LoadText(store, a + b) { TextsCompose(store, a, b); }
    } else {
      var c, ev, ew := ProbesSwallowed(a);
      SwallowedIsMissed(c, ev, ew);
      ProbeTold(map[], a, "v");
      ProbeTold(map[], a, "w");
    }
  }
}
