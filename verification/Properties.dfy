/** The property-file loader: a line-driven machine with continuations, against a recursive
    reading of the file as a list of assignments. */
module Properties {
  import opened PropertyText

  datatype Assignment = Assignment(key: string, value: string)

  type Store = map<string, string>

  // ---- Reading a file recursively ----------------------------------------------------------------------

  predicate EndsInBackslash(s: string) {
    s != [] && s[|s| - 1] == '\\'
  }

  /** An empty line or a comment. */
  predicate IsBlank(line: string) {
    line == [] || line[0] == '#' || "//" <= line
  }

  /** A physical line that starts no assignment. */
  predicate IsSkipped(raw: string) {
    IsBlank(Trim(raw)) || '=' !in Trim(raw)
  }

  /** A value and the physical lines that continue it; `open` when the file ends in the middle. */
  datatype Gathered = Gathered(value: string, used: nat, open: bool)

  function Gather(rest: string, more: seq<string>): (g: Gathered)
    ensures g.used <= |more|
    decreases |more|
  {
    if !EndsInBackslash(rest) then Gathered(rest, 0, false)
    else
      var head := rest[..|rest| - 1];
      if more == [] then Gathered(head, 0, true)
      else
        var tail := Gather(Trim(more[0]), more[1..]);
        Gathered(head + tail.value, tail.used + 1, tail.open)
  }

  /** The logical line that starts with a physical line, and the key in front of its value. */
  function KeyOf(line: string): string
    requires '=' in line
  {
    line[..IndexOf(line, '=')]
  }

  function ValueOf(line: string): string
    requires '=' in line
  {
    line[IndexOf(line, '=') + 1..]
  }

  function LogicalLine(line: string, more: seq<string>): Gathered
    requires '=' in line
  {
    Gather(ValueOf(line), more)
  }

  function EntryOf(key: string, value: string): seq<Assignment> {
    if key == [] then [] else [Assignment(Trim(key), Trim(value))]
  }

  function Assignments(lines: seq<string>): seq<Assignment>
    decreases |lines|
  {
    if lines == [] then []
    else if IsSkipped(lines[0]) then Assignments(lines[1..])
    else
      var line := Trim(lines[0]);
      var more := lines[1..];
      var g := LogicalLine(line, more);
      EntryOf(KeyOf(line), g.value) + Assignments(more[g.used..])
  }

  /** Does the file end inside a continuation? */
  predicate EndsOpen(lines: seq<string>)
    decreases |lines|
  {
    if lines == [] then false
    else if IsSkipped(lines[0]) then EndsOpen(lines[1..])
    else
      var more := lines[1..];
      var g := LogicalLine(Trim(lines[0]), more);
      g.open || EndsOpen(more[g.used..])
  }

  /** Later assignments win. */
  function Assign(store: Store, assignments: seq<Assignment>): Store
    decreases |assignments|
  {
    if assignments == [] then store
    else Assign(store[assignments[0].key := assignments[0].value], assignments[1..])
  }

  /** An assignment sets its key and leaves the others; the last one of a key wins. */
  lemma {:induction false} LastAssignmentWins(store: Store, s: seq<Assignment>, a: Assignment)
    ensures Assign(store, s + [a]) == Assign(store, s)[a.key := a.value]
    decreases |s|
  {
    if s == [] {
      assert s + [a] == [a] && [a][1..] == [];
    } else {
      assert (s + [a])[0] == s[0] && (s + [a])[1..] == s[1..] + [a];
      LastAssignmentWins(store[s[0].key := s[0].value], s[1..], a);
    }
  }

  function LoadText(store: Store, text: string): Store {
    Assign(store, Assignments(ScanLines(text)))
  }

  // ---- The loader object -----------------------------------------------------------------------------------

  /** What is read from a value on: its logical line, then the remaining lines. */
  function FromValue(store: Store, key: string, rest: string, more: seq<string>): Store {
    var g := Gather(rest, more);
    Assign(store, EntryOf(key, g.value) + Assignments(more[g.used..]))
  }

  /** What the scan loop still has to do; inside a continuation, the value it has so far stands for
      itself followed by a backslash. */
  function Remaining(store: Store, key: string, value: string, multi: bool, lines: seq<string>): Store {
    if multi then FromValue(store, key, value + "\\", lines) else Assign(store, Assignments(lines))
  }

  lemma {:induction false} AssignAppend(store: Store, a: seq<Assignment>, b: seq<Assignment>)
    ensures Assign(store, a + b) == Assign(Assign(store, a), b)
    decreases |a|
  {
    if a == [] {
      assert a + b == b;
    } else {
      assert (a + b)[0] == a[0] && (a + b)[1..] == a[1..] + b;
      AssignAppend(store[a[0].key := a[0].value], a[1..], b);
    }
  }

  class PropertyStore {
    var values: Store

    constructor ()
      ensures values == map[]
    {
      values := map[];
    }

    /** addProperty: stores the pending assignment, if it has a key, and forgets it. */
    method AddProperty(key: string, value: string) returns (key': string, value': string)
      modifies this
      ensures values == Assign(old(values), EntryOf(key, value))
      ensures key' == [] && (key != [] ==> value' == []) && (key == [] ==> value' == value)
    {
      key', value' := key, value;
      if key != [] {
        values := values[Trim(key) := Trim(value)];
        key', value' := [], [];
      }
    }

    /** The scan loop does what the recursive reading says, for every text. */
    method Load(text: string)
      modifies this
      ensures values == LoadText(old(values), text)
    {
      var lines := ScanLines(text);
      var key, value, isMultiLine := "", "", false;
      var i := 0;
      while i < |lines|
        invariant 0 <= i <= |lines|
        invariant !isMultiLine ==> key == []
        invariant Remaining(values, key, value, isMultiLine, lines[i..]) == LoadText(old(values), text)
      {
        var line := Trim(lines[i]);
        ghost var rest := lines[i..];
        assert rest[0] == lines[i] && rest[1..] == lines[i + 1..];
        i := i + 1;
        if isMultiLine {
          if EndsInBackslash(line) {
            ContinuationGrows(values, key, value, rest);
            value := value + line[..|line| - 1];
          } else {
            ContinuationEnds(values, key, value, rest);
            value := value + line;
            isMultiLine := false;
            key, value := AddProperty(key, value);
          }
          continue;
        }
        if line == [] || line[0] == '#' || "//" <= line {
          continue;
        }
        var index := IndexOf(line, '=');
        if index == -1 {
          continue;
        }
        FirstLine(values, rest);
        ValueGoesOn(values, KeyOf(line), ValueOf(line), rest[1..]);
        key := line[..index];
        value := line[index + 1..];
        if EndsInBackslash(value) {
          isMultiLine := true;
          value := value[..|value| - 1];
        } else {
          key, value := AddProperty(key, value);
        }
      }
      assert lines[i..] == [];
      LastValue(values, key, value);
      key, value := AddProperty(key, value);
    }
  }

  /** What a value that ends in a backslash gathers, with the next line in hand. */
  lemma GatherNext(value: string, lines: seq<string>)
    requires lines != []
    ensures var (g, tail) := (Gather(value + "\\", lines), Gather(Trim(lines[0]), lines[1..]));
            g == Gathered(value + tail.value, tail.used + 1, tail.open) && lines[g.used..] == lines[1..][tail.used..]
  {
    assert (value + "\\")[..|value|] == value;
  }

  /** A prefix of the value does not change how the rest is gathered. */
  lemma GatherShift(value: string, line: string, more: seq<string>)
    requires EndsInBackslash(line)
    ensures var g := Gather(line, more);
            Gather(value + line, more) == Gathered(value + g.value, g.used, g.open)
  {
    var head := line[..|line| - 1];
    assert (value + line)[..|value + line| - 1] == value + head;
    if more != [] {
      var tail := Gather(Trim(more[0]), more[1..]);
      assert value + head + tail.value == value + (head + tail.value);
    }
  }

  lemma ContinuationGrows(store: Store, key: string, value: string, lines: seq<string>)
    requires lines != [] && EndsInBackslash(Trim(lines[0]))
    ensures var line := Trim(lines[0]);
            Remaining(store, key, value, true, lines)
            == Remaining(store, key, value + line[..|line| - 1], true, lines[1..])
  {
    var line := Trim(lines[0]);
    GatherNext(value, lines);
    GatherShift(value, line, lines[1..]);
    assert value + line == value + line[..|line| - 1] + "\\";
  }

  lemma ContinuationEnds(store: Store, key: string, value: string, lines: seq<string>)
    requires lines != [] && !EndsInBackslash(Trim(lines[0]))
    ensures Remaining(store, key, value, true, lines)
            == Remaining(Assign(store, EntryOf(key, value + Trim(lines[0]))), [], [], false, lines[1..])
  {
    GatherNext(value, lines);
    AssignAppend(store, EntryOf(key, value + Trim(lines[0])), Assignments(lines[1..]));
  }

  /** A line that starts an assignment is read from its value on. */
  lemma FirstLine(store: Store, lines: seq<string>)
    requires lines != [] && !IsSkipped(lines[0])
    ensures var line := Trim(lines[0]);
            Remaining(store, [], [], false, lines) == FromValue(store, KeyOf(line), ValueOf(line), lines[1..])
  {
  }

  lemma ValueGoesOn(store: Store, key: string, value: string, more: seq<string>)
    ensures FromValue(store, key, value, more) ==
            if EndsInBackslash(value) then Remaining(store, key, value[..|value| - 1], true, more)
            else Remaining(Assign(store, EntryOf(key, value)), [], [], false, more)
  {
    if EndsInBackslash(value) {
      assert value == value[..|value| - 1] + "\\";
    } else {
      AssignAppend(store, EntryOf(key, value), Assignments(more));
    }
  }

  /** At the end of the file the pending value is complete. */
  lemma LastValue(store: Store, key: string, value: string)
    ensures Remaining(store, key, value, true, []) == Assign(store, EntryOf(key, value))
  {
    assert (value + "\\")[..|value|] == value;
    assert EntryOf(key, value) + [] == EntryOf(key, value);
  }
}
