/** The stores that loading can produce, exactly, and a printer that loading undoes. */
module PropertyRoundTrip {
  import opened PropertyText
  import opened Properties
  import opened PropertyCompose

  // ---- What a store can contain ------------------------------------------------------------------------------

  predicate GoodKey(k: string) {
    k != [] && Trimmed(k) && '\n' !in k && '=' !in k && k[0] != '#' && !(2 <= |k| && k[0] == '/' && k[1] == '/')
  }

  predicate GoodValue(v: string) {
    Trimmed(v) && '\n' !in v
  }

  predicate GoodAssignments(s: seq<Assignment>) {
    forall i :: 0 <= i < |s| ==> GoodKey(s[i].key) && GoodValue(s[i].value)
  }

  ghost predicate GoodStore(s: Store) {
    forall k :: k in s ==> GoodKey(k) && GoodValue(s[k])
  }

  lemma TrimNoNewline(s: string)
    requires '\n' !in s
    ensures '\n' !in Trim(s)
  {
    TrimEnds(s);
  }

  lemma {:induction false} GatherNoNewline(rest: string, more: seq<string>)
    requires '\n' !in rest && NoNewlines(more)
    ensures '\n' !in Gather(rest, more).value
    decreases |more|
  {
    if EndsInBackslash(rest) && more != [] {
      TrimNoNewline(more[0]);
      GatherNoNewline(Trim(more[0]), more[1..]);
    }
  }

  /** The key in front of the first '=' of a line that is no comment. */
  lemma KeyIsGood(line: string)
    requires Trimmed(line) && !IsBlank(line) && '=' in line && '\n' !in line && KeyOf(line) != []
    ensures GoodKey(Trim(KeyOf(line)))
  {
    var raw := KeyOf(line);
    assert raw <= line && raw[0] == line[0];
    IndexIsFirst(line, '=');
    TrimKeepsStart(raw);
    TrimEnds(raw);
    var k := Trim(raw);
    assert k <= raw && k[0] == line[0];
    assert forall c :: c in k ==> c in raw;
    assert 2 <= |k| ==> k[1] == line[1];
  }

  lemma EntryGood(raw: string, more: seq<string>)
    requires !IsSkipped(raw) && '\n' !in raw && NoNewlines(more)
    ensures GoodAssignments(EntryOf(KeyOf(Trim(raw)), LogicalLine(Trim(raw), more).value))
  {
    var line := Trim(raw);
    TrimEnds(raw);
    GatherNoNewline(ValueOf(line), more);
    TrimEnds(LogicalLine(line, more).value);
    if KeyOf(line) != [] { KeyIsGood(line); }
  }

  /** Everything a file assigns is good, for every file. */
  lemma {:induction false} AssignmentsGood(lines: seq<string>)
    requires NoNewlines(lines)
    ensures GoodAssignments(Assignments(lines))
    decreases |lines|
  {
    if lines == [] {
    } else if IsSkipped(lines[0]) {
      AssignmentsGood(lines[1..]);
    } else {
      var more := lines[1..];
      var g := LogicalLine(Trim(lines[0]), more);
      Unfold(lines);
      EntryGood(lines[0], more);
      AssignmentsGood(more[g.used..]);
    }
  }

  lemma {:induction false} AssignGood(store: Store, s: seq<Assignment>)
    requires GoodStore(store) && GoodAssignments(s)
    ensures GoodStore(Assign(store, s))
    decreases |s|
  {
    if s != [] {
      AssignGood(store[s[0].key := s[0].value], s[1..]);
    }
  }

  /** Loading any text into a good store leaves a good store. */
  lemma LoadKeepsGood(store: Store, text: string)
    requires GoodStore(store)
    ensures GoodStore(LoadText(store, text))
  {
    ScannedLinesHaveNoNewline(text);
    AssignmentsGood(ScanLines(text));
    AssignGood(store, Assignments(ScanLines(text)));
  }

  // ---- The printer ----------------------------------------------------------------------------------------------

  /** One assignment as lines: a value that ends in a backslash is continued by an empty line. */
  function PrintOne(a: Assignment): seq<string> {
    if EndsInBackslash(a.value) then [a.key + "=" + a.value + "\\", ""] else [a.key + "=" + a.value]
  }

  function Print(s: seq<Assignment>): seq<string> {
    if s == [] then [] else PrintOne(s[0]) + Print(s[1..])
  }

  lemma EntryLine(a: Assignment, tail: string)
    requires GoodKey(a.key) && GoodValue(a.value) && (tail == "" || tail == "\\")
    ensures var line := a.key + "=" + a.value + tail;
            && Trim(line) == line && !IsBlank(line) && '=' in line
            && KeyOf(line) == a.key && ValueOf(line) == a.value + tail && PlainLine(line)
  {
    var (k, v) := (a.key, a.value + tail);
    var line := k + "=" + v;
    assert line == a.key + "=" + a.value + tail;
    assert line[|k|] == '=' && line[..|k|] == k && line[|k| + 1..] == v;
    FirstAt(line, '=', |k|);
    NotBlank(k, v);
    LineEnds(a, tail);
  }

  lemma NotBlank(k: string, v: string)
    requires GoodKey(k)
    ensures !IsBlank(k + "=" + v)
  {
    var line := k + "=" + v;
    assert line[0] == k[0];
    assert line[1] == if |k| == 1 then '=' else k[1];
  }

  lemma LineEnds(a: Assignment, tail: string)
    requires GoodKey(a.key) && GoodValue(a.value) && (tail == "" || tail == "\\")
    ensures var line := a.key + "=" + a.value + tail; Trim(line) == line && PlainLine(line)
  {
    var right := "=" + a.value + tail;
    var line := a.key + right;
    assert line == a.key + "=" + a.value + tail;
    assert !IsSpace(right[|right| - 1]) by {
      if tail == "" && a.value != [] { assert right[|right| - 1] == a.value[|a.value| - 1]; }
    }
    assert line[0] == a.key[0] && line[|line| - 1] == right[|right| - 1];
    TrimKeeps(line);
  }

  /** Reading back one printed assignment, whatever follows it. */
  lemma {:induction false} PrintOneLoads(a: Assignment, more: seq<string>)
    requires GoodKey(a.key) && GoodValue(a.value)
    ensures Assignments(PrintOne(a) + more) == [a] + Assignments(more)
  {
    var lines := PrintOne(a) + more;
    var rest := lines[1..];
    EntryIs(a);
    if EndsInBackslash(a.value) {
      EntryLine(a, "\\");
      assert rest == [""] + more && rest[1..] == more;
      EmptyLineEnds(a.value, more);
    } else {
      EntryLine(a, "");
      assert a.key + "=" + a.value + "" == a.key + "=" + a.value && a.value + "" == a.value;
      assert rest == more && more[0..] == more;
    }
    Unfold(lines);
  }

  lemma EntryIs(a: Assignment)
    requires GoodKey(a.key) && GoodValue(a.value)
    ensures EntryOf(a.key, a.value) == [a]
  {
    TrimKeeps(a.key);
    TrimKeeps(a.value);
  }

  /** An empty line ends a continuation and adds nothing. */
  lemma EmptyLineEnds(value: string, more: seq<string>)
    ensures Gather(value + "\\", [""] + more) == Gathered(value, 1, false)
  {
    TrimKeeps("");
    TextInside(value, "", more);
    assert value + "" == value;
  }

  lemma {:induction false} PrintLoads(s: seq<Assignment>)
    requires GoodAssignments(s)
    ensures Assignments(Print(s)) == s
  {
    if s != [] {
      PrintOneLoads(s[0], Print(s[1..]));
      PrintLoads(s[1..]);
    }
  }

  lemma OnePlain(a: Assignment)
    requires GoodKey(a.key) && GoodValue(a.value)
    ensures forall i :: 0 <= i < |PrintOne(a)| ==> PlainLine(PrintOne(a)[i])
  {
    LineEnds(a, "");
    LineEnds(a, "\\");
    assert a.key + "=" + a.value + "" == a.key + "=" + a.value;
  }

  lemma {:induction false} PrintPlain(s: seq<Assignment>)
    requires GoodAssignments(s)
    ensures forall i :: 0 <= i < |Print(s)| ==> PlainLine(Print(s)[i])
  {
    if s != [] {
      PrintPlain(s[1..]);
      OnePlain(s[0]);
      var (one, rest) := (PrintOne(s[0]), Print(s[1..]));
      forall i | 0 <= i < |Print(s)| ensures PlainLine(Print(s)[i]) {
        assert Print(s)[i] == if i < |one| then one[i] else rest[i - |one|];
      }
    }
  }

  /** Round trip: a printed list of good assignments loads as exactly those assignments. */
  lemma PrintedTextLoads(store: Store, s: seq<Assignment>)
    requires GoodAssignments(s)
    ensures LoadText(store, Unlines(Print(s))) == Assign(store, s)
  {
    PrintPlain(s);
    ScanUnlines(Print(s));
    PrintLoads(s);
  }

  // ---- The exact image ---------------------------------------------------------------------------------------------

  /** The assignments of s have distinct keys and are exactly the entries of m. */
  ghost predicate Lists(s: seq<Assignment>, m: Store) {
    && (forall i, j :: 0 <= i < j < |s| ==> s[i].key != s[j].key)
    && (forall i :: 0 <= i < |s| ==> s[i].key in m && m[s[i].key] == s[i].value)
    && (forall k :: k in m ==> exists i :: 0 <= i < |s| && s[i].key == k)
  }

  lemma {:induction false} ListingExists(m: Store) returns (s: seq<Assignment>)
    ensures Lists(s, m)
    decreases |m|
  {
    if m == map[] {
      s := [];
    } else {
      var k :| k in m;
      var t := ListingExists(m - {k});
      s := [Assignment(k, m[k])] + t;
      ListsCons(t, m, k);
    }
  }

  lemma ListsCons(t: seq<Assignment>, m: Store, k: string)
    requires k in m && Lists(t, m - {k})
    ensures Lists([Assignment(k, m[k])] + t, m)
  {
    var s := [Assignment(k, m[k])] + t;
    assert forall i :: 1 <= i < |s| ==> s[i] == t[i - 1];
    forall k' | k' in m ensures exists i :: 0 <= i < |s| && s[i].key == k' {
      if k' == k {
        assert s[0].key == k;
      } else {
        assert k' in m - {k};
        var i :| 0 <= i < |t| && t[i].key == k';
        assert s[i + 1].key == k';
      }
    }
  }

  /** Distinct keys keep the values they are listed with; other keys keep what the store had. */
  lemma {:induction false} AssignLookup(store: Store, s: seq<Assignment>, k: string)
    requires forall i, j :: 0 <= i < j < |s| ==> s[i].key != s[j].key
    ensures var r := Assign(store, s);
            && (forall i :: 0 <= i < |s| && s[i].key == k ==> k in r && r[k] == s[i].value)
            && ((forall i :: 0 <= i < |s| ==> s[i].key != k) ==>
                  (k in r <==> k in store) && (k in store ==> r[k] == store[k]))
    decreases |s|
  {
    if s != [] {
      var t := s[1..];
      assert forall i :: 0 <= i < |t| ==> t[i] == s[i + 1];
      AssignLookup(store[s[0].key := s[0].value], t, k);
      forall i | 0 <= i < |s| && s[i].key == k ensures k in Assign(store, s) && Assign(store, s)[k] == s[i].value {
        if i > 0 { assert t[i - 1] == s[i]; }
      }
    }
  }

  lemma ListingLoads(s: seq<Assignment>, m: Store)
    requires Lists(s, m)
    ensures Assign(map[], s) == m
  {
    var r := Assign(map[], s);
    forall k ensures (k in r <==> k in m) && (k in m ==> r[k] == m[k]) {
      AssignLookup(map[], s, k);
    }
  }

  /** Any listing of a good store, printed, loads as that store. */
  lemma RoundTrip(m: Store, s: seq<Assignment>)
    requires GoodStore(m) && Lists(s, m)
    ensures LoadText(map[], Unlines(Print(s))) == m
  {
    PrintedTextLoads(map[], s);
    ListingLoads(s, m);
  }

  /** The stores that Load can produce from an empty one are exactly those whose keys are non-empty,
      trimmed, free of newlines and '=' and do not start a comment, and whose values are trimmed
      and free of newlines. */
  lemma ReachableIffGood(m: Store)
    ensures (exists text :: LoadText(map[], text) == m) <==> GoodStore(m)
  {
    if GoodStore(m) {
      var s := ListingExists(m);
      RoundTrip(m, s);
    }
    forall text | LoadText(map[], text) == m ensures GoodStore(m) {
      LoadKeepsGood(map[], text);
    }
  }
}
