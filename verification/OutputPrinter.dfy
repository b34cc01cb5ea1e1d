/** The workflow output printer: `_render_outputs` with its delimiter search, and reading the
    rendered text back line by line. */
module OutputPrinter {
  import opened Common

  type Line = string

  /** A named output value. */
  datatype Entry = Entry(key: string, value: string)

  /** The delimiter text for a key, a counter and a value. */
  type Marking = (string, nat, string) -> string

  // ---------- lines ----------

  /** The characters `str.splitlines` separates at. */
  predicate IsBreak(c: char) {
    || '\n' <= c <= '\r' || '\U{1C}' <= c <= '\U{1E}'
    || c == '\U{85}' || c == '\U{2028}' || c == '\U{2029}'
  }

  /** Index of the first line break, or the length. */
  function FirstBreak(s: string): (k: nat)
    ensures k <= |s|
  {
    if s == "" || IsBreak(s[0]) then 0 else 1 + FirstBreak(s[1..])
  }

  function FirstNewline(s: string): (k: nat)
    ensures k <= |s|
  {
    if s == "" || s[0] == '\n' then 0 else 1 + FirstNewline(s[1..])
  }

  /** The index is `k` exactly when `k` holds the first newline, or ends a text without one. */
  lemma {:induction false} NewlineIndex(s: string, k: nat)
    requires k <= |s|
    ensures FirstNewline(s) == k <==> (forall i :: 0 <= i < k ==> s[i] != '\n') && (k < |s| ==> s[k] == '\n')
  {
    if s != "" && s[0] != '\n' && k > 0 {
      NewlineIndex(s[1..], k - 1);
      assert forall i :: 0 < i < k ==> s[i] == s[1..][i - 1];
      assert forall i :: 0 <= i < k - 1 ==> s[1..][i] == s[i + 1];
    }
  }

  lemma {:induction false} BreakIndex(s: string)
    ensures var k := FirstBreak(s); (forall i :: 0 <= i < k ==> !IsBreak(s[i])) && (k < |s| ==> IsBreak(s[k]))
  {
    if s != "" && !IsBreak(s[0]) {
      BreakIndex(s[1..]);
      assert forall i :: 0 < i < FirstBreak(s) ==> s[i] == s[1..][i - 1];
    }
  }

  /** `str.splitlines`: a carriage return with a newline is one break, and the last line is not
      empty. */
  function SplitLines(s: string): seq<Line>
    decreases |s|
  {
    if s == "" then []
    else
      var k := FirstBreak(s);
      if k == |s| then [s]
      else if s[k] == '\r' && k + 1 < |s| && s[k + 1] == '\n' then [s[..k]] + SplitLines(s[k + 2..])
      else [s[..k]] + SplitLines(s[k + 1..])
  }

  /** The pieces between newlines; always at least one. */
  function NewlineSplit(s: string): (lines: seq<Line>)
    ensures lines != []
    decreases |s|
  {
    var k := FirstNewline(s);
    if k == |s| then [s] else [s[..k]] + NewlineSplit(s[k + 1..])
  }

  predicate Unbroken(s: string) {
    forall i :: 0 <= i < |s| ==> !IsBreak(s[i])
  }

  lemma FirstBreakFirst(s: string)
    ensures FirstBreak(s) <= FirstNewline(s)
    ensures FirstBreak(s) < |s| ==> IsBreak(s[FirstBreak(s)])
    ensures FirstNewline(s) < |s| ==> s[FirstNewline(s)] == '\n'
    ensures forall i :: 0 <= i < FirstNewline(s) ==> s[i] != '\n'
  {
    BreakIndex(s);
    NewlineIndex(s, FirstNewline(s));
  }

  lemma NewlineAfter(s: string, k: nat)
    requires k <= FirstNewline(s) && k <= |s|
    ensures FirstNewline(s[k..]) == FirstNewline(s) - k
  {
    var rest := s[k..];
    NewlineIndex(s, FirstNewline(s));
    NewlineIndex(rest, FirstNewline(s) - k);
  }

  /** An unbroken line among the pieces between newlines is among the split lines as well. */
  lemma {:induction false} UnbrokenIsSplit(s: string, line: Line)
    requires line in NewlineSplit(s) && line != "" && Unbroken(line)
    ensures line in SplitLines(s)
    decreases |s|
  {
    var k, m := FirstBreak(s), FirstNewline(s);
    FirstBreakFirst(s);
    if k < |s| {
      if k == m {
        if line != s[..k] { UnbrokenIsSplit(s[k + 1..], line); }
      } else if s[k] == '\r' && k + 1 < |s| && s[k + 1] == '\n' {
        assert m == k + 1;
        BrokenPrefix(s, k, m, line);
        UnbrokenIsSplit(s[m + 1..], line);
      } else {
        BrokenPrefix(s, k, m, line);
        AfterBreak(s, k, m, line);
        UnbrokenIsSplit(s[k + 1..], line);
      }
    }
  }

  /** A piece with a break in it is not the line. */
  lemma BrokenPrefix(s: string, k: nat, m: nat, line: Line)
    requires k < m <= |s| && IsBreak(s[k]) && Unbroken(line)
    ensures line != s[..m]
  {
    assert s[..m][k] == s[k];
  }

  lemma AfterBreak(s: string, k: nat, m: nat, line: Line)
    requires k < m == FirstNewline(s) && line in NewlineSplit(s) && line != s[..m]
    ensures line in NewlineSplit(s[k + 1..])
  {
    NewlineAfter(s, k + 1);
    SplitStep(s, m);
    SplitStep(s[k + 1..], m - k - 1);
    hide NewlineSplit, FirstNewline;
    assert s[..|s|] == s;
    if m < |s| { assert s[k + 1..][m - k..] == s[m + 1..]; }
  }

  // ---------- the delimiter ----------

  function Occupied(value: string): set<Line> {
    set line | line in SplitLines(value)
  }

  /** Delimiters are unbroken text, and as many of them differ as the value has distinct lines, and one
      more. A fixed-width digest gives that for every value with fewer lines than digests. */
  ghost predicate Marks(mark: Marking, key: string, value: string) {
    && (forall n: nat :: mark(key, n, value) != "" && Unbroken(mark(key, n, value)))
    && forall m: nat, n: nat :: m < n <= |Occupied(value)| ==> mark(key, m, value) != mark(key, n, value)
  }

  ghost function Tried(mark: Marking, key: string, value: string, n: nat): set<Line> {
    set k | 0 <= k < n :: mark(key, k, value)
  }

  lemma {:induction false} TriedDiffer(mark: Marking, key: string, value: string, n: nat)
    requires Marks(mark, key, value) && n <= |Occupied(value)| + 1
    ensures |Tried(mark, key, value, n)| == n
  {
    hide Occupied, Unbroken;
    if n == 0 {
      assert Tried(mark, key, value, 0) == {};
    } else {
      TriedDiffer(mark, key, value, n - 1);
      assert Tried(mark, key, value, n) == Tried(mark, key, value, n - 1) + {mark(key, n - 1, value)};
      assert mark(key, n - 1, value) !in Tried(mark, key, value, n - 1);
    }
  }

  /** Not all delimiters tried so far and the next can be taken. */
  lemma AllTaken(mark: Marking, key: string, value: string, n: nat)
    requires Marks(mark, key, value) && n <= |Occupied(value)| + 1
    requires forall k :: 0 <= k < n ==> mark(key, k, value) in Occupied(value)
    ensures n <= |Occupied(value)|
  {
    TriedDiffer(mark, key, value, n);
    SubsetSize(Tried(mark, key, value, n), Occupied(value));
  }

  lemma {:induction false} SubsetSize(a: set<Line>, b: set<Line>)
    requires a <= b
    ensures |a| <= |b|
  {
    assert |b| == |b - a| + |a| by { assert b == (b - a) + a; }
  }

  /** The first counter whose delimiter no line of the value takes. */
  ghost predicate FirstFree(mark: Marking, key: string, value: string, n: nat) {
    mark(key, n, value) !in Occupied(value) && forall k :: 0 <= k < n ==> mark(key, k, value) in Occupied(value)
  }

  /** `_output_delimiter`: the open search ends within one more step than the value has distinct
      lines, at the first delimiter that no line of the value takes. */
  method OutputDelimiter(mark: Marking, key: string, value: string) returns (delimiter: string)
    requires Marks(mark, key, value)
    ensures delimiter !in Occupied(value)
    ensures exists n :: 0 <= n <= |Occupied(value)| && FirstFree(mark, key, value, n) && delimiter == mark(key, n, value)
  {
    hide Occupied;
    var occupied := Occupied(value);
    var counter := 0;
    while true
      invariant forall k :: 0 <= k < counter ==> mark(key, k, value) in occupied
      invariant counter <= |occupied|
      decreases |occupied| - counter
    {
      delimiter := mark(key, counter, value);
      if delimiter !in occupied {
        assert FirstFree(mark, key, value, counter);
        return;
      }
      AllTaken(mark, key, value, counter + 1);
      counter := counter + 1;
    }
  }

  // ---------- rendering ----------

  predicate IsKeyStart(c: char) {
    'A' <= c <= 'Z' || 'a' <= c <= 'z' || c == '_'
  }

  predicate IsKeyCharacter(c: char) {
    IsKeyStart(c) || '0' <= c <= '9' || c == '-'
  }

  /** `_OUTPUT_KEY`. */
  predicate ValidKey(key: string) {
    key != "" && IsKeyStart(key[0]) && forall i :: 0 <= i < |key| ==> IsKeyCharacter(key[i])
  }

  /** The value can stand on the line of its key. */
  predicate OneLine(value: string) {
    '\n' !in value && '\r' !in value
  }

  function Printed(entry: Entry, delimiter: string): string {
    if OneLine(entry.value) then entry.key + "=" + entry.value + "\n"
    else entry.key + "<<" + delimiter + "\n" + entry.value + "\n" + delimiter + "\n"
  }

  predicate IsLetter(code: int) {
    code == 95 || 65 <= code < 91 || 97 <= code < 123
  }

  /** A letter or underscore, then letters, digits, underscores and dashes. */
  lemma KeyIff(key: string)
    ensures ValidKey(key) <==>
              && |key| > 0 && IsLetter(key[0] as int)
              && forall i :: 0 < i < |key| ==> IsLetter(key[i] as int) || 48 <= key[i] as int < 58 || key[i] as int == 45
  {
  }

  /** A value with a newline or a carriage return stands between two lines of its delimiter, any other behind its key. */
  lemma PrintedForm(key: string, value: string, delimiter: string)
    ensures Printed(Entry(key, value), delimiter) ==
            if exists i :: 0 <= i < |value| && (value[i] == '\n' || value[i] == '\r')
            then key + "<<" + delimiter + "\n" + value + "\n" + delimiter + "\n"
            else key + "=" + value + "\n"
  {
  }

  function Rendered(entries: seq<Entry>, delimiters: seq<string>): string
    requires |entries| == |delimiters|
  {
    if entries == [] then "" else Printed(entries[0], delimiters[0]) + Rendered(entries[1..], delimiters[1..])
  }

  /** A delimiter that a reader going by newlines cannot mistake. */
  predicate Safe(delimiter: string, value: string) {
    delimiter != "" && '\n' !in delimiter && delimiter !in NewlineSplit(value)
  }

  /** A delimiter that takes no split line of the value is safe. */
  lemma FreeIsSafe(mark: Marking, key: string, value: string, n: nat)
    requires Marks(mark, key, value) && FirstFree(mark, key, value, n)
    ensures Safe(mark(key, n, value), value)
  {
    var delimiter := mark(key, n, value);
    assert delimiter != "" && Unbroken(delimiter);
    if delimiter in NewlineSplit(value) { UnbrokenIsSplit(value, delimiter); }
  }

  // ---------- reading back ----------

  function KeyLength(line: Line): (k: nat)
    ensures k <= |line|
  {
    if line == "" || !IsKeyCharacter(line[0]) then 0 else 1 + KeyLength(line[1..])
  }

  function JoinLines(lines: seq<Line>): string {
    if lines == [] then "" else if |lines| == 1 then lines[0] else lines[0] + "\n" + JoinLines(lines[1..])
  }

  /** The position of the first line equal to a text. */
  function LineIndex(lines: seq<Line>, text: string): (k: nat)
    ensures k <= |lines|
  {
    if lines == [] || lines[0] == text then 0 else 1 + LineIndex(lines[1..], text)
  }

  /** How a runner reads an output file: `key=value` lines and `key<<delimiter` blocks. */
  function Read(lines: seq<Line>): Option<seq<Entry>>
    decreases |lines|
  {
    if lines == [""] then Some([])
    else if lines == [] then None
    else
      var line, k := lines[0], KeyLength(lines[0]);
      if k < |line| && line[k] == '=' then Following(Entry(line[..k], line[k + 1..]), Read(lines[1..]))
      else if k + 2 <= |line| && line[k..k + 2] == "<<" then
        var end := LineIndex(lines[1..], line[k + 2..]);
        if end == |lines| - 1 then None
        else Following(Entry(line[..k], JoinLines(lines[1..end + 1])), Read(lines[end + 2..]))
      else None
  }

  function Following(entry: Entry, rest: Option<seq<Entry>>): Option<seq<Entry>> {
    if rest.None? then None else Some([entry] + rest.value)
  }

  lemma SplitStep(s: string, k: nat)
    requires k == FirstNewline(s)
    ensures NewlineSplit(s) == if k == |s| then [s] else [s[..k]] + NewlineSplit(s[k + 1..])
  {
    hide FirstNewline;
  }

  /** The text around a place in the first part of a concatenation. */
  lemma Around(a: string, b: string, k: nat)
    requires k <= |a|
    ensures var s := a + "\n" + b;
            s[..k] == a[..k] && s[k + 1..] == if k == |a| then b else a[k + 1..] + "\n" + b
  {
  }

  lemma {:induction false} SplitConcat(a: string, b: string)
    ensures NewlineSplit(a + "\n" + b) == NewlineSplit(a) + NewlineSplit(b)
    decreases |a|
  {
    var s, k := a + "\n" + b, FirstNewline(a);
    NewlineIn(a, b);
    hide NewlineSplit, FirstNewline;
    SplitStep(s, k);
    SplitStep(a, k);
    Around(a, b, k);
    assert a[..|a|] == a;
    if k < |a| {
      SplitConcat(a[k + 1..], b);
      ConcatAssociates([a[..k]], NewlineSplit(a[k + 1..]), NewlineSplit(b));
    }
  }

  lemma NewlineIn(a: string, b: string)
    ensures FirstNewline(a + "\n" + b) == FirstNewline(a)
  {
    var s, k := a + "\n" + b, FirstNewline(a);
    assert s[|a|] == '\n' && forall i :: 0 <= i < |a| ==> s[i] == a[i];
    NewlineIndex(a, k);
    NewlineIndex(s, k);
  }

  lemma SplitNone(s: string)
    requires '\n' !in s
    ensures NewlineSplit(s) == [s]
  {
    NewlineIndex(s, |s|);
  }

  lemma JoinStep(line: Line, lines: seq<Line>)
    ensures JoinLines([line]) == line
    ensures lines != [] ==> JoinLines([line] + lines) == line + "\n" + JoinLines(lines)
  {
    assert ([line] + lines)[1..] == lines;
  }

  lemma {:induction false} JoinOfSplit(s: string)
    ensures JoinLines(NewlineSplit(s)) == s
    decreases |s|
  {
    var k := FirstNewline(s);
    SplitStep(s, k);
    NewlineIndex(s, k);
    hide NewlineSplit, JoinLines, FirstNewline;
    if k < |s| {
      JoinOfSplit(s[k + 1..]);
      JoinStep(s[..k], NewlineSplit(s[k + 1..]));
      assert s == s[..k] + "\n" + s[k + 1..];
    } else {
      JoinStep(s, []);
    }
  }

  lemma {:induction false} IndexAfter(lines: seq<Line>, text: string, rest: seq<Line>)
    requires text !in lines
    ensures LineIndex(lines + [text] + rest, text) == |lines|
  {
    var all := lines + [text] + rest;
    if lines != [] {
      assert lines[0] in lines;
      assert all[0] == lines[0] && all[1..] == lines[1..] + [text] + rest;
      IndexAfter(lines[1..], text, rest);
    }
  }

  lemma {:induction false} KeyEnds(key: string, rest: string)
    requires (forall i :: 0 <= i < |key| ==> IsKeyCharacter(key[i])) && rest != "" && !IsKeyCharacter(rest[0])
    ensures KeyLength(key + rest) == |key|
  {
    if key == "" {
      assert key + rest == rest;
    } else {
      assert (key + rest)[0] == key[0] && (key + rest)[1..] == key[1..] + rest;
      KeyEnds(key[1..], rest);
    }
  }

  lemma KeyHasNoNewline(key: string)
    requires ValidKey(key)
    ensures '\n' !in key
  {
  }

  /** Reading a printed one-line entry. */
  lemma ReadsLine(entry: Entry, rest: string)
    requires ValidKey(entry.key) && OneLine(entry.value)
    ensures Read(NewlineSplit(Printed(entry, "") + rest)) == Following(entry, Read(NewlineSplit(rest)))
  {
    var line := entry.key + "=" + entry.value;
    KeyHasNoNewline(entry.key);
    assert Printed(entry, "") + rest == line + "\n" + rest;
    SplitNone(line);
    ValueLine(entry.key, entry.value);
    hide NewlineSplit, Printed, ValidKey, KeyLength;
    SplitConcat(line, rest);
    var lines := NewlineSplit(line + "\n" + rest);
    assert lines[0] == line && lines[1..] == NewlineSplit(rest) && |lines| > 1;
  }

  lemma ValueLine(key: string, value: string)
    requires ValidKey(key)
    ensures var line, k := key + "=" + value, |key|;
            KeyLength(line) == k && k < |line| && line[k] == '=' && line[..k] == key && line[k + 1..] == value
  {
    KeyEnds(key, "=" + value);
    assert key + "=" + value == key + ("=" + value);
  }

  /** The text of a block, by its lines. */
  lemma BlockText(entry: Entry, delimiter: string, rest: string)
    requires !OneLine(entry.value)
    ensures Printed(entry, delimiter) + rest == (entry.key + "<<" + delimiter) + "\n" + (entry.value + "\n" + (delimiter + "\n" + rest))
  {
  }

  lemma SplitBlock(entry: Entry, delimiter: string, rest: string)
    requires ValidKey(entry.key) && !OneLine(entry.value) && Safe(delimiter, entry.value)
    ensures NewlineSplit(Printed(entry, delimiter) + rest) ==
            [entry.key + "<<" + delimiter] + (NewlineSplit(entry.value) + [delimiter] + NewlineSplit(rest))
  {
    KeyHasNoNewline(entry.key);
    BlockText(entry, delimiter, rest);
    hide NewlineSplit, Printed, ValidKey, OneLine;
    var line, tail := entry.key + "<<" + delimiter, delimiter + "\n" + rest;
    SplitConcat(line, entry.value + "\n" + tail);
    SplitConcat(entry.value, tail);
    SplitConcat(delimiter, rest);
    SplitNone(line);
    SplitNone(delimiter);
    ConcatAssociates(NewlineSplit(entry.value), [delimiter], NewlineSplit(rest));
  }

  /** The first line of a block, taken apart. */
  lemma BlockLine(key: string, delimiter: string)
    requires ValidKey(key)
    ensures var line, k := key + "<<" + delimiter, |key|;
            KeyLength(line) == k && k + 2 <= |line| && line[k] != '=' && line[k..k + 2] == "<<" && line[k + 2..] == delimiter && line[..k] == key
  {
    KeyEnds(key, "<<" + delimiter);
    assert key + "<<" + delimiter == key + ("<<" + delimiter);
  }

  /** Reading a block whose first line, body and end are known. */
  lemma ReadStep(lines: seq<Line>, k: nat, end: nat)
    requires |lines| > 1 && k == KeyLength(lines[0]) && k + 2 <= |lines[0]|
    requires lines[0][k] != '=' && lines[0][k..k + 2] == "<<" && end == LineIndex(lines[1..], lines[0][k + 2..]) < |lines| - 1
    ensures Read(lines) == Following(Entry(lines[0][..k], JoinLines(lines[1..end + 1])), Read(lines[end + 2..]))
  {
    hide KeyLength, JoinLines, LineIndex, Following;
  }

  /** Reading a block by its lines. */
  lemma ReadsLines(key: string, delimiter: string, body: seq<Line>, after: seq<Line>)
    requires ValidKey(key) && delimiter !in body && body != []
    ensures Read([key + "<<" + delimiter] + (body + [delimiter] + after)) == Following(Entry(key, JoinLines(body)), Read(after))
  {
    hide KeyLength, ValidKey, JoinLines, LineIndex, Following, Read;
    var line := key + "<<" + delimiter;
    var lines := [line] + (body + [delimiter] + after);
    BlockLine(key, delimiter);
    assert lines[0] == line && lines[1..] == body + [delimiter] + after && |lines| > 1;
    IndexAfter(body, delimiter, after);
    assert lines[1..|body| + 1] == body && lines[|body| + 2..] == after;
    ReadStep(lines, |key|, |body|);
  }

  /** Reading a printed block. */
  lemma ReadsBlock(entry: Entry, delimiter: string, rest: string)
    requires ValidKey(entry.key) && !OneLine(entry.value) && Safe(delimiter, entry.value)
    ensures Read(NewlineSplit(Printed(entry, delimiter) + rest)) == Following(entry, Read(NewlineSplit(rest)))
  {
    SplitBlock(entry, delimiter, rest);
    hide NewlineSplit, Printed, Read, JoinLines;
    ReadsLines(entry.key, delimiter, NewlineSplit(entry.value), NewlineSplit(rest));
    JoinOfSplit(entry.value);
  }

  predicate Printable(entries: seq<Entry>, delimiters: seq<string>) {
    && |entries| == |delimiters|
    && (forall i :: 0 <= i < |entries| ==> ValidKey(entries[i].key))
    && forall i :: 0 <= i < |entries| && !OneLine(entries[i].value) ==> Safe(delimiters[i], entries[i].value)
  }

  /** Reading the rendered text back gives exactly the entries. */
  lemma {:induction false} ReadsBack(entries: seq<Entry>, delimiters: seq<string>)
    requires Printable(entries, delimiters)
    ensures Read(NewlineSplit(Rendered(entries, delimiters))) == Some(entries)
  {
    if entries == [] {
      SplitNone("");
    } else {
      ReadsBack(entries[1..], delimiters[1..]);
      var rest := Rendered(entries[1..], delimiters[1..]);
      if OneLine(entries[0].value) {
        ReadsLine(entries[0], rest);
      } else {
        ReadsBlock(entries[0], delimiters[0], rest);
      }
      assert entries == [entries[0]] + entries[1..];
    }
  }

  lemma {:induction false} RenderedSnoc(entries: seq<Entry>, delimiters: seq<string>, entry: Entry, delimiter: string)
    requires |entries| == |delimiters|
    ensures Rendered(entries + [entry], delimiters + [delimiter]) == Rendered(entries, delimiters) + Printed(entry, delimiter)
  {
    var all, marks := entries + [entry], delimiters + [delimiter];
    if entries == [] {
      assert all[1..] == [] && marks[1..] == [];
    } else {
      RenderedSnoc(entries[1..], delimiters[1..], entry, delimiter);
      assert all[0] == entries[0] && all[1..] == entries[1..] + [entry];
      assert marks[0] == delimiters[0] && marks[1..] == delimiters[1..] + [delimiter];
      ConcatAssociates(Printed(entries[0], delimiters[0]), Rendered(entries[1..], delimiters[1..]), Printed(entry, delimiter));
    }
  }

  /** `_render_outputs` over the entries in key order; nothing when a key is invalid. */
  method RenderOutputs(mark: Marking, entries: seq<Entry>) returns (text: Option<string>)
    requires forall i :: 0 <= i < |entries| && !OneLine(entries[i].value) ==> Marks(mark, entries[i].key, entries[i].value)
    ensures text.None? <==> exists i :: 0 <= i < |entries| && !ValidKey(entries[i].key)
    ensures text.Some? ==> Read(NewlineSplit(text.value)) == Some(entries)
  {
    hide Rendered, Printed, ValidKey, Safe, Read, NewlineSplit, OneLine, FirstFree, Marks;
    var rendered := "";
    ghost var delimiters: seq<string> := [];
    assert Rendered([], []) == "" by { RenderedNothing(); }
    for i := 0 to |entries|
      invariant |delimiters| == i && rendered == Rendered(entries[..i], delimiters)
      invariant Printable(entries[..i], delimiters)
    {
      var entry := entries[i];
      assert entries[..i + 1] == entries[..i] + [entry];
      if !ValidKey(entry.key) { return None; }
      var delimiter := "";
      if !OneLine(entry.value) {
        delimiter := OutputDelimiter(mark, entry.key, entry.value);
        ghost var n: nat :| FirstFree(mark, entry.key, entry.value, n) && delimiter == mark(entry.key, n, entry.value);
        FreeIsSafe(mark, entry.key, entry.value, n);
      }
      RenderedSnoc(entries[..i], delimiters, entry, delimiter);
      rendered, delimiters := rendered + Printed(entry, delimiter), delimiters + [delimiter];
    }
    assert entries[..|entries|] == entries;
    ReadsBack(entries, delimiters);
    text := Some(rendered);
  }

  lemma RenderedNothing()
    ensures Rendered([], []) == ""
  {
  }
}
