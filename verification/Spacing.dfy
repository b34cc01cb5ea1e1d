/** Spacing boundaries and rendered text: `_boundaries_from_rendered`, `_render_boundaries`
    and the normal form in which the two are inverse to each other. */
module Spacing {
  import opened Common

  /** The characters Python's `str.isspace` accepts. */
  predicate IsSpace(c: char) {
    || '\t' <= c <= '\r'
    || '\U{1C}' <= c <= ' '
    || c == '\U{85}' || c == '\U{A0}' || c == '\U{1680}'
    || '\U{2000}' <= c <= '\U{200A}'
    || c == '\U{2028}' || c == '\U{2029}' || c == '\U{202F}' || c == '\U{205F}' || c == '\U{3000}'
  }

  predicate SpaceFree(s: string) {
    forall i :: 0 <= i < |s| ==> !IsSpace(s[i])
  }

  predicate Blank(s: string) {
    forall i :: 0 <= i < |s| ==> IsSpace(s[i])
  }

  datatype Gap = NoGap | SpaceGap | HardBreak

  function Separator(gap: Gap): string {
    match gap
    case NoGap => ""
    case SpaceGap => " "
    case HardBreak => "\n"
  }

  /** The text with every whitespace character deleted. */
  function Squeeze(s: string): string {
    if s == "" then "" else (if IsSpace(s[0]) then "" else [s[0]]) + Squeeze(s[1..])
  }

  /** Each character followed by the separator of the gap at its index, if there is one. */
  function Render(chars: string, gaps: seq<Gap>): string {
    if chars == "" then ""
    else if gaps == [] then chars
    else [chars[0]] + Separator(gaps[0]) + Render(chars[1..], gaps[1..])
  }

  /** Length of the longest whitespace prefix. */
  function Leading(s: string): (n: nat)
    ensures n <= |s| && Blank(s[..n]) && (n < |s| ==> !IsSpace(s[n]))
  {
    if s == "" || !IsSpace(s[0]) then 0 else 1 + Leading(s[1..])
  }

  /** The whitespace runs between consecutive characters of what follows a first character. */
  function TailGaps(s: string): seq<string>
    decreases |s|
  {
    var k := Leading(s);
    if k == |s| then [] else [s[..k]] + TailGaps(s[k + 1..])
  }

  /** The whitespace runs between consecutive non-whitespace characters. */
  function RawGaps(s: string): seq<string> {
    var k := Leading(s);
    if k == |s| then [] else TailGaps(s[k + 1..])
  }

  function Classify(run: string): Gap {
    if '\n' in run then HardBreak else if run != "" then SpaceGap else NoGap
  }

  function Classified(runs: seq<string>): (gaps: seq<Gap>)
    ensures |gaps| == |runs|
  {
    seq(|runs|, i requires 0 <= i < |runs| => Classify(runs[i]))
  }

  function Gaps(s: string): seq<Gap> {
    Classified(RawGaps(s))
  }

  /** What parsing a text into boundaries and rendering them again gives. */
  function Normal(s: string): string {
    Render(Squeeze(s), Gaps(s))
  }

  // ---------- the two loops ----------

  /** Raw gaps still to be collected when the scan of `_boundaries_from_rendered` has `rest` left. */
  ghost function Pending(seen: bool, current: string, rest: string): seq<string> {
    if !seen then RawGaps(rest)
    else
      var k := Leading(rest);
      if k == |rest| then [] else [current + rest[..k]] + TailGaps(rest[k + 1..])
  }

  lemma LeadingStep(s: string)
    requires s != ""
    ensures Leading(s) == if IsSpace(s[0]) then Leading(s[1..]) + 1 else 0
  {
  }

  lemma PendingSpace(seen: bool, current: string, rest: string)
    requires rest != "" && IsSpace(rest[0])
    ensures Pending(seen, current, rest) == Pending(seen, if seen then current + [rest[0]] else current, rest[1..])
  {
    LeadingStep(rest);
    hide Leading, TailGaps;
    var k := Leading(rest[1..]);
    if k < |rest| - 1 {
      assert rest[1..][k + 1..] == rest[k + 2..];
      assert current + rest[..k + 1] == (current + [rest[0]]) + rest[1..][..k];
    }
  }

  lemma PendingCharacter(seen: bool, current: string, rest: string)
    requires rest != "" && !IsSpace(rest[0])
    ensures Pending(seen, current, rest) == (if seen then [current] else []) + Pending(true, "", rest[1..])
  {
    LeadingStep(rest);
    var after := rest[1..];
    var k := Leading(after);
    assert current + rest[..0] == current;
    assert TailGaps(after) == Pending(true, "", after) by {
      if k < |after| { assert "" + after[..k] == after[..k]; }
    }
  }

  /** The scanning loop of `_boundaries_from_rendered`. */
  method CollectGaps(text: string) returns (runs: seq<string>)
    ensures runs == RawGaps(text)
  {
    hide RawGaps, Pending;
    runs := [];
    var seen := false;
    var current := "";
    var i := 0;
    PendingStarts(text);
    while i < |text|
      invariant 0 <= i <= |text|
      invariant !seen ==> current == ""
      invariant RawGaps(text) == runs + Pending(seen, current, text[i..])
    {
      assert text[i..][0] == text[i] && text[i..][1..] == text[i + 1..];
      if IsSpace(text[i]) {
        PendingSpace(seen, current, text[i..]);
        if seen {
          current := current + [text[i]];
        }
      } else {
        PendingCharacter(seen, current, text[i..]);
        if seen {
          ConcatAssociates(runs, [current], Pending(true, "", text[i + 1..]));
          runs := runs + [current];
        }
        current := "";
        seen := true;
      }
      i := i + 1;
    }
    PendingEnds(seen, current, text[i..]);
  }

  lemma PendingStarts(text: string)
    ensures Pending(false, "", text[0..]) == RawGaps(text)
  {
    assert text[0..] == text;
  }

  lemma PendingEnds(seen: bool, current: string, rest: string)
    requires rest == ""
    ensures Pending(seen, current, rest) == []
  {
  }

  /** What is still to be rendered from character `i` on. */
  ghost function Unrendered(chars: string, gaps: seq<Gap>, i: nat): string
    requires i <= |chars|
  {
    Render(chars[i..], if i < |gaps| then gaps[i..] else [])
  }

  lemma UnrenderedStep(chars: string, gaps: seq<Gap>, i: nat)
    requires i < |chars|
    ensures Unrendered(chars, gaps, i) ==
            [chars[i]] + (if i < |gaps| then Separator(gaps[i]) else "") + Unrendered(chars, gaps, i + 1)
  {
    assert chars[i..][1..] == chars[i + 1..];
    if i < |gaps| {
      assert gaps[i..][1..] == gaps[i + 1..];
      assert i + 1 == |gaps| ==> gaps[i + 1..] == [];
    } else {
      assert chars[i..] == [chars[i]] + chars[i + 1..];
      assert chars[i + 1..] == Render(chars[i + 1..], []);
    }
  }

  lemma UnrenderedEnds(chars: string, gaps: seq<Gap>)
    ensures Unrendered(chars, gaps, 0) == Render(chars, gaps) && Unrendered(chars, gaps, |chars|) == ""
  {
    assert chars[0..] == chars && gaps[0..] == gaps;
  }

  /** The loop of `_render_boundaries` and `_render_spacing_snapshot`. */
  method RenderBoundaries(chars: string, gaps: seq<Gap>) returns (text: string)
    ensures text == Render(chars, gaps)
  {
    UnrenderedEnds(chars, gaps);
    hide Unrendered, Render, Separator;
    text := "";
    for i := 0 to |chars|
      invariant text + Unrendered(chars, gaps, i) == Render(chars, gaps)
    {
      UnrenderedStep(chars, gaps, i);
      var piece := [chars[i]] + if i < |gaps| then Separator(gaps[i]) else "";
      ConcatAssociates(text, piece, Unrendered(chars, gaps, i + 1));
      text := text + piece;
    }
  }

  // ---------- algebra ----------

  lemma {:induction false} SqueezeConcat(a: string, b: string)
    ensures Squeeze(a + b) == Squeeze(a) + Squeeze(b)
  {
    if a == "" {
      assert a + b == b;
    } else {
      SqueezeConcat(a[1..], b);
      var head := if IsSpace(a[0]) then "" else [a[0]];
      assert (a + b)[0] == a[0] && (a + b)[1..] == a[1..] + b;
      ConcatAssociates(head, Squeeze(a[1..]), Squeeze(b));
    }
  }

  lemma {:induction false} SqueezeBlank(s: string)
    requires Blank(s)
    ensures Squeeze(s) == ""
  {
    if s != "" { SqueezeBlank(s[1..]); }
  }

  lemma {:induction false} SqueezeSpaceFree(s: string)
    ensures SpaceFree(Squeeze(s))
    ensures SpaceFree(s) ==> Squeeze(s) == s
  {
    if s != "" { SqueezeSpaceFree(s[1..]); }
  }

  /** Rendering only adds whitespace. */
  lemma {:induction false} SqueezeRender(chars: string, gaps: seq<Gap>)
    ensures Squeeze(Render(chars, gaps)) == Squeeze(chars)
  {
    if chars != "" && gaps != [] {
      var rest := Render(chars[1..], gaps[1..]);
      SqueezeRender(chars[1..], gaps[1..]);
      SqueezeBlank(Separator(gaps[0]));
      SqueezeConcat([chars[0]] + Separator(gaps[0]), rest);
      SqueezeConcat([chars[0]], Separator(gaps[0]));
      SqueezeConcat([chars[0]], chars[1..]);
      assert [chars[0]] + chars[1..] == chars;
    }
  }

  lemma TailCons(run: string, c: char, rest: string)
    requires Blank(run) && !IsSpace(c)
    ensures TailGaps(run + [c] + rest) == [run] + TailGaps(rest)
  {
    var s := run + [c] + rest;
    var k := Leading(s);
    assert s[|run|] == c && forall m :: 0 <= m < |run| ==> s[m] == run[m];
    assert forall m :: 0 <= m < k ==> s[..k][m] == s[m];
    assert k == |run|;
    assert s[..k] == run && s[k + 1..] == rest;
  }

  lemma ClassifiedCons(gap: Gap, runs: seq<string>)
    ensures Classified([Separator(gap)] + runs) == [gap] + Classified(runs)
  {
    var all := [Separator(gap)] + runs;
    assert Classify(Separator(gap)) == gap;
    forall i | 0 <= i < |runs| ensures all[i + 1] == runs[i] {}
  }

  lemma RenderCons(gap: Gap, chars: string, gaps: seq<Gap>)
    requires chars != "" && |gaps| == |chars| - 1
    ensures Separator(gap) + Render(chars, gaps) ==
            Separator(gap) + [chars[0]] + if gaps == [] then "" else Separator(gaps[0]) + Render(chars[1..], gaps[1..])
  {
  }

  /** Parsing what was rendered behind a first character gives the gaps back. */
  lemma {:induction false} TailInverse(gap: Gap, chars: string, gaps: seq<Gap>)
    requires SpaceFree(chars) && |gaps| + 1 == |chars|
    ensures Classified(TailGaps(Separator(gap) + Render(chars, gaps))) == [gap] + gaps
    decreases |chars|
  {
    var rest := if gaps == [] then "" else Separator(gaps[0]) + Render(chars[1..], gaps[1..]);
    if gaps == [] { assert Classified(TailGaps("")) == []; }
    RenderCons(gap, chars, gaps);
    hide TailGaps, Classified, Render;
    TailCons(Separator(gap), chars[0], rest);
    ClassifiedCons(gap, TailGaps(rest));
    if gaps != [] {
      TailInverse(gaps[0], chars[1..], gaps[1..]);
      assert [gaps[0]] + gaps[1..] == gaps;
    }
  }

  /** Parsing the rendered boundaries of whitespace-free characters returns the same
      characters and the same boundary states. */
  lemma ParseOfRender(chars: string, gaps: seq<Gap>)
    requires SpaceFree(chars)
    requires |gaps| == if chars == "" then 0 else |chars| - 1
    ensures Squeeze(Render(chars, gaps)) == chars
    ensures Gaps(Render(chars, gaps)) == gaps
  {
    SqueezeRender(chars, gaps);
    SqueezeSpaceFree(chars);
    if chars != "" {
      if gaps == [] { SingleCharacter(chars); } else { SeveralCharacters(chars, gaps); }
    }
  }

  lemma SingleCharacter(chars: string)
    requires SpaceFree(chars) && |chars| == 1
    ensures Gaps(Render(chars, [])) == []
  {
    RawAfterFirst(chars);
    assert chars[1..] == "";
  }

  lemma SeveralCharacters(chars: string, gaps: seq<Gap>)
    requires SpaceFree(chars) && gaps != [] && |chars| == |gaps| + 1
    ensures Gaps(Render(chars, gaps)) == gaps
  {
    FirstThenRest(chars, gaps);
    RestInverse(chars, gaps);
    hide Render, Separator, RawGaps, TailGaps, Classified;
    RawBehind(chars[0], Separator(gaps[0]) + Render(chars[1..], gaps[1..]));
  }

  lemma RawBehind(c: char, rest: string)
    requires !IsSpace(c)
    ensures RawGaps([c] + rest) == TailGaps(rest)
  {
    RawAfterFirst([c] + rest);
    assert ([c] + rest)[1..] == rest;
  }

  lemma RestInverse(chars: string, gaps: seq<Gap>)
    requires SpaceFree(chars) && gaps != [] && |chars| == |gaps| + 1
    ensures Classified(TailGaps(Separator(gaps[0]) + Render(chars[1..], gaps[1..]))) == gaps
  {
    hide Render, Separator, TailGaps, Classified;
    TailInverse(gaps[0], chars[1..], gaps[1..]);
    assert [gaps[0]] + gaps[1..] == gaps;
  }

  lemma FirstThenRest(chars: string, gaps: seq<Gap>)
    requires chars != "" && gaps != []
    ensures Render(chars, gaps) == [chars[0]] + (Separator(gaps[0]) + Render(chars[1..], gaps[1..]))
  {
    ConcatAssociates([chars[0]], Separator(gaps[0]), Render(chars[1..], gaps[1..]));
  }

  lemma RawAfterFirst(s: string)
    requires s != "" && !IsSpace(s[0])
    ensures RawGaps(s) == TailGaps(s[1..])
  {
    assert Leading(s) == 0;
  }

  lemma {:induction false} TailCount(s: string)
    ensures |TailGaps(s)| == |Squeeze(s)|
    decreases |s|
  {
    var k := Leading(s);
    assert s == s[..k] + s[k..];
    SqueezeBlank(s[..k]);
    SqueezeConcat(s[..k], s[k..]);
    if k < |s| {
      TailCount(s[k + 1..]);
      assert s[k..][1..] == s[k + 1..];
    }
  }

  /** One gap fewer than there are non-whitespace characters. */
  lemma GapCount(s: string)
    ensures |Gaps(s)| == if Squeeze(s) == "" then 0 else |Squeeze(s)| - 1
  {
    var k := Leading(s);
    assert s == s[..k] + s[k..];
    SqueezeBlank(s[..k]);
    SqueezeConcat(s[..k], s[k..]);
    if k < |s| {
      TailCount(s[k + 1..]);
      assert s[k..][1..] == s[k + 1..];
    }
  }

  /** `Normal` is an idempotent normal form that keeps every non-space character in order. */
  lemma NormalForm(s: string)
    ensures Squeeze(Normal(s)) == Squeeze(s)
    ensures Gaps(Normal(s)) == Gaps(s)
    ensures Normal(Normal(s)) == Normal(s)
  {
    GapCount(s);
    SqueezeSpaceFree(s);
    ParseOfRender(Squeeze(s), Gaps(s));
  }

  /** A text is in normal form exactly when some boundary states render it. */
  lemma NormalIffRendered(s: string)
    ensures Normal(s) == s <==>
              exists gaps: seq<Gap> :: |gaps| == |Gaps(s)| && Render(Squeeze(s), gaps) == s
  {
    GapCount(s);
    SqueezeSpaceFree(s);
    if Normal(s) == s {
      assert Render(Squeeze(s), Gaps(s)) == s;
    }
    forall gaps: seq<Gap> | |gaps| == |Gaps(s)| && Render(Squeeze(s), gaps) == s
      ensures Normal(s) == s
    {
      ParseOfRender(Squeeze(s), gaps);
    }
  }

  // ---------- slices ----------

  lemma {:induction false} RenderSplit(chars: string, gaps: seq<Gap>, i: nat)
    requires i <= |chars| && i <= |gaps|
    ensures Render(chars, gaps) == Render(chars[..i], gaps[..i]) + Render(chars[i..], gaps[i..])
  {
    if i == 0 {
      assert chars[0..] == chars && gaps[0..] == gaps;
    } else {
      RenderSplit(chars[1..], gaps[1..], i - 1);
      var head := [chars[0]] + Separator(gaps[0]);
      var left, right := Render(chars[1..][..i - 1], gaps[1..][..i - 1]), Render(chars[1..][i - 1..], gaps[1..][i - 1..]);
      assert Render(chars, gaps) == head + (left + right);
      assert Render(chars[..i], gaps[..i]) == head + left by {
        assert chars[..i][1..] == chars[1..][..i - 1] && gaps[..i][1..] == gaps[1..][..i - 1];
      }
      assert Render(chars[i..], gaps[i..]) == right by {
        assert chars[i..] == chars[1..][i - 1..] && gaps[i..] == gaps[1..][i - 1..];
      }
      ConcatAssociates(head, left, right);
    }
  }

  /** Where character `i` starts in the rendered text. */
  function Offset(chars: string, gaps: seq<Gap>, i: nat): nat
    requires i <= |chars| && i <= |gaps|
  {
    |Render(chars[..i], gaps[..i])|
  }

  lemma {:induction false} PrefixOfRender(chars: string, gaps: seq<Gap>, n: nat)
    requires 0 < n <= |chars| && |gaps| == |chars| - 1
    ensures Render(chars[..n], gaps[..n - 1]) <= Render(chars, gaps)
  {
    if n > 1 {
      PrefixOfRender(chars[1..], gaps[1..], n - 1);
      assert chars[..n][1..] == chars[1..][..n - 1];
      assert gaps[..n - 1][1..] == gaps[1..][..n - 2];
    }
  }

  /** The characters `i..j` with the gaps between them are a contiguous slice of the whole text. */
  lemma SliceOfRender(chars: string, gaps: seq<Gap>, i: nat, j: nat)
    requires i < j <= |chars| && |gaps| == |chars| - 1
    ensures var piece := Render(chars[i..j], gaps[i..j - 1]);
            var from := Offset(chars, gaps, i);
            from + |piece| <= |Render(chars, gaps)| && Render(chars, gaps)[from..from + |piece|] == piece
  {
    hide Render;
    RenderSplit(chars, gaps, i);
    PrefixOfRender(chars[i..], gaps[i..], j - i);
    assert chars[i..][..j - i] == chars[i..j];
    assert gaps[i..][..j - i - 1] == gaps[i..j - 1];
    var piece := Render(chars[i..j], gaps[i..j - 1]);
    var pre, post := Render(chars[..i], gaps[..i]), Render(chars[i..], gaps[i..]);
    assert piece == post[..|piece|];
    assert (pre + post)[|pre|..|pre| + |piece|] == post[..|piece|];
  }
}
