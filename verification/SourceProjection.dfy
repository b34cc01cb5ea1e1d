/** What a cell reads as when no spacing is selected: the normal form of its source text. */
module SourceProjection {
  import opened Common
  import opened Spacing
  import opened Candidates
  import opened Evidence
  import opened Canonical
  import opened Assembly

  // ---------- normal forms, piece by piece ----------

  lemma {:induction false} LeadingOver(run: string, s: string)
    requires Blank(run)
    ensures Leading(run + s) == |run| + Leading(s)
  {
    if run == "" {
      assert run + s == s;
    } else {
      assert (run + s)[0] == run[0] && (run + s)[1..] == run[1..] + s;
      LeadingOver(run[1..], s);
    }
  }

  lemma GapsBehind(run: string, s: string)
    requires Blank(run)
    ensures RawGaps(run + s) == RawGaps(s)
  {
    hide Leading, TailGaps, Blank;
    LeadingOver(run, s);
    var k := Leading(s);
    if k < |s| { assert (run + s)[|run| + k + 1..] == s[k + 1..]; }
  }

  /** Whitespace in front does not matter. */
  lemma NormalBehind(run: string, s: string)
    requires Blank(run)
    ensures Normal(run + s) == Normal(s)
  {
    hide RawGaps, Squeeze, Render, Classified;
    GapsBehind(run, s);
    SqueezeConcat(run, s);
    SqueezeBlank(run);
    assert "" + Squeeze(s) == Squeeze(s);
  }

  lemma TailOfBlank(run: string)
    requires Blank(run)
    ensures TailGaps(run) == []
  {
    LeadingOver(run, "");
    assert run + "" == run;
  }

  lemma TailOfText(run: string, s: string)
    requires Blank(run) && s != "" && !IsSpace(s[0])
    ensures TailGaps(run + s) == [run] + RawGaps(s)
  {
    hide TailGaps, RawGaps, Blank;
    TailCons(run, s[0], s[1..]);
    RawAfterFirst(s);
    assert run + s == run + [s[0]] + s[1..];
  }

  lemma ClassifiedFirst(run: string, runs: seq<string>)
    ensures Classified([run] + runs) == [Classify(run)] + Classified(runs)
  {
  }

  lemma GapsOfCons(c: char, run: string, s: string)
    requires !IsSpace(c) && Blank(run) && (s == "" || !IsSpace(s[0]))
    ensures Gaps([c] + (run + s)) == if s == "" then [] else [Classify(run)] + Gaps(s)
  {
    RawBehind(c, run + s);
    hide Classify, TailGaps, RawGaps, Classified, Leading;
    if s == "" {
      TailOfBlank(run);
      assert run + s == run;
      NoGaps();
    } else {
      TailOfText(run, s);
      ClassifiedFirst(run, RawGaps(s));
    }
  }

  lemma NoGaps()
    ensures Classified([]) == []
  {
  }

  /** A character, the whitespace behind it, and what comes then. */
  lemma NormalCons(c: char, run: string, s: string)
    requires !IsSpace(c) && Blank(run) && (s == "" || !IsSpace(s[0]))
    ensures Normal([c] + (run + s)) == [c] + if s == "" then "" else Separator(Classify(run)) + Normal(s)
  {
    GapsOfCons(c, run, s);
    SqueezeConcat([c], run + s);
    SqueezeConcat(run, s);
    SqueezeBlank(run);
    hide Gaps, Classify, Separator;
    var chars := Squeeze(s);
    assert Squeeze([c]) == [c] && "" + chars == chars;
    assert Squeeze([c] + (run + s)) == [c] + chars;
    if s == "" {
      assert Squeeze("") == "";
    } else {
      FirstThenRest([c] + chars, [Classify(run)] + Gaps(s));
      assert ([c] + chars)[1..] == chars && ([Classify(run)] + Gaps(s))[1..] == Gaps(s);
    }
  }

  lemma NormalChar(c: char, s: string)
    requires !IsSpace(c) && s != "" && !IsSpace(s[0])
    ensures Normal([c] + s) == [c] + Normal(s)
  {
    hide Normal, Separator, Classify;
    NormalCons(c, "", s);
    NoSeparator();
    assert "" + s == s && "" + Normal(s) == Normal(s);
  }

  /** The same for a text of several characters. */
  lemma {:induction false} NormalText(text: string, run: string, s: string)
    requires text != "" && SpaceFree(text) && Blank(run) && (s == "" || !IsSpace(s[0]))
    ensures Normal(text + (run + s)) == text + if s == "" then "" else Separator(Classify(run)) + Normal(s)
  {
    hide Normal, Separator, Classify, IsSpace;
    if |text| == 1 {
      NormalCons(text[0], run, s);
      assert text == [text[0]];
    } else {
      var rest, behind := text[1..], run + s;
      var end := if s == "" then "" else Separator(Classify(run)) + Normal(s);
      NormalText(rest, run, s);
      NormalChar(text[0], rest + behind);
      assert text == [text[0]] + rest;
      ConcatAssociates([text[0]], rest, behind);
      ConcatAssociates([text[0]], rest, end);
    }
  }

  lemma NoSeparator()
    ensures Separator(Classify("")) == ""
  {
  }

  // ---------- cells ----------

  predicate OneLine(a: Atom) {
    a.kind == Whitespace ==> '\n' !in a.text
  }

  /** The cell's atoms are known ones, each once, and whitespace other than line breaks is on one line. */
  ghost predicate Readable(catalog: Catalog, ids: seq<AtomId>) {
    && ValidCatalog(catalog) && Distinct(ids)
    && forall id :: id in ids ==> id in catalog && OneLine(catalog[id])
  }

  lemma At(ids: seq<AtomId>, k: nat)
    requires Distinct(ids) && k < |ids|
    ensures LastIndex(ids, ids[k]) == k
  {
  }

  lemma SliceOfTail(ids: seq<AtomId>, i: nat, j: nat)
    requires i <= j < |ids|
    ensures ids[i + 1..j + 1] == ids[1..][i..j]
  {
    var a, b := ids[i + 1..j + 1], ids[1..][i..j];
    assert |a| == |b| && forall k :: 0 <= k < |a| ==> a[k] == b[k];
  }

  lemma BetweenTail(ids: seq<AtomId>, a: AtomId, b: AtomId)
    requires ids != [] && Distinct(ids) && a in ids[1..] && b in ids[1..]
    ensures Between(ids, a, b) == Between(ids[1..], a, b)
  {
    hide LastIndex;
    var rest := ids[1..];
    var i, j := LastIndex(rest, a), LastIndex(rest, b);
    assert ids[i + 1] == rest[i] == a && ids[j + 1] == rest[j] == b;
    At(ids, i + 1);
    At(ids, j + 1);
    assert LastIndex(ids, a) == i + 1 && LastIndex(ids, b) == j + 1;
    if i < j {
      SliceOfTail(ids, i + 1, j);
      assert Between(ids, a, b) == ids[i + 2..j + 1] && Between(rest, a, b) == rest[i + 1..j];
    }
  }

  lemma {:induction false} WeaveTail(catalog: Catalog, ids: seq<AtomId>, chars: seq<AtomId>)
    requires ids != [] && Distinct(ids) && forall id :: id in chars ==> id in ids[1..]
    ensures Weave(catalog, ids, None, chars) == Weave(catalog, ids[1..], None, chars)
  {
    hide Between, Separator, IsBlankAtom;
    if |chars| > 1 {
      BetweenTail(ids, chars[0], chars[1]);
      WeaveTail(catalog, ids, chars[1..]);
    }
  }

  predicate HasBreak(catalog: Catalog, ids: seq<AtomId>) {
    exists id :: id in ids && id in catalog && catalog[id].kind == LineBreak
  }

  lemma {:induction false} BlankRun(catalog: Catalog, ids: seq<AtomId>)
    requires Readable(catalog, ids) && forall id :: id in ids ==> IsBlankAtom(catalog, id)
    ensures Blank(SourceText(catalog, ids)) && (SourceText(catalog, ids) == "" <==> ids == [])
    ensures '\n' in SourceText(catalog, ids) <==> HasBreak(catalog, ids)
  {
    if ids != [] {
      assert IsBlankAtom(catalog, ids[0]) && OneLine(catalog[ids[0]]) by { assert ids[0] in ids; }
      var text, rest := catalog[ids[0]].text, ids[1..];
      DistinctTail(ids);
      BlankRun(catalog, rest);
      assert ValidAtom(catalog[ids[0]]);
      assert forall id :: id in ids <==> id == ids[0] || id in rest;
      assert HasBreak(catalog, ids) <==> catalog[ids[0]].kind == LineBreak || HasBreak(catalog, rest);
      assert '\n' in text <==> catalog[ids[0]].kind == LineBreak;
      assert SourceText(catalog, ids) == text + SourceText(catalog, rest);
    }
  }

  /** The whitespace between two atoms links them as its text is classified. */
  lemma LinkIsRun(catalog: Catalog, ids: seq<AtomId>, a: AtomId, b: AtomId)
    requires var run := Between(ids, a, b); Readable(catalog, run) && forall id :: id in run ==> IsBlankAtom(catalog, id)
    ensures Link(catalog, ids, None, a, b) == Classify(SourceText(catalog, Between(ids, a, b)))
  {
    hide Between;
    var run := Between(ids, a, b);
    BlankRun(catalog, run);
    if run != [] { assert run[0] in run && IsBlankAtom(catalog, run[0]); }
    assert (exists id :: id in run && id in catalog && catalog[id].kind == LineBreak) <==> HasBreak(catalog, run);
    assert (exists id :: id in run && IsBlankAtom(catalog, id)) <==> run != [];
  }

  lemma {:induction false} SourceConcat(catalog: Catalog, a: seq<AtomId>, b: seq<AtomId>)
    ensures SourceText(catalog, a + b) == SourceText(catalog, a) + SourceText(catalog, b)
  {
    if a == [] {
      assert a + b == b;
    } else {
      SourceConcat(catalog, a[1..], b);
      assert (a + b)[0] == a[0] && (a + b)[1..] == a[1..] + b;
      ConcatAssociates(if a[0] in catalog then catalog[a[0]].text else "", SourceText(catalog, a[1..]), SourceText(catalog, b));
    }
  }

  /** Where the first visible atom stands, if there is one. */
  lemma {:induction false} FirstVisible(catalog: Catalog, ids: seq<AtomId>) returns (n: nat)
    requires forall id :: id in ids ==> id in catalog
    ensures n <= |ids| && (forall id :: id in ids[..n] ==> IsBlankAtom(catalog, id))
    ensures n == |ids| <==> VisibleOnly(catalog, ids) == []
    ensures n < |ids| ==> IsVisible(catalog, ids[n]) && VisibleOnly(catalog, ids)[0] == ids[n]
  {
    if ids == [] || IsVisible(catalog, ids[0]) {
      n := 0;
    } else {
      assert ids[0] in ids;
      n := FirstVisible(catalog, ids[1..]);
      assert ids[..n + 1] == [ids[0]] + ids[1..][..n];
      n := n + 1;
    }
  }

  lemma Part(catalog: Catalog, ids: seq<AtomId>, i: nat, j: nat)
    requires Readable(catalog, ids) && i <= j <= |ids|
    ensures Readable(catalog, ids[i..j])
  {
    var part := ids[i..j];
    assert forall k :: 0 <= k < |part| ==> part[k] == ids[k + i];
    assert forall id :: id in part ==> id in ids;
  }

  /** A visible atom in front: its text, the separator its whitespace stands for, and the rest. */
  lemma VisibleInFront(catalog: Catalog, ids: seq<AtomId>)
    requires Readable(catalog, ids) && ids != [] && IsVisible(catalog, ids[0])
    requires Project(catalog, ids[1..], None) == Normal(SourceText(catalog, ids[1..]))
    ensures Project(catalog, ids, None) == Normal(SourceText(catalog, ids))
  {
    hide Normal, Weave, Readable, Separator, Classify, SpaceFree, Blank, VisibleOnly;
    var rest, text := ids[1..], catalog[ids[0]].text;
    ReadableParts(catalog, ids);
    var n := FirstVisible(catalog, rest);
    var run, s := SourceText(catalog, rest[..n]), SourceText(catalog, rest[n..]);
    SourceFrom(catalog, ids, n);
    NormalText(text, run, s);
    NormalBehind(run, s);
    FrontWeave(catalog, ids, n);
  }

  /** The source text from a visible atom on: its own, the whitespace behind it, and the rest. */
  lemma SourceFrom(catalog: Catalog, ids: seq<AtomId>, n: nat)
    requires Readable(catalog, ids) && ids != [] && IsVisible(catalog, ids[0]) && n < |ids|
    requires forall id :: id in ids[1..][..n] ==> IsBlankAtom(catalog, id)
    requires n < |ids[1..]| ==> IsVisible(catalog, ids[1..][n])
    ensures var run, s := SourceText(catalog, ids[1..][..n]), SourceText(catalog, ids[1..][n..]);
            && SourceText(catalog, ids[1..]) == run + s && SourceText(catalog, ids) == catalog[ids[0]].text + (run + s)
            && Blank(run) && (s == "" || !IsSpace(s[0])) && (s == "" <==> n == |ids[1..]|)
  {
    hide Readable, Blank;
    var rest := ids[1..];
    assert rest == rest[..n] + rest[n..];
    SourceConcat(catalog, rest[..n], rest[n..]);
    assert rest[..n] == ids[1..n + 1];
    Part(catalog, ids, 1, n + 1);
    BlankRun(catalog, rest[..n]);
    if n < |rest| { ReadableStart(catalog, ids, rest[n..]); }
  }

  /** The projection from a visible atom on: its own text, the separator of the whitespace behind it, and the projection of the rest. */
  lemma FrontWeave(catalog: Catalog, ids: seq<AtomId>, n: nat)
    requires Readable(catalog, ids) && ids != [] && IsVisible(catalog, ids[0]) && n < |ids|
    requires forall id :: id in ids[1..][..n] ==> IsBlankAtom(catalog, id)
    requires n == |ids[1..]| <==> VisibleOnly(catalog, ids[1..]) == []
    requires n < |ids[1..]| ==> VisibleOnly(catalog, ids[1..])[0] == ids[1..][n]
    ensures Project(catalog, ids, None) ==
            catalog[ids[0]].text
            + if n == |ids[1..]| then "" else Separator(Classify(SourceText(catalog, ids[1..][..n]))) + Project(catalog, ids[1..], None)
  {
    var x, rest := ids[0], ids[1..];
    var chars := VisibleOnly(catalog, rest);
    assert VisibleOnly(catalog, ids) == [x] + chars;
    hide Readable, Separator, Classify, SourceText, Between, VisibleOnly, IsVisible, IsBlankAtom, Link;
    if chars == [] {
      assert [x] + chars == [x];
    } else {
      DistinctIds(catalog, ids);
      forall id | id in chars ensures id in rest { InVisible(catalog, rest, id); }
      WeaveTail(catalog, ids, chars);
      BetweenIs(ids, n + 1);
      assert rest[..n] == ids[1..n + 1] && ids[n + 1] == rest[n];
      Part(catalog, ids, 1, n + 1);
      LinkIsRun(catalog, ids, x, chars[0]);
      assert ([x] + chars)[1..] == chars;
      ConcatAssociates(catalog[x].text, Separator(Link(catalog, ids, None, x, chars[0])), Weave(catalog, ids, None, chars));
    }
  }

  lemma DistinctIds(catalog: Catalog, ids: seq<AtomId>)
    requires Readable(catalog, ids)
    ensures Distinct(ids)
  {
  }

  lemma ReadableParts(catalog: Catalog, ids: seq<AtomId>)
    requires Readable(catalog, ids) && ids != [] && IsVisible(catalog, ids[0])
    ensures Distinct(ids) && (forall id :: id in ids ==> id in catalog) && catalog[ids[0]].text != "" && SpaceFree(catalog[ids[0]].text)
  {
    var a := catalog[ids[0]];
    assert ids[0] in ids && ValidAtom(a);
    assert a.text != "";
  }

  lemma ReadableStart(catalog: Catalog, ids: seq<AtomId>, rest: seq<AtomId>)
    requires Readable(catalog, ids) && rest != [] && IsVisible(catalog, rest[0])
    ensures SourceText(catalog, rest) != "" && !IsSpace(SourceText(catalog, rest)[0])
  {
    var a := catalog[rest[0]];
    assert ValidAtom(a);
    assert a.text != "";
  }

  lemma BetweenIs(ids: seq<AtomId>, n: nat)
    requires Distinct(ids) && 0 < n < |ids|
    ensures Between(ids, ids[0], ids[n]) == ids[1..n]
  {
    At(ids, 0);
    At(ids, n);
  }

  /** The characters of atoms are those of their texts, whitespace left out. */
  lemma {:induction false} CharactersOfSource(catalog: Catalog, ids: seq<AtomId>)
    requires ValidCatalog(catalog)
    ensures Squeeze(SourceText(catalog, ids)) == AtomText(catalog, ids)
  {
    if ids != [] {
      var text, rest := if ids[0] in catalog then catalog[ids[0]].text else "", SourceText(catalog, ids[1..]);
      CharactersOfSource(catalog, ids[1..]);
      SqueezeConcat(text, rest);
      if IsVisible(catalog, ids[0]) {
        assert ValidAtom(catalog[ids[0]]);
        SqueezeSpaceFree(text);
      } else {
        SqueezeBlank(text);
      }
    }
  }

  /** Without a selected spacing a cell reads as the normal form of its source text: every run of whitespace between its characters
      becomes a line break, a space or nothing, as it has a line break, is not empty, or is. */
  lemma {:induction false} ProjectionIsNormal(catalog: Catalog, ids: seq<AtomId>)
    requires Readable(catalog, ids)
    ensures Project(catalog, ids, None) == Normal(SourceText(catalog, ids))
  {
    hide Normal, Readable, Weave;
    if ids == [] {
      NothingReads(catalog);
    } else {
      Part(catalog, ids, 1, |ids|);
      assert ids[1..] == ids[1..|ids|];
      ProjectionIsNormal(catalog, ids[1..]);
      if IsVisible(catalog, ids[0]) { VisibleInFront(catalog, ids); } else { BlankInFront(catalog, ids); }
    }
  }

  lemma NothingReads(catalog: Catalog)
    ensures Project(catalog, [], None) == Normal(SourceText(catalog, []))
  {
  }

  lemma BlankInFront(catalog: Catalog, ids: seq<AtomId>)
    requires Readable(catalog, ids) && ids != [] && !IsVisible(catalog, ids[0])
    requires Project(catalog, ids[1..], None) == Normal(SourceText(catalog, ids[1..]))
    ensures Project(catalog, ids, None) == Normal(SourceText(catalog, ids))
  {
    hide Normal, Weave, Link;
    assert ids[0] in ids;
    var rest := ids[1..];
    forall id | id in VisibleOnly(catalog, rest) ensures id in rest { InVisible(catalog, rest, id); }
    WeaveTail(catalog, ids, VisibleOnly(catalog, rest));
    NormalBehind(catalog[ids[0]].text, SourceText(catalog, rest));
    assert [] + VisibleOnly(catalog, rest) == VisibleOnly(catalog, rest);
  }
}
