/** What cell projection keeps: the cell's characters in every case, and the region's spacing
    when the cell is a slice of it. */
module CellProjection {
  import opened Common
  import opened Spacing
  import opened Candidates
  import opened Evidence
  import opened Canonical

  predicate AllVisible(catalog: Catalog, ids: seq<AtomId>) {
    forall i :: 0 <= i < |ids| ==> IsVisible(catalog, ids[i])
  }

  lemma {:induction false} VisibleAreVisible(catalog: Catalog, ids: seq<AtomId>)
    ensures AllVisible(catalog, VisibleOnly(catalog, ids))
  {
    if ids != [] { VisibleAreVisible(catalog, ids[1..]); }
  }

  lemma SeparatorIsBlank(gap: Gap)
    ensures Squeeze(Separator(gap)) == ""
  {
    SqueezeBlank(Separator(gap));
  }

  lemma AtomSqueezes(catalog: Catalog, id: AtomId)
    requires ValidCatalog(catalog) && IsVisible(catalog, id)
    ensures Squeeze(catalog[id].text) == catalog[id].text
  {
    assert ValidAtom(catalog[id]);
    SqueezeSpaceFree(catalog[id].text);
  }

  lemma {:induction false} WeaveKeepsCharacters(catalog: Catalog, ids: seq<AtomId>, spacing: Option<SpacedCandidate>, chars: seq<AtomId>)
    requires ValidCatalog(catalog) && AllVisible(catalog, chars)
    ensures Squeeze(Weave(catalog, ids, spacing, chars)) == AtomText(catalog, chars)
  {
    hide Link, Separator, Squeeze;
    if chars == [] {
      SqueezeBlank("");
    } else {
      var text := catalog[chars[0]].text;
      AtomSqueezes(catalog, chars[0]);
      assert chars[0] == chars[..][0] && IsVisible(catalog, chars[0]);
      if |chars| == 1 {
        assert chars[1..] == [] && text + "" == text;
      } else {
        var gap := Separator(Link(catalog, ids, spacing, chars[0], chars[1]));
        WeaveKeepsCharacters(catalog, ids, spacing, chars[1..]);
        SeparatorIsBlank(Link(catalog, ids, spacing, chars[0], chars[1]));
        SqueezeConcat(text + gap, Weave(catalog, ids, spacing, chars[1..]));
        SqueezeConcat(text, gap);
        assert text + "" == text;
      }
    }
  }

  /** Spacing present or not, deleting whitespace from a projected cell gives its source characters. */
  lemma ProjectionKeepsCharacters(catalog: Catalog, ids: seq<AtomId>, spacing: Option<SpacedCandidate>)
    requires ValidCatalog(catalog)
    ensures Squeeze(Project(catalog, ids, spacing)) == AtomText(catalog, ids)
  {
    VisibleAreVisible(catalog, ids);
    WeaveKeepsCharacters(catalog, ids, spacing, VisibleOnly(catalog, ids));
    TextOfVisible(catalog, ids);
  }

  // ---------- slices ----------

  /** Each character of the spacing candidate is the text of its atom. */
  predicate Spells(catalog: Catalog, c: SpacedCandidate) {
    |c.chars| == |c.atoms| && forall k :: 0 <= k < |c.atoms| ==> c.atoms[k] in catalog && catalog[c.atoms[k]].text == [c.chars[k]]
  }

  /** Between neighbours the spacing candidate decides. */
  lemma LinkIsGap(catalog: Catalog, ids: seq<AtomId>, c: SpacedCandidate, k: nat)
    requires ValidSpacing(c) && k + 1 < |c.atoms|
    ensures Link(catalog, ids, Some(c), c.atoms[k], c.atoms[k + 1]) == GapsOf(c.boundaries)[k]
  {
    var own := c.boundaries[k];
    assert own in c.boundaries && own.left == c.atoms[k] && own.right == c.atoms[k + 1];
    var state := StateBetween(c.boundaries, c.atoms[k], c.atoms[k + 1]);
    assert state.Some?;
    var b :| b in c.boundaries && b.left == c.atoms[k] && b.right == c.atoms[k + 1] && b.gap == state.value;
    var m :| 0 <= m < |c.boundaries| && c.boundaries[m] == b;
    assert c.atoms[m] == c.atoms[k];
  }

  lemma {:induction false} WeaveIsRender(catalog: Catalog, ids: seq<AtomId>, c: SpacedCandidate, i: nat, j: nat)
    requires ValidSpacing(c) && Spells(catalog, c) && i < j <= |c.atoms|
    ensures Weave(catalog, ids, Some(c), c.atoms[i..j]) == Render(c.chars[i..j], GapsOf(c.boundaries)[i..j - 1])
    decreases j - i
  {
    hide Link, ValidSpacing;
    var gaps := GapsOf(c.boundaries);
    assert |gaps| == |c.atoms| - 1 by { ValidLengths(c); }
    assert c.atoms[i..j][0] == c.atoms[i] && c.chars[i..j][0] == c.chars[i];
    if i + 1 == j {
      assert gaps[i..j - 1] == [] && c.chars[i..j] == [c.chars[i]];
    } else {
      WeaveIsRender(catalog, ids, c, i + 1, j);
      LinkIsGap(catalog, ids, c, i);
      assert c.atoms[i..j][1..] == c.atoms[i + 1..j] && c.chars[i..j][1..] == c.chars[i + 1..j];
      assert gaps[i..j - 1][0] == gaps[i] && gaps[i..j - 1][1..] == gaps[i + 1..j - 1];
      assert c.atoms[i..j][1] == c.atoms[i + 1];
    }
  }

  lemma ValidLengths(c: SpacedCandidate)
    requires ValidSpacing(c)
    ensures |GapsOf(c.boundaries)| == |c.atoms| - 1 == |c.chars| - 1 && Render(c.chars, GapsOf(c.boundaries)) == c.text
  {
  }

  /** A cell whose characters are the atoms from `i` to `j` of the selected spacing projects to
      exactly the matching slice of the spacing's rendered text. */
  lemma ProjectionIsSlice(catalog: Catalog, ids: seq<AtomId>, c: SpacedCandidate, i: nat, j: nat)
    requires ValidSpacing(c) && Spells(catalog, c) && i < j <= |c.atoms|
    requires VisibleOnly(catalog, ids) == c.atoms[i..j]
    ensures var gaps := GapsOf(c.boundaries);
            |gaps| == |c.chars| - 1 && i <= |gaps|
            && var from, piece := Offset(c.chars, gaps, i), Project(catalog, ids, Some(c));
               from + |piece| <= |c.text| && c.text[from..from + |piece|] == piece
  {
    hide Weave, Offset;
    ValidLengths(c);
    WeaveIsRender(catalog, ids, c, i, j);
    SliceOfRender(c.chars, GapsOf(c.boundaries), i, j);
  }
}
