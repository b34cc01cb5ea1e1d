/** What the selected candidates come to in the document: the record's choice is the one used, and
    whitespace dispositions say what the rendered text does with each source whitespace. */
module CanonicalMeaning {
  import opened Common
  import opened Spacing
  import opened Candidates
  import opened Decisions
  import opened Ranking
  import opened Evidence
  import opened Canonical

  /** A record's selection is the candidate used: its own generated one, or the member of that ID;
      without a usable selection it is a best member of the set. */
  lemma SelectionIsUsed(set_: FilledSet, records: seq<Record>)
    ensures var c, record := SelectedCandidate(set_, records), RecordFor(records, set_.id);
            && (c in set_.candidates || (record.Some? && record.value.generated == Some(Full(c))))
            && (record.Some? && record.value.selected.Some?
                && (SelectsGenerated(set_, record.value) || record.value.selected.value in Ids(set_.candidates)) ==>
                  c.id == record.value.selected.value)
            && (record.None? || record.value.selected.None? ==> forall other :: other in set_.candidates ==> !Beaten(c, other))
  {
  }

  predicate Listed(c: SpacedCandidate, i: nat, id: AtomId) {
    i < |c.boundaries| && id in c.boundaries[i].whitespace
  }

  lemma {:induction false} BoundaryLists(boundaries: seq<Boundary>, id: AtomId)
    ensures var b := BoundaryWith(boundaries, id);
            if b.Some? then exists i :: 0 <= i < |boundaries| && boundaries[i] == b.value && id in boundaries[i].whitespace
            else forall i :: 0 <= i < |boundaries| ==> id !in boundaries[i].whitespace
  {
    if boundaries != [] {
      var n := |boundaries| - 1;
      BoundaryLists(boundaries[..n], id);
      if BoundaryWith(boundaries[..n], id).Some? {
        var i :| 0 <= i < n && boundaries[..n][i] == BoundaryWith(boundaries[..n], id).value && id in boundaries[..n][i].whitespace;
        assert boundaries[i] == boundaries[..n][i];
      }
      assert forall i :: 0 <= i < n ==> boundaries[..n][i] == boundaries[i];
    }
  }

  /** Under a selected spacing, a whitespace atom is retained when the rendered text has at its boundary
      the separator the atom itself stands for, normalized when it has another, and layout-only
      exactly when no boundary lists the atom. */
  lemma DispositionsFollowText(atom: Atom, c: SpacedCandidate, decision: DecisionId)
    requires ValidSpacing(c)
    ensures var d := DispositionOf(atom, Some(c), decision);
            && (d.outcome == LayoutOnly <==> forall i: nat :: !Listed(c, i, atom.id))
            && (d.outcome != LayoutOnly ==>
                  exists i: nat :: Listed(c, i, atom.id) && i < |Gaps(c.text)| && d.state == Gaps(c.text)[i]
                              && (d.outcome == Retained <==> Gaps(c.text)[i] == SourceState(atom.text)))
  {
    BoundariesAreParse(c);
    BoundaryLists(c.boundaries, atom.id);
    hide ValidSpacing, Gaps, BoundaryWith;
    var b := BoundaryWith(c.boundaries, atom.id);
    if b.Some? {
      var i :| 0 <= i < |c.boundaries| && c.boundaries[i] == b.value && atom.id in c.boundaries[i].whitespace;
      assert Listed(c, i, atom.id) && Gaps(c.text)[i] == b.value.gap;
    }
  }
}
