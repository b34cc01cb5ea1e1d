/** Source evidence: atoms of text, their regions, and `_validate_evidence`. */
module Evidence {
  import opened Common
  import opened Spacing
  import opened Candidates

  type HypothesisId = int

  datatype AtomKind = Character | Whitespace | LineBreak

  datatype Authority = Embedded | Ocr | Ambiguous

  datatype Atom = Atom(id: AtomId, ordinal: nat, page: nat, text: string, kind: AtomKind)

  datatype Hypothesis = Hypothesis(id: HypothesisId, region: RegionId, page: nat)

  datatype EvidenceRegion = EvidenceRegion(
    id: RegionId, page: nat, atoms: seq<AtomId>, hypotheses: seq<HypothesisId>, authority: Authority)

  datatype EvidenceDocument = EvidenceDocument(
    source: Hash, pageCount: nat, atoms: seq<Atom>, hypotheses: seq<Hypothesis>, regions: seq<EvidenceRegion>)

  /** `str.isspace` of a whole text. */
  predicate IsBlank(text: string) {
    text != "" && Blank(text)
  }

  /** `EvidenceAtom.validate_kind` and the bounds on its text. */
  predicate ValidAtom(a: Atom) {
    && 1 <= |a.text| <= 2
    && match a.kind
       case LineBreak => a.text == "\n"
       case Whitespace => a.text != "\n" && IsBlank(a.text)
       case Character => SpaceFree(a.text)
  }

  // ---------- the atom catalog ----------

  type Catalog = map<AtomId, Atom>

  function AtomIds(atoms: seq<Atom>): seq<AtomId> {
    if atoms == [] then [] else [atoms[0].id] + AtomIds(atoms[1..])
  }

  function Ordinals(atoms: seq<Atom>): seq<int> {
    if atoms == [] then [] else [atoms[0].ordinal] + Ordinals(atoms[1..])
  }

  /** Atoms by ID; a later atom replaces an earlier one. */
  function CatalogOf(atoms: seq<Atom>): Catalog {
    if atoms == [] then map[] else var rest := CatalogOf(atoms[1..]); if atoms[0].id in rest then rest else rest[atoms[0].id := atoms[0]]
  }

  lemma {:induction false} CatalogKeys(atoms: seq<Atom>, id: AtomId)
    ensures id in CatalogOf(atoms) <==> id in AtomIds(atoms)
    ensures id in CatalogOf(atoms) ==> CatalogOf(atoms)[id] in atoms && CatalogOf(atoms)[id].id == id
  {
    if atoms != [] { CatalogKeys(atoms[1..], id); }
  }

  /** The atoms of a catalog are valid ones filed under their own IDs. */
  ghost predicate ValidCatalog(catalog: Catalog) {
    forall id :: id in catalog ==> ValidAtom(catalog[id]) && catalog[id].id == id
  }

  predicate IsVisible(catalog: Catalog, id: AtomId) {
    id in catalog && !IsBlank(catalog[id].text)
  }

  predicate IsBlankAtom(catalog: Catalog, id: AtomId) {
    id in catalog && IsBlank(catalog[id].text)
  }

  /** The IDs of known atoms that are not whitespace, in order. */
  function VisibleOnly(catalog: Catalog, ids: seq<AtomId>): seq<AtomId> {
    if ids == [] then [] else (if IsVisible(catalog, ids[0]) then [ids[0]] else []) + VisibleOnly(catalog, ids[1..])
  }

  function BlankOnly(catalog: Catalog, ids: seq<AtomId>): seq<AtomId> {
    if ids == [] then [] else (if IsBlankAtom(catalog, ids[0]) then [ids[0]] else []) + BlankOnly(catalog, ids[1..])
  }

  /** `_atom_text_sequence`. */
  function AtomText(catalog: Catalog, ids: seq<AtomId>): string {
    if ids == [] then ""
    else (if IsVisible(catalog, ids[0]) then catalog[ids[0]].text else "") + AtomText(catalog, ids[1..])
  }

  // ---------- counting atoms and characters ----------

  lemma {:induction false} VisibleCount(catalog: Catalog, ids: seq<AtomId>, id: AtomId)
    ensures multiset(VisibleOnly(catalog, ids))[id] == if IsVisible(catalog, id) then multiset(ids)[id] else 0
  {
    if ids != [] {
      assert ids == [ids[0]] + ids[1..];
      VisibleCount(catalog, ids[1..], id);
    }
  }

  lemma {:induction false} BlankCount(catalog: Catalog, ids: seq<AtomId>, id: AtomId)
    ensures multiset(BlankOnly(catalog, ids))[id] == if IsBlankAtom(catalog, id) then multiset(ids)[id] else 0
  {
    if ids != [] {
      assert ids == [ids[0]] + ids[1..];
      BlankCount(catalog, ids[1..], id);
    }
  }

  lemma {:induction false} AtomTextConcat(catalog: Catalog, a: seq<AtomId>, b: seq<AtomId>)
    ensures AtomText(catalog, a + b) == AtomText(catalog, a) + AtomText(catalog, b)
  {
    if a == [] {
      assert a + b == b;
    } else {
      var head := if IsVisible(catalog, a[0]) then catalog[a[0]].text else "";
      assert (a + b)[0] == a[0] && (a + b)[1..] == a[1..] + b;
      AtomTextConcat(catalog, a[1..], b);
      ConcatAssociates(head, AtomText(catalog, a[1..]), AtomText(catalog, b));
    }
  }

  lemma {:induction false} VisibleConcat(catalog: Catalog, a: seq<AtomId>, b: seq<AtomId>)
    ensures VisibleOnly(catalog, a + b) == VisibleOnly(catalog, a) + VisibleOnly(catalog, b)
  {
    if a == [] {
      assert a + b == b;
    } else {
      var head := if IsVisible(catalog, a[0]) then [a[0]] else [];
      assert (a + b)[0] == a[0] && (a + b)[1..] == a[1..] + b;
      VisibleConcat(catalog, a[1..], b);
      ConcatAssociates(head, VisibleOnly(catalog, a[1..]), VisibleOnly(catalog, b));
    }
  }

  /** Only the visible atoms contribute characters. */
  lemma {:induction false} TextOfVisible(catalog: Catalog, ids: seq<AtomId>)
    ensures AtomText(catalog, VisibleOnly(catalog, ids)) == AtomText(catalog, ids)
    ensures VisibleOnly(catalog, VisibleOnly(catalog, ids)) == VisibleOnly(catalog, ids)
  {
    if ids != [] {
      TextOfVisible(catalog, ids[1..]);
      var rest := VisibleOnly(catalog, ids[1..]);
      if IsVisible(catalog, ids[0]) {
        assert ([ids[0]] + rest)[1..] == rest;
      } else {
        assert [] + rest == rest;
      }
    }
  }

  lemma {:induction false} InVisible(catalog: Catalog, ids: seq<AtomId>, id: AtomId)
    ensures id in VisibleOnly(catalog, ids) <==> id in ids && IsVisible(catalog, id)
  {
    VisibleCount(catalog, ids, id);
    assert id in ids <==> multiset(ids)[id] > 0;
    assert id in VisibleOnly(catalog, ids) <==> multiset(VisibleOnly(catalog, ids))[id] > 0;
  }

  /** The characters of atoms do not depend on the order the atoms come in. */
  lemma {:induction false} TextPermutes(catalog: Catalog, a: seq<AtomId>, b: seq<AtomId>)
    requires multiset(a) == multiset(b)
    ensures multiset(AtomText(catalog, a)) == multiset(AtomText(catalog, b))
  {
    hide AtomText;
    if a == [] {
      assert |multiset(b)| == |b|;
    } else {
      assert a[0] in multiset(b);
      var i :| 0 <= i < |b| && b[i] == a[0];
      RemoveBoth(a, b, i);
      TextPermutes(catalog, a[1..], b[..i] + b[i + 1..]);
      TextAround(catalog, b, i);
      AtomTextConcat(catalog, [a[0]], a[1..]);
      assert [a[0]] + a[1..] == a;
    }
  }

  /** The text around one atom and the atom's own. */
  lemma TextAround(catalog: Catalog, b: seq<AtomId>, i: nat)
    requires i < |b|
    ensures multiset(AtomText(catalog, b)) == multiset(AtomText(catalog, b[..i] + b[i + 1..])) + multiset(AtomText(catalog, [b[i]]))
  {
    hide AtomText;
    AtomTextConcat(catalog, b[..i] + [b[i]], b[i + 1..]);
    AtomTextConcat(catalog, b[..i], [b[i]]);
    AtomTextConcat(catalog, b[..i], b[i + 1..]);
    assert b == b[..i] + [b[i]] + b[i + 1..];
  }

  // ---------- validation ----------

  function RegionIds(regions: seq<EvidenceRegion>): seq<RegionId> {
    if regions == [] then [] else [regions[0].id] + RegionIds(regions[1..])
  }

  function HypothesisIds(hypotheses: seq<Hypothesis>): seq<HypothesisId> {
    if hypotheses == [] then [] else [hypotheses[0].id] + HypothesisIds(hypotheses[1..])
  }

  /** The atoms of the regions, region after region. */
  function OwnedAtoms(regions: seq<EvidenceRegion>): seq<AtomId> {
    if regions == [] then [] else OwnedAtoms(regions[..|regions| - 1]) + regions[|regions| - 1].atoms
  }

  datatype EvidenceError =
    | AtomsNotUnique | RegionsNotUnique | HypothesesNotUnique
    | AtomPageInvalid | RegionPageInvalid | HypothesisPageInvalid
    | AuthorityUnresolved | RegionAtomsRequired | RegionAtomUnknown | HypothesisUnknown | HypothesisMismatch
    | HypothesisRegionUnknown | OwnershipNotUnique | OwnershipIncomplete

  /** A region's hypotheses are known and are about that region and its page. */
  ghost predicate OwnHypotheses(region: EvidenceRegion, hypotheses: seq<Hypothesis>) {
    forall id :: id in region.hypotheses ==>
      exists h :: h in hypotheses && h.id == id && h.region == region.id && h.page == region.page
  }

  ghost predicate ValidRegion(region: EvidenceRegion, e: EvidenceDocument, resolved: bool) {
    && (resolved ==> region.authority != Ambiguous && region.atoms != [])
    && (forall id :: id in region.atoms ==> id in AtomIds(e.atoms))
    && OwnHypotheses(region, e.hypotheses)
  }

  ghost predicate ValidPages(e: EvidenceDocument) {
    && (forall a :: a in e.atoms ==> a.page <= e.pageCount)
    && (forall r :: r in e.regions ==> r.page <= e.pageCount)
    && (forall h :: h in e.hypotheses ==> h.page <= e.pageCount)
  }

  /** Every atom belongs to exactly one place in exactly one region. */
  ghost predicate Owned(e: EvidenceDocument) {
    multiset(OwnedAtoms(e.regions)) == multiset(AtomIds(e.atoms))
  }

  ghost predicate WellFormed(e: EvidenceDocument, resolved: bool) {
    && Distinct(AtomIds(e.atoms)) && Distinct(Ordinals(e.atoms))
    && Distinct(RegionIds(e.regions)) && Distinct(HypothesisIds(e.hypotheses))
    && ValidPages(e)
    && (forall r :: r in e.regions ==> ValidRegion(r, e, resolved))
    && (forall h :: h in e.hypotheses ==> h.region in RegionIds(e.regions))
    && Owned(e)
  }

  /** The document spelled out: IDs and ordinals differ, pages are within the document, regions own known atoms and hypotheses of their own - when
      resolved, some atoms and no ambiguous authority - and every hypothesis is about a region, every atom in one place. */
  ghost predicate SpelledOut(e: EvidenceDocument, resolved: bool) {
    && (forall i, j :: 0 <= i < j < |e.atoms| ==> e.atoms[i].id != e.atoms[j].id && e.atoms[i].ordinal != e.atoms[j].ordinal)
    && (forall i, j :: 0 <= i < j < |e.regions| ==> e.regions[i].id != e.regions[j].id)
    && (forall i, j :: 0 <= i < j < |e.hypotheses| ==> e.hypotheses[i].id != e.hypotheses[j].id)
    && (forall a :: a in e.atoms ==> a.page <= e.pageCount)
    && (forall r :: r in e.regions ==>
          && r.page <= e.pageCount && (resolved ==> r.authority != Ambiguous && |r.atoms| > 0)
          && (forall id :: id in r.atoms ==> exists a :: a in e.atoms && a.id == id)
          && (forall id :: id in r.hypotheses ==> exists h :: h in e.hypotheses && h.id == id && h.region == r.id && h.page == r.page))
    && (forall h :: h in e.hypotheses ==> h.page <= e.pageCount && exists r :: r in e.regions && r.id == h.region)
    && forall id :: InOnePlace(e, id)
  }

  /** An atom of the document is owned once, and nothing else is owned. */
  predicate InOnePlace(e: EvidenceDocument, id: AtomId) {
    Ownings(e.regions, id) == if exists a :: a in e.atoms && a.id == id then 1 else 0
  }

  /** How often the regions own an atom. */
  function Ownings(regions: seq<EvidenceRegion>, id: AtomId): nat {
    if regions == [] then 0 else Ownings(regions[..|regions| - 1], id) + multiset(regions[|regions| - 1].atoms)[id]
  }

  lemma {:induction false} OwningsCount(regions: seq<EvidenceRegion>, id: AtomId)
    ensures multiset(OwnedAtoms(regions))[id] == Ownings(regions, id)
  {
    if regions != [] { OwningsCount(regions[..|regions| - 1], id); }
  }

  lemma {:induction false} AtomsListed(atoms: seq<Atom>)
    ensures |AtomIds(atoms)| == |Ordinals(atoms)| == |atoms|
    ensures forall i :: 0 <= i < |atoms| ==> AtomIds(atoms)[i] == atoms[i].id && Ordinals(atoms)[i] == atoms[i].ordinal
  {
    if atoms != [] {
      AtomsListed(atoms[1..]);
      assert forall i :: 0 < i < |atoms| ==> atoms[i] == atoms[1..][i - 1];
    }
  }

  lemma {:induction false} RegionsListed(regions: seq<EvidenceRegion>)
    ensures |RegionIds(regions)| == |regions| && forall i :: 0 <= i < |regions| ==> RegionIds(regions)[i] == regions[i].id
  {
    if regions != [] {
      RegionsListed(regions[1..]);
      assert forall i :: 0 < i < |regions| ==> regions[i] == regions[1..][i - 1];
    }
  }

  lemma {:induction false} HypothesesListed(hypotheses: seq<Hypothesis>)
    ensures |HypothesisIds(hypotheses)| == |hypotheses| && forall i :: 0 <= i < |hypotheses| ==> HypothesisIds(hypotheses)[i] == hypotheses[i].id
  {
    if hypotheses != [] {
      HypothesesListed(hypotheses[1..]);
      assert forall i :: 0 < i < |hypotheses| ==> hypotheses[i] == hypotheses[1..][i - 1];
    }
  }

  lemma IdListed(e: EvidenceDocument, id: int)
    ensures id in AtomIds(e.atoms) <==> exists a :: a in e.atoms && a.id == id
    ensures id in RegionIds(e.regions) <==> exists r :: r in e.regions && r.id == id
  {
    hide AtomIds, RegionIds, Ordinals;
    AtomsListed(e.atoms);
    RegionsListed(e.regions);
    if id in AtomIds(e.atoms) {
      var i :| 0 <= i < |e.atoms| && AtomIds(e.atoms)[i] == id;
      assert e.atoms[i] in e.atoms;
    }
    if id in RegionIds(e.regions) {
      var i :| 0 <= i < |e.regions| && RegionIds(e.regions)[i] == id;
      assert e.regions[i] in e.regions;
    }
  }

  lemma OwnedCounts(e: EvidenceDocument)
    requires Distinct(AtomIds(e.atoms))
    ensures Owned(e) <==> forall id :: InOnePlace(e, id)
  {
    hide OwnedAtoms, AtomIds, Ownings, Distinct, RegionIds;
    var owned, ids := multiset(OwnedAtoms(e.regions)), multiset(AtomIds(e.atoms));
    forall id ensures InOnePlace(e, id) <==> owned[id] == ids[id] {
      OwningsCount(e.regions, id);
      IdListed(e, id);
      DistinctMultiset(AtomIds(e.atoms), id);
    }
    if forall id :: InOnePlace(e, id) {
      forall id ensures owned[id] == ids[id] { assert InOnePlace(e, id); }
      assert owned == ids;
    }
  }

  /** What is well-formed is just that. */
  lemma WellFormedIff(e: EvidenceDocument, resolved: bool)
    ensures WellFormed(e, resolved) <==> SpelledOut(e, resolved)
  {
    hide AtomIds, RegionIds, Ordinals, HypothesisIds, Owned, InOnePlace;
    AtomsListed(e.atoms);
    RegionsListed(e.regions);
    HypothesesListed(e.hypotheses);
    forall id ensures (id in AtomIds(e.atoms) <==> exists a :: a in e.atoms && a.id == id)
                   && (id in RegionIds(e.regions) <==> exists r :: r in e.regions && r.id == id)
    {
      IdListed(e, id);
    }
    if Distinct(AtomIds(e.atoms)) { OwnedCounts(e); }
  }

  function HypothesisById(hypotheses: seq<Hypothesis>, id: HypothesisId): (h: Option<Hypothesis>)
    ensures h.Some? ==> h.value in hypotheses && h.value.id == id && id in HypothesisIds(hypotheses)
    ensures h.None? ==> id !in HypothesisIds(hypotheses) && forall other :: other in hypotheses ==> other.id != id
  {
    if hypotheses == [] then None
    else
      var rest := HypothesisById(hypotheses[1..], id);
      if rest.Some? then rest else if hypotheses[0].id == id then Some(hypotheses[0]) else None
  }

  /** With distinct IDs the lookup is the only hypothesis of that ID. */
  lemma {:induction false} OnlyOne(hypotheses: seq<Hypothesis>, h: Hypothesis)
    requires Distinct(HypothesisIds(hypotheses)) && h in hypotheses
    ensures HypothesisById(hypotheses, h.id) == Some(h)
  {
    DistinctTail(HypothesisIds(hypotheses));
    assert HypothesisIds(hypotheses)[1..] == HypothesisIds(hypotheses[1..]);
    if h in hypotheses[1..] { OnlyOne(hypotheses[1..], h); }
  }

  lemma OwnedIff(e: EvidenceDocument)
    requires Distinct(AtomIds(e.atoms))
    ensures Owned(e) <==> Distinct(OwnedAtoms(e.regions)) && forall id :: id in OwnedAtoms(e.regions) <==> id in AtomIds(e.atoms)
  {
    var owned, ids := OwnedAtoms(e.regions), AtomIds(e.atoms);
    if Owned(e) {
      forall x ensures multiset(owned)[x] <= 1 { DistinctMultiset(ids, x); }
      BagIsDistinct(owned);
      forall id ensures id in owned <==> id in ids {
        assert id in multiset(owned) <==> id in multiset(ids);
      }
    }
    if Distinct(owned) && forall id :: id in owned <==> id in ids {
      SameBag(owned, ids);
    }
  }

  /** The inner loop over one region's hypotheses. */
  method CheckHypotheses(region: EvidenceRegion, hypotheses: seq<Hypothesis>) returns (error: Option<EvidenceError>)
    requires Distinct(HypothesisIds(hypotheses))
    ensures error.None? <==> OwnHypotheses(region, hypotheses)
    ensures error != Some(OwnershipIncomplete)
  {
    if exists id :: id in region.hypotheses && HypothesisById(hypotheses, id).None? {
      return Some(HypothesisUnknown);
    }
    for i := 0 to |region.hypotheses|
      invariant forall k :: 0 <= k < i ==>
        exists h :: h in hypotheses && h.id == region.hypotheses[k] && h.region == region.id && h.page == region.page
    {
      var h := HypothesisById(hypotheses, region.hypotheses[i]).value;
      if h.region != region.id || h.page != region.page {
        forall other | other in hypotheses && other.id == h.id ensures other == h {
          OnlyOne(hypotheses, other);
        }
        assert region.hypotheses[i] in region.hypotheses;
        return Some(HypothesisMismatch);
      }
    }
    error := None;
  }

  /** The loop of `_validate_evidence` over the regions: checks each and accumulates ownership. */
  method CheckRegions(e: EvidenceDocument, resolved: bool) returns (error: Option<EvidenceError>, ownership: seq<AtomId>)
    requires Distinct(HypothesisIds(e.hypotheses))
    ensures error.None? <==> forall r :: r in e.regions ==> ValidRegion(r, e, resolved)
    ensures error.None? ==> ownership == OwnedAtoms(e.regions)
    ensures error != Some(OwnershipIncomplete)
  {
    ownership := [];
    var known := AtomIds(e.atoms);
    for i := 0 to |e.regions|
      invariant forall k :: 0 <= k < i ==> ValidRegion(e.regions[k], e, resolved)
      invariant ownership == OwnedAtoms(e.regions[..i])
    {
      var region := e.regions[i];
      assert region in e.regions;
      if resolved && region.authority == Ambiguous {
        return Some(AuthorityUnresolved), ownership;
      }
      if resolved && region.atoms == [] {
        return Some(RegionAtomsRequired), ownership;
      }
      if exists id :: id in region.atoms && id !in known {
        return Some(RegionAtomUnknown), ownership;
      }
      error := CheckHypotheses(region, e.hypotheses);
      if error.Some? {
        return;
      }
      assert e.regions[..i + 1][..i] == e.regions[..i];
      ownership := ownership + region.atoms;
    }
    assert e.regions[..|e.regions|] == e.regions;
    error := None;
  }

  /** `_validate_evidence` accepts exactly the well-formed documents, in which every atom is owned
      by one place of one region. */
  method ValidateEvidence(e: EvidenceDocument, resolved: bool) returns (error: Option<EvidenceError>)
    ensures error.None? <==> WellFormed(e, resolved)
    ensures error == Some(OwnershipIncomplete) ==> exists id :: id in AtomIds(e.atoms) && id !in OwnedAtoms(e.regions)
  {
    hide AtomIds, Ordinals, RegionIds, HypothesisIds, OwnedAtoms, ValidRegion, Owned, Distinct;
    DistinctByCount(AtomIds(e.atoms));
    DistinctByCount(Ordinals(e.atoms));
    DistinctByCount(RegionIds(e.regions));
    DistinctByCount(HypothesisIds(e.hypotheses));
    if |AtomIds(e.atoms)| != |set id | id in AtomIds(e.atoms)| || |Ordinals(e.atoms)| != |set o | o in Ordinals(e.atoms)| {
      return Some(AtomsNotUnique);
    }
    if |RegionIds(e.regions)| != |set id | id in RegionIds(e.regions)| { return Some(RegionsNotUnique); }
    if |HypothesisIds(e.hypotheses)| != |set id | id in HypothesisIds(e.hypotheses)| { return Some(HypothesesNotUnique); }
    if exists a :: a in e.atoms && a.page > e.pageCount { return Some(AtomPageInvalid); }
    if exists r :: r in e.regions && r.page > e.pageCount { return Some(RegionPageInvalid); }
    if exists h :: h in e.hypotheses && h.page > e.pageCount { return Some(HypothesisPageInvalid); }
    var problem, ownership := CheckRegions(e, resolved);
    if problem.Some? { return problem; }
    if exists h :: h in e.hypotheses && h.region !in RegionIds(e.regions) { return Some(HypothesisRegionUnknown); }
    OwnedIff(e);
    DistinctByCount(ownership);
    if |ownership| != |set id | id in ownership| { return Some(OwnershipNotUnique); }
    var owned, known := set id | id in ownership, set id | id in AtomIds(e.atoms);
    OwnedIsSet(ownership, AtomIds(e.atoms));
    if owned != known {
      KnownRegionAtoms(e, resolved);
      return Some(OwnershipIncomplete);
    }
    assert ValidPages(e);
    error := None;
  }

  lemma OwnedIsSet(a: seq<AtomId>, b: seq<AtomId>)
    ensures (set id | id in a) == (set id | id in b) <==> (forall id :: id in a <==> id in b)
  {
    var x, y := set id | id in a, set id | id in b;
    if x == y {
      forall id ensures id in a <==> id in b {
        assert (id in x) == (id in a) && (id in y) == (id in b);
      }
    }
    if forall id :: id in a <==> id in b { assert x == y; }
  }

  /** Checked regions own known atoms only. */
  lemma KnownRegionAtoms(e: EvidenceDocument, resolved: bool)
    requires forall r :: r in e.regions ==> ValidRegion(r, e, resolved)
    ensures forall id :: id in OwnedAtoms(e.regions) ==> id in AtomIds(e.atoms)
  {
    forall id | id in OwnedAtoms(e.regions) ensures id in AtomIds(e.atoms) {
      OwnedBySome(e.regions, id);
    }
  }

  lemma {:induction false} OwnedBySome(regions: seq<EvidenceRegion>, id: AtomId)
    ensures id in OwnedAtoms(regions) <==> exists r :: r in regions && id in r.atoms
  {
    if regions != [] {
      var n := |regions| - 1;
      OwnedBySome(regions[..n], id);
      assert regions == regions[..n] + [regions[n]];
    }
  }
}
