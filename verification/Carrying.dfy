/** Immutable IDs of columns and relationships: how `_resolve_tables` and `_build_relationships`
    carry the records of a table or product over to its next version. */
module Carrying {
  import opened Common
  import opened Sorting
  import opened Identity

  /** A supply of new IDs, drawn one after the other. */
  type Supply = nat -> RecordId

  predicate HasId(records: seq<NamedRecord>, id: RecordId) {
    exists r :: r in records && r.id == id
  }

  predicate UniqueIds(records: seq<NamedRecord>) {
    forall a, b :: a in records && b in records && a.id == b.id ==> a == b
  }

  /** IDs still to be drawn are none of these records'. */
  ghost predicate Unused(supply: Supply, next: nat, records: seq<NamedRecord>) {
    forall k :: k >= next ==> !HasId(records, supply(k))
  }

  /** Every old ID is kept, and a retired record is kept as it is. */
  ghost predicate Carries(old_: seq<NamedRecord>, new_: seq<NamedRecord>) {
    && (forall o :: o in old_ ==> HasId(new_, o.id))
    && forall o, n :: o in old_ && n in new_ && n.id == o.id && o.status == Retired ==> n == o
  }

  /** The first record a casefolded name matches, by name or alias. */
  function Matched(existing: seq<NamedRecord>, name: Name): (r: Option<NamedRecord>)
    ensures r.Some? ==> r.value in existing
    ensures r.Some? ==> name.folded == r.value.name.folded || name.folded in r.value.aliases
  {
    if existing == [] then None
    else if name.folded == existing[0].name.folded || name.folded in existing[0].aliases then Some(existing[0])
    else Matched(existing[1..], name)
  }

  predicate MatchesRetired(existing: seq<NamedRecord>, name: Name) {
    Matched(existing, name).Some? && Matched(existing, name).value.status == Retired
  }

  /** The active record of a name: the matched one's ID and aliases, or the next new ID. */
  function ActiveRecord(existing: seq<NamedRecord>, name: Name, supply: Supply, next: nat): NamedRecord {
    var matched := Matched(existing, name);
    if matched.Some? then NamedRecord(matched.value.id, name, matched.value.aliases, Active)
    else NamedRecord(supply(next), name, [], Active)
  }

  function NextAfter(existing: seq<NamedRecord>, name: Name, next: nat): nat {
    if Matched(existing, name).Some? then next else next + 1
  }

  /** How far the supply is drawn for some names. */
  function Drawn(existing: seq<NamedRecord>, names: seq<Name>, next: nat): (after: nat)
    ensures next <= after
  {
    if names == [] then next else NextAfter(existing, names[|names| - 1], Drawn(existing, names[..|names| - 1], next))
  }

  function ActiveRecords(existing: seq<NamedRecord>, names: seq<Name>, supply: Supply, next: nat): (r: seq<NamedRecord>)
    ensures |r| == |names|
  {
    if names == [] then []
    else
      var n := |names| - 1;
      ActiveRecords(existing, names[..n], supply, next) + [ActiveRecord(existing, names[n], supply, Drawn(existing, names[..n], next))]
  }

  /** The existing records whose IDs were not matched, retired. */
  function Retire(existing: seq<NamedRecord>, kept: set<RecordId>): seq<NamedRecord> {
    if existing == [] then []
    else
      var n := |existing| - 1;
      Retire(existing[..n], kept) + if existing[n].id in kept then [] else [existing[n].(status := Retired)]
  }

  function Ids(records: seq<NamedRecord>): set<RecordId> {
    set r | r in records :: r.id
  }

  /** The column records of a table's next version. */
  function NextColumns(existing: seq<NamedRecord>, names: seq<Name>, supply: Supply, next: nat): seq<NamedRecord> {
    var active := ActiveRecords(existing, names, supply, next);
    active + Retire(existing, Ids(active))
  }

  predicate ReusesRetired(existing: seq<NamedRecord>, names: seq<Name>) {
    exists name :: name in names && MatchesRetired(existing, name)
  }

  // ---------- the loop ----------

  /** The inner loops of `_resolve_tables` over one table's columns; nothing when a retired
      column would be reused. */
  method ResolveColumns(existing: seq<NamedRecord>, names: seq<Name>, supply: Supply, next: nat)
    returns (columns: Option<seq<NamedRecord>>, after: nat)
    ensures columns.None? <==> ReusesRetired(existing, names)
    ensures columns.Some? ==> columns.value == NextColumns(existing, names, supply, next) && after == Drawn(existing, names, next)
  {
    var records, matched: set<RecordId> := [], {};
    after := next;
    for i := 0 to |names|
      invariant records == ActiveRecords(existing, names[..i], supply, next) && after == Drawn(existing, names[..i], next)
      invariant matched == Ids(records)
      invariant forall k :: 0 <= k < i ==> !MatchesRetired(existing, names[k])
    {
      assert names[..i + 1][..i] == names[..i];
      var name := names[i];
      if MatchesRetired(existing, name) {
        assert name in names;
        return None, after;
      }
      var record := ActiveRecord(existing, name, supply, after);
      IdsAfter(records, record);
      records, matched, after := records + [record], matched + {record.id}, NextAfter(existing, name, after);
    }
    assert names[..|names|] == names;
    var retired := [];
    for i := 0 to |existing|
      invariant retired == Retire(existing[..i], matched)
    {
      assert existing[..i + 1][..i] == existing[..i];
      if existing[i].id !in matched { retired := retired + [existing[i].(status := Retired)]; }
    }
    assert existing[..|existing|] == existing;
    columns := Some(records + retired);
  }

  lemma IdsAfter(records: seq<NamedRecord>, record: NamedRecord)
    ensures Ids(records + [record]) == Ids(records) + {record.id}
  {
    assert forall r :: r in records + [record] <==> r in records || r == record;
  }

  // ---------- what is carried ----------

  lemma {:induction false} InRetire(existing: seq<NamedRecord>, kept: set<RecordId>, r: NamedRecord)
    ensures r in Retire(existing, kept) <==> exists o :: o in existing && o.id !in kept && r == o.(status := Retired)
  {
    if existing != [] {
      var n := |existing| - 1;
      InRetire(existing[..n], kept, r);
      assert forall o :: o in existing <==> o in existing[..n] || o == existing[n];
    }
  }

  lemma {:induction false} InActive(existing: seq<NamedRecord>, names: seq<Name>, supply: Supply, next: nat, r: NamedRecord)
    requires r in ActiveRecords(existing, names, supply, next)
    ensures exists name, k :: name in names && k >= next && r == ActiveRecord(existing, name, supply, k)
  {
    var n := |names| - 1;
    if r in ActiveRecords(existing, names[..n], supply, next) {
      InActive(existing, names[..n], supply, next, r);
      var name, k :| name in names[..n] && k >= next && r == ActiveRecord(existing, name, supply, k);
      assert name in names;
    } else {
      assert r == ActiveRecord(existing, names[n], supply, Drawn(existing, names[..n], next)) && names[n] in names;
    }
  }

  /** An active record never has the ID of a retired one. */
  lemma ActiveIsNotRetired(existing: seq<NamedRecord>, names: seq<Name>, supply: Supply, next: nat, r: NamedRecord, o: NamedRecord)
    requires UniqueIds(existing) && Unused(supply, next, existing) && !ReusesRetired(existing, names)
    requires r in ActiveRecords(existing, names, supply, next) && o in existing && o.status == Retired
    ensures r.id != o.id
  {
    InActive(existing, names, supply, next, r);
    var name, k :| name in names && k >= next && r == ActiveRecord(existing, name, supply, k);
    assert !MatchesRetired(existing, name);
    assert !HasId(existing, supply(k));
  }

  /** Every old column ID is kept, and a retired column stays as it is. */
  lemma ColumnsCarried(existing: seq<NamedRecord>, names: seq<Name>, supply: Supply, next: nat)
    requires UniqueIds(existing) && Unused(supply, next, existing) && !ReusesRetired(existing, names)
    ensures Carries(existing, NextColumns(existing, names, supply, next))
  {
    var active := ActiveRecords(existing, names, supply, next);
    var kept := Ids(active);
    var all := NextColumns(existing, names, supply, next);
    forall o | o in existing ensures HasId(all, o.id) {
      if o.id in kept {
        var r :| r in active && r.id == o.id;
        assert r in all;
      } else {
        InRetire(existing, kept, o.(status := Retired));
        assert o.(status := Retired) in all;
      }
    }
    forall o, n | o in existing && n in all && n.id == o.id && o.status == Retired ensures n == o {
      if n in active {
        ActiveIsNotRetired(existing, names, supply, next, n, o);
      } else {
        InRetire(existing, kept, n);
      }
    }
  }

  // ---------- IDs that are drawn ----------

  /** No ID is drawn twice. */
  ghost predicate DrawsOnce(supply: Supply) {
    forall i, j :: i != j ==> supply(i) != supply(j)
  }

  lemma {:induction false} ActiveAt(existing: seq<NamedRecord>, names: seq<Name>, supply: Supply, next: nat, i: nat)
    requires i < |names|
    ensures ActiveRecords(existing, names, supply, next)[i] == ActiveRecord(existing, names[i], supply, Drawn(existing, names[..i], next))
  {
    hide ActiveRecord, Drawn;
    var n := |names| - 1;
    if i < n {
      assert names[..n][..i] == names[..i];
      ActiveAt(existing, names[..n], supply, next, i);
    }
  }

  lemma {:induction false} DrawnGrows(existing: seq<NamedRecord>, names: seq<Name>, next: nat, i: nat, j: nat)
    requires i < j <= |names|
    ensures Drawn(existing, names[..i], next) <= Drawn(existing, names[..j], next)
    ensures Matched(existing, names[i]).None? ==> Drawn(existing, names[..i], next) < Drawn(existing, names[..j], next)
  {
    assert names[..j][..j - 1] == names[..j - 1];
    hide Matched;
    if i < j - 1 { DrawnGrows(existing, names, next, i, j - 1); }
  }

  /** Two columns get one ID exactly when the same old column bears both their names: a new ID is given to one column only. */
  lemma ColumnIdsDiffer(existing: seq<NamedRecord>, names: seq<Name>, supply: Supply, next: nat, i: nat, j: nat)
    requires DrawsOnce(supply) && Unused(supply, next, existing) && i < j < |names|
    ensures var active, a, b := ActiveRecords(existing, names, supply, next), Matched(existing, names[i]), Matched(existing, names[j]);
            active[i].id == active[j].id <==> a.Some? && b.Some? && a.value.id == b.value.id
  {
    ActiveAt(existing, names, supply, next, i);
    ActiveAt(existing, names, supply, next, j);
    DrawnGrows(existing, names, next, i, j);
    var k, m := Drawn(existing, names[..i], next), Drawn(existing, names[..j], next);
    hide ActiveRecords, Drawn;
    assert !HasId(existing, supply(k)) && !HasId(existing, supply(m));
  }

  // ---------- relationships ----------

  /** What the foreign keys of the columns come to: the name of a resolved one with the tables and
      columns it joins, or a finding. */
  datatype ForeignKey = Resolved(name: Name, ends: int) | Unresolved

  /** A relationship of the product, as it is published. */
  datatype Relationship = Relationship(id: RecordId, name: Name, ends: int)

  /** The relationships in the order of their foreign keys. */
  function Links(existing: seq<NamedRecord>, keys: seq<ForeignKey>, supply: Supply, next: nat): seq<Relationship> {
    if keys == [] then []
    else
      var n := |keys| - 1;
      Links(existing, keys[..n], supply, next) +
        if keys[n].Unresolved? || MatchesRetired(existing, keys[n].name) then []
        else
          var record := ActiveRecord(existing, keys[n].name, supply, DrawnBy(existing, keys[..n], next));
          [Relationship(record.id, keys[n].name, keys[n].ends)]
  }

  predicate LowerId(a: Relationship, b: Relationship) {
    a.id <= b.id
  }

  /** The relationships by ascending ID. */
  function SortedLinks(existing: seq<NamedRecord>, keys: seq<ForeignKey>, supply: Supply, next: nat): seq<Relationship> {
    Sort(LowerId, Links(existing, keys, supply, next))
  }

  /** The records by ID after some foreign keys; a name seen again replaces its record. */
  function Linked(existing: seq<NamedRecord>, keys: seq<ForeignKey>, supply: Supply, next: nat): map<RecordId, NamedRecord> {
    if keys == [] then map[]
    else
      var n := |keys| - 1;
      var before := Linked(existing, keys[..n], supply, next);
      if keys[n].Unresolved? || MatchesRetired(existing, keys[n].name) then before
      else
        var record := ActiveRecord(existing, keys[n].name, supply, DrawnBy(existing, keys[..n], next));
        before[record.id := record]
  }

  function DrawnBy(existing: seq<NamedRecord>, keys: seq<ForeignKey>, next: nat): (after: nat)
    ensures next <= after
  {
    if keys == [] then next
    else
      var n := |keys| - 1;
      var before := DrawnBy(existing, keys[..n], next);
      if keys[n].Unresolved? then before else NextAfter(existing, keys[n].name, before)
  }

  /** Foreign keys that cannot be resolved or would reuse a retired relationship. */
  function Problems(existing: seq<NamedRecord>, keys: seq<ForeignKey>): nat {
    if keys == [] then 0
    else
      var n := |keys| - 1;
      Problems(existing, keys[..n]) + if keys[n].Unresolved? || MatchesRetired(existing, keys[n].name) then 1 else 0
  }

  /** The linked records, and the others retired. */
  function WithRetired(existing: seq<NamedRecord>, kept: set<RecordId>, records: map<RecordId, NamedRecord>): map<RecordId, NamedRecord> {
    if existing == [] then records
    else
      var n := |existing| - 1;
      var before := WithRetired(existing[..n], kept, records);
      if existing[n].id in kept then before else before[existing[n].id := existing[n].(status := Retired)]
  }

  function NextRelationships(existing: seq<NamedRecord>, keys: seq<ForeignKey>, supply: Supply, next: nat): map<RecordId, NamedRecord> {
    var linked := Linked(existing, keys, supply, next);
    WithRetired(existing, linked.Keys, linked)
  }

  /** The loops of `_build_relationships`. */
  method BuildRelationships(existing: seq<NamedRecord>, keys: seq<ForeignKey>, supply: Supply, next: nat)
    returns (relationships: seq<Relationship>, records: map<RecordId, NamedRecord>, findings: nat)
    ensures relationships == SortedLinks(existing, keys, supply, next)
    ensures records == NextRelationships(existing, keys, supply, next) && findings == Problems(existing, keys)
  {
    relationships, records, findings := [], map[], 0;
    var after := next;
    for i := 0 to |keys|
      invariant relationships == Links(existing, keys[..i], supply, next)
      invariant records == Linked(existing, keys[..i], supply, next) && findings == Problems(existing, keys[..i])
      invariant after == DrawnBy(existing, keys[..i], next)
    {
      assert keys[..i + 1][..i] == keys[..i];
      match keys[i]
      case Unresolved => findings := findings + 1;
      case Resolved(name, ends) =>
        if MatchesRetired(existing, name) {
          findings := findings + 1;
        } else {
          var record := ActiveRecord(existing, name, supply, after);
          records := records[record.id := record];
          relationships := relationships + [Relationship(record.id, name, ends)];
        }
        after := NextAfter(existing, name, after);
    }
    assert keys[..|keys|] == keys;
    relationships := Sort(LowerId, relationships);
    var kept := records.Keys;
    for i := 0 to |existing|
      invariant records == WithRetired(existing[..i], kept, Linked(existing, keys, supply, next))
    {
      assert existing[..i + 1][..i] == existing[..i];
      var record := existing[i];
      if record.id !in kept { records := records[record.id := record.(status := Retired)]; }
    }
    assert existing[..|existing|] == existing;
  }

  predicate Names(r: NamedRecord, name: Name) {
    r.name.folded == name.folded || name.folded in r.aliases
  }

  /** The first record that bears the name, as its own or as an alias. */
  predicate FirstNamed(existing: seq<NamedRecord>, i: int, name: Name) {
    0 <= i < |existing| && Names(existing[i], name) && forall j :: 0 <= j < i ==> !Names(existing[j], name)
  }

  lemma {:induction false} MatchedIff(existing: seq<NamedRecord>, name: Name)
    ensures if Matched(existing, name).Some? then exists i :: FirstNamed(existing, i, name) && existing[i] == Matched(existing, name).value
            else forall r :: r in existing ==> !Names(r, name)
  {
    if existing != [] {
      var rest := existing[1..];
      MatchedIff(rest, name);
      if Names(existing[0], name) {
        assert FirstNamed(existing, 0, name);
      } else if Matched(rest, name).Some? {
        var i :| FirstNamed(rest, i, name) && rest[i] == Matched(existing, name).value;
        assert forall j :: 0 < j < i + 1 ==> existing[j] == rest[j - 1];
        assert FirstNamed(existing, i + 1, name);
      } else {
        assert forall r :: r in existing ==> r == existing[0] || r in rest;
      }
    }
  }

  /** The foreign key is resolved, and no retired relationship is the first that bears its name. */
  predicate Linkable(existing: seq<NamedRecord>, key: ForeignKey) {
    key.Resolved? && forall i :: 0 <= i < |existing| && FirstNamed(existing, i, key.name) ==> existing[i].status != Retired
  }

  lemma LinkableIff(existing: seq<NamedRecord>, key: ForeignKey)
    ensures Linkable(existing, key) <==> key.Resolved? && !MatchesRetired(existing, key.name)
  {
    if key.Resolved? {
      MatchedIff(existing, key.name);
      if i :| FirstNamed(existing, i, key.name) {
        assert existing[i] in existing;
        if Matched(existing, key.name).Some? {
          var j :| FirstNamed(existing, j, key.name) && existing[j] == Matched(existing, key.name).value;
          assert i == j;
        }
      }
    }
  }

  lemma {:induction false} ProblemsIff(existing: seq<NamedRecord>, keys: seq<ForeignKey>)
    ensures Problems(existing, keys) == 0 <==> forall key :: key in keys ==> Linkable(existing, key)
  {
    hide Linkable, MatchesRetired;
    if keys != [] {
      var n := |keys| - 1;
      ProblemsIff(existing, keys[..n]);
      LinkableIff(existing, keys[n]);
      assert forall key :: key in keys <==> key in keys[..n] || key == keys[n];
    }
  }

  /** The relationship of a foreign key: its name and ends under the ID of the first record that bears the name, or under a
      new one. */
  ghost predicate LinkOf(existing: seq<NamedRecord>, key: ForeignKey, supply: Supply, next: nat, link: Relationship) {
    && key.Resolved? && link.name == key.name && link.ends == key.ends
    && (forall i :: 0 <= i < |existing| && FirstNamed(existing, i, key.name) ==> link.id == existing[i].id)
    && ((forall r :: r in existing ==> !Names(r, key.name)) ==> exists k :: k >= next && link.id == supply(k))
  }

  /** When every foreign key can be linked, the relationships are one for one those of the keys. */
  lemma {:induction false} LinksFollowKeys(existing: seq<NamedRecord>, keys: seq<ForeignKey>, supply: Supply, next: nat)
    requires forall key :: key in keys ==> Linkable(existing, key)
    ensures var links := Links(existing, keys, supply, next);
            |links| == |keys| && forall i :: 0 <= i < |keys| ==> LinkOf(existing, keys[i], supply, next, links[i])
  {
    hide Linkable, LinkOf, MatchesRetired, ActiveRecord;
    if keys != [] {
      var n := |keys| - 1;
      LinksFollowKeys(existing, keys[..n], supply, next);
      assert keys[n] in keys;
      LinkableIff(existing, keys[n]);
      LinkIsOf(existing, keys[n], supply, next, DrawnBy(existing, keys[..n], next));
    }
  }

  lemma LinkIsOf(existing: seq<NamedRecord>, key: ForeignKey, supply: Supply, next: nat, drawn: nat)
    requires key.Resolved? && next <= drawn
    ensures LinkOf(existing, key, supply, next, Relationship(ActiveRecord(existing, key.name, supply, drawn).id, key.name, key.ends))
  {
    MatchedIff(existing, key.name);
    forall i | 0 <= i < |existing| && FirstNamed(existing, i, key.name)
      ensures ActiveRecord(existing, key.name, supply, drawn).id == existing[i].id
    {
      assert existing[i] in existing;
      var j :| FirstNamed(existing, j, key.name) && existing[j] == Matched(existing, key.name).value;
      assert i == j;
    }
  }

  lemma {:induction false} LinksAreLinked(existing: seq<NamedRecord>, keys: seq<ForeignKey>, supply: Supply, next: nat, id: RecordId)
    ensures id in Linked(existing, keys, supply, next) <==> exists r :: r in Links(existing, keys, supply, next) && r.id == id
  {
    if keys != [] {
      var n := |keys| - 1;
      LinksAreLinked(existing, keys[..n], supply, next, id);
      assert forall r :: r in Links(existing, keys[..n], supply, next) ==> r in Links(existing, keys, supply, next);
      if keys[n].Resolved? && !MatchesRetired(existing, keys[n].name) {
        var record := ActiveRecord(existing, keys[n].name, supply, DrawnBy(existing, keys[..n], next));
        assert Relationship(record.id, keys[n].name, keys[n].ends) in Links(existing, keys, supply, next);
      }
    }
  }

  /** The published relationships are sorted, permute those of the foreign keys, and are exactly the
      active records. */
  lemma LinksAreActive(existing: seq<NamedRecord>, keys: seq<ForeignKey>, supply: Supply, next: nat)
    requires UniqueIds(existing)
    ensures var links, all := SortedLinks(existing, keys, supply, next), NextRelationships(existing, keys, supply, next);
            && Sorted(LowerId, links) && multiset(links) == multiset(Links(existing, keys, supply, next))
            && forall id :: (id in all && all[id].status == Active) <==> exists r :: r in links && r.id == id
  {
    var list, links := Links(existing, keys, supply, next), SortedLinks(existing, keys, supply, next);
    assert Linear(LowerId);
    SortSorts(LowerId, list);
    forall r ensures r in links <==> r in list { assert r in multiset(links) <==> r in multiset(list); }
    var linked, all := Linked(existing, keys, supply, next), NextRelationships(existing, keys, supply, next);
    hide SortedLinks, Links, Linked, WithRetired, Sort, Linear;
    forall id ensures (id in all && all[id].status == Active) <==> exists r :: r in links && r.id == id {
      LinksAreLinked(existing, keys, supply, next, id);
      RetiredOr(existing, linked.Keys, linked, id);
      if id in linked { InLinked(existing, keys, supply, next, id); }
    }
  }

  lemma {:induction false} InLinked(existing: seq<NamedRecord>, keys: seq<ForeignKey>, supply: Supply, next: nat, id: RecordId)
    requires id in Linked(existing, keys, supply, next)
    ensures var r := Linked(existing, keys, supply, next)[id];
            && r.id == id
            && exists name, k :: k >= next && !MatchesRetired(existing, name) && r == ActiveRecord(existing, name, supply, k)
  {
    var n := |keys| - 1;
    var before := Linked(existing, keys[..n], supply, next);
    if keys[n].Unresolved? || MatchesRetired(existing, keys[n].name) {
      InLinked(existing, keys[..n], supply, next, id);
    } else {
      var record := ActiveRecord(existing, keys[n].name, supply, DrawnBy(existing, keys[..n], next));
      if id != record.id { InLinked(existing, keys[..n], supply, next, id); }
    }
  }

  lemma {:induction false} RetiredOr(existing: seq<NamedRecord>, kept: set<RecordId>, records: map<RecordId, NamedRecord>, id: RecordId)
    requires UniqueIds(existing) && kept == records.Keys
    ensures var all := WithRetired(existing, kept, records);
            && (id in kept ==> id in all && all[id] == records[id])
            && (id !in kept ==> (id in all <==> HasId(existing, id)))
            && (id in all && id !in kept ==> exists o :: o in existing && o.id == id && all[id] == o.(status := Retired))
  {
    if existing != [] {
      var n := |existing| - 1;
      assert forall o :: o in existing <==> o in existing[..n] || o == existing[n];
      RetiredOr(existing[..n], kept, records, id);
    }
  }

  /** The same for relationships: every old ID is a key, and a retired one keeps its record. */
  lemma RelationshipsCarried(existing: seq<NamedRecord>, keys: seq<ForeignKey>, supply: Supply, next: nat, o: NamedRecord)
    requires UniqueIds(existing) && Unused(supply, next, existing) && o in existing
    ensures var all := NextRelationships(existing, keys, supply, next);
            && o.id in all && all[o.id].id == o.id && (o.status == Retired ==> all[o.id] == o)
  {
    var linked := Linked(existing, keys, supply, next);
    RetiredOr(existing, linked.Keys, linked, o.id);
    assert HasId(existing, o.id);
    if o.id in linked {
      InLinked(existing, keys, supply, next, o.id);
      var name, k :| k >= next && !MatchesRetired(existing, name) && linked[o.id] == ActiveRecord(existing, name, supply, k);
      assert !HasId(existing, supply(k));
    }
  }
}
