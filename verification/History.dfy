/** Sequences of successful runs: version history and permanence of IDs. */
module History {
  import opened Common
  import opened Versioning
  import opened Identity
  import opened Carrying
  import opened ProductRun
  import opened RunTheorems

  /** Registry states, each left by a successful run on the one before. */
  ghost predicate Runs(h: seq<State>) {
    && (forall i :: 0 <= i < |h| ==> Valid(h[i]))
    && forall i :: 0 < i < |h| ==> RunBetween(h[i - 1], h[i])
  }

  ghost predicate RunBetween(a: State, b: State) {
    exists config: Config, dictionary: seq<DictionaryTable>, around: Surroundings :: Fresh(a, around.supply) && Succeeds(a, config, dictionary, around) && b == Result(a, config, dictionary, around)
  }

  lemma RunsAdvance(h: seq<State>, i: nat)
    requires Runs(h) && 0 < i < |h|
    ensures Advances(h[i - 1], h[i])
  {
    hide Valid, Fresh, Succeeds, Result, Advances;
    assert RunBetween(h[i - 1], h[i]);
    var config: Config, dictionary: seq<DictionaryTable>, around: Surroundings :|
      Fresh(h[i - 1], around.supply) && Succeeds(h[i - 1], config, dictionary, around) && h[i] == Result(h[i - 1], config, dictionary, around);
    RunAdvances(h[i - 1], config, dictionary, around);
  }

  // ---------- version trails ----------

  datatype Entry = Entry(version: int, hash: Option<Hash>)

  predicate EntryStep(a: Option<Entry>, b: Option<Entry>) {
    match a
    case None => b.Some? ==> b.value.version == 1
    case Some(e) => b.Some? && VersionStep(e.version, e.hash, b.value.version, b.value.hash)
  }

  /** The versions and hashes of one entity, state after state. */
  ghost predicate Trail(t: seq<Option<Entry>>) {
    && (forall i :: 0 < i < |t| ==> EntryStep(t[i - 1], t[i]))
    && forall i :: 0 <= i < |t| && t[i].Some? ==> ValidVersion(t[i].value.version)
  }

  /** Along a trail an entity stays, its version never falls, and while the version stays so does
      the hash: a version number stands for one content. */
  lemma {:induction false} VersionNamesContent(t: seq<Option<Entry>>, i: nat, j: nat)
    requires Trail(t) && i <= j < |t| && t[i].Some?
    ensures t[j].Some? && t[i].value.version <= t[j].value.version
    ensures t[i].value.version == t[j].value.version ==> t[i].value.hash == t[j].value.hash
    decreases j - i
  {
    if i < j {
      VersionNamesContent(t, i, j - 1);
      assert EntryStep(t[j - 1], t[j]);
    }
  }

  /** Versions are used without a gap: from 1 when the entity first appears along the trail, or
      from the version it starts with, up to the current one. */
  lemma {:induction false} VersionsHaveNoGap(t: seq<Option<Entry>>, j: nat, version: int)
    requires Trail(t) && j < |t| && t[j].Some?
    requires (if t[0].Some? then t[0].value.version else 1) <= version <= t[j].value.version
    ensures exists k :: 0 <= k <= j && t[k].Some? && t[k].value.version == version
  {
    if t[j].value.version != version {
      assert j > 0;
      assert EntryStep(t[j - 1], t[j]);
      VersionsHaveNoGap(t, j - 1, version);
    }
  }

  function TableEntry(s: State, id: TableId): Option<Entry> {
    if id in s.tables then Some(Entry(s.tables[id].version, s.tables[id].hash)) else None
  }

  function ProductEntry(s: State, id: ProductId): Option<Entry> {
    if id in s.products then Some(Entry(s.products[id].version, s.products[id].hash)) else None
  }

  function TableTrail(h: seq<State>, id: TableId): (t: seq<Option<Entry>>)
    ensures |t| == |h| && forall i :: 0 <= i < |h| ==> t[i] == TableEntry(h[i], id)
  {
    seq(|h|, i requires 0 <= i < |h| => TableEntry(h[i], id))
  }

  function ProductTrail(h: seq<State>, id: ProductId): (t: seq<Option<Entry>>)
    ensures |t| == |h| && forall i :: 0 <= i < |h| ==> t[i] == ProductEntry(h[i], id)
  {
    seq(|h|, i requires 0 <= i < |h| => ProductEntry(h[i], id))
  }

  lemma AdvanceIsStep(a: State, b: State, table: TableId, product: ProductId)
    requires Valid(a) && Advances(a, b)
    ensures EntryStep(TableEntry(a, table), TableEntry(b, table))
    ensures EntryStep(ProductEntry(a, product), ProductEntry(b, product))
  {
    hide KeysApart, LocatorsApart, UniquelyNamed, Carries;
  }

  /** Every table and every product has a version trail over the runs. */
  lemma RunsLeaveTrails(h: seq<State>, table: TableId, product: ProductId)
    requires Runs(h)
    ensures Trail(TableTrail(h, table)) && Trail(ProductTrail(h, product))
  {
    var t, p := TableTrail(h, table), ProductTrail(h, product);
    hide RunBetween, EntryStep, Advances;
    forall i | 0 < i < |h| ensures EntryStep(t[i - 1], t[i]) && EntryStep(p[i - 1], p[i]) {
      RunsAdvance(h, i);
      AdvanceIsStep(h[i - 1], h[i], table, product);
    }
    forall i | 0 <= i < |h|
      ensures t[i].Some? ==> ValidVersion(t[i].value.version)
      ensures p[i].Some? ==> ValidVersion(p[i].value.version)
    {
      assert Valid(h[i]);
    }
  }

  /** Version history of a table over any runs: the map from version to content hash is
      single-valued, versions never fall or pass the limit, and all from 1 - or the first known - to the
      current one are used. */
  lemma TableVersionHistory(h: seq<State>, id: TableId, i: nat, j: nat, version: int)
    requires Runs(h) && i <= j < |h| && id in h[i].tables
    ensures id in h[j].tables && 1 <= h[i].tables[id].version <= h[j].tables[id].version <= MAX_VERSION
    ensures h[i].tables[id].version == h[j].tables[id].version ==> h[i].tables[id].hash == h[j].tables[id].hash
    ensures id !in h[0].tables && 1 <= version <= h[j].tables[id].version ==>
              exists k :: 0 <= k <= j && id in h[k].tables && h[k].tables[id].version == version
  {
    RunsLeaveTrails(h, id, 0);
    var t := TableTrail(h, id);
    VersionNamesContent(t, i, j);
    if id !in h[0].tables && 1 <= version <= h[j].tables[id].version {
      VersionsHaveNoGap(t, j, version);
      var k :| 0 <= k <= j && t[k].Some? && t[k].value.version == version;
      assert t[k] == TableEntry(h[k], id);
    }
    assert t[i].Some? && t[j].Some? && ValidVersion(t[i].value.version) && ValidVersion(t[j].value.version);
  }

  /** The same for a product. */
  lemma ProductVersionHistory(h: seq<State>, id: ProductId, i: nat, j: nat, version: int)
    requires Runs(h) && i <= j < |h| && id in h[i].products
    ensures id in h[j].products && 1 <= h[i].products[id].version <= h[j].products[id].version <= MAX_VERSION
    ensures h[i].products[id].version == h[j].products[id].version ==> h[i].products[id].hash == h[j].products[id].hash
    ensures id !in h[0].products && 1 <= version <= h[j].products[id].version ==>
              exists k :: 0 <= k <= j && id in h[k].products && h[k].products[id].version == version
  {
    RunsLeaveTrails(h, 0, id);
    var t := ProductTrail(h, id);
    VersionNamesContent(t, i, j);
    if id !in h[0].products && 1 <= version <= h[j].products[id].version {
      VersionsHaveNoGap(t, j, version);
      var k :| 0 <= k <= j && t[k].Some? && t[k].value.version == version;
      assert t[k] == ProductEntry(h[k], id);
    }
    assert t[i].Some? && t[j].Some? && ValidVersion(t[i].value.version) && ValidVersion(t[j].value.version);
  }

  // ---------- permanence of IDs ----------

  lemma CarriesOn(a: seq<NamedRecord>, b: seq<NamedRecord>, c: seq<NamedRecord>)
    requires Carries(a, b) && Carries(b, c)
    ensures Carries(a, c)
  {
    forall o | o in a ensures HasId(c, o.id) {
      var m :| m in b && m.id == o.id;
    }
    forall o, n | o in a && n in c && n.id == o.id && o.status == Retired ensures n == o {
      assert HasId(b, o.id);
      var m :| m in b && m.id == o.id;
      assert m == o;
    }
  }

  lemma CarriesItself(a: seq<NamedRecord>)
    requires UniquelyNamed(a)
    ensures Carries(a, a)
  {
    UniqueByName(a);
  }

  /** How often an ID occurs. */
  function Occurrences(records: seq<NamedRecord>, id: RecordId): nat {
    if records == [] then 0
    else Occurrences(records[..|records| - 1], id) + if records[|records| - 1].id == id then 1 else 0
  }

  lemma {:induction false} OccursOnce(records: seq<NamedRecord>, id: RecordId)
    requires forall i, j :: 0 <= i < j < |records| ==> records[i].id != records[j].id
    ensures Occurrences(records, id) == if HasId(records, id) then 1 else 0
  {
    if records != [] {
      var n := |records| - 1;
      OccursOnce(records[..n], id);
      assert forall r :: r in records <==> r in records[..n] || r == records[n];
    }
  }

  lemma {:induction false} ColumnsCarry(h: seq<State>, id: TableId, i: nat, j: nat)
    requires Runs(h) && i <= j < |h| && id in h[i].tables
    ensures id in h[j].tables && Carries(h[i].tables[id].columns, h[j].tables[id].columns)
    decreases j - i
  {
    hide Carries, RunBetween, KeysApart, LocatorsApart, UniquelyNamed;
    assert Valid(h[i]) && Valid(h[j]);
    if i == j {
      CarriesItself(h[i].tables[id].columns);
    } else {
      ColumnsCarry(h, id, i, j - 1);
      RunsAdvance(h, j);
      assert Valid(h[j - 1]);
      CarriesItself(h[j - 1].tables[id].columns);
      CarriesOn(h[i].tables[id].columns, h[j - 1].tables[id].columns, h[j].tables[id].columns);
    }
  }

  lemma {:induction false} RelationshipsCarry(h: seq<State>, id: ProductId, i: nat, j: nat)
    requires Runs(h) && i <= j < |h| && id in h[i].products
    ensures id in h[j].products && Carries(h[i].products[id].relationships, h[j].products[id].relationships)
    decreases j - i
  {
    hide Carries, RunBetween, KeysApart, LocatorsApart, UniquelyNamed;
    assert Valid(h[i]) && Valid(h[j]);
    if i == j {
      CarriesItself(h[i].products[id].relationships);
    } else {
      RelationshipsCarry(h, id, i, j - 1);
      RunsAdvance(h, j);
      assert Valid(h[j - 1]);
      CarriesItself(h[j - 1].products[id].relationships);
      CarriesOn(h[i].products[id].relationships, h[j - 1].products[id].relationships, h[j].products[id].relationships);
    }
  }

  /** A column ID a table ever had occurs exactly once in every later version of the table, and
      once retired its record never changes again. */
  lemma ColumnIdsArePermanent(h: seq<State>, id: TableId, i: nat, j: nat, column: NamedRecord)
    requires Runs(h) && i <= j < |h| && id in h[i].tables && column in h[i].tables[id].columns
    ensures id in h[j].tables && Occurrences(h[j].tables[id].columns, column.id) == 1
    ensures column.status == Retired ==> column in h[j].tables[id].columns
  {
    hide RunBetween, KeysApart, LocatorsApart;
    ColumnsCarry(h, id, i, j);
    assert Valid(h[j]);
    OccursOnce(h[j].tables[id].columns, column.id);
  }

  /** The same for the relationships of a product. */
  lemma RelationshipIdsArePermanent(h: seq<State>, id: ProductId, i: nat, j: nat, relationship: NamedRecord)
    requires Runs(h) && i <= j < |h| && id in h[i].products && relationship in h[i].products[id].relationships
    ensures id in h[j].products && Occurrences(h[j].products[id].relationships, relationship.id) == 1
    ensures relationship.status == Retired ==> relationship in h[j].products[id].relationships
  {
    hide RunBetween, KeysApart, LocatorsApart;
    RelationshipsCarry(h, id, i, j);
    assert Valid(h[j]);
    OccursOnce(h[j].products[id].relationships, relationship.id);
  }
}
