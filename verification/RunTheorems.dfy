/** What one successful run does to the registry, and that the gate implies the writes. */
module RunTheorems {
  import opened Common
  import opened Versioning
  import opened Identity
  import opened Carrying
  import opened RegistryStore
  import opened ProductRun
  import opened RegistryRun

  // ---------- states ----------

  predicate ValidVersion(version: int) {
    1 <= version <= MAX_VERSION
  }

  /** A registry state as validators and runs leave it. */
  ghost predicate Valid(s: State) {
    && KeysApart(s.products) && LocatorsApart(s.tables)
    && (forall id :: id in s.tables ==> ValidVersion(s.tables[id].version) && UniquelyNamed(s.tables[id].columns))
    && (forall id :: id in s.products ==> ValidVersion(s.products[id].version) && UniquelyNamed(s.products[id].relationships))
  }

  /** The IDs a run draws are none of those registered. */
  ghost predicate Fresh(s: State, supply: Supply) {
    && (forall id :: id in s.tables ==> Unused(supply, 0, s.tables[id].columns))
    && (forall id :: id in s.products ==> Unused(supply, 0, s.products[id].relationships))
  }

  /** The version advances by one exactly when the content hash changes, and stays in bounds. */
  predicate VersionStep(version: int, hash: Option<Hash>, nextVersion: int, nextHash: Option<Hash>) {
    nextVersion == (if nextHash == hash then version else version + 1) && nextVersion <= MAX_VERSION
  }

  ghost predicate TableStep(o: Table, n: Table) {
    n == o ||
    (&& o.status == Active && n.id == o.id && n.locator == o.locator && VersionStep(o.version, o.hash, n.version, n.hash)
     && Carries(o.columns, n.columns))
  }

  ghost predicate ProductStep(o: Product, n: Product) {
    n == o ||
    (&& o.status == Active && n.id == o.id && n.aliases == o.aliases && VersionStep(o.version, o.hash, n.version, n.hash)
     && Carries(o.relationships, n.relationships))
  }

  /** What a run may do: step records already there, and add records at version 1. */
  ghost predicate Advances(a: State, b: State) {
    && (forall id :: id in a.tables ==> id in b.tables && TableStep(a.tables[id], b.tables[id]))
    && (forall id :: id in b.tables && id !in a.tables ==> b.tables[id].version == 1)
    && (forall id :: id in a.products ==> id in b.products && ProductStep(a.products[id], b.products[id]))
    && (forall id :: id in b.products && id !in a.products ==> b.products[id].version == 1)
  }

  // ---------- tables written ----------

  lemma {:induction false} WrittenMeans(tables: map<TableId, Table>, records: seq<Table>, id: TableId)
    ensures id in Written(tables, records) ==>
              || (exists r :: r in records && r.id == id && Written(tables, records)[id] == r)
              || (id in tables && Written(tables, records)[id] == tables[id])
    ensures id in tables ==> id in Written(tables, records)
  {
    if records != [] {
      var n := |records| - 1;
      WrittenMeans(tables, records[..n], id);
      assert forall r :: r in records <==> r in records[..n] || r == records[n];
    }
  }

  lemma {:induction false} WrittenKeeps(tables: map<TableId, Table>, records: seq<Table>)
    requires LocatorsApart(tables) && AllWritable(tables, records)
    ensures LocatorsApart(Written(tables, records))
  {
    hide TableConflict, LocatorsApart;
    if records != [] {
      var n := |records| - 1;
      forall i | 0 <= i < n ensures TableConflict(Written(tables, records[..n][..i]), records[..n][i]).None? {
        assert records[..n][..i] == records[..i];
      }
      WrittenKeeps(tables, records[..n]);
      TableWriteKeeps(Written(tables, records[..n]), records[n]);
    }
  }

  // ---------- drafts ----------

  /** A draft as resolving some table of the dictionary made it. */
  ghost predicate Drafted(tables: map<TableId, Table>, configs: seq<TableConfig>, supply: Supply, d: Draft) {
    exists table: DictionaryTable, next: nat ::
      && !Unresolvable(tables, ConfigFor(configs, table.locator), table)
      && d == DraftOf(tables, ConfigFor(configs, table.locator), table, supply, next)
  }

  lemma {:induction false} DraftsAreDrafted(tables: map<TableId, Table>, configs: seq<TableConfig>, dictionary: seq<DictionaryTable>, supply: Supply, d: Draft)
    requires forall t :: t in dictionary ==> !Unresolvable(tables, ConfigFor(configs, t.locator), t)
    requires d in Drafts(tables, configs, dictionary, supply, 0)
    ensures Drafted(tables, configs, supply, d)
  {
    hide Unresolvable, DraftOf, ConfigFor, DrawnForAll;
    var n := |dictionary| - 1;
    assert dictionary[n] in dictionary;
    assert forall t :: t in dictionary[..n] ==> t in dictionary;
    if d in Drafts(tables, configs, dictionary[..n], supply, 0) {
      DraftsAreDrafted(tables, configs, dictionary[..n], supply, d);
    }
  }

  lemma OnlyLocated(tables: map<TableId, Table>, id: TableId)
    requires LocatorsApart(tables) && id in tables
    ensures Located(tables, tables[id].locator) == Some(tables[id])
  {
    var found := Located(tables, tables[id].locator);
    var other :| other in tables && tables[other] == found.value;
  }

  /** A drafted table's ID is the registered one of its locator, if there is any. */
  lemma DraftId(tables: map<TableId, Table>, configs: seq<TableConfig>, supply: Supply, d: Draft, id: TableId)
    requires Drafted(tables, configs, supply, d) && LocatorsApart(tables) && id in tables && tables[id].locator == d.locator
    ensures d.id == id
  {
    hide NextColumns, ReusesRetired, Located;
    OnlyLocated(tables, id);
  }

  /** Resolved tables are never classified as a reuse of another table's locator. */
  lemma NeverReuse(tables: map<TableId, Table>, configs: seq<TableConfig>, d: Draft, around: Surroundings)
    requires Drafted(tables, configs, around.supply, d) && LocatorsApart(tables)
    ensures ClassifyTable(TableRecordOf(tables, d, around), TableList(tables)) != Reuse
  {
    hide TableList, FirstTable, Drafted;
    var list := TableList(tables);
    OwnTable(tables, d.id);
    var same := FirstTable(list, (t: Table) => t.locator == d.locator);
    if same.Some? {
      var id :| id in tables && tables[id] == same.value;
      DraftId(tables, configs, around.supply, d, id);
    }
  }

  /** The columns of a drafted table that is registered carry the registered ones. */
  lemma DraftColumns(tables: map<TableId, Table>, configs: seq<TableConfig>, supply: Supply, d: Draft, id: TableId)
    requires Drafted(tables, configs, supply, d) && LocatorsApart(tables) && id in tables && tables[id].locator == d.locator
    requires UniquelyNamed(tables[id].columns) && Unused(supply, 0, tables[id].columns)
    ensures Carries(tables[id].columns, d.columns)
  {
    hide NextColumns, ReusesRetired, Located, Carries;
    OnlyLocated(tables, id);
    UniqueByName(tables[id].columns);
    var table: DictionaryTable, next: nat :|
      && !Unresolvable(tables, ConfigFor(configs, table.locator), table)
      && d == DraftOf(tables, ConfigFor(configs, table.locator), table, supply, next);
    var after := TableIdOf(tables, ConfigFor(configs, table.locator), table, supply, next).1;
    ColumnsCarried(tables[id].columns, table.columns, supply, after);
  }

  lemma UniqueByName(records: seq<NamedRecord>)
    requires UniquelyNamed(records)
    ensures UniqueIds(records)
  {
    forall a, b | a in records && b in records && a.id == b.id ensures a == b {
      var i :| 0 <= i < |records| && records[i] == a;
      var j :| 0 <= j < |records| && records[j] == b;
    }
  }

  lemma NotBlocked(tables: map<TableId, Table>, record: Table)
    requires LocatorsApart(tables) && record.status == Active && ClassifyTable(record, TableList(tables)) != Blocked && record.id in tables
    ensures tables[record.id].status == Active && tables[record.id].locator == record.locator
  {
    hide TableList, FirstTable;
    OwnTable(tables, record.id);
  }

  /** A record that passes the gate steps the registered one, or starts at version 1. */
  lemma RecordSteps(s: State, configs: seq<TableConfig>, d: Draft, around: Surroundings)
    requires Valid(s) && Fresh(s, around.supply) && Drafted(s.tables, configs, around.supply, d)
    requires TablePlan(s.tables, d, around).Allow? && ClassifyTable(TableRecordOf(s.tables, d, around), TableList(s.tables)) != Blocked
    ensures var r := TableRecordOf(s.tables, d, around);
            ValidVersion(r.version) && if d.id in s.tables then TableStep(s.tables[d.id], r) else r.version == 1
  {
    hide TableList, ClassifyTable, Carries, PlanVersion, KeysApart, LocatorsApart, UniquelyNamed, Unused, Drafted;
    var existing := Lookup(s.tables, d.id);
    var changed := TableChanged(existing, around.tableHash(d));
    AllowedInRange(CurrentVersion(existing), changed, if d.config.base.Some? then d.config.base else CurrentVersion(existing),
                   ProposedVersion(d, existing, changed));
    if d.id in s.tables {
      NotBlocked(s.tables, TableRecordOf(s.tables, d, around));
      DraftColumns(s.tables, configs, around.supply, d, d.id);
      assert s.tables[d.id].id == d.id by { FiledUnder(s.tables, d.id); }
    }
  }

  lemma FiledUnder(tables: map<TableId, Table>, id: TableId)
    requires LocatorsApart(tables) && id in tables
    ensures tables[id].id == id
  {
  }

  // ---------- the product written ----------

  lemma ProductNotBlocked(s: State, product: Product, operation: Operation)
    requires KeysApart(s.products) && product.status == Active && ReportProduct(product, s.products, operation) != Blocked
    requires product.id in s.products && ProductConflict(s.products, product).None?
    ensures s.products[product.id].status == Active && s.products[product.id].id == product.id
  {
  }

  lemma InRecordList(records: map<RecordId, NamedRecord>, id: RecordId)
    requires id in records
    ensures records[id] in RecordList(records)
  {
  }

  /** The relationships of the product record carry the registered ones. */
  lemma ProductRelationships(s: State, config: Config, dictionary: seq<DictionaryTable>, around: Surroundings)
    requires Valid(s) && Fresh(s, around.supply) && config.id in s.products
    requires UniquelyNamed(ProductOf(s, config, dictionary, around).relationships)
    ensures Carries(s.products[config.id].relationships, ProductOf(s, config, dictionary, around).relationships)
  {
    hide KeysApart, LocatorsApart, RecordList, NextRelationships, TableRecords, DraftsOf, UniquelyNamed, Drafts, DrawnForAll;
    var old_ := s.products[config.id].relationships;
    var next := DrawnForAll(s.tables, config.tables, dictionary, around.supply, 0);
    var all := NextRelationshipsOf(s, config, dictionary, around);
    var new_ := ProductOf(s, config, dictionary, around).relationships;
    UniqueByName(old_);
    UniqueByName(new_);
    forall o | o in old_ ensures HasId(new_, o.id) && (o.status == Retired ==> o in new_) {
      RelationshipsCarried(old_, around.foreignKeys, around.supply, next, o);
      InRecordList(all, o.id);
    }
    forall o, n | o in old_ && n in new_ && n.id == o.id && o.status == Retired ensures n == o {
      assert o in new_;
    }
  }

  lemma ProductSteps(s: State, config: Config, dictionary: seq<DictionaryTable>, around: Surroundings)
    requires Valid(s) && Fresh(s, around.supply)
    requires var product := ProductOf(s, config, dictionary, around);
             && UniquelyNamed(product.relationships) && ProductPlan(s, config, product).Allow?
             && ReportProduct(product, s.products, config.operation) != Blocked && ProductConflict(s.products, product).None?
    ensures var product := ProductOf(s, config, dictionary, around);
            && ValidVersion(product.version)
            && if config.id in s.products then ProductStep(s.products[config.id], product) else product.version == 1
  {
    hide KeysApart, LocatorsApart, RecordList, NextRelationshipsOf, TableRecords, DraftsOf, UniquelyNamed, ReportProduct, ProductConflict,
      PlanVersion, Carries, Unused;
    var product := ProductOf(s, config, dictionary, around);
    var existing := Existing(s, config);
    var current := if existing.Some? then Some(existing.value.version) else None;
    AllowedInRange(current, existing.None? || existing.value.hash != product.hash, if config.base.Some? then config.base else current, config.version);
    if config.id in s.products {
      ProductNotBlocked(s, product, config.operation);
      ProductRelationships(s, config, dictionary, around);
    }
  }

  // ---------- the run ----------

  /** What `ProcessProduct` returns on success. */
  ghost predicate Succeeds(s: State, config: Config, dictionary: seq<DictionaryTable>, around: Surroundings) {
    var drafts, product := DraftsOf(s, config, dictionary, around), ProductOf(s, config, dictionary, around);
    var tables := TableRecords(s.tables, drafts, around);
    && Buildable(s, config, dictionary, around) && Passes(s, config, product, drafts, around)
    && ProductConflict(s.products, product).None? && AllWritable(s.tables, tables)
    && AllMappable(config, s, product, tables, around)
  }

  function Result(s: State, config: Config, dictionary: seq<DictionaryTable>, around: Surroundings): State {
    var product, tables := ProductOf(s, config, dictionary, around), TableRecords(s.tables, DraftsOf(s, config, dictionary, around), around);
    State(s.products[product.id := product], Written(s.tables, tables),
          s.mappings[config.id := SortedByLink(MappingsOf(config, tables, around))])
  }

  /** One written table: what it was written over, or a start. */
  lemma TableAdvances(s: State, config: Config, dictionary: seq<DictionaryTable>, around: Surroundings, id: TableId)
    requires Valid(s) && Fresh(s, around.supply) && Succeeds(s, config, dictionary, around)
    requires id in Result(s, config, dictionary, around).tables
    ensures var r := Result(s, config, dictionary, around).tables[id];
            && ValidVersion(r.version) && UniquelyNamed(r.columns)
            && if id in s.tables then TableStep(s.tables[id], r) else r.version == 1
  {
    hide Valid, Fresh, TableStep, UniquelyNamed, AllWritable, AllMappable, ProductConflict, ProductOf, ClassifyTable, TablePlan, ReportProduct,
      ProductPlan, Problems, ProductRecordOf, TableList, Drafts, Unresolvable, DraftsOf, MappingsOf, RecordList;
    var drafts := DraftsOf(s, config, dictionary, around);
    var records := TableRecords(s.tables, drafts, around);
    WrittenMeans(s.tables, records, id);
    var r := Result(s, config, dictionary, around).tables[id];
    if exists other :: other in records && other.id == id && r == other {
      var i :| 0 <= i < |records| && records[i].id == id && r == records[i];
      assert drafts[i] in drafts && records[i] in records;
      assert PlansOf(s, drafts, around)[i] in PlansOf(s, drafts, around);
      assert Recordable(s.tables, drafts[i], around);
      DraftIsDrafted(s, config, dictionary, around, drafts[i]);
      RecordSteps(s, config.tables, drafts[i], around);
    } else {
      OldTable(s, id);
    }
  }

  lemma DraftIsDrafted(s: State, config: Config, dictionary: seq<DictionaryTable>, around: Surroundings, d: Draft)
    requires AllResolvable(s.tables, config.tables, dictionary) && d in DraftsOf(s, config, dictionary, around)
    ensures Drafted(s.tables, config.tables, around.supply, d)
  {
    DraftsAreDrafted(s.tables, config.tables, dictionary, around.supply, d);
  }

  lemma OldTable(s: State, id: TableId)
    requires Valid(s) && id in s.tables
    ensures ValidVersion(s.tables[id].version) && UniquelyNamed(s.tables[id].columns) && TableStep(s.tables[id], s.tables[id])
  {
  }

  lemma ResultShape(s: State, config: Config, dictionary: seq<DictionaryTable>, around: Surroundings)
    ensures var b, product := Result(s, config, dictionary, around), ProductOf(s, config, dictionary, around);
            && b.products == s.products[config.id := product]
            && forall id :: id in s.tables ==> id in b.tables
  {
    hide TableRecords, DraftsOf, RecordList;
    forall id | id in s.tables ensures id in Result(s, config, dictionary, around).tables {
      WrittenMeans(s.tables, TableRecords(s.tables, DraftsOf(s, config, dictionary, around), around), id);
    }
  }

  lemma TablesAdvance(s: State, config: Config, dictionary: seq<DictionaryTable>, around: Surroundings)
    requires Valid(s) && Fresh(s, around.supply) && Succeeds(s, config, dictionary, around)
    ensures var b := Result(s, config, dictionary, around);
            forall id :: id in b.tables ==>
              && ValidVersion(b.tables[id].version) && UniquelyNamed(b.tables[id].columns)
              && if id in s.tables then TableStep(s.tables[id], b.tables[id]) else b.tables[id].version == 1
  {
    var b := Result(s, config, dictionary, around);
    hide Result, Valid, Fresh, Succeeds, TableStep, UniquelyNamed, ValidVersion;
    forall id | id in b.tables
      ensures ValidVersion(b.tables[id].version) && UniquelyNamed(b.tables[id].columns)
      ensures if id in s.tables then TableStep(s.tables[id], b.tables[id]) else b.tables[id].version == 1
    {
      TableAdvances(s, config, dictionary, around, id);
    }
  }

  /** A successful run only steps records and adds new ones, and leaves a valid registry. */
  lemma RunAdvances(s: State, config: Config, dictionary: seq<DictionaryTable>, around: Surroundings)
    requires Valid(s) && Fresh(s, around.supply) && Succeeds(s, config, dictionary, around)
    ensures Advances(s, Result(s, config, dictionary, around)) && Valid(Result(s, config, dictionary, around))
  {
    hide Result, ProductOf, Succeeds, TableStep, ProductStep, UniquelyNamed, KeysApart, LocatorsApart, Fresh, ValidVersion;
    ResultShape(s, config, dictionary, around);
    ProductWritten(s, config, dictionary, around);
    TablesStayApart(s, config, dictionary, around);
    TablesAdvance(s, config, dictionary, around);
    Unstepped(s.products);
  }

  lemma Unstepped(products: map<ProductId, Product>)
    ensures forall id :: id in products ==> ProductStep(products[id], products[id])
  {
  }

  lemma TablesStayApart(s: State, config: Config, dictionary: seq<DictionaryTable>, around: Surroundings)
    requires Valid(s) && Succeeds(s, config, dictionary, around)
    ensures LocatorsApart(Result(s, config, dictionary, around).tables)
  {
    hide Passes, Buildable, ProductOf, DraftsOf, AllWritable, AllMappable, LocatorsApart, KeysApart, UniquelyNamed, Written;
    WrittenKeeps(s.tables, TableRecords(s.tables, DraftsOf(s, config, dictionary, around), around));
  }

  lemma ProductWritten(s: State, config: Config, dictionary: seq<DictionaryTable>, around: Surroundings)
    requires Valid(s) && Fresh(s, around.supply) && Succeeds(s, config, dictionary, around)
    ensures var product := ProductOf(s, config, dictionary, around);
            && KeysApart(s.products[config.id := product]) && ValidVersion(product.version) && UniquelyNamed(product.relationships)
            && if config.id in s.products then ProductStep(s.products[config.id], product) else product.version == 1
  {
    hide Fresh, LocatorsApart, UniquelyNamed, AllWritable, AllMappable, AllResolvable, DraftsOf, RecordList, NextRelationshipsOf, ProductStep,
      KeysApart, ReportProduct, ProductConflict, ClassifyTable, TableRecords, PlansOf, Problems, ProductPlan;
    var product := ProductOf(s, config, dictionary, around);
    ProductSteps(s, config, dictionary, around);
    ProductWriteKeeps(s.products, product);
  }

  // ---------- the gate implies the writes ----------

  predicate Separate(records: seq<Table>) {
    forall i, j :: 0 <= i < j < |records| ==> records[i].id != records[j].id && records[i].locator != records[j].locator
  }

  /** Separate records that can each be written into the registry can be written one after the other. */
  lemma WritableInTurn(tables: map<TableId, Table>, records: seq<Table>)
    requires LocatorsApart(tables) && Separate(records) && forall r :: r in records ==> TableConflict(tables, r).None?
    ensures AllWritable(tables, records)
  {
    forall i | 0 <= i < |records| ensures TableConflict(Written(tables, records[..i]), records[i]).None? {
      var before, r := Written(tables, records[..i]), records[i];
      assert r in records;
      WrittenMeans(tables, records[..i], r.id);
      forall id | id in before && before[id].id != r.id ensures before[id].locator != r.locator {
        WrittenMeans(tables, records[..i], id);
      }
    }
  }

  lemma {:induction false} WrittenStays(tables: map<TableId, Table>, records: seq<Table>, i: nat)
    requires Separate(records) && i < |records|
    ensures records[i].id in Written(tables, records) && Written(tables, records)[records[i].id] == records[i]
  {
    var n := |records| - 1;
    if i < n {
      assert Separate(records[..n]);
      WrittenStays(tables, records[..n], i);
      assert records[..n][i] == records[i];
    }
  }

  lemma MappableInTurn(s: State, config: Config, product: Product, records: seq<Table>, around: Surroundings)
    requires Separate(records)
    ensures AllMappable(config, s, product, records, around)
  {
    hide Written;
    var mappings := MappingsOf(config, records, around);
    forall m | m in mappings ensures Mappable(m, config.id, Written(s.tables, records)) {
      var i :| 0 <= i < |mappings| && mappings[i] == m;
      WrittenStays(s.tables, records, i);
    }
  }

  /** A run that builds and passes the gate succeeds, none of its writes raising, in all cases but
      one: it creates a retired product with the content it already has. */
  lemma GateImpliesWrites(s: State, config: Config, dictionary: seq<DictionaryTable>, around: Surroundings)
    requires Valid(s) && Buildable(s, config, dictionary, around)
    requires var drafts, product := DraftsOf(s, config, dictionary, around), ProductOf(s, config, dictionary, around);
             && Passes(s, config, product, drafts, around) && Separate(TableRecords(s.tables, drafts, around))
             && (config.id in s.products && s.products[config.id].hash == product.hash ==> s.products[config.id].key == config.key)
    ensures Succeeds(s, config, dictionary, around) <==>
              !(config.operation == CreateOperation && config.id in s.products && s.products[config.id].status == Retired)
  {
    hide KeysApart, LocatorsApart, UniquelyNamed, RecordList, NextRelationshipsOf, DraftsOf, ReportProduct, ClassifyTable, ProductConflict,
      AllWritable, AllMappable, Separate, TableConflict, Recordable, AllResolvable, PlansOf, ProductPlan, Problems, TableList;
    var drafts, product := DraftsOf(s, config, dictionary, around), ProductOf(s, config, dictionary, around);
    var records := TableRecords(s.tables, drafts, around);
    ProductGateImpliesWrite(s.products, product, config.operation);
    forall r | r in records ensures TableConflict(s.tables, r).None? {
      var i :| 0 <= i < |records| && records[i] == r;
      assert drafts[i] in drafts;
      DraftIsDrafted(s, config, dictionary, around, drafts[i]);
      NeverReuse(s.tables, config.tables, drafts[i], around);
      TableGateImpliesWrite(s.tables, r);
    }
    WritableInTurn(s.tables, records);
    MappableInTurn(s, config, product, records, around);
  }
}
