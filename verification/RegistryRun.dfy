/** The gate of `process_product` and the writes behind it, over a staged copy of the registry. */
module RegistryRun {
  import opened Common
  import opened Versioning
  import opened Identity
  import opened Carrying
  import opened RegistryStore
  import opened ProductRun

  // ---------- the product record ----------

  function RecordsIn(records: map<RecordId, NamedRecord>, ids: seq<RecordId>): (s: seq<NamedRecord>)
    ensures forall r :: r in s <==> exists id :: id in ids && id in records && records[id] == r
  {
    if ids == [] then []
    else
      assert forall id :: id in ids <==> id == ids[0] || id in ids[1..];
      (if ids[0] in records then [records[ids[0]]] else []) + RecordsIn(records, ids[1..])
  }

  /** The records by ascending ID. */
  function RecordList(records: map<RecordId, NamedRecord>): (s: seq<NamedRecord>)
    ensures forall r :: r in s <==> exists id :: id in records && records[id] == r
  {
    RecordsIn(records, Ascending(records.Keys))
  }

  function Existing(state: State, config: Config): Option<Product> {
    if config.id in state.products then Some(state.products[config.id]) else None
  }

  function RelationshipsOf(product: Option<Product>): seq<NamedRecord> {
    if product.Some? then product.value.relationships else []
  }

  function ProductRecordOf(state: State, config: Config, tables: seq<Table>, relationships: seq<Relationship>,
                           records: map<RecordId, NamedRecord>, around: Surroundings): Product {
    var existing := Existing(state, config);
    Product(config.id, config.key, config.version, Active, if existing.Some? then existing.value.aliases else [],
            Some(around.productHash(config.key, tables, relationships)), RecordList(records))
  }

  function ProductPlan(state: State, config: Config, record: Product): Plan {
    var existing := Existing(state, config);
    var current := if existing.Some? then Some(existing.value.version) else None;
    PlanVersion(current, existing.None? || existing.value.hash != record.hash,
                if config.base.Some? then config.base else current, Some(config.version))
  }

  // ---------- the gate ----------

  /** No duplicate check, version plan, relationship or outside check blocks the run. */
  predicate Gate(state: State, config: Config, product: Product, tables: seq<Table>, plans: seq<Plan>, findings: nat, around: Surroundings) {
    && ReportProduct(product, state.products, config.operation) != Blocked
    && (forall t :: t in tables ==> ClassifyTable(t, TableList(state.tables)) != Blocked)
    && (forall p :: p in plans ==> p.Allow?) && ProductPlan(state, config, product).Allow?
    && findings == 0 && !around.blocked
  }

  // ---------- the writes ----------

  function Written(tables: map<TableId, Table>, records: seq<Table>): map<TableId, Table> {
    if records == [] then tables
    else
      var last := records[|records| - 1];
      Written(tables, records[..|records| - 1])[last.id := last]
  }

  function MappingsOf(config: Config, tables: seq<Table>, around: Surroundings): (r: seq<Mapping>)
    ensures |r| == |tables|
    ensures forall i :: 0 <= i < |r| ==> r[i] == Mapping(around.link(tables[i].id), config.id, tables[i].id, tables[i].version)
  {
    seq(|tables|, i requires 0 <= i < |tables| => Mapping(around.link(tables[i].id), config.id, tables[i].id, tables[i].version))
  }

  /** Each table can be written after those before it. */
  predicate AllWritable(tables: map<TableId, Table>, records: seq<Table>) {
    forall i :: 0 <= i < |records| ==> TableConflict(Written(tables, records[..i]), records[i]).None?
  }

  predicate AllMappable(config: Config, state: State, product: Product, records: seq<Table>, around: Surroundings) {
    forall m :: m in MappingsOf(config, records, around) ==> Mappable(m, config.id, Written(state.tables, records))
  }

  /** The tables, one after the other. */
  method WriteTables(staged: Registry, records: seq<Table>) returns (written: bool)
    modifies staged`tables, staged`productKeys, staged`tableLocators
    ensures written <==> AllWritable(old(staged.tables), records)
    ensures written ==> staged.tables == Written(old(staged.tables), records)
  {
    hide TableConflict;
    ghost var before := staged.tables;
    for i := 0 to |records|
      invariant staged.tables == Written(before, records[..i])
      invariant forall k :: 0 <= k < i ==> TableConflict(Written(before, records[..k]), records[k]).None?
    {
      assert records[..i + 1][..i] == records[..i];
      var conflict := staged.WriteTable(records[i]);
      if conflict.Some? { return false; }
    }
    assert records[..|records|] == records;
    written := true;
  }

  /** The writes of `process_product` into a staged copy; nothing when one of them raises, and then
      the copy is thrown away. */
  method WriteAll(state: State, config: Config, product: Product, records: seq<Table>, around: Surroundings) returns (result: Option<State>)
    requires product.id == config.id
    ensures result.Some? <==>
              ProductConflict(state.products, product).None? && AllWritable(state.tables, records)
              && AllMappable(config, state, product, records, around)
    ensures result.Some? ==>
              && result.value.products == state.products[product.id := product]
              && result.value.tables == Written(state.tables, records)
              && result.value.mappings == state.mappings[config.id := SortedByLink(MappingsOf(config, records, around))]
  {
    hide ProductConflict, AllWritable, Mappable, SortedByLink, Written, MappingsOf;
    var staged := new Registry(state.products, state.tables, state.mappings);
    var conflict := staged.WriteProduct(product);
    if conflict.Some? { return None; }
    var written := WriteTables(staged, records);
    if !written { return None; }
    var error := staged.WriteMappings(config.id, MappingsOf(config, records, around));
    if error.Some? { return None; }
    result := Some(State(staged.products, staged.tables, staged.mappings));
  }

  // ---------- the run ----------

  /** The candidate records of a run, when building them does not raise. */
  datatype Candidates = Candidates(product: Product, tables: seq<Table>, plans: seq<Plan>, findings: nat)

  function DraftsOf(state: State, config: Config, dictionary: seq<DictionaryTable>, around: Surroundings): seq<Draft> {
    Drafts(state.tables, config.tables, dictionary, around.supply, 0)
  }

  function NextRelationshipsOf(state: State, config: Config, dictionary: seq<DictionaryTable>, around: Surroundings): map<RecordId, NamedRecord> {
    NextRelationships(RelationshipsOf(Existing(state, config)), around.foreignKeys, around.supply,
                      DrawnForAll(state.tables, config.tables, dictionary, around.supply, 0))
  }

  function LinksOf(state: State, config: Config, dictionary: seq<DictionaryTable>, around: Surroundings): seq<Relationship> {
    SortedLinks(RelationshipsOf(Existing(state, config)), around.foreignKeys, around.supply,
                DrawnForAll(state.tables, config.tables, dictionary, around.supply, 0))
  }

  function ProductOf(state: State, config: Config, dictionary: seq<DictionaryTable>, around: Surroundings): Product {
    ProductRecordOf(state, config, TableRecords(state.tables, DraftsOf(state, config, dictionary, around), around),
                    LinksOf(state, config, dictionary, around), NextRelationshipsOf(state, config, dictionary, around), around)
  }

  /** Building the candidate records raises nothing. */
  predicate Buildable(state: State, config: Config, dictionary: seq<DictionaryTable>, around: Surroundings) {
    && AllResolvable(state.tables, config.tables, dictionary)
    && (forall d :: d in DraftsOf(state, config, dictionary, around) ==> Recordable(state.tables, d, around))
    && UniquelyNamed(ProductOf(state, config, dictionary, around).relationships)
    && ProductPlan(state, config, ProductOf(state, config, dictionary, around)) != OutOfRange
  }

  // ---------- what the gate asks for ----------

  /** The version an entity may get: 1 for a new one, the next one up to 999 for a changed one, and its own for an unchanged
      one; a base that is given must be the version it has. */
  predicate MayGet(current: Option<int>, changed: bool, base: Option<int>, version: Option<int>) {
    match current
    case None => base.None? && (version.None? || version.value == 1)
    case Some(v) => (base.None? || base.value == v) && (if changed then v < 999 else true) && (version.None? || version.value == if changed then v + 1 else v)
  }

  /** The product continues the registered one, or is new in ID, key and content, or is created again with the content it has. */
  predicate Admissible(products: map<ProductId, Product>, operation: Operation, product: Product) {
    if operation == UpdateOperation then Continues(products, product)
    else (product.id in products && products[product.id].hash == product.hash) || Unseen(products, product)
  }

  /** The table is the registered one of its ID, not retired and under the same locator, or no retired table has its locator. */
  predicate TableAdmissible(tables: map<TableId, Table>, table: Table) {
    if table.id in tables then tables[table.id].status == Active && tables[table.id].locator == table.locator
    else forall id :: id in tables && tables[id].locator == table.locator ==> tables[id].status == Active
  }

  /** Nothing outside blocks the run; every foreign key can be linked; product and tables are admissible and get the versions they
      may have. */
  predicate Open(state: State, config: Config, product: Product, drafts: seq<Draft>, around: Surroundings) {
    && !around.blocked
    && (forall key :: key in around.foreignKeys ==> Linkable(RelationshipsOf(Existing(state, config)), key))
    && Admissible(state.products, config.operation, product)
    && (var own := if config.id in state.products then Some(state.products[config.id]) else None;
        MayGet(if own.Some? then Some(own.value.version) else None, own.None? || own.value.hash != product.hash, config.base, Some(config.version)))
    && forall d :: d in drafts ==> DraftOpen(state, d, around)
  }

  predicate DraftOpen(state: State, d: Draft, around: Surroundings) {
    var own := if d.id in state.tables then Some(state.tables[d.id]) else None;
    && TableAdmissible(state.tables, TableRecordOf(state.tables, d, around))
    && MayGet(if own.Some? then Some(own.value.version) else None, own.None? || own.value.hash != Some(around.tableHash(d)),
              d.config.base, d.config.version)
  }

  /** The registry as its validators and writes leave it. */
  ghost predicate Sound(state: State) {
    && KeysApart(state.products) && LocatorsApart(state.tables)
    && (forall id :: id in state.products ==> 1 <= state.products[id].version <= 999)
    && forall id :: id in state.tables ==> 1 <= state.tables[id].version <= 999
  }

  lemma PlanIff(current: Option<int>, changed: bool, base: Option<int>, version: Option<int>)
    requires current.Some? ==> 1 <= current.value <= 999
    ensures PlanVersion(current, changed, if base.Some? then base else current,
                        if version.Some? then version else Some(DefaultProposal(current, changed))).Allow? <==>
              MayGet(current, changed, base, version)
  {
  }

  lemma DraftIff(state: State, d: Draft, around: Surroundings)
    requires Sound(state)
    ensures DraftOpen(state, d, around) <==>
              ClassifyTable(TableRecordOf(state.tables, d, around), TableList(state.tables)) != Blocked && TablePlan(state.tables, d, around).Allow?
  {
    hide PlanVersion, MayGet, TableList, ClassifyTable, LocatorsApart, KeysApart;
    TableClassIff(state.tables, TableRecordOf(state.tables, d, around));
    var existing := Lookup(state.tables, d.id);
    PlanIff(CurrentVersion(existing), TableChanged(existing, around.tableHash(d)), d.config.base, d.config.version);
  }

  /** The gate lets through exactly what is open. */
  lemma GateIff(state: State, config: Config, product: Product, drafts: seq<Draft>, around: Surroundings)
    requires Sound(state) && product.id == config.id && product.version == config.version && product.status == Active && product.key == config.key
    ensures Passes(state, config, product, drafts, around) <==> Open(state, config, product, drafts, around)
  {
    hide PlanVersion, MayGet, ReportProduct, ClassifyTable, TableList, LocatorsApart, KeysApart, Linkable, TableRecordOf, TablePlan, DraftOpen, Problems,
      Unseen, Continues;
    ProblemsIff(RelationshipsOf(Existing(state, config)), around.foreignKeys);
    ProductClassIff(state.products, product, config.operation);
    var existing := Existing(state, config);
    PlanIff(if existing.Some? then Some(existing.value.version) else None, existing.None? || existing.value.hash != product.hash, config.base,
            Some(config.version));
    DraftsIff(state, drafts, around);
  }

  lemma DraftsIff(state: State, drafts: seq<Draft>, around: Surroundings)
    requires Sound(state)
    ensures (forall d :: d in drafts ==> DraftOpen(state, d, around)) <==>
              (forall t :: t in TableRecords(state.tables, drafts, around) ==> ClassifyTable(t, TableList(state.tables)) != Blocked)
              && forall p :: p in PlansOf(state, drafts, around) ==> p.Allow?
  {
    hide ClassifyTable, TableList, TableRecordOf, TablePlan, DraftOpen;
    var records, plans := TableRecords(state.tables, drafts, around), PlansOf(state, drafts, around);
    forall d ensures DraftOpen(state, d, around) <==>
        ClassifyTable(TableRecordOf(state.tables, d, around), TableList(state.tables)) != Blocked && TablePlan(state.tables, d, around).Allow?
    {
      DraftIff(state, d, around);
    }
    forall i | 0 <= i < |drafts| ensures drafts[i] in drafts && records[i] in records && plans[i] in plans {}
  }

  // ---------- the method ----------

  /** The parts of `process_product` that build, gate and write the registry. */
  method ProcessProduct(state: State, config: Config, dictionary: seq<DictionaryTable>, around: Surroundings) returns (result: Option<State>)
    ensures var drafts, product := DraftsOf(state, config, dictionary, around), ProductOf(state, config, dictionary, around);
            var tables := TableRecords(state.tables, drafts, around);
            && (result.Some? <==>
                  && Buildable(state, config, dictionary, around)
                  && Passes(state, config, product, drafts, around)
                  && ProductConflict(state.products, product).None? && AllWritable(state.tables, tables)
                  && AllMappable(config, state, product, tables, around))
            && (result.Some? ==>
                  && result.value.products == state.products[product.id := product]
                  && result.value.tables == Written(state.tables, tables)
                  && result.value.mappings == state.mappings[config.id := SortedByLink(MappingsOf(config, tables, around))])
    ensures result.Some? && Sound(state) ==>
              Open(state, config, ProductOf(state, config, dictionary, around), DraftsOf(state, config, dictionary, around), around)
  {
    hide AllResolvable, Drafts, DrawnForAll, Recordable, UniquelyNamed, ReportProduct, ClassifyTable, ProductPlan, NextRelationships,
      TableRecordOf, TablePlan, AllWritable, AllMappable, ProductConflict, Problems, RecordList, MappingsOf, Written, TableList;
    var drafts, after := ResolveTables(state.tables, config.tables, dictionary, around.supply);
    if drafts.None? { return None; }
    var tables, plans := BuildTableRecords(state.tables, drafts.value, around);
    if tables.None? { return None; }
    var relationships, records, findings := BuildRelationships(RelationshipsOf(Existing(state, config)), around.foreignKeys, around.supply, after);
    var product := ProductRecordOf(state, config, tables.value, relationships, records, around);
    assert product == ProductOf(state, config, dictionary, around);
    if !UniquelyNamed(product.relationships) || ProductPlan(state, config, product) == OutOfRange { return None; }
    SamePlans(state, drafts.value, around, plans);
    if !Gate(state, config, product, tables.value, plans, findings, around) { return None; }
    if Sound(state) { GateIff(state, config, product, drafts.value, around); }
    result := WriteAll(state, config, product, tables.value, around);
  }

  function PlansOf(state: State, drafts: seq<Draft>, around: Surroundings): (r: seq<Plan>)
    ensures |r| == |drafts| && forall i :: 0 <= i < |r| ==> r[i] == TablePlan(state.tables, drafts[i], around)
  {
    seq(|drafts|, i requires 0 <= i < |drafts| => TablePlan(state.tables, drafts[i], around))
  }

  lemma SamePlans(state: State, drafts: seq<Draft>, around: Surroundings, plans: seq<Plan>)
    requires |plans| == |drafts| && forall i :: 0 <= i < |drafts| ==> plans[i] == TablePlan(state.tables, drafts[i], around)
    ensures plans == PlansOf(state, drafts, around)
  {
  }

  predicate Passes(state: State, config: Config, product: Product, drafts: seq<Draft>, around: Surroundings) {
    Gate(state, config, product, TableRecords(state.tables, drafts, around), PlansOf(state, drafts, around),
         Problems(RelationshipsOf(Existing(state, config)), around.foreignKeys), around)
  }
}
