/** One run of the pipeline over the registry: tables are resolved, records and versions planned,
    everything is gated, and only then written. */
module ProductRun {
  import opened Common
  import opened Versioning
  import opened Identity
  import opened Carrying
  import opened RegistryStore

  datatype State = State(products: map<ProductId, Product>, tables: map<TableId, Table>, mappings: map<ProductId, seq<Mapping>>)

  datatype TableConfig = TableConfig(locator: Locator, id: Option<TableId>, version: Option<int>, base: Option<int>)

  /** A table of the dictionary; `content` is everything about it that only its hashes see. */
  datatype DictionaryTable = DictionaryTable(locator: Locator, columns: seq<Name>, content: int)

  datatype Config = Config(
    operation: Operation, id: ProductId, key: ProductKey, version: int, base: Option<int>, tables: seq<TableConfig>)

  datatype Draft = Draft(id: TableId, locator: Locator, columns: seq<NamedRecord>, content: int, config: TableConfig)

  /** The hashes and the new IDs a run is given, the foreign keys of its columns, the links of its
      mappings, and whether a check outside this model blocks it. */
  datatype Surroundings = Surroundings(
    tableHash: Draft -> Hash, schemaHash: Draft -> Hash,
    productHash: (ProductKey, seq<Table>, seq<Relationship>) -> Hash,
    supply: Supply, foreignKeys: seq<ForeignKey>, link: TableId -> int, blocked: bool)

  // ---------- resolving tables ----------

  function ConfigFor(configs: seq<TableConfig>, locator: Locator): TableConfig {
    if configs == [] then TableConfig(locator, None, None, None)
    else if configs[0].locator == locator then configs[0]
    else ConfigFor(configs[1..], locator)
  }

  predicate ValidConfigs(configs: seq<TableConfig>, dictionary: seq<DictionaryTable>) {
    && (forall i, j :: 0 <= i < j < |configs| ==> configs[i].locator != configs[j].locator)
    && forall c :: c in configs ==> exists t :: t in dictionary && t.locator == c.locator
  }

  function Located(tables: map<TableId, Table>, locator: Locator): (r: Option<Table>)
    ensures r.Some? ==> r.value.locator == locator && exists id :: id in tables && tables[id] == r.value
    ensures r.None? ==> forall id :: id in tables ==> tables[id].locator != locator
  {
    var list := TableList(tables);
    assert forall id :: id in tables ==> tables[id] in list;
    FirstTable(list, (t: Table) => t.locator == locator)
  }

  /** An agreeing table index is one-to-one and gives what looking the locator up finds. */
  lemma LocatorIndexIsScan(index: map<Locator, TableId>, tables: map<TableId, Table>, locator: Locator)
    requires LocatorIndexAgrees(index, tables) && LocatorsApart(tables)
    ensures forall a, b :: a in index && b in index && index[a] == index[b] ==> a == b
    ensures (Located(tables, locator).Some? <==> locator in index)
            && (locator in index ==> Located(tables, locator) == Some(tables[index[locator]]) && tables[index[locator]].id == index[locator])
  {
    hide Located;
    forall a, b | a in index && b in index && index[a] == index[b] ensures a == b {
      assert tables[index[a]].locator == a && tables[index[b]].locator == b;
    }
  }

  function ColumnsOf(table: Option<Table>): seq<NamedRecord> {
    if table.Some? then table.value.columns else []
  }

  /** A configured ID that is not the registered one, or a retired column used again. */
  predicate Unresolvable(tables: map<TableId, Table>, config: TableConfig, table: DictionaryTable) {
    var existing := Located(tables, table.locator);
    || (existing.Some? && config.id.Some? && existing.value.id != config.id.value)
    || ReusesRetired(ColumnsOf(existing), table.columns)
  }

  /** Drawing a new table ID happens only when neither the configuration nor the registry has one. */
  function TableIdOf(tables: map<TableId, Table>, config: TableConfig, table: DictionaryTable, supply: Supply, next: nat): (TableId, nat) {
    var existing := Located(tables, table.locator);
    if config.id.Some? then (config.id.value, next)
    else if existing.Some? then (existing.value.id, next)
    else (supply(next), next + 1)
  }

  function DraftOf(tables: map<TableId, Table>, config: TableConfig, table: DictionaryTable, supply: Supply, next: nat): Draft {
    var existing := ColumnsOf(Located(tables, table.locator));
    var (id, after) := TableIdOf(tables, config, table, supply, next);
    Draft(id, table.locator, NextColumns(existing, table.columns, supply, after), table.content, config)
  }

  function DrawnFor(tables: map<TableId, Table>, config: TableConfig, table: DictionaryTable, supply: Supply, next: nat): (after: nat)
    ensures next <= after
  {
    Drawn(ColumnsOf(Located(tables, table.locator)), table.columns, TableIdOf(tables, config, table, supply, next).1)
  }

  function DrawnForAll(tables: map<TableId, Table>, configs: seq<TableConfig>, dictionary: seq<DictionaryTable>, supply: Supply, next: nat): (after: nat)
    ensures next <= after
  {
    if dictionary == [] then next
    else
      var last := dictionary[|dictionary| - 1];
      DrawnFor(tables, ConfigFor(configs, last.locator), last, supply,
               DrawnForAll(tables, configs, dictionary[..|dictionary| - 1], supply, next))
  }

  function Drafts(tables: map<TableId, Table>, configs: seq<TableConfig>, dictionary: seq<DictionaryTable>, supply: Supply, next: nat): (r: seq<Draft>)
    ensures |r| == |dictionary|
  {
    if dictionary == [] then []
    else
      var n := |dictionary| - 1;
      Drafts(tables, configs, dictionary[..n], supply, next)
      + [DraftOf(tables, ConfigFor(configs, dictionary[n].locator), dictionary[n], supply,
                 DrawnForAll(tables, configs, dictionary[..n], supply, next))]
  }

  lemma {:induction false} DraftExactly(tables: map<TableId, Table>, configs: seq<TableConfig>, dictionary: seq<DictionaryTable>, supply: Supply, i: nat)
    requires i < |dictionary|
    ensures Drafts(tables, configs, dictionary, supply, 0)[i] ==
            DraftOf(tables, ConfigFor(configs, dictionary[i].locator), dictionary[i], supply, DrawnForAll(tables, configs, dictionary[..i], supply, 0))
  {
    hide DraftOf, ConfigFor, DrawnForAll;
    var n := |dictionary| - 1;
    if i < n {
      assert dictionary[..n][..i] == dictionary[..i];
      DraftExactly(tables, configs, dictionary[..n], supply, i);
    }
  }

  /** Neither the configuration nor the registry has an ID for the table. */
  predicate IsNew(tables: map<TableId, Table>, configs: seq<TableConfig>, t: DictionaryTable) {
    ConfigFor(configs, t.locator).id.None? && forall id :: id in tables ==> tables[id].locator != t.locator
  }

  lemma {:induction false} DrawnForAllGrows(
    tables: map<TableId, Table>, configs: seq<TableConfig>, dictionary: seq<DictionaryTable>, supply: Supply, i: nat, j: nat)
    requires i < j <= |dictionary| && IsNew(tables, configs, dictionary[i])
    ensures DrawnForAll(tables, configs, dictionary[..i], supply, 0) < DrawnForAll(tables, configs, dictionary[..j], supply, 0)
  {
    assert dictionary[..j][..j - 1] == dictionary[..j - 1];
    hide ConfigFor, Located, Drawn;
    if i < j - 1 { DrawnForAllGrows(tables, configs, dictionary, supply, i, j - 1); }
  }

  /** New tables get different IDs. */
  lemma NewTableIdsDiffer(tables: map<TableId, Table>, configs: seq<TableConfig>, dictionary: seq<DictionaryTable>, supply: Supply, i: nat, j: nat)
    requires DrawsOnce(supply) && i < j < |dictionary| && IsNew(tables, configs, dictionary[i]) && IsNew(tables, configs, dictionary[j])
    ensures Drafts(tables, configs, dictionary, supply, 0)[i].id != Drafts(tables, configs, dictionary, supply, 0)[j].id
  {
    DraftExactly(tables, configs, dictionary, supply, i);
    DraftExactly(tables, configs, dictionary, supply, j);
    DrawnForAllGrows(tables, configs, dictionary, supply, i, j);
    hide Drafts, DrawnForAll, NextColumns, ConfigFor, Located;
  }

  predicate AllResolvable(tables: map<TableId, Table>, configs: seq<TableConfig>, dictionary: seq<DictionaryTable>) {
    ValidConfigs(configs, dictionary)
    && forall t :: t in dictionary ==> !Unresolvable(tables, ConfigFor(configs, t.locator), t)
  }

  /** The dictionary can be resolved: its configuration names each table once and only tables of the dictionary, gives a registered table no other
      ID, and no column bears first the name of a retired one. */
  ghost predicate Resolves(tables: map<TableId, Table>, configs: seq<TableConfig>, dictionary: seq<DictionaryTable>) {
    && (forall i, j :: 0 <= i < j < |configs| ==> configs[i].locator != configs[j].locator)
    && (forall c :: c in configs ==> exists t :: t in dictionary && t.locator == c.locator)
    && forall t, id :: t in dictionary && id in tables && tables[id].locator == t.locator ==>
         && (forall c :: c in configs && c.locator == t.locator && c.id.Some? ==> c.id.value == tables[id].id)
         && forall name, i :: name in t.columns && 0 <= i < |tables[id].columns| && FirstNamed(tables[id].columns, i, name) ==>
              tables[id].columns[i].status != Retired
  }

  lemma {:induction false} ConfigIff(configs: seq<TableConfig>, locator: Locator)
    requires forall i, j :: 0 <= i < j < |configs| ==> configs[i].locator != configs[j].locator
    ensures forall c :: c in configs && c.locator == locator ==> ConfigFor(configs, locator) == c
    ensures (forall c :: c in configs ==> c.locator != locator) ==> ConfigFor(configs, locator).id.None?
  {
    if configs != [] {
      var rest := configs[1..];
      assert forall i :: 0 <= i < |rest| ==> rest[i] == configs[i + 1];
      ConfigIff(rest, locator);
      assert forall c :: c in configs <==> c == configs[0] || c in rest;
      forall c | c in rest ensures c.locator != configs[0].locator {
        var k :| 0 <= k < |rest| && rest[k] == c;
        assert configs[k + 1] == c;
      }
    }
  }

  lemma LocatedIff(tables: map<TableId, Table>, locator: Locator)
    requires LocatorsApart(tables)
    ensures forall id :: id in tables && tables[id].locator == locator ==> Located(tables, locator) == Some(tables[id])
  {
    hide Located;
  }

  lemma RetiredIff(existing: seq<NamedRecord>, names: seq<Name>)
    ensures ReusesRetired(existing, names) <==>
              exists name, i :: name in names && 0 <= i < |existing| && FirstNamed(existing, i, name) && existing[i].status == Retired
  {
    forall name ensures MatchesRetired(existing, name) <==> exists i :: 0 <= i < |existing| && FirstNamed(existing, i, name) && existing[i].status == Retired {
      MatchedIff(existing, name);
      if i :| 0 <= i < |existing| && FirstNamed(existing, i, name) {
        assert existing[i] in existing;
        if Matched(existing, name).Some? {
          var j :| FirstNamed(existing, j, name) && existing[j] == Matched(existing, name).value;
          assert i == j;
        }
      }
    }
  }

  /** Resolving fails for nothing else. */
  lemma ResolvesIff(tables: map<TableId, Table>, configs: seq<TableConfig>, dictionary: seq<DictionaryTable>)
    requires LocatorsApart(tables)
    ensures AllResolvable(tables, configs, dictionary) <==> Resolves(tables, configs, dictionary)
  {
    hide Located, FirstNamed, ConfigFor, ReusesRetired, LocatorsApart;
    if forall i, j :: 0 <= i < j < |configs| ==> configs[i].locator != configs[j].locator {
      forall t | t in dictionary
        ensures !Unresolvable(tables, ConfigFor(configs, t.locator), t) <==>
                  forall id :: id in tables && tables[id].locator == t.locator ==>
                    && (forall c :: c in configs && c.locator == t.locator && c.id.Some? ==> c.id.value == tables[id].id)
                    && forall name, i :: name in t.columns && 0 <= i < |tables[id].columns| && FirstNamed(tables[id].columns, i, name) ==>
                         tables[id].columns[i].status != Retired
      {
        ConfigIff(configs, t.locator);
        LocatedIff(tables, t.locator);
        RetiredIff(ColumnsOf(Located(tables, t.locator)), t.columns);
      }
    }
  }

  lemma NothingDrafted(tables: map<TableId, Table>, configs: seq<TableConfig>, dictionary: seq<DictionaryTable>, supply: Supply)
    ensures Drafts(tables, configs, dictionary[..0], supply, 0) == [] && DrawnForAll(tables, configs, dictionary[..0], supply, 0) == 0
  {
  }

  lemma DraftsStep(tables: map<TableId, Table>, configs: seq<TableConfig>, dictionary: seq<DictionaryTable>, supply: Supply, i: nat)
    requires i < |dictionary|
    ensures var t, drawn := dictionary[i], DrawnForAll(tables, configs, dictionary[..i], supply, 0);
            && Drafts(tables, configs, dictionary[..i + 1], supply, 0) ==
               Drafts(tables, configs, dictionary[..i], supply, 0) + [DraftOf(tables, ConfigFor(configs, t.locator), t, supply, drawn)]
            && DrawnForAll(tables, configs, dictionary[..i + 1], supply, 0) == DrawnFor(tables, ConfigFor(configs, t.locator), t, supply, drawn)
  {
    hide DraftOf, DrawnFor, ConfigFor;
    assert dictionary[..i + 1][..i] == dictionary[..i];
  }

  /** `_resolve_tables`. */
  method ResolveTables(tables: map<TableId, Table>, configs: seq<TableConfig>, dictionary: seq<DictionaryTable>, supply: Supply)
    returns (drafts: Option<seq<Draft>>, after: nat)
    ensures drafts == if AllResolvable(tables, configs, dictionary) then Some(Drafts(tables, configs, dictionary, supply, 0)) else None
    ensures drafts.Some? ==> after == DrawnForAll(tables, configs, dictionary, supply, 0)
  {
    hide Located, NextColumns, Drawn, ReusesRetired, ConfigFor, Drafts, DrawnForAll, ValidConfigs;
    NothingDrafted(tables, configs, dictionary, supply);
    after := 0;
    if !ValidConfigs(configs, dictionary) { return None, 0; }
    var made := [];
    for i := 0 to |dictionary|
      invariant made == Drafts(tables, configs, dictionary[..i], supply, 0) && after == DrawnForAll(tables, configs, dictionary[..i], supply, 0)
      invariant forall k :: 0 <= k < i ==> !Unresolvable(tables, ConfigFor(configs, dictionary[k].locator), dictionary[k])
    {
      DraftsStep(tables, configs, dictionary, supply, i);
      var table := dictionary[i];
      assert table in dictionary;
      var config, existing := ConfigFor(configs, table.locator), Located(tables, table.locator);
      if existing.Some? && config.id.Some? && existing.value.id != config.id.value { return None, after; }
      var (id, next) := TableIdOf(tables, config, table, supply, after);
      var columns, drawn := ResolveColumns(ColumnsOf(existing), table.columns, supply, next);
      if columns.None? { return None, after; }
      made := made + [Draft(id, table.locator, columns.value, table.content, config)];
      after := drawn;
    }
    assert dictionary[..|dictionary|] == dictionary;
    drafts := Some(made);
  }

  // ---------- records and versions ----------

  function CurrentVersion(existing: Option<Table>): Option<int> {
    if existing.Some? then Some(existing.value.version) else None
  }

  function Lookup(tables: map<TableId, Table>, id: TableId): Option<Table> {
    if id in tables then Some(tables[id]) else None
  }

  predicate TableChanged(existing: Option<Table>, hash: Hash) {
    existing.None? || existing.value.hash != Some(hash)
  }

  function ProposedVersion(draft: Draft, existing: Option<Table>, changed: bool): int {
    if draft.config.version.Some? then draft.config.version.value else DefaultProposal(CurrentVersion(existing), changed)
  }

  function TablePlan(tables: map<TableId, Table>, draft: Draft, around: Surroundings): Plan {
    var existing := Lookup(tables, draft.id);
    var changed := TableChanged(existing, around.tableHash(draft));
    PlanVersion(CurrentVersion(existing), changed, if draft.config.base.Some? then draft.config.base else CurrentVersion(existing),
                Some(ProposedVersion(draft, existing, changed)))
  }

  function TableRecordOf(tables: map<TableId, Table>, draft: Draft, around: Surroundings): Table {
    var existing, hash := Lookup(tables, draft.id), around.tableHash(draft);
    Table(draft.id, draft.locator, ProposedVersion(draft, existing, TableChanged(existing, hash)), Active, draft.columns,
          Some(around.schemaHash(draft)), Some(hash))
  }

  /** Planning raises on a version out of range; so does the validator of the record. */
  predicate Recordable(tables: map<TableId, Table>, draft: Draft, around: Surroundings) {
    TablePlan(tables, draft, around) != OutOfRange && UniquelyNamed(draft.columns)
  }

  function TableRecords(tables: map<TableId, Table>, drafts: seq<Draft>, around: Surroundings): (r: seq<Table>)
    ensures |r| == |drafts| && forall i :: 0 <= i < |r| ==> r[i] == TableRecordOf(tables, drafts[i], around)
  {
    seq(|drafts|, i requires 0 <= i < |drafts| => TableRecordOf(tables, drafts[i], around))
  }

  /** `_build_table_records`. */
  method BuildTableRecords(tables: map<TableId, Table>, drafts: seq<Draft>, around: Surroundings)
    returns (records: Option<seq<Table>>, plans: seq<Plan>)
    ensures records == if forall d :: d in drafts ==> Recordable(tables, d, around) then Some(TableRecords(tables, drafts, around)) else None
    ensures records.Some? ==> |plans| == |drafts| && forall i :: 0 <= i < |drafts| ==> plans[i] == TablePlan(tables, drafts[i], around)
  {
    plans := [];
    var made := [];
    for i := 0 to |drafts|
      invariant |made| == |plans| == i
      invariant forall k :: 0 <= k < i ==>
        Recordable(tables, drafts[k], around) && made[k] == TableRecordOf(tables, drafts[k], around) && plans[k] == TablePlan(tables, drafts[k], around)
    {
      var draft := drafts[i];
      assert draft in drafts;
      var plan := TablePlan(tables, draft, around);
      if plan == OutOfRange || !UniquelyNamed(draft.columns) { return None, plans; }
      plans := plans + [plan];
      made := made + [TableRecordOf(tables, draft, around)];
    }
    assert made == TableRecords(tables, drafts, around);
    records := Some(made);
  }
}
