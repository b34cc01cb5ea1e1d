/** When a run of the pipeline succeeds, and what the registry then says about its product and its dictionary. */
module Registration {
  import opened Identity
  import opened Carrying
  import opened RegistryStore
  import opened ProductRun
  import opened RegistryRun
  import opened RunTheorems

  lemma ValidIsSound(s: State)
    requires Valid(s)
    ensures Sound(s)
  {
  }

  /** A run whose records can be built succeeds exactly when it is open and does not create a retired product that is unchanged. */
  lemma SucceedsIff(s: State, config: Config, dictionary: seq<DictionaryTable>, around: Surroundings)
    requires Valid(s) && Buildable(s, config, dictionary, around)
    requires var drafts, product := DraftsOf(s, config, dictionary, around), ProductOf(s, config, dictionary, around);
             && Separate(TableRecords(s.tables, drafts, around))
             && (config.id in s.products && s.products[config.id].hash == product.hash ==> s.products[config.id].key == config.key)
    ensures Succeeds(s, config, dictionary, around) <==>
              && Open(s, config, ProductOf(s, config, dictionary, around), DraftsOf(s, config, dictionary, around), around)
              && !(config.operation == CreateOperation && config.id in s.products && s.products[config.id].status == Retired)
  {
    hide Valid, Sound, Open, Buildable, Passes, DraftsOf, Separate, ProductConflict, AllWritable, AllMappable, RecordList, NextRelationshipsOf, LinksOf;
    ValidIsSound(s);
    var drafts, product := DraftsOf(s, config, dictionary, around), ProductOf(s, config, dictionary, around);
    GateIff(s, config, product, drafts, around);
    if Passes(s, config, product, drafts, around) { GateImpliesWrites(s, config, dictionary, around); }
  }

  // ---------- tables ----------

  /** IDs occur once, and so do names however they are written. */
  predicate OneEach(records: seq<NamedRecord>) {
    forall i, j :: 0 <= i < j < |records| ==> records[i].id != records[j].id && records[i].name.folded != records[j].name.folded
  }

  /** The record registers the dictionary's table: under its locator, with exactly its columns active, and with the ID it has in the
      registry or in the configuration. */
  ghost predicate Registers(s: State, config: Config, t: DictionaryTable, r: Table) {
    && r.locator == t.locator && r.status == Active
    && (forall name :: name in t.columns <==> exists c :: c in r.columns && c.name == name && c.status == Active)
    && OneEach(r.columns)
    && (forall id :: id in s.tables && s.tables[id].locator == t.locator ==> r.id == id)
    && forall c :: c in config.tables && c.locator == t.locator && c.id.Some? ==> r.id == c.id.value
  }

  lemma {:induction false} ActiveNames(existing: seq<NamedRecord>, names: seq<Name>, supply: Supply, next: nat, name: Name)
    ensures (exists c :: c in ActiveRecords(existing, names, supply, next) && c.name == name) <==> name in names
    ensures forall c :: c in ActiveRecords(existing, names, supply, next) ==> c.status == Active
  {
    hide Matched;
    if names != [] {
      var n := |names| - 1;
      ActiveNames(existing, names[..n], supply, next, name);
      assert forall other :: other in names <==> other in names[..n] || other == names[n];
      var last := ActiveRecord(existing, names[n], supply, Drawn(existing, names[..n], next));
      assert last in ActiveRecords(existing, names, supply, next) && last.name == names[n];
      assert forall c :: c in ActiveRecords(existing, names, supply, next) <==> c in ActiveRecords(existing, names[..n], supply, next) || c == last;
    }
  }

  lemma ColumnNames(existing: seq<NamedRecord>, names: seq<Name>, supply: Supply, next: nat, name: Name)
    ensures (exists c :: c in NextColumns(existing, names, supply, next) && c.name == name && c.status == Active) <==> name in names
  {
    hide ActiveRecords, Retire, Ids;
    var active := ActiveRecords(existing, names, supply, next);
    ActiveNames(existing, names, supply, next, name);
    forall c | c in Retire(existing, Ids(active)) ensures c.status == Retired { InRetire(existing, Ids(active), c); }
    assert forall c :: c in NextColumns(existing, names, supply, next) <==> c in active || c in Retire(existing, Ids(active));
  }

  lemma {:induction false} ConfiguredOnce(configs: seq<TableConfig>, c: TableConfig)
    requires c in configs && forall i, j :: 0 <= i < j < |configs| ==> configs[i].locator != configs[j].locator
    ensures ConfigFor(configs, c.locator) == c
  {
    if configs[0] != c {
      var rest := configs[1..];
      assert forall i :: 0 <= i < |rest| ==> rest[i] == configs[i + 1];
      var k :| 0 <= k < |rest| && rest[k] == c;
      ConfiguredOnce(rest, c);
    }
  }

  lemma DraftRegisters(s: State, config: Config, t: DictionaryTable, around: Surroundings, next: nat)
    requires Valid(s) && !Unresolvable(s.tables, ConfigFor(config.tables, t.locator), t)
    requires UniquelyNamed(DraftOf(s.tables, ConfigFor(config.tables, t.locator), t, around.supply, next).columns)
    requires forall i, j :: 0 <= i < j < |config.tables| ==> config.tables[i].locator != config.tables[j].locator
    ensures var d := DraftOf(s.tables, ConfigFor(config.tables, t.locator), t, around.supply, next);
            d.locator == t.locator && Registers(s, config, t, TableRecordOf(s.tables, d, around))
  {
    hide NextColumns, ReusesRetired, Located, ConfigFor, ProposedVersion, KeysApart;
    var cfg := ConfigFor(config.tables, t.locator);
    var d := DraftOf(s.tables, cfg, t, around.supply, next);
    var after := TableIdOf(s.tables, cfg, t, around.supply, next).1;
    forall name ensures name in t.columns <==> exists c :: c in d.columns && c.name == name && c.status == Active {
      ColumnNames(ColumnsOf(Located(s.tables, t.locator)), t.columns, around.supply, after, name);
    }
    forall id | id in s.tables && s.tables[id].locator == t.locator ensures d.id == id { OnlyLocated(s.tables, id); }
    forall c | c in config.tables && c.locator == t.locator && c.id.Some? ensures d.id == c.id.value { ConfiguredOnce(config.tables, c); }
  }

  ghost predicate AllNamed(s: State, config: Config, dictionary: seq<DictionaryTable>, around: Surroundings) {
    forall d :: d in DraftsOf(s, config, dictionary, around) ==> UniquelyNamed(d.columns)
  }

  lemma RecordRegisters(s: State, config: Config, dictionary: seq<DictionaryTable>, around: Surroundings, i: nat)
    requires Valid(s) && AllResolvable(s.tables, config.tables, dictionary) && i < |dictionary| && AllNamed(s, config, dictionary, around)
    ensures var records := TableRecords(s.tables, DraftsOf(s, config, dictionary, around), around);
            |records| == |dictionary| && Registers(s, config, dictionary[i], records[i])
  {
    hide Drafts, DrawnForAll, Unresolvable, ConfigFor, TableRecordOf, Registers, Valid, DraftOf, UniquelyNamed;
    var t := dictionary[i];
    assert t in dictionary && DraftsOf(s, config, dictionary, around)[i] in DraftsOf(s, config, dictionary, around);
    DraftExactly(s.tables, config.tables, dictionary, around.supply, i);
    var next := DrawnForAll(s.tables, config.tables, dictionary[..i], around.supply, 0);
    DraftRegisters(s, config, t, around, next);
  }

  /** The dictionary's table is registered, and mapped to the product at its version. */
  ghost predicate RegisteredIn(s: State, config: Config, around: Surroundings, b: State, t: DictionaryTable) {
    exists id :: id in b.tables && Registers(s, config, t, b.tables[id]) && config.id in b.mappings
                 && Mapping(around.link(id), config.id, id, b.tables[id].version) in b.mappings[config.id]
  }

  lemma MappingCount(config: Config, records: seq<Table>, around: Surroundings)
    ensures var sorted := SortedByLink(MappingsOf(config, records, around));
            |sorted| == |records| && forall i :: 0 <= i < |records| ==> MappingsOf(config, records, around)[i] in sorted
  {
    hide SortedByLink, MappingsOf;
    var mappings := MappingsOf(config, records, around);
    ByLink(mappings);
    assert |SortedByLink(mappings)| == |multiset(SortedByLink(mappings))| && |mappings| == |multiset(mappings)|;
    forall i | 0 <= i < |records| ensures mappings[i] in SortedByLink(mappings) {
      assert mappings[i] in multiset(mappings);
      assert mappings[i] in multiset(SortedByLink(mappings));
    }
  }

  lemma TableIsRegistered(s: State, config: Config, dictionary: seq<DictionaryTable>, around: Surroundings, i: nat)
    requires Valid(s) && AllResolvable(s.tables, config.tables, dictionary) && i < |dictionary| && AllNamed(s, config, dictionary, around)
    requires Separate(TableRecords(s.tables, DraftsOf(s, config, dictionary, around), around))
    ensures RegisteredIn(s, config, around, Result(s, config, dictionary, around), dictionary[i])
  {
    hide Valid, DraftsOf, TableRecordOf, Registers, Written, SortedByLink, ProductOf, Separate, AllResolvable, AllNamed;
    var b := Result(s, config, dictionary, around);
    var records := TableRecords(s.tables, DraftsOf(s, config, dictionary, around), around);
    RecordRegisters(s, config, dictionary, around, i);
    WrittenStays(s.tables, records, i);
    MappingCount(config, records, around);
    var id := records[i].id;
    assert id in b.tables && b.tables[id] == records[i] && Registers(s, config, dictionary[i], b.tables[id]);
  }

  lemma TableWritten(s: State, config: Config, dictionary: seq<DictionaryTable>, around: Surroundings, id: TableId)
    requires Valid(s) && Succeeds(s, config, dictionary, around) && id in Result(s, config, dictionary, around).tables
    ensures var r := Result(s, config, dictionary, around).tables[id];
            (id in s.tables && r == s.tables[id])
            || ((exists t :: t in dictionary && r.locator == t.locator) && (id in s.tables ==> s.tables[id].locator == r.locator))
  {
    hide Valid, Succeeds, DraftsOf, TableRecordOf, Registers, Written, SortedByLink, ProductOf;
    var records := TableRecords(s.tables, DraftsOf(s, config, dictionary, around), around);
    var r := Result(s, config, dictionary, around).tables[id];
    AllAreResolved(s, config, dictionary, around);
    WrittenMeans(s.tables, records, id);
    if r in records && r.id == id {
      var i :| 0 <= i < |records| && records[i] == r;
      OneForEach(s, config, dictionary, around);
      RecordRegisters(s, config, dictionary, around, i);
      SameLocator(s, config, dictionary[i], r);
      assert dictionary[i] in dictionary;
      if id in s.tables { RecordStays(s, config, dictionary, around, r); }
    }
  }

  lemma OneForEach(s: State, config: Config, dictionary: seq<DictionaryTable>, around: Surroundings)
    ensures |TableRecords(s.tables, DraftsOf(s, config, dictionary, around), around)| == |dictionary|
  {
  }

  /** After a successful run every table of the dictionary is registered, with one mapping for each, and all else is as it was:
      other mappings, and tables under other locators. */
  lemma DictionaryIsRegistered(s: State, config: Config, dictionary: seq<DictionaryTable>, around: Surroundings)
    requires Valid(s) && Succeeds(s, config, dictionary, around)
    requires Separate(TableRecords(s.tables, DraftsOf(s, config, dictionary, around), around))
    ensures var b := Result(s, config, dictionary, around);
            && (forall t :: t in dictionary ==> RegisteredIn(s, config, around, b, t))
            && config.id in b.mappings && |b.mappings[config.id]| == |dictionary|
            && (forall p :: p != config.id ==> (p in b.mappings <==> p in s.mappings) && (p in s.mappings ==> b.mappings[p] == s.mappings[p]))
            && (forall id :: id in s.tables && (forall t :: t in dictionary ==> t.locator != s.tables[id].locator) ==>
                  id in b.tables && b.tables[id] == s.tables[id])
            && (forall id :: id in b.tables && id !in s.tables ==> exists t :: t in dictionary && b.tables[id].locator == t.locator)
  {
    hide Valid, Succeeds, DraftsOf, TableRecordOf, Registers, RegisteredIn, Written, SortedByLink, ProductOf, Separate, AllResolvable, AllNamed;
    var b := Result(s, config, dictionary, around);
    var records := TableRecords(s.tables, DraftsOf(s, config, dictionary, around), around);
    AllAreResolved(s, config, dictionary, around);
    OneForEach(s, config, dictionary, around);
    MappingCount(config, records, around);
    forall t | t in dictionary ensures RegisteredIn(s, config, around, b, t) {
      var i :| 0 <= i < |dictionary| && dictionary[i] == t;
      TableIsRegistered(s, config, dictionary, around, i);
    }
    forall id | id in b.tables
      ensures (id in s.tables && b.tables[id] == s.tables[id])
              || ((exists t :: t in dictionary && b.tables[id].locator == t.locator) && (id in s.tables ==> s.tables[id].locator == b.tables[id].locator))
    {
      TableWritten(s, config, dictionary, around, id);
    }
    forall id | id in s.tables ensures id in b.tables { WrittenMeans(s.tables, records, id); }
  }

  lemma SameLocator(s: State, config: Config, t: DictionaryTable, r: Table)
    requires Registers(s, config, t, r)
    ensures r.locator == t.locator
  {
  }

  lemma AllAreResolved(s: State, config: Config, dictionary: seq<DictionaryTable>, around: Surroundings)
    requires Succeeds(s, config, dictionary, around)
    ensures AllResolvable(s.tables, config.tables, dictionary) && AllNamed(s, config, dictionary, around)
  {
  }

  /** A record written over a registered one keeps its locator. */
  lemma RecordStays(s: State, config: Config, dictionary: seq<DictionaryTable>, around: Surroundings, r: Table)
    requires Valid(s) && Succeeds(s, config, dictionary, around) && r.id in s.tables
    requires r in TableRecords(s.tables, DraftsOf(s, config, dictionary, around), around)
    ensures s.tables[r.id].locator == r.locator
  {
    hide Valid, Sound, Buildable, DraftsOf, AllWritable, AllMappable, ProductConflict, RecordList, NextRelationshipsOf, LinksOf, Linkable, Admissible, MayGet;
    ValidIsSound(s);
    var drafts, product := DraftsOf(s, config, dictionary, around), ProductOf(s, config, dictionary, around);
    GateIff(s, config, product, drafts, around);
    var records := TableRecords(s.tables, drafts, around);
    var i :| 0 <= i < |records| && records[i] == r;
    assert drafts[i] in drafts;
  }

  // ---------- the product ----------

  lemma {:induction false} LinkedNames(existing: seq<NamedRecord>, keys: seq<ForeignKey>, supply: Supply, next: nat, id: RecordId)
    requires id in Linked(existing, keys, supply, next)
    ensures var r := Linked(existing, keys, supply, next)[id];
            r.id == id && r.status == Active && exists key :: key in keys && key.Resolved? && key.name == r.name
  {
    var n := |keys| - 1;
    assert forall key :: key in keys <==> key in keys[..n] || key == keys[n];
    hide Matched;
    if id in Linked(existing, keys[..n], supply, next) { LinkedNames(existing, keys[..n], supply, next, id); }
  }

  /** The active relationships bear the names of foreign keys, and each foreign key has one: under the ID of the first old relationship
      that bears its name, if there is one. */
  lemma RelationshipsOfKeys(old_: seq<NamedRecord>, keys: seq<ForeignKey>, supply: Supply, next: nat)
    requires UniqueIds(old_) && forall key :: key in keys ==> Linkable(old_, key)
    ensures var all := NextRelationships(old_, keys, supply, next);
            && (forall id :: id in all && all[id].status == Active ==> exists key :: key in keys && key.Resolved? && key.name == all[id].name)
            && forall key :: key in keys && key.Resolved? ==>
                 exists id :: id in all && all[id].status == Active && all[id].id == id
                              && forall i :: 0 <= i < |old_| && FirstNamed(old_, i, key.name) ==> id == old_[i].id
  {
    hide Linked, WithRetired, Links, FirstNamed, Linkable, UniqueIds;
    var linked, all := Linked(old_, keys, supply, next), NextRelationships(old_, keys, supply, next);
    LinksFollowKeys(old_, keys, supply, next);
    var links := Links(old_, keys, supply, next);
    forall id | id in all && all[id].status == Active ensures exists key :: key in keys && key.Resolved? && key.name == all[id].name {
      RetiredOr(old_, linked.Keys, linked, id);
      if id in linked { LinkedNames(old_, keys, supply, next, id); }
    }
    forall key | key in keys && key.Resolved?
      ensures exists id :: id in all && all[id].status == Active && all[id].id == id
                           && forall i :: 0 <= i < |old_| && FirstNamed(old_, i, key.name) ==> id == old_[i].id
    {
      var i :| 0 <= i < |keys| && keys[i] == key;
      var id := links[i].id;
      LinksAreLinked(old_, keys, supply, next, id);
      assert links[i] in links;
      LinkedNames(old_, keys, supply, next, id);
      RetiredOr(old_, linked.Keys, linked, id);
    }
  }

  /** The product as the configuration has it, with the relationships of the foreign keys active. */
  ghost predicate RegistersProduct(s: State, config: Config, around: Surroundings, product: Product) {
    && product.id == config.id && product.key == config.key && product.version == config.version && product.status == Active
    && OneEach(product.relationships)
    && product.aliases == (if config.id in s.products then s.products[config.id].aliases else [])
    && (forall r :: r in product.relationships && r.status == Active ==> exists key :: key in around.foreignKeys && key.Resolved? && key.name == r.name)
    && var old_ := if config.id in s.products then s.products[config.id].relationships else [];
       forall key :: key in around.foreignKeys && key.Resolved? ==>
         exists r :: r in product.relationships && r.status == Active
                     && forall i :: 0 <= i < |old_| && FirstNamed(old_, i, key.name) ==> r.id == old_[i].id
  }

  /** After a successful run the product is registered, and no other product has changed. */
  lemma ProductIsRegistered(s: State, config: Config, dictionary: seq<DictionaryTable>, around: Surroundings)
    requires Valid(s) && Succeeds(s, config, dictionary, around)
    ensures var b := Result(s, config, dictionary, around);
            && config.id in b.products && RegistersProduct(s, config, around, b.products[config.id])
            && forall p :: p != config.id ==> (p in b.products <==> p in s.products) && (p in s.products ==> b.products[p] == s.products[p])
  {
    hide Valid, Succeeds, DraftsOf, TableRecords, RecordList, NextRelationships, UniqueIds, Linkable, FirstNamed, UniquelyNamed, DrawnForAll, Written,
      SortedByLink, MappingsOf;
    var product := ProductOf(s, config, dictionary, around);
    var old_ := RelationshipsOf(Existing(s, config));
    var next := DrawnForAll(s.tables, config.tables, dictionary, around.supply, 0);
    var all := NextRelationshipsOf(s, config, dictionary, around);
    OldAreLinkable(s, config, dictionary, around);
    ProductIsNamed(s, config, dictionary, around);
    RelationshipsOfKeys(old_, around.foreignKeys, around.supply, next);
    forall id | id in all ensures all[id] in product.relationships { InRecordList(all, id); }
  }

  lemma OldAreLinkable(s: State, config: Config, dictionary: seq<DictionaryTable>, around: Surroundings)
    requires Valid(s) && Succeeds(s, config, dictionary, around)
    ensures UniqueIds(RelationshipsOf(Existing(s, config)))
    ensures forall key :: key in around.foreignKeys ==> Linkable(RelationshipsOf(Existing(s, config)), key)
  {
    hide KeysApart, LocatorsApart, DraftsOf, Buildable, AllWritable, AllMappable, ProductConflict, UniquelyNamed, UniqueIds, RecordList, NextRelationshipsOf,
      LinksOf, Linkable, Admissible, MayGet, DraftOpen;
    ValidIsSound(s);
    GateIff(s, config, ProductOf(s, config, dictionary, around), DraftsOf(s, config, dictionary, around), around);
    if config.id in s.products { UniqueByName(s.products[config.id].relationships); } else { NoneUnique(); }
  }

  lemma ProductIsNamed(s: State, config: Config, dictionary: seq<DictionaryTable>, around: Surroundings)
    requires Succeeds(s, config, dictionary, around)
    ensures OneEach(ProductOf(s, config, dictionary, around).relationships)
  {
  }

  lemma NoneUnique()
    ensures UniqueIds([])
  {
  }
}
