/** The registry object: checked writes of products, tables and mappings, and the index files
    rewritten after each. */
module RegistryStore {
  import opened Common
  import opened Sorting
  import opened Identity

  datatype Mapping = Mapping(link: int, product: ProductId, table: TableId, version: int)

  datatype MappingError = ProductNotFound | ProductMismatch | TableNotFound | VersionMismatch

  /** Reading the index is looking the key up among the products. */
  ghost predicate KeyIndexAgrees(index: map<ProductKey, ProductId>, products: map<ProductId, Product>) {
    && (forall id :: id in products ==> products[id].key in index && index[products[id].key] == id)
    && forall key :: key in index ==> index[key] in products && products[index[key]].key == key
  }

  ghost predicate LocatorIndexAgrees(index: map<Locator, TableId>, tables: map<TableId, Table>) {
    && (forall id :: id in tables ==> tables[id].locator in index && index[tables[id].locator] == id)
    && forall locator :: locator in index ==> index[locator] in tables && tables[index[locator]].locator == locator
  }

  /** An agreeing index is one-to-one and gives what a linear scan finds. */
  lemma IndexIsScan(index: map<ProductKey, ProductId>, products: map<ProductId, Product>, key: ProductKey)
    requires KeyIndexAgrees(index, products) && KeysApart(products)
    ensures forall a, b :: a in index && b in index && index[a] == index[b] ==> a == b
    ensures var found := FirstProduct(ProductList(products), (p: Product) => p.key == key);
            (found.Some? <==> key in index) && (found.Some? ==> found.value.id == index[key])
  {
    forall a, b | a in index && b in index && index[a] == index[b] ensures a == b {
      assert products[index[a]].key == a && products[index[b]].key == b;
    }
    var list := ProductList(products);
    if key in index {
      assert products[index[key]] in list;
    }
  }

  predicate LinkOrder(a: Mapping, b: Mapping) {
    a.link <= b.link
  }

  function SortedByLink(records: seq<Mapping>): seq<Mapping> {
    Sort(LinkOrder, records)
  }

  lemma ByLink(records: seq<Mapping>)
    ensures multiset(SortedByLink(records)) == multiset(records) && Sorted(LinkOrder, SortedByLink(records))
  {
    assert Linear(LinkOrder);
    SortSorts(LinkOrder, records);
  }

  /** A mapping a product may have: its own, to the current version of a registered table. */
  predicate Mappable(m: Mapping, product: ProductId, tables: map<TableId, Table>) {
    m.product == product && m.table in tables && m.version == tables[m.table].version
  }

  /** The product of that ID is retired, and the record would make it active. */
  predicate ReusesRetiredProduct(products: map<ProductId, Product>, record: Product) {
    record.status == Active && record.id in products && products[record.id].status == Retired
  }

  /** Another product has the key, as its own or as an alias. */
  predicate KeyIsTaken(products: map<ProductId, Product>, record: Product) {
    exists id :: id in products && products[id].id != record.id && (record.key == products[id].key || record.key in products[id].aliases)
  }

  predicate ReusesRetiredTable(tables: map<TableId, Table>, record: Table) {
    record.status == Active && record.id in tables && tables[record.id].status == Retired
  }

  /** Another table is at the locator. */
  predicate LocatorIsTaken(tables: map<TableId, Table>, record: Table) {
    exists id :: id in tables && tables[id].id != record.id && record.locator == tables[id].locator
  }

  lemma ProductConflictIff(products: map<ProductId, Product>, record: Product)
    ensures ProductConflict(products, record) ==
            if ReusesRetiredProduct(products, record) then Some(RetiredReuse) else if KeyIsTaken(products, record) then Some(KeyTaken) else None
  {
  }

  lemma TableConflictIff(tables: map<TableId, Table>, record: Table)
    ensures TableConflict(tables, record) ==
            if ReusesRetiredTable(tables, record) then Some(RetiredReuse) else if LocatorIsTaken(tables, record) then Some(KeyTaken) else None
  {
  }

  class Registry {
    var products: map<ProductId, Product>
    var tables: map<TableId, Table>
    var mappings: map<ProductId, seq<Mapping>>
    var productKeys: map<ProductKey, ProductId>
    var tableLocators: map<Locator, TableId>

    constructor (products: map<ProductId, Product>, tables: map<TableId, Table>, mappings: map<ProductId, seq<Mapping>>)
      ensures this.products == products && this.tables == tables && this.mappings == mappings
    {
      this.products, this.tables, this.mappings := products, tables, mappings;
      productKeys, tableLocators := map[], map[];
    }

    /** `_write_indexes`. */
    method WriteIndexes()
      modifies this`productKeys, this`tableLocators
      ensures KeysApart(products) ==> KeyIndexAgrees(productKeys, products)
      ensures LocatorsApart(tables) ==> LocatorIndexAgrees(tableLocators, tables)
    {
      productKeys := IndexProducts(products);
      tableLocators := IndexTables(tables);
    }

    /** `write_product`. */
    method WriteProduct(record: Product) returns (conflict: Option<Conflict>)
      modifies this`products, this`productKeys, this`tableLocators
      ensures conflict == ProductConflict(old(products), record)
      ensures conflict == if ReusesRetiredProduct(old(products), record) then Some(RetiredReuse)
                          else if KeyIsTaken(old(products), record) then Some(KeyTaken)
                          else None
      ensures products == if conflict.None? then old(products)[record.id := record] else old(products)
      ensures conflict.Some? ==> productKeys == old(productKeys) && tableLocators == old(tableLocators)
      ensures conflict.None? && KeysApart(products) ==> KeyIndexAgrees(productKeys, products)
    {
      ProductConflictIff(products, record);
      hide ReusesRetiredProduct, KeyIsTaken;
      if record.id in products && products[record.id].status == Retired && record.status == Active { return Some(RetiredReuse); }
      if KeyConflict(products, record) { return Some(KeyTaken); }
      products := products[record.id := record];
      WriteIndexes();
      conflict := None;
    }

    /** `write_table`. */
    method WriteTable(record: Table) returns (conflict: Option<Conflict>)
      modifies this`tables, this`productKeys, this`tableLocators
      ensures conflict == TableConflict(old(tables), record)
      ensures conflict == if ReusesRetiredTable(old(tables), record) then Some(RetiredReuse)
                          else if LocatorIsTaken(old(tables), record) then Some(KeyTaken)
                          else None
      ensures tables == if conflict.None? then old(tables)[record.id := record] else old(tables)
      ensures conflict.Some? ==> productKeys == old(productKeys) && tableLocators == old(tableLocators)
      ensures conflict.None? && LocatorsApart(tables) ==> LocatorIndexAgrees(tableLocators, tables)
    {
      TableConflictIff(tables, record);
      hide ReusesRetiredTable, LocatorIsTaken;
      if record.id in tables && tables[record.id].status == Retired && record.status == Active { return Some(RetiredReuse); }
      if LocatorConflict(tables, record) { return Some(KeyTaken); }
      tables := tables[record.id := record];
      WriteIndexes();
      conflict := None;
    }

    /** `write_mappings`: all of them or, when one is not mappable, none. */
    method WriteMappings(product: ProductId, records: seq<Mapping>) returns (error: Option<MappingError>)
      modifies this`mappings
      ensures error.None? <==> product in products && forall m :: m in records ==> Mappable(m, product, tables)
      ensures mappings == if error.None? then old(mappings)[product := SortedByLink(records)] else old(mappings)
      ensures multiset(SortedByLink(records)) == multiset(records) && Sorted(LinkOrder, SortedByLink(records))
    {
      ByLink(records);
      if product !in products { return Some(ProductNotFound); }
      var sorted := SortedByLink(records);
      forall m ensures m in sorted <==> m in records { assert m in multiset(sorted) <==> m in multiset(records); }
      for i := 0 to |sorted|
        invariant forall k :: 0 <= k < i ==> Mappable(sorted[k], product, tables)
      {
        var m := sorted[i];
        assert m in sorted;
        if m.product != product { return Some(ProductMismatch); }
        if m.table !in tables { return Some(TableNotFound); }
        if m.version != tables[m.table].version { return Some(VersionMismatch); }
      }
      mappings := mappings[product := sorted];
      error := None;
    }
  }

  /** The index holds the first `i` records of the list, and only registered ones. */
  ghost predicate KeysIndexed(index: map<ProductKey, ProductId>, products: map<ProductId, Product>, list: seq<Product>, i: nat)
    requires i <= |list|
  {
    && (forall key :: key in index ==> index[key] in products && products[index[key]].key == key)
    && forall k :: 0 <= k < i ==> list[k].key in index && index[list[k].key] == list[k].id
  }

  lemma KeysIndexedNext(index: map<ProductKey, ProductId>, products: map<ProductId, Product>, list: seq<Product>, i: nat)
    requires KeysApart(products) && i < |list| && (forall x :: x in list <==> exists id :: id in products && products[id] == x)
    requires KeysIndexed(index, products, list, i)
    ensures KeysIndexed(index[list[i].key := list[i].id], products, list, i + 1)
  {
    forall k | 0 <= k <= i ensures list[k].id in products && products[list[k].id] == list[k] {
      assert list[k] in list;
    }
  }

  lemma KeysIndexedAll(index: map<ProductKey, ProductId>, products: map<ProductId, Product>, list: seq<Product>)
    requires KeysApart(products) && (forall x :: x in list <==> exists id :: id in products && products[id] == x)
    requires KeysIndexed(index, products, list, |list|)
    ensures KeyIndexAgrees(index, products)
  {
    forall id | id in products ensures products[id].key in index && index[products[id].key] == id {
      assert products[id] in list;
      var k :| 0 <= k < |list| && list[k] == products[id];
    }
  }

  /** The product index of `_write_indexes`; with keys apart, the order of the list is irrelevant. */
  method IndexProducts(products: map<ProductId, Product>) returns (index: map<ProductKey, ProductId>)
    ensures KeysApart(products) ==> KeyIndexAgrees(index, products)
  {
    index := map[];
    var list := ProductList(products);
    hide ProductList, KeysIndexed, KeysApart, KeyIndexAgrees;
    assert KeysIndexed(index, products, list, 0) by { KeysIndexedNone(products, list); }
    for i := 0 to |list|
      invariant KeysApart(products) ==> KeysIndexed(index, products, list, i)
    {
      if KeysApart(products) { KeysIndexedNext(index, products, list, i); }
      index := index[list[i].key := list[i].id];
    }
    if KeysApart(products) { KeysIndexedAll(index, products, list); }
  }

  lemma KeysIndexedNone(products: map<ProductId, Product>, list: seq<Product>)
    ensures KeysIndexed(map[], products, list, 0)
  {
  }

  /** The index holds the first `i` records of the list, and only registered ones. */
  ghost predicate LocatorsIndexed(index: map<Locator, TableId>, tables: map<TableId, Table>, list: seq<Table>, i: nat)
    requires i <= |list|
  {
    && (forall key :: key in index ==> index[key] in tables && tables[index[key]].locator == key)
    && forall k :: 0 <= k < i ==> list[k].locator in index && index[list[k].locator] == list[k].id
  }

  lemma LocatorsIndexedNext(index: map<Locator, TableId>, tables: map<TableId, Table>, list: seq<Table>, i: nat)
    requires LocatorsApart(tables) && i < |list| && (forall x :: x in list <==> exists id :: id in tables && tables[id] == x)
    requires LocatorsIndexed(index, tables, list, i)
    ensures LocatorsIndexed(index[list[i].locator := list[i].id], tables, list, i + 1)
  {
    forall k | 0 <= k <= i ensures list[k].id in tables && tables[list[k].id] == list[k] {
      assert list[k] in list;
    }
  }

  lemma LocatorsIndexedAll(index: map<Locator, TableId>, tables: map<TableId, Table>, list: seq<Table>)
    requires LocatorsApart(tables) && (forall x :: x in list <==> exists id :: id in tables && tables[id] == x)
    requires LocatorsIndexed(index, tables, list, |list|)
    ensures LocatorIndexAgrees(index, tables)
  {
    forall id | id in tables ensures tables[id].locator in index && index[tables[id].locator] == id {
      assert tables[id] in list;
      var k :| 0 <= k < |list| && list[k] == tables[id];
    }
  }

  /** The table index. */
  method IndexTables(tables: map<TableId, Table>) returns (index: map<Locator, TableId>)
    ensures LocatorsApart(tables) ==> LocatorIndexAgrees(index, tables)
  {
    index := map[];
    var list := TableList(tables);
    hide TableList, LocatorsIndexed, LocatorsApart, LocatorIndexAgrees;
    assert LocatorsIndexed(index, tables, list, 0) by { LocatorsIndexedNone(tables, list); }
    for i := 0 to |list|
      invariant LocatorsApart(tables) ==> LocatorsIndexed(index, tables, list, i)
    {
      if LocatorsApart(tables) { LocatorsIndexedNext(index, tables, list, i); }
      index := index[list[i].locator := list[i].id];
    }
    if LocatorsApart(tables) { LocatorsIndexedAll(index, tables, list); }
  }

  lemma LocatorsIndexedNone(tables: map<TableId, Table>, list: seq<Table>)
    ensures LocatorsIndexed(map[], tables, list, 0)
  {
  }
}
