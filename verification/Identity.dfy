/** Registry records, and the classification of candidates against what is registered:
    `classify_product` and `classify_table`. */
module Identity {
  import opened Common

  type ProductId = int
  type ProductKey = int
  type TableId = int
  type Locator = int
  type RecordId = int
  type Hash = int

  datatype Status = Active | Retired

  /** A name as written and its casefolded form. */
  datatype Name = Name(shown: int, folded: int)

  /** A column or relationship record; aliases are casefolded. */
  datatype NamedRecord = NamedRecord(id: RecordId, name: Name, aliases: seq<int>, status: Status)

  datatype Product = Product(
    id: ProductId, key: ProductKey, version: int, status: Status, aliases: seq<ProductKey>, hash: Option<Hash>,
    relationships: seq<NamedRecord>)

  datatype Table = Table(
    id: TableId, locator: Locator, version: int, status: Status, columns: seq<NamedRecord>,
    schemaHash: Option<Hash>, hash: Option<Hash>)

  /** The validators of tables and products: IDs and casefolded names are unique. */
  predicate UniquelyNamed(records: seq<NamedRecord>) {
    && (forall i, j :: 0 <= i < j < |records| ==> records[i].id != records[j].id)
    && (forall i, j :: 0 <= i < j < |records| ==> records[i].name.folded != records[j].name.folded)
  }

  // ---------- scans in the order of the registry ----------

  /** The IDs of a finite set in ascending order. */
  function Ascending(ids: set<int>): (s: seq<int>)
    ensures forall id :: id in s <==> id in ids
    ensures Distinct(s)
  {
    if ids == {} then []
    else
      LeastExists(ids);
      var least :| least in ids && forall id :: id in ids ==> least <= id;
      [least] + Ascending(ids - {least})
  }

  lemma {:induction false} LeastExists(ids: set<int>)
    requires |ids| > 0
    ensures exists least :: least in ids && forall id :: id in ids ==> least <= id
    decreases |ids|
  {
    var one := Pick(ids);
    var others := ids - {one};
    assert forall id :: id in ids <==> id == one || id in others;
    if |others| > 0 {
      LeastExists(others);
      var least :| least in others && forall id :: id in others ==> least <= id;
      LeastOfTwo(ids, others, one, least);
    } else {
      assert one in ids && forall id :: id in ids ==> one <= id;
    }
  }

  lemma LeastOfTwo(ids: set<int>, others: set<int>, one: int, least: int)
    requires (forall id :: id in ids <==> id == one || id in others) && least in others && forall id :: id in others ==> least <= id
    ensures exists smallest :: smallest in ids && forall id :: id in ids ==> smallest <= id
  {
    var smallest := if one < least then one else least;
    assert smallest in ids && forall id :: id in ids ==> smallest <= id;
  }

  function ProductsIn(products: map<ProductId, Product>, ids: seq<ProductId>): (s: seq<Product>)
    ensures forall p :: p in s <==> exists id :: id in ids && id in products && products[id] == p
  {
    if ids == [] then []
    else
      assert forall id :: id in ids <==> id == ids[0] || id in ids[1..];
      (if ids[0] in products then [products[ids[0]]] else []) + ProductsIn(products, ids[1..])
  }

  function TablesIn(tables: map<TableId, Table>, ids: seq<TableId>): (s: seq<Table>)
    ensures forall t :: t in s <==> exists id :: id in ids && id in tables && tables[id] == t
  {
    if ids == [] then []
    else
      assert forall id :: id in ids <==> id == ids[0] || id in ids[1..];
      (if ids[0] in tables then [tables[ids[0]]] else []) + TablesIn(tables, ids[1..])
  }

  /** `Registry.products` and `Registry.tables`: the records by ascending ID. */
  function ProductList(products: map<ProductId, Product>): (s: seq<Product>)
    ensures forall p :: p in s <==> exists id :: id in products && products[id] == p
  {
    ProductsIn(products, Ascending(products.Keys))
  }

  function TableList(tables: map<TableId, Table>): (s: seq<Table>)
    ensures forall t :: t in s <==> exists id :: id in tables && tables[id] == t
  {
    TablesIn(tables, Ascending(tables.Keys))
  }

  function FirstProduct(s: seq<Product>, test: Product -> bool): (r: Option<Product>)
    ensures r.Some? ==> r.value in s && test(r.value)
    ensures r.None? ==> forall p :: p in s ==> !test(p)
  {
    if s == [] then None else if test(s[0]) then Some(s[0]) else FirstProduct(s[1..], test)
  }

  function FirstTable(s: seq<Table>, test: Table -> bool): (r: Option<Table>)
    ensures r.Some? ==> r.value in s && test(r.value)
    ensures r.None? ==> forall t :: t in s ==> !test(t)
  {
    if s == [] then None else if test(s[0]) then Some(s[0]) else FirstTable(s[1..], test)
  }

  // ---------- classification ----------

  datatype Decision = Blocked | Create | Unchanged | Reuse | Update | Warn

  datatype Operation = CreateOperation | UpdateOperation

  /** `classify_product`, without semantic candidates, as the pipeline calls it. */
  function ClassifyProduct(candidate: Product, existing: seq<Product>, operation: Operation): Decision {
    var own := FirstProduct(existing, (p: Product) => p.id == candidate.id);
    if operation != CreateOperation then
      if own.None? then Blocked
      else if own.value.status == Retired && candidate.status == Active then Blocked
      else if candidate.key != own.value.key then Blocked
      else if candidate.hash == own.value.hash then Unchanged
      else Update
    else if own.Some? then Blocked
    else if FirstProduct(existing, (p: Product) => p.key == candidate.key).Some? then Blocked
    else if FirstProduct(existing, (p: Product) => candidate.key in p.aliases).Some? then Blocked
    else if FirstProduct(existing, (p: Product) => candidate.hash.Some? && candidate.hash == p.hash).Some? then Blocked
    else Create
  }

  /** `classify_table`. */
  function ClassifyTable(candidate: Table, existing: seq<Table>): Decision {
    var own := FirstTable(existing, (t: Table) => t.id == candidate.id);
    if own.Some? then
      if own.value.status == Retired && candidate.status == Active then Blocked
      else if own.value.locator != candidate.locator then Blocked
      else if own.value.hash == candidate.hash then Unchanged
      else Update
    else
      var same := FirstTable(existing, (t: Table) => t.locator == candidate.locator);
      if same.Some? then if same.value.status == Retired then Blocked else Reuse
      else if FirstTable(existing, (t: Table) => candidate.schemaHash.Some? && candidate.schemaHash == t.schemaHash).Some? then Warn
      else Create
  }

  /** `_duplicate_reports` for the product: creating what is already there unchanged is let
      through before anything is classified. */
  function ReportProduct(candidate: Product, products: map<ProductId, Product>, operation: Operation): Decision {
    if operation == CreateOperation && candidate.id in products && products[candidate.id].hash == candidate.hash then Unchanged
    else ClassifyProduct(candidate, ProductList(products), operation)
  }

  // ---------- registry writes ----------

  datatype Conflict = RetiredReuse | KeyTaken

  /** The check of `write_product`. */
  predicate KeyConflict(products: map<ProductId, Product>, record: Product) {
    exists id :: id in products && products[id].id != record.id && (products[id].key == record.key || record.key in products[id].aliases)
  }

  function ProductConflict(products: map<ProductId, Product>, record: Product): Option<Conflict> {
    if record.id in products && products[record.id].status == Retired && record.status == Active then Some(RetiredReuse)
    else if KeyConflict(products, record) then Some(KeyTaken)
    else None
  }

  /** The check of `write_table`. */
  predicate LocatorConflict(tables: map<TableId, Table>, record: Table) {
    exists id :: id in tables && tables[id].id != record.id && tables[id].locator == record.locator
  }

  function TableConflict(tables: map<TableId, Table>, record: Table): Option<Conflict> {
    if record.id in tables && tables[record.id].status == Retired && record.status == Active then Some(RetiredReuse)
    else if LocatorConflict(tables, record) then Some(KeyTaken)
    else None
  }

  // ---------- the identity invariant ----------

  /** Records are filed under their IDs, and no product's key is another's key or alias. */
  predicate KeysApart(products: map<ProductId, Product>) {
    && (forall id :: id in products ==> products[id].id == id)
    && forall a, b :: a in products && b in products && a != b ==>
         products[a].key != products[b].key && products[a].key !in products[b].aliases
  }

  predicate LocatorsApart(tables: map<TableId, Table>) {
    && (forall id :: id in tables ==> tables[id].id == id)
    && forall a, b :: a in tables && b in tables && a != b ==> tables[a].locator != tables[b].locator
  }

  lemma OwnProduct(products: map<ProductId, Product>, id: ProductId)
    requires KeysApart(products)
    ensures FirstProduct(ProductList(products), (p: Product) => p.id == id) == if id in products then Some(products[id]) else None
  {
    var list := ProductList(products);
    if id in products { assert products[id] in list; }
  }

  lemma OwnTable(tables: map<TableId, Table>, id: TableId)
    requires LocatorsApart(tables)
    ensures FirstTable(TableList(tables), (t: Table) => t.id == id) == if id in tables then Some(tables[id]) else None
  {
    var list := TableList(tables);
    if id in tables { assert tables[id] in list; }
  }

  // ---------- what the classes mean ----------

  /** Nothing registered has the candidate's ID, key or content, nor its key as an alias. */
  predicate Unseen(products: map<ProductId, Product>, candidate: Product) {
    forall id :: id in products ==>
      id != candidate.id && products[id].key != candidate.key && candidate.key !in products[id].aliases
      && !(candidate.hash.Some? && products[id].hash == candidate.hash)
  }

  /** The registered product of that ID may go on under that key. */
  predicate Continues(products: map<ProductId, Product>, candidate: Product) {
    && candidate.id in products && products[candidate.id].key == candidate.key
    && !(products[candidate.id].status == Retired && candidate.status == Active)
  }

  /** What the check of a product reports: on an update it continues the registered product, changed or not; on a creation nothing
      like it is registered, or it is registered with this very content; all else is blocked. */
  lemma ProductClassIff(products: map<ProductId, Product>, candidate: Product, operation: Operation)
    requires KeysApart(products)
    ensures var same := candidate.id in products && products[candidate.id].hash == candidate.hash;
            ReportProduct(candidate, products, operation) ==
              if operation == UpdateOperation then if !Continues(products, candidate) then Blocked else if same then Unchanged else Update
              else if same then Unchanged
              else if Unseen(products, candidate) then Create
              else Blocked
  {
    hide ProductList, FirstProduct;
    var list := ProductList(products);
    OwnProduct(products, candidate.id);
    forall id | id in products ensures products[id] in list {}
  }

  /** What the check of a table reports. */
  lemma TableClassIff(tables: map<TableId, Table>, candidate: Table)
    requires LocatorsApart(tables)
    ensures var report := ClassifyTable(candidate, TableList(tables));
            if candidate.id in tables then
              var own := tables[candidate.id];
              report == if (own.status == Retired && candidate.status == Active) || own.locator != candidate.locator then Blocked
                        else if own.hash == candidate.hash then Unchanged
                        else Update
            else
              && (report == Blocked <==> exists id :: id in tables && tables[id].locator == candidate.locator && tables[id].status == Retired)
              && (report == Reuse <==> exists id :: id in tables && tables[id].locator == candidate.locator && tables[id].status == Active)
              && (report == Warn <==> (forall id :: id in tables ==> tables[id].locator != candidate.locator)
                                      && candidate.schemaHash.Some? && exists id :: id in tables && tables[id].schemaHash == candidate.schemaHash)
              && (report == Create <==> forall id :: id in tables ==>
                                          tables[id].locator != candidate.locator
                                          && !(candidate.schemaHash.Some? && tables[id].schemaHash == candidate.schemaHash))
  {
    hide TableList, FirstTable;
    var list := TableList(tables);
    OwnTable(tables, candidate.id);
    forall id | id in tables ensures tables[id] in list {}
  }

  /** A product the gate lets through can be written, in all cases but one: creating, with
      unchanged content, a product that is retired. */
  lemma ProductGateImpliesWrite(products: map<ProductId, Product>, candidate: Product, operation: Operation)
    requires KeysApart(products) && candidate.status == Active && ReportProduct(candidate, products, operation) != Blocked
    requires candidate.id in products && products[candidate.id].hash == candidate.hash ==> products[candidate.id].key == candidate.key
    ensures ProductConflict(products, candidate).None? <==>
              !(operation == CreateOperation && candidate.id in products && products[candidate.id].status == Retired)
  {
    hide ProductList, FirstProduct;
    var list := ProductList(products);
    OwnProduct(products, candidate.id);
    forall id | id in products ensures products[id] in list {}
  }

  /** A table the gate lets through, short of reuse, can be written. */
  lemma TableGateImpliesWrite(tables: map<TableId, Table>, candidate: Table)
    requires LocatorsApart(tables) && candidate.status == Active
    requires ClassifyTable(candidate, TableList(tables)) != Blocked && ClassifyTable(candidate, TableList(tables)) != Reuse
    ensures TableConflict(tables, candidate).None?
  {
    hide TableList, FirstTable;
    var list := TableList(tables);
    OwnTable(tables, candidate.id);
    forall id | id in tables ensures tables[id] in list {}
  }

  /** A product write keeps the invariant exactly when none of the record's aliases is another
      product's key; keeping the aliases of the record written over is always enough. */
  lemma ProductWriteKeeps(products: map<ProductId, Product>, record: Product)
    requires KeysApart(products) && ProductConflict(products, record).None?
    ensures KeysApart(products[record.id := record]) <==>
              forall id :: id in products && id != record.id ==> products[id].key !in record.aliases
    ensures (record.id in products && record.aliases == products[record.id].aliases) || record.aliases == [] ==>
              KeysApart(products[record.id := record])
  {
    var after := products[record.id := record];
    if KeysApart(after) {
      forall id | id in products && id != record.id ensures products[id].key !in record.aliases {
        assert after[id].key !in after[record.id].aliases;
      }
    }
  }

  lemma TableWriteKeeps(tables: map<TableId, Table>, record: Table)
    requires LocatorsApart(tables) && TableConflict(tables, record).None?
    ensures LocatorsApart(tables[record.id := record])
  {
  }
}
