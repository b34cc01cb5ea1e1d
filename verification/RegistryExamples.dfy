/** A concrete registry on which a run passes its gate and then fails to write. */
module RegistryExamples {
  import opened Common
  import opened Identity
  import opened Carrying
  import opened ProductRun
  import opened RegistryRun
  import RunTheorems

  const WITHDRAWN := Product(1, 1, 1, Retired, [], Some(7), [])

  /** One retired product and nothing else. */
  const REGISTRY := State(map[1 := WITHDRAWN], map[], map[])

  /** The same product is created again, with the content it has. */
  const AGAIN := Config(CreateOperation, 1, 1, 1, None, [])

  function Quiet(): Surroundings {
    Surroundings((d: Draft) => 0, (d: Draft) => 0, (k: ProductKey, t: seq<Table>, r: seq<Relationship>) => 7,
                 (n: nat) => n, [], (t: TableId) => 0, false)
  }

  lemma NothingToResolve()
    ensures AllResolvable(map[], [], []) && DraftsOf(REGISTRY, AGAIN, [], Quiet()) == []
    ensures NextRelationshipsOf(REGISTRY, AGAIN, [], Quiet()) == map[] && Problems([], []) == 0
  {
    assert Linked([], [], Quiet().supply, 0) == map[];
    assert WithRetired([], {}, map[]) == map[];
  }

  lemma NoRecords()
    ensures RecordList(map[]) == []
  {
    var list := RecordList(map[]);
    assert forall i :: 0 <= i < |list| ==> list[i] in list;
  }

  lemma CreatedAgain()
    ensures ProductOf(REGISTRY, AGAIN, [], Quiet()) == WITHDRAWN.(status := Active)
  {
    NothingToResolve();
    NoRecords();
    hide RecordList, DraftsOf, NextRelationshipsOf;
  }

  /** Every step up to the gate goes through, the duplicate check reports no change - and writing the
      product raises because its ID is retired. */
  lemma RetiredCreationFails()
    ensures RunTheorems.Valid(REGISTRY) && Buildable(REGISTRY, AGAIN, [], Quiet())
    ensures var product := ProductOf(REGISTRY, AGAIN, [], Quiet());
            && ReportProduct(product, REGISTRY.products, CreateOperation) == Unchanged
            && Passes(REGISTRY, AGAIN, product, DraftsOf(REGISTRY, AGAIN, [], Quiet()), Quiet())
            && ProductConflict(REGISTRY.products, product) == Some(RetiredReuse)
  {
    NothingToResolve();
    CreatedAgain();
    hide ProductOf, DraftsOf, NextRelationshipsOf, AllResolvable, Problems;
  }
}
