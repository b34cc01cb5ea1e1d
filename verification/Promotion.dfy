/** `_promote_directories`: several directories are put in place of their targets, all or none,
    with a fault possible at every filesystem call. */
module Promotion {
  import opened Common

  type Path = int

  /** What stands at a path. */
  datatype Node = Tree(content: int) | Link

  /** How a call fares. A failing move changes nothing; a failing removal leaves what it leaves. */
  datatype Fate = Works | Fails(leaves: Option<Node>)

  class FileSystem {
    var nodes: map<Path, Node>
    var calls: nat
    const fates: nat -> Fate

    constructor (nodes: map<Path, Node>, fates: nat -> Fate)
      ensures this.nodes == nodes && this.fates == fates && calls == 0
    {
      this.nodes, this.fates, calls := nodes, fates, 0;
    }

    /** `mkdir` of the parents: no path of the model changes. */
    method MakeParents(path: Path) returns (ok: bool)
      modifies this`calls
      ensures calls == old(calls) + 1 && ok == fates(old(calls)).Works?
    {
      ok, calls := fates(calls).Works?, calls + 1;
    }

    /** `os.replace` of a directory: atomic, and impossible onto something that is there. */
    method Move(source: Path, target: Path) returns (ok: bool)
      modifies this
      ensures calls == old(calls) + 1
      ensures ok == (fates(old(calls)).Works? && source in old(nodes) && target !in old(nodes))
      ensures nodes == if ok then old(nodes)[target := old(nodes)[source]] - {source} else old(nodes)
    {
      ok := fates(calls).Works? && source in nodes && target !in nodes;
      if ok { nodes := nodes[target := nodes[source]] - {source}; }
      calls := calls + 1;
    }

    /** `shutil.rmtree`: a failure may leave part of the tree. */
    method Remove(path: Path) returns (ok: bool)
      modifies this
      ensures calls == old(calls) + 1 && ok == fates(old(calls)).Works?
      ensures nodes == Without(old(nodes), path, fates(old(calls)))
    {
      ok, nodes, calls := fates(calls).Works?, Without(nodes, path, fates(calls)), calls + 1;
    }
  }

  function Without(nodes: map<Path, Node>, path: Path, fate: Fate): map<Path, Node> {
    if fate.Fails? && fate.leaves.Some? then nodes[path := fate.leaves.value] else nodes - {path}
  }

  datatype Placement = Placement(candidate: Path, target: Path, backup: Path)

  /** All paths of all placements differ. */
  predicate Separate(ps: seq<Placement>) {
    && (forall i, j :: 0 <= i < |ps| && 0 <= j < |ps| ==>
          ps[i].candidate != ps[j].target && ps[i].candidate != ps[j].backup && ps[i].target != ps[j].backup)
    && forall i, j :: 0 <= i < j < |ps| ==>
         ps[i].candidate != ps[j].candidate && ps[i].target != ps[j].target && ps[i].backup != ps[j].backup
  }

  /** No path of any placement. */
  predicate Foreign(ps: seq<Placement>, path: Path) {
    forall i :: 0 <= i < |ps| ==> path != ps[i].candidate && path != ps[i].target && path != ps[i].backup
  }

  ghost predicate ForeignKept(ps: seq<Placement>, a: map<Path, Node>, b: map<Path, Node>) {
    forall path :: Foreign(ps, path) ==> SameAt(a, b, path)
  }

  lemma ForeignChain(ps: seq<Placement>, a: map<Path, Node>, b: map<Path, Node>, c: map<Path, Node>)
    requires ForeignKept(ps, a, b) && ForeignKept(ps, b, c)
    ensures ForeignKept(ps, a, c)
  {
    forall path | Foreign(ps, path) ensures SameAt(a, c, path) {
      assert SameAt(a, b, path) && SameAt(b, c, path);
    }
  }

  /** Changes at one placement's paths leave the foreign ones. */
  lemma ForeignOfOne(ps: seq<Placement>, a: map<Path, Node>, b: map<Path, Node>, n: nat)
    requires n < |ps|
    requires forall path :: path != ps[n].candidate && path != ps[n].target && path != ps[n].backup ==> SameAt(a, b, path)
    ensures ForeignKept(ps, a, b)
  {
  }

  /** The same thing, or nothing, stands at the path in both. */
  predicate SameAt(a: map<Path, Node>, b: map<Path, Node>, path: Path) {
    if path in b then path in a && a[path] == b[path] else path !in a
  }

  predicate Holds(nodes: map<Path, Node>, path: Path, node: Node) {
    path in nodes && nodes[path] == node
  }

  /** One placement that went through: the candidate in place, the old tree in the backup. */
  predicate Placed(nodes: map<Path, Node>, before: map<Path, Node>, p: Placement) {
    && p.candidate in before && Holds(nodes, p.target, before[p.candidate]) && p.candidate !in nodes
    && BackedUp(nodes, before, p)
  }

  predicate BackedUp(nodes: map<Path, Node>, before: map<Path, Node>, p: Placement) {
    if p.target in before then Holds(nodes, p.backup, before[p.target]) else p.backup !in nodes
  }

  /** One placement that was not begun, but for the removal of a stale backup. */
  predicate Untouched(nodes: map<Path, Node>, before: map<Path, Node>, p: Placement) {
    SameAt(nodes, before, p.target) && SameAt(nodes, before, p.candidate)
  }

  /** `n` placements went through; of the next, if `moved`, the old tree is in the backup. */
  ghost predicate Midway(nodes: map<Path, Node>, before: map<Path, Node>, ps: seq<Placement>, n: nat, moved: bool)
  {
    && n <= |ps|
    && (forall k :: 0 <= k < n ==> Placed(nodes, before, ps[k]))
    && (forall k :: n <= k < |ps| && !(moved && k == n) ==> Untouched(nodes, before, ps[k]))
    && (moved ==> n < |ps| && ps[n].target in before && ps[n].target !in nodes && Holds(nodes, ps[n].backup, before[ps[n].target])
                  && SameAt(nodes, before, ps[n].candidate))
  }

  datatype Outcome = Promoted | RolledBack | RollbackFailed | CleanupFailed

  // ---------- one placement ----------

  lemma OthersKeep(ps: seq<Placement>, before: map<Path, Node>, a: map<Path, Node>, b: map<Path, Node>, n: nat, k: nat)
    requires Separate(ps) && n < |ps| && k < |ps| && k != n
    requires forall path :: path != ps[n].candidate && path != ps[n].target && path != ps[n].backup ==> SameAt(a, b, path)
    ensures Placed(a, before, ps[k]) <==> Placed(b, before, ps[k])
    ensures Untouched(a, before, ps[k]) <==> Untouched(b, before, ps[k])
  {
    var i, j := if n < k then n else k, if n < k then k else n;
    assert ps[i].candidate != ps[j].candidate && ps[i].target != ps[j].target && ps[i].backup != ps[j].backup;
    assert SameAt(a, b, ps[k].candidate) && SameAt(a, b, ps[k].target) && SameAt(a, b, ps[k].backup);
  }

  /** One turn of the install loop. Raising leaves the placement untouched or with its old tree moved. */
  method Install(fs: FileSystem, ps: seq<Placement>, n: nat, ghost before: map<Path, Node>) returns (ok: bool, moved: bool)
    requires Separate(ps) && n < |ps| && Midway(fs.nodes, before, ps, n, false)
    modifies fs
    ensures fs.calls >= old(fs.calls)
    ensures ok ==> forall c :: old(fs.calls) <= c < fs.calls ==> fs.fates(c).Works?
    ensures ok ==> Midway(fs.nodes, before, ps, n + 1, false) && (moved <==> ps[n].target in before)
    ensures !ok ==> Midway(fs.nodes, before, ps, n, moved)
    ensures forall path :: path != ps[n].candidate && path != ps[n].target && path != ps[n].backup ==> SameAt(fs.nodes, old(fs.nodes), path)
    ensures !ok && (forall c :: old(fs.calls) <= c < fs.calls ==> fs.fates(c).Works?) ==>
              ps[n].candidate !in before || Holds(before, ps[n].target, Link) || Holds(old(fs.nodes), ps[n].backup, Link)
  {
    hide Separate, Placed;
    var p := ps[n];
    ghost var start := fs.nodes;
    Apart(ps, n);
    ok := fs.MakeParents(p.target);
    if !ok { return false, false; }
    if Holds(fs.nodes, p.target, Link) || Holds(fs.nodes, p.backup, Link) { return false, false; }
    if p.backup in fs.nodes {
      ok := fs.Remove(p.backup);
      Kept(ps, before, fs.nodes, start, n, false);
      if !ok { return false, false; }
    }
    moved := false;
    if p.target in fs.nodes {
      ok := fs.Move(p.target, p.backup);
      if !ok { return false, false; }
      moved := true;
      Kept(ps, before, fs.nodes, start, n, true);
    }
    ghost var middle := fs.nodes;
    ok := fs.Move(p.candidate, p.target);
    if !ok { return false, moved; }
    InstalledOne(ps, before, middle, fs.nodes, n, moved);
  }

  lemma Apart(ps: seq<Placement>, n: nat)
    requires Separate(ps) && n < |ps|
    ensures ps[n].candidate != ps[n].target && ps[n].candidate != ps[n].backup && ps[n].target != ps[n].backup
  {
  }

  lemma Kept(ps: seq<Placement>, before: map<Path, Node>, nodes: map<Path, Node>, start: map<Path, Node>, n: nat, moved: bool)
    requires Separate(ps) && n < |ps| && Midway(start, before, ps, n, false)
    requires forall path :: path != ps[n].target && path != ps[n].backup ==> SameAt(nodes, start, path)
    requires if moved then ps[n].target in before && ps[n].target !in nodes && Holds(nodes, ps[n].backup, before[ps[n].target])
             else SameAt(nodes, start, ps[n].target)
    ensures Midway(nodes, before, ps, n, moved)
  {
    hide Separate, Placed;
    Apart(ps, n);
    assert SameAt(nodes, start, ps[n].candidate) && Untouched(start, before, ps[n]);
    hide Untouched;
    forall k | 0 <= k < |ps| && k != n
      ensures k < n ==> Placed(nodes, before, ps[k])
      ensures k > n ==> Untouched(nodes, before, ps[k])
    {
      OthersKeep(ps, before, nodes, start, n, k);
    }
    if !moved { UntouchedStill(before, nodes, start, ps[n]); }
  }

  lemma UntouchedStill(before: map<Path, Node>, nodes: map<Path, Node>, start: map<Path, Node>, p: Placement)
    requires Untouched(start, before, p) && SameAt(nodes, start, p.target) && SameAt(nodes, start, p.candidate)
    ensures Untouched(nodes, before, p)
  {
  }

  lemma InstalledOne(ps: seq<Placement>, before: map<Path, Node>, middle: map<Path, Node>, nodes: map<Path, Node>, n: nat, moved: bool)
    requires Separate(ps) && n < |ps| && Midway(middle, before, ps, n, moved)
    requires moved <==> ps[n].target in before
    requires !moved ==> ps[n].backup !in middle
    requires ps[n].candidate in middle && ps[n].target !in middle
    requires nodes == middle[ps[n].target := middle[ps[n].candidate]] - {ps[n].candidate}
    ensures Midway(nodes, before, ps, n + 1, false)
  {
    Apart(ps, n);
    assert Placed(nodes, before, ps[n]) by {
      assert !moved ==> Untouched(middle, before, ps[n]);
      hide Separate;
    }
    hide Separate, Placed, Untouched;
    forall k | 0 <= k < |ps| && k != n
      ensures k < n ==> Placed(nodes, before, ps[k])
      ensures k > n ==> Untouched(nodes, before, ps[k])
    {
      OthersKeep(ps, before, nodes, middle, n, k);
    }
  }

  // ---------- rolling back and cleaning up ----------

  /** The first `m` placements whose targets were there before, in order: what `backups` lists. */
  function WithBackup(ps: seq<Placement>, before: map<Path, Node>, m: nat): seq<Placement>
    requires m <= |ps|
  {
    if m == 0 then [] else WithBackup(ps, before, m - 1) + if ps[m - 1].target in before then [ps[m - 1]] else []
  }

  lemma {:induction false} InWithBackup(ps: seq<Placement>, before: map<Path, Node>, m: nat)
    requires m <= |ps|
    ensures forall p :: p in WithBackup(ps, before, m) <==> exists k :: 0 <= k < m && ps[k] == p && p.target in before
  {
    if m > 0 { InWithBackup(ps, before, m - 1); }
  }

  lemma {:induction false} BackupsSeparate(ps: seq<Placement>, before: map<Path, Node>, m: nat)
    requires m <= |ps| && Separate(ps)
    ensures Separate(WithBackup(ps, before, m))
  {
    hide Separate;
    if m == 0 {
      NoneSeparate();
    } else {
      BackupsSeparate(ps, before, m - 1);
      if ps[m - 1].target in before {
        SeparateSnoc(ps, before, m - 1);
      } else {
        assert WithBackup(ps, before, m) == WithBackup(ps, before, m - 1);
      }
    }
  }

  lemma NoneSeparate()
    ensures Separate([])
  {
  }

  lemma SeparateSnoc(ps: seq<Placement>, before: map<Path, Node>, n: nat)
    requires n < |ps| && Separate(ps) && Separate(WithBackup(ps, before, n))
    ensures Separate(WithBackup(ps, before, n) + [ps[n]])
  {
    var front := WithBackup(ps, before, n);
    InWithBackup(ps, before, n);
    hide WithBackup;
    forall i | 0 <= i < |front|
      ensures ps[n].candidate != front[i].target && ps[n].candidate != front[i].backup && ps[n].target != front[i].backup
      ensures front[i].candidate != ps[n].target && front[i].candidate != ps[n].backup && front[i].target != ps[n].backup
      ensures ps[n].candidate != front[i].candidate && ps[n].target != front[i].target && ps[n].backup != front[i].backup
    {
      assert front[i] in front;
      var k :| 0 <= k < n && ps[k] == front[i];
    }
  }

  /** Old trees are where they were or in their backups. */
  predicate Saved(nodes: map<Path, Node>, before: map<Path, Node>, p: Placement) {
    p.target in before ==> Holds(nodes, p.target, before[p.target]) || Holds(nodes, p.backup, before[p.target])
  }

  /** The backups that stand between an interrupted installation and its restoration. */
  ghost predicate Restorable(nodes: map<Path, Node>, before: map<Path, Node>, ps: seq<Placement>, m: nat)
    requires m <= |ps|
  {
    && (forall k :: 0 <= k < m && ps[k].target in before ==> Holds(nodes, ps[k].backup, before[ps[k].target]))
    && forall k :: m <= k < |ps| ==> SameAt(nodes, before, ps[k].target)
  }

  lemma MidwayIsRestorable(nodes: map<Path, Node>, before: map<Path, Node>, ps: seq<Placement>, n: nat, moved: bool)
    requires Midway(nodes, before, ps, n, moved)
    ensures Restorable(nodes, before, ps, if moved then n + 1 else n)
    ensures moved ==> ps[n].target !in nodes
  {
    assert forall k :: 0 <= k < n ==> Placed(nodes, before, ps[k]);
    assert forall k :: n <= k < |ps| && !(moved && k == n) ==> Untouched(nodes, before, ps[k]);
  }

  lemma RestorableIsSaved(nodes: map<Path, Node>, before: map<Path, Node>, ps: seq<Placement>, m: nat)
    requires m <= |ps| && Restorable(nodes, before, ps, m)
    ensures forall p :: p in ps ==> Saved(nodes, before, p)
  {
    forall p | p in ps ensures Saved(nodes, before, p) {
      var k :| 0 <= k < |ps| && ps[k] == p;
    }
  }

  lemma RemovedKeeps(nodes: map<Path, Node>, after: map<Path, Node>, before: map<Path, Node>, ps: seq<Placement>, m: nat, i: nat)
    requires Separate(ps) && i < m <= |ps| && Restorable(nodes, before, ps, m)
    requires forall path :: path != ps[i].target ==> SameAt(after, nodes, path)
    ensures Restorable(after, before, ps, m)
    ensures forall k :: 0 <= k < |ps| && k != i ==> SameAt(after, nodes, ps[k].target)
  {
    forall k | 0 <= k < |ps| ensures SameAt(after, nodes, ps[k].backup) && (k != i ==> SameAt(after, nodes, ps[k].target)) {}
  }

  lemma ForeignItself(ps: seq<Placement>, a: map<Path, Node>)
    ensures ForeignKept(ps, a, a)
  {
  }

  /** The first loop of the rollback: the installed targets, last first. */
  method RemoveInstalled(fs: FileSystem, ps: seq<Placement>, n: nat, ghost m: nat, ghost before: map<Path, Node>) returns (ok: bool)
    requires Separate(ps) && n <= m <= |ps| && m <= n + 1 && Restorable(fs.nodes, before, ps, m)
    requires m > n ==> ps[n].target !in fs.nodes
    modifies fs
    ensures fs.calls >= old(fs.calls) && Restorable(fs.nodes, before, ps, m)
    ensures ok ==> forall k :: 0 <= k < m ==> ps[k].target !in fs.nodes
    ensures !ok ==> exists c :: old(fs.calls) <= c < fs.calls && fs.fates(c).Fails?
    ensures ForeignKept(ps, fs.nodes, old(fs.nodes))
  {
    hide Separate, Restorable, ForeignKept;
    ghost var start := fs.nodes;
    ForeignItself(ps, start);
    var i := n;
    while i > 0
      invariant ForeignKept(ps, fs.nodes, start)
      invariant 0 <= i <= n && fs.calls >= old(fs.calls) && Restorable(fs.nodes, before, ps, m)
      invariant forall k :: i <= k < m ==> ps[k].target !in fs.nodes
    {
      i := i - 1;
      if ps[i].target in fs.nodes {
        ghost var nodes := fs.nodes;
        ok := fs.Remove(ps[i].target);
        RemovedKeeps(nodes, fs.nodes, before, ps, m, i);
        ForeignOfOne(ps, fs.nodes, nodes, i);
        ForeignChain(ps, fs.nodes, nodes, start);
        if !ok { return; }
      }
    }
    ok := true;
  }

  /** No target or backup of these. */
  predicate Elsewhere(backups: seq<Placement>, path: Path) {
    forall q :: 0 <= q < |backups| ==> path != backups[q].target && path != backups[q].backup
  }

  /** The second loop: the backups, last first, back to their targets. */
  method Restore(fs: FileSystem, backups: seq<Placement>, ghost before: map<Path, Node>) returns (ok: bool)
    requires Separate(backups) && forall q :: 0 <= q < |backups| ==>
               backups[q].target in before && Holds(fs.nodes, backups[q].backup, before[backups[q].target]) && backups[q].target !in fs.nodes
    modifies fs
    ensures fs.calls >= old(fs.calls)
    ensures ok ==> forall q :: 0 <= q < |backups| ==> Holds(fs.nodes, backups[q].target, before[backups[q].target])
    ensures forall q :: 0 <= q < |backups| ==> Saved(fs.nodes, before, backups[q])
    ensures forall path :: Elsewhere(backups, path) ==>
                             SameAt(fs.nodes, old(fs.nodes), path)
    ensures !ok ==> exists c :: old(fs.calls) <= c < fs.calls && fs.fates(c).Fails?
  {
    var j := |backups|;
    while j > 0
      invariant 0 <= j <= |backups| && fs.calls >= old(fs.calls)
      invariant forall q :: 0 <= q < j ==> Holds(fs.nodes, backups[q].backup, before[backups[q].target]) && backups[q].target !in fs.nodes
      invariant forall q :: j <= q < |backups| ==> Holds(fs.nodes, backups[q].target, before[backups[q].target])
      invariant forall path :: Elsewhere(backups, path) ==>
                                 SameAt(fs.nodes, old(fs.nodes), path)
    {
      j := j - 1;
      ghost var nodes := fs.nodes;
      ok := fs.Move(backups[j].backup, backups[j].target);
      if !ok { return; }
      Restored(backups, nodes, fs.nodes, before, j);
      forall path | Elsewhere(backups, path) ensures SameAt(fs.nodes, nodes, path) {
        assert path != backups[j].target && path != backups[j].backup;
      }
    }
    ok := true;
  }

  lemma Restored(backups: seq<Placement>, nodes: map<Path, Node>, after: map<Path, Node>, before: map<Path, Node>, j: nat)
    requires Separate(backups) && j < |backups|
    requires forall path :: path != backups[j].target && path != backups[j].backup ==> SameAt(after, nodes, path)
    ensures forall q :: 0 <= q < |backups| && q != j ==> SameAt(after, nodes, backups[q].target) && SameAt(after, nodes, backups[q].backup)
  {
  }

  /** The handler of the install loop. */
  method Rollback(fs: FileSystem, ps: seq<Placement>, n: nat, moved: bool, backups: seq<Placement>, ghost before: map<Path, Node>) returns (ok: bool)
    requires Separate(ps) && Midway(fs.nodes, before, ps, n, moved) && backups == WithBackup(ps, before, if moved then n + 1 else n)
    modifies fs
    ensures fs.calls >= old(fs.calls)
    ensures ok ==> forall p :: p in ps ==> SameAt(fs.nodes, before, p.target)
    ensures forall p :: p in ps ==> Saved(fs.nodes, before, p)
    ensures !ok ==> exists c :: old(fs.calls) <= c < fs.calls && fs.fates(c).Fails?
    ensures ForeignKept(ps, fs.nodes, old(fs.nodes))
  {
    hide ForeignKept, Midway, Placed, Untouched, WithBackup;
    ghost var m: nat := if moved then n + 1 else n;
    MidwayIsRestorable(fs.nodes, before, ps, n, moved);
    assert n <= |ps| && m <= |ps| by { MidwayBounds(fs.nodes, before, ps, n, moved); }
    ok := RemoveInstalled(fs, ps, n, m, before);
    RestorableIsSaved(fs.nodes, before, ps, m);
    if !ok { return; }
    InWithBackup(ps, before, m);
    BackupsSeparate(ps, before, m);
    ReadyToRestore(fs.nodes, before, ps, m, backups);
    ghost var nodes := fs.nodes;
    ok := Restore(fs, backups, before);
    AllRestored(nodes, fs.nodes, before, ps, m, backups, ok);
    ForeignToBackups(nodes, fs.nodes, ps, m, backups);
    ForeignChain(ps, fs.nodes, nodes, old(fs.nodes));
  }

  lemma MidwayBounds(nodes: map<Path, Node>, before: map<Path, Node>, ps: seq<Placement>, n: nat, moved: bool)
    requires Midway(nodes, before, ps, n, moved)
    ensures n <= |ps| && (moved ==> n < |ps|)
  {
  }

  lemma ReadyToRestore(nodes: map<Path, Node>, before: map<Path, Node>, ps: seq<Placement>, m: nat, backups: seq<Placement>)
    requires m <= |ps| && Restorable(nodes, before, ps, m) && forall k :: 0 <= k < m ==> ps[k].target !in nodes
    requires forall p :: p in backups <==> exists k :: 0 <= k < m && ps[k] == p && p.target in before
    ensures forall q :: 0 <= q < |backups| ==>
              backups[q].target in before && Holds(nodes, backups[q].backup, before[backups[q].target]) && backups[q].target !in nodes
  {
    forall q | 0 <= q < |backups|
      ensures backups[q].target in before && Holds(nodes, backups[q].backup, before[backups[q].target]) && backups[q].target !in nodes
    {
      assert backups[q] in backups;
    }
  }

  lemma ForeignToBackups(nodes: map<Path, Node>, after: map<Path, Node>, ps: seq<Placement>, m: nat, backups: seq<Placement>)
    requires m <= |ps| && forall p :: p in backups ==> exists k :: 0 <= k < m && ps[k] == p
    requires forall path :: Elsewhere(backups, path) ==> SameAt(after, nodes, path)
    ensures ForeignKept(ps, after, nodes)
  {
    forall path | Foreign(ps, path) ensures Elsewhere(backups, path) {
      forall q | 0 <= q < |backups| ensures path != backups[q].target && path != backups[q].backup {
        assert backups[q] in backups;
      }
    }
  }

  lemma AllRestored(
    nodes: map<Path, Node>, after: map<Path, Node>, before: map<Path, Node>, ps: seq<Placement>, m: nat, backups: seq<Placement>, ok: bool)
    requires Separate(ps) && m <= |ps| && Restorable(nodes, before, ps, m) && forall k :: 0 <= k < m ==> ps[k].target !in nodes
    requires forall p :: p in backups <==> exists k :: 0 <= k < m && ps[k] == p && p.target in before
    requires forall path :: Elsewhere(backups, path) ==> SameAt(after, nodes, path)
    requires forall q :: 0 <= q < |backups| ==> Saved(after, before, backups[q])
    requires ok ==> forall q :: 0 <= q < |backups| ==> Holds(after, backups[q].target, before[backups[q].target])
    ensures forall p :: p in ps ==> Saved(after, before, p)
    ensures ok ==> forall p :: p in ps ==> SameAt(after, before, p.target)
  {
    forall p | p in ps ensures Saved(after, before, p) && (ok ==> SameAt(after, before, p.target)) {
      var k :| 0 <= k < |ps| && ps[k] == p;
      if k < m && p.target in before {
        assert p in backups;
        var q :| 0 <= q < |backups| && backups[q] == p;
      } else {
        forall q | 0 <= q < |backups| ensures p.target != backups[q].target && p.target != backups[q].backup {
          assert backups[q] in backups;
        }
        assert SameAt(after, nodes, p.target);
      }
    }
  }

  predicate NoBackup(backups: seq<Placement>, path: Path) {
    forall q :: 0 <= q < |backups| ==> path != backups[q].backup
  }

  /** The cleanup after all went through: only backups are removed. */
  method RemoveBackups(fs: FileSystem, backups: seq<Placement>) returns (ok: bool)
    modifies fs
    ensures fs.calls >= old(fs.calls)
    ensures forall path :: NoBackup(backups, path) ==> SameAt(fs.nodes, old(fs.nodes), path)
    ensures ok ==> forall path :: path in fs.nodes ==> path in old(fs.nodes)
    ensures ok && Separate(backups) ==> forall q :: 0 <= q < |backups| ==> backups[q].backup !in fs.nodes
    ensures !ok ==> exists c :: old(fs.calls) <= c < fs.calls && fs.fates(c).Fails?
  {
    for i := 0 to |backups|
      invariant fs.calls >= old(fs.calls)
      invariant forall path :: NoBackup(backups, path) ==> SameAt(fs.nodes, old(fs.nodes), path)
      invariant forall path :: path in fs.nodes ==> path in old(fs.nodes)
      invariant forall q :: 0 <= q < i ==> backups[q].backup !in fs.nodes
    {
      if backups[i].backup in fs.nodes {
        ghost var nodes := fs.nodes;
        ok := fs.Remove(backups[i].backup);
        forall path | NoBackup(backups, path) ensures SameAt(fs.nodes, nodes, path) {
          assert path != backups[i].backup;
        }
        if !ok { return; }
      }
    }
    ok := true;
  }

  // ---------- the promotion ----------

  /** Every target holds its candidate, and the candidates are gone. */
  predicate InPlace(nodes: map<Path, Node>, before: map<Path, Node>, p: Placement) {
    p.candidate in before && Holds(nodes, p.target, before[p.candidate]) && p.candidate !in nodes
  }

  /** A placement that only a failing call can keep from going through. */
  predicate Installable(nodes: map<Path, Node>, p: Placement) {
    p.candidate in nodes && !Holds(nodes, p.target, Link) && !Holds(nodes, p.backup, Link)
  }

  /** No two of the calls from one count to another fail. */
  ghost predicate OneFault(fates: nat -> Fate, from: nat, to: nat) {
    forall c, d :: from <= c < d < to && fates(c).Fails? ==> fates(d).Works?
  }

  /** `_promote_directories`. `left` counts the filesystem calls made when the install loop was left, at
      its end or by raising: installable placements raise only by a failing call before `left`, and
      rolling back or cleaning up fails only by a failing call after it. So a single fault anywhere in
      the install loop is always rolled back. */
  method PromoteDirectories(fs: FileSystem, ps: seq<Placement>) returns (outcome: Outcome, left: nat)
    requires Separate(ps)
    modifies fs
    ensures old(fs.calls) <= left <= fs.calls
    ensures outcome == Promoted ==> forall p :: p in ps ==> InPlace(fs.nodes, old(fs.nodes), p) && p.backup !in fs.nodes
    ensures outcome == CleanupFailed ==> forall p :: p in ps ==> InPlace(fs.nodes, old(fs.nodes), p)
    ensures outcome == RolledBack ==> forall p :: p in ps ==> SameAt(fs.nodes, old(fs.nodes), p.target)
    ensures outcome == RollbackFailed ==> forall p :: p in ps ==> Saved(fs.nodes, old(fs.nodes), p)
    ensures outcome == RollbackFailed || outcome == CleanupFailed ==> exists c :: left <= c < fs.calls && fs.fates(c).Fails?
    ensures (outcome == RolledBack || outcome == RollbackFailed) && (forall p :: p in ps ==> Installable(old(fs.nodes), p)) ==>
              exists c :: old(fs.calls) <= c < left && fs.fates(c).Fails?
    ensures outcome == Promoted || outcome == CleanupFailed ==> forall c :: old(fs.calls) <= c < left ==> fs.fates(c).Works?
    ensures (forall p :: p in ps ==> Installable(old(fs.nodes), p)) && OneFault(fs.fates, old(fs.calls), fs.calls) ==>
              outcome != RollbackFailed
    ensures (forall p :: p in ps ==> Installable(old(fs.nodes), p)) && (forall c :: old(fs.calls) <= c < fs.calls ==> fs.fates(c).Works?) ==>
              outcome == Promoted
    ensures ForeignKept(ps, fs.nodes, old(fs.nodes))
  {
    hide ForeignKept, Midway, Placed, Untouched, WithBackup, Separate;
    ghost var before := fs.nodes;
    NothingYet(before, ps);
    ForeignItself(ps, before);
    var backups := [];
    var n := 0;
    while n < |ps|
      invariant 0 <= n <= |ps| && fs.calls >= old(fs.calls)
      invariant forall c :: old(fs.calls) <= c < fs.calls ==> fs.fates(c).Works?
      invariant ForeignKept(ps, fs.nodes, before)
      invariant Midway(fs.nodes, before, ps, n, false) && backups == WithBackup(ps, before, n)
      invariant forall k :: n <= k < |ps| ==> SameAt(fs.nodes, before, ps[k].backup)
    {
      ghost var calls, nodes := fs.calls, fs.nodes;
      var ok, moved := Install(fs, ps, n, before);
      NextBackup(fs.nodes, before, ps, n, moved);
      BackupsAhead(nodes, fs.nodes, before, ps, n);
      ForeignOfOne(ps, fs.nodes, nodes, n);
      ForeignChain(ps, fs.nodes, nodes, before);
      if !ok {
        if moved { backups := backups + [ps[n]]; }
        left := fs.calls;
        assert ps[n] in ps && SameAt(nodes, before, ps[n].backup);
        nodes := fs.nodes;
        ok := Rollback(fs, ps, n, moved, backups, before);
        ForeignChain(ps, fs.nodes, nodes, before);
        return if ok then RolledBack else RollbackFailed, left;
      }
      if moved { backups := backups + [ps[n]]; }
      n := n + 1;
    }
    left := fs.calls;
    ghost var nodes := fs.nodes;
    BackupsSeparate(ps, before, n);
    var ok := RemoveBackups(fs, backups);
    Finished(nodes, fs.nodes, before, ps, backups, ok);
    CleanedForeign(nodes, fs.nodes, before, ps, backups);
    ForeignChain(ps, fs.nodes, nodes, before);
    outcome := if ok then Promoted else CleanupFailed;
  }

  lemma NothingYet(before: map<Path, Node>, ps: seq<Placement>)
    ensures Midway(before, before, ps, 0, false) && WithBackup(ps, before, 0) == []
    ensures forall k :: 0 <= k < |ps| ==> SameAt(before, before, ps[k].backup)
  {
  }

  lemma NextBackup(nodes: map<Path, Node>, before: map<Path, Node>, ps: seq<Placement>, n: nat, moved: bool)
    requires n < |ps|
    ensures WithBackup(ps, before, n + 1) == WithBackup(ps, before, n) + if ps[n].target in before then [ps[n]] else []
    ensures Midway(nodes, before, ps, n, moved) && moved ==> ps[n].target in before
  {
  }

  lemma BackupsAhead(nodes: map<Path, Node>, after: map<Path, Node>, before: map<Path, Node>, ps: seq<Placement>, n: nat)
    requires Separate(ps) && n < |ps| && forall k :: n <= k < |ps| ==> SameAt(nodes, before, ps[k].backup)
    requires forall path :: path != ps[n].candidate && path != ps[n].target && path != ps[n].backup ==> SameAt(after, nodes, path)
    ensures forall k :: n + 1 <= k < |ps| ==> SameAt(after, before, ps[k].backup)
  {
    forall k | n + 1 <= k < |ps| ensures SameAt(after, before, ps[k].backup) {
      assert SameAt(after, nodes, ps[k].backup) && SameAt(nodes, before, ps[k].backup);
    }
  }

  lemma CleanedForeign(nodes: map<Path, Node>, after: map<Path, Node>, before: map<Path, Node>, ps: seq<Placement>, backups: seq<Placement>)
    requires backups == WithBackup(ps, before, |ps|) && forall path :: NoBackup(backups, path) ==> SameAt(after, nodes, path)
    ensures ForeignKept(ps, after, nodes)
  {
    InWithBackup(ps, before, |ps|);
    hide WithBackup;
    forall path | Foreign(ps, path) ensures NoBackup(backups, path) {
      forall q | 0 <= q < |backups| ensures path != backups[q].backup {
        assert backups[q] in backups;
      }
    }
  }

  lemma Finished(
    nodes: map<Path, Node>, after: map<Path, Node>, before: map<Path, Node>, ps: seq<Placement>, backups: seq<Placement>, ok: bool)
    requires Separate(ps) && Midway(nodes, before, ps, |ps|, false) && backups == WithBackup(ps, before, |ps|)
    requires forall path :: NoBackup(backups, path) ==> SameAt(after, nodes, path)
    requires ok ==> forall path :: path in after ==> path in nodes
    requires ok ==> forall q :: 0 <= q < |backups| ==> backups[q].backup !in after
    ensures forall p :: p in ps ==> InPlace(after, before, p) && (ok ==> p.backup !in after)
  {
    InWithBackup(ps, before, |ps|);
    forall p | p in ps ensures InPlace(after, before, p) && (ok ==> p.backup !in after) {
      var k :| 0 <= k < |ps| && ps[k] == p;
      assert Placed(nodes, before, ps[k]);
      forall q | 0 <= q < |backups| ensures p.target != backups[q].backup && p.candidate != backups[q].backup {
        assert backups[q] in backups;
      }
      assert SameAt(after, nodes, p.target) && SameAt(after, nodes, p.candidate);
      if p.target in before {
        assert p in backups;
        var q :| 0 <= q < |backups| && backups[q] == p;
      }
    }
  }
}
